/** The search for one target after the other: explore a step, flip a branch, solve, simulate again. */
module Search {
  import opened Basics
  import opened Stimulus
  import opened ModelFile
  import opened DataMem
  import opened SearchRuns
  import P = PathFilter

  class Searcher {
    const c: Config
    const data: CTDataMem
    const dataStep: CTDataMem
    var stack: seq<P.Entry>
    var pathHashMap: set<nat>
    var hashValue: nat
    var simNum: nat
    var simClk: nat
    var callToSolver: nat
    var covered: set<nat>
    var targets: seq<nat>
    var coveredTargets: seq<nat>
    var uncoveredTargets: seq<nat>
    ghost var log: seq<P.Logged>
    ghost var sims: seq<seq<string>>
    ghost var flips: seq<Flip>

    constructor (c: Config, memory: CTDataMem, targets: seq<nat>)
      requires ConfigOk(c) && memory.inPorts == c.ports && memory.width == c.width
      ensures Valid() && this.c == c && this.targets == targets && coveredTargets == uncoveredTargets == []
      ensures sims == [] && flips == [] && fresh(data) && fresh(dataStep) && simNum == 0
    {
      this.c := c;
      data := new CTDataMem.Copy(memory);
      dataStep := new CTDataMem.Copy(memory);
      stack, pathHashMap, hashValue, simNum, simClk, callToSolver := [], {}, 0, 0, 0, 0;
      covered, this.targets, coveredTargets, uncoveredTargets := {}, targets, [], [];
      log, sims, flips := [], [], [];
    }

    /** A memory with the layout of the design's inputs. */
    predicate Shaped(m: CTDataMem)
      reads m
    {
      m.inPorts == c.ports && m.width == c.width
    }

    /** A path: one full row for each of its clocks. */
    predicate PathOk(m: CTDataMem)
      reads m
    {
      Shaped(m) && m.RowsMatch() && m.step == c.stepSize && m != data && m != dataStep
    }

    ghost predicate Valid()
      reads this, data, dataStep
    {
      && ConfigOk(c) && data != dataStep && Shaped(data) && Shaped(dataStep)
      && stack == P.StackOf(c.table, log) && Accounted(c, sims, flips, pathHashMap, covered)
      && (forall t | t in coveredTargets :: t in covered)
    }

    /** All targets, wherever they are listed. */
    function AllTargets(): multiset<nat>
      reads this
    {
      multiset(targets) + multiset(coveredTargets) + multiset(uncoveredTargets)
    }

    ghost function Now(): Moment
      reads this
    {
      Moment(targets, coveredTargets, uncoveredTargets, covered, pathHashMap, log, simNum, callToSolver)
    }

    ghost function KnownNow(): Known
      reads this
    {
      Known(pathHashMap, covered, sims, flips)
    }

    /** Where alternatives are looked for in the last simulation. */
    ghost function HuntNow(beginClk: nat, endClk: nat): Hunt
      reads this
    {
      Hunt(log, pathHashMap, beginClk, endClk, callToSolver)
    }

    // ----- simulating -----

    /** One line of the log: a mark, or a statement, which is covered and, if it is a branch, hashed. */
    method PushLine(line: P.Logged, clock: nat) returns (clock': nat)
      requires stack == P.StackOf(c.table, log) && hashValue == P.HashAfter(c.table, log) && clock == P.ClockAfter(log)
      modifies this`stack, this`pathHashMap, this`hashValue, this`covered, this`log
      ensures log == old(log) + [line]
      ensures stack == P.StackOf(c.table, log) && hashValue == P.HashAfter(c.table, log) && clock' == P.ClockAfter(log)
      ensures pathHashMap == old(pathHashMap) + if line.Statement? && line.isBranch then {hashValue} else {}
      ensures covered == old(covered) + if line.Statement? then {line.id} else {}
    {
      P.LineSnoc(c.table, log, line);
      match line {
        case Clock(clk) =>
          clock' := clk;
          stack := stack + [P.Entry(line, clk, 0, 0)];
        case Statement(id, isBranch) =>
          clock' := clock;
          var index := |stack|;
          stack := stack + [P.Entry(line, clock, index, if isBranch then hashValue else 0)];
          if isBranch {
            hashValue := P.Mix(c.table, hashValue, id, index);
            pathHashMap := pathHashMap + {hashValue};
          }
          covered := covered + {id};
      }
      log := log + [line];
    }

    /** `build_stack`, as far as the search looks at it. */
    method BuildStack(lines: seq<P.Logged>)
      modifies this`stack, this`pathHashMap, this`hashValue, this`covered, this`log
      ensures log == lines && stack == P.StackOf(c.table, log)
      ensures pathHashMap == old(pathHashMap) + P.Recorded(c.table, log)
      ensures covered == old(covered) + P.Statements(log)
    {
      stack, log, hashValue := [], [], 0;
      var clock := 0;
      for i := 0 to |lines|
        invariant log == lines[..i] && stack == P.StackOf(c.table, log) && hashValue == P.HashAfter(c.table, log)
        invariant clock == P.ClockAfter(log)
        invariant pathHashMap == old(pathHashMap) + P.Recorded(c.table, log)
        invariant covered == old(covered) + P.Statements(log)
      {
        P.OneMoreLine(c.table, log, lines[i]);
        clock := PushLine(lines[i], clock);
        assert lines[..i + 1] == lines[..i] + [lines[i]];
      }
      assert lines[..|lines|] == lines;
    }

    /** `simulate_build_stack`: what the simulator logs for the rows becomes the stack, its path hashes are
        recorded, and its statements are covered. */
    method SimulateBuildStack(rows: seq<string>)
      requires Valid()
      modifies this`stack, this`pathHashMap, this`hashValue, this`covered, this`log, this`sims
      ensures Valid() && log == c.world.simulate(rows) && KnownNow() == Simulated(c, old(KnownNow()), rows)
    {
      OneMoreSim(c, sims, flips, pathHashMap, covered, rows);
      sims := sims + [rows];
      BuildStack(c.world.simulate(rows));
    }

    /** The path grows in place by one step of random rows, and is simulated. */
    method ExploreOneStep(path: CTDataMem)
      requires Valid() && PathOk(path)
      modifies this`stack, this`pathHashMap, this`hashValue, this`covered, this`log, this`sims, this`simClk,
               dataStep, path
      ensures Valid() && PathOk(path) && Explores(c, old(path.inputVector), path.inputVector)
      ensures log == c.world.simulate(path.inputVector)
      ensures KnownNow() == Simulated(c, old(KnownNow()), path.inputVector)
      ensures path.clk == simClk && dataStep.step == c.stepSize
    {
      dataStep.Generate(c.stepSize, c.obsPadding);
      var stepPath := new CTDataMem.Copy(dataStep);
      path.ConnectPath(stepPath);
      simClk := path.clk;
      SimulateBuildStack(path.inputVector);
    }

    // ----- choosing a flip -----

    /** The entries of clock 0 at the bottom of the stack are skipped. */
    method FirstClocked() returns (idx: nat)
      requires Valid() && LogOk(c, log)
      ensures idx < |stack| && forall p | 0 <= p < idx :: stack[p].clock == 0
    {
      idx := 0;
      ghost var m := P.SomeClockedEntry(c.table, log);
      while stack[idx].clock == 0
        invariant idx <= m && forall p | 0 <= p < idx :: stack[p].clock == 0
        decreases m - idx
      {
        idx := idx + 1;
      }
    }

    method CandidatesAt(p: nat, beginClk: nat, endClk: nat) returns (cs: seq<Candidate>)
      requires Valid() && LogOk(c, log) && p < |stack|
      ensures forall x :: x in cs <==> Eligible(c, log, pathHashMap, x, beginClk, endClk) && x.position == p
    {
      cs := [];
      var e := stack[p];
      P.EntryIs(c.table, log, p);
      if e.IsBranch() && e.line.id in c.dep && beginClk <= e.clock <= endClk {
        assert log[p] in log;
        var alts := c.siblings[e.line.id];
        for k := 0 to |alts|
          invariant forall x :: x in cs <==>
                      Eligible(c, log, pathHashMap, x, beginClk, endClk) && x.position == p && x.alt in alts[..k]
        {
          assert alts[..k + 1] == alts[..k] + [alts[k]];
          P.AltHashIs(c.table, e, alts[k], c.table[alts[k] % 16384] * e.index);
          if alts[k] != e.line.id && P.AltHash(c.table, e, alts[k]) !in pathHashMap {
            cs := cs + [Candidate(p, alts[k])];
          }
        }
        assert alts[..|alts|] == alts;
      }
    }

    /** The candidates are exactly the untried alternatives in the new clocks. */
    method Candidates(beginClk: nat, endClk: nat) returns (cs: seq<Candidate>)
      requires Valid() && LogOk(c, log) && beginClk > 0
      ensures AreCandidates(c, HuntNow(beginClk, endClk), cs)
    {
      cs := [];
      var idx := FirstClocked();
      while idx < |stack|
        invariant idx <= |stack|
        invariant forall x :: x in cs <==> Eligible(c, log, pathHashMap, x, beginClk, endClk) && x.position < idx
      {
        var more := CandidatesAt(idx, beginClk, endClk);
        cs := cs + more;
        idx := idx + 1;
      }
    }

    /** The printed model is written into the rows before the flipped branch. */
    method PatchFromModel(texts: seq<string>, clock: nat)
      requires Valid() && dataStep.RowsMatch() && dataStep.clk == clock
      requires exists lines :: Prints(c, texts, lines)
      modifies dataStep`inputVector
      ensures Valid() && dataStep.RowsMatch()
      ensures exists lines :: Prints(c, texts, lines) &&
                IsPatched(old(dataStep.inputVector), dataStep.inputVector, lines, c.ports, clock, c.width)
    {
      ghost var lines :| Prints(c, texts, lines);
      dataStep.UpdateInputVectors(texts, lines, clock);
    }

    /** `update_path_taken` and the coverage of the flipped branch: its hash is recorded, so it is not chosen again. */
    method RecordFlip(x: Candidate, hash: nat, clock: nat, ghost call: nat)
      requires Valid() && x.position < |log| && hash == HashOf(c, log, x) && hash !in pathHashMap
      requires c.world.solve(call, log, x).Some?
      modifies this`pathHashMap, this`flips, this`covered, this`simClk
      ensures Valid() && KnownNow() == FlippedTo(c, old(KnownNow()), log, x, call) && simClk == clock
    {
      ghost var f := Flip(call, log, x, hash);
      OneMoreFlip(c, sims, flips, pathHashMap, covered, f);
      pathHashMap := pathHashMap + {hash};
      flips := flips + [f];
      covered := covered + {x.alt};
      simClk := clock;
    }

    /** The rows before the branch are taken over. */
    method TakeRows(path: CTDataMem, clock: nat)
      requires Valid() && PathOk(path) && clock <= path.clk
      modifies dataStep
      ensures Valid() && dataStep.step == old(dataStep.step)
      ensures dataStep.RowsMatch() && dataStep.clk == clock && dataStep.inputVector == path.inputVector[..clock]
    {
      dataStep.ClearInputVector();
      dataStep.Intercept(path, 0, clock);
      assert path.inputVector[0..clock] == path.inputVector[..clock];
    }

    /** The branch x is flipped: the solver's model goes into the rows, the flip is recorded, the rows are simulated. */
    method TakeFlip(path: CTDataMem, x: Candidate, texts: seq<string>, ghost h: Hunt, ghost call: nat)
      requires Valid() && PathOk(path) && h.log == log && h.tried == pathHashMap
      requires Eligible(c, h.log, h.tried, x, h.beginClk, h.endClk) && stack[x.position].clock <= path.clk
      requires c.world.solve(call, log, x) == Some(texts) && dataStep.step == c.stepSize
      requires dataStep.RowsMatch() && dataStep.clk == stack[x.position].clock
      requires dataStep.inputVector == path.inputVector[..dataStep.clk]
      modifies this`stack, this`pathHashMap, this`hashValue, this`covered, this`log, this`sims, this`simClk,
               this`flips, dataStep`inputVector
      ensures Valid() && dataStep.RowsMatch() && log == c.world.simulate(dataStep.inputVector)
      ensures |dataStep.inputVector| == simClk
      ensures FlipDone(c, h, path.inputVector, x, call, dataStep.inputVector, old(KnownNow()), KnownNow())
    {
      var clock := stack[x.position].clock;
      PatchFromModel(texts, clock);
      EligibleIsUntried(c, log, pathHashMap, x, h.beginClk, h.endClk);
      RecordFlip(x, P.AltHash(c.table, stack[x.position], x.alt), clock, call);
      SimulateBuildStack(dataStep.inputVector);
    }

    /** One candidate is put to the solver. */
    method TryCandidate(path: CTDataMem, x: Candidate, ghost h: Hunt) returns (found: bool)
      requires Valid() && PathOk(path) && dataStep.step == c.stepSize && log == c.world.simulate(path.inputVector)
      requires h.log == log && h.tried == pathHashMap && h.endClk == path.clk
      requires Eligible(c, h.log, h.tried, x, h.beginClk, h.endClk)
      modifies this`stack, this`pathHashMap, this`hashValue, this`covered, this`log, this`sims, this`simClk,
               this`flips, this`callToSolver, dataStep
      ensures Valid() && dataStep.step == c.stepSize && callToSolver == old(callToSolver) + 1
      ensures found <==> c.world.solve(old(callToSolver), h.log, x).Some?
      ensures found ==> dataStep.RowsMatch() && log == c.world.simulate(dataStep.inputVector)
      ensures found ==> |dataStep.inputVector| == simClk
      ensures found ==> FlipDone(c, h, path.inputVector, x, old(callToSolver), dataStep.inputVector,
                                 old(KnownNow()), KnownNow())
      ensures !found ==> KnownNow() == old(KnownNow()) && log == old(log) && stack == old(stack)
    {
      var clock := stack[x.position].clock;
      TakeRows(path, clock);
      ghost var call := callToSolver;
      var answer := c.world.solve(callToSolver, c.world.simulate(path.inputVector), x);
      callToSolver := callToSolver + 1;
      found := answer.Some?;
      if found {
        TakeFlip(path, x, answer.value, h, call);
      }
    }

    /** The loop over the ranked candidates, up to the first that the solver does not refuse. */
    method TryRanked(path: CTDataMem, ranked: seq<Candidate>, ghost h: Hunt) returns (found: bool, n: nat)
      requires Valid() && PathOk(path) && dataStep.step == c.stepSize && log == c.world.simulate(path.inputVector)
      requires h.log == log && h.tried == pathHashMap && h.endClk == path.clk && h.call == callToSolver
      requires AllEligible(c, h, ranked)
      modifies this`stack, this`pathHashMap, this`hashValue, this`covered, this`log, this`sims, this`simClk,
               this`flips, this`callToSolver, dataStep
      ensures Valid() && dataStep.step == c.stepSize && n <= |ranked| && Refused(c, h, ranked, n)
      ensures found ==> n < |ranked| && dataStep.RowsMatch() && log == c.world.simulate(dataStep.inputVector)
      ensures found ==> |dataStep.inputVector| == simClk
      ensures found ==> FlipDone(c, h, path.inputVector, ranked[n], h.call + n, dataStep.inputVector,
                                 old(KnownNow()), KnownNow())
      ensures !found ==> n == |ranked| && KnownNow() == old(KnownNow()) && log == old(log)
    {
      hide ConfigOk, Accounted, FlipDone;
      n := 0;
      while n < |ranked|
        invariant n <= |ranked| && Valid() && PathOk(path) && dataStep.step == c.stepSize
        invariant path.inputVector == old(path.inputVector) && path.clk == old(path.clk)
        invariant log == h.log && KnownNow() == old(KnownNow())
        invariant callToSolver == h.call + n && Refused(c, h, ranked, n)
      {
        found := TryCandidate(path, ranked[n], h);
        if found {
          return;
        }
        n := n + 1;
      }
      found := false;
    }

    /** `find_next_cfg`: the first candidate of the ranking that the solver does not refuse is flipped. It fails
        only if the solver refused all that were ranked. */
    method FindNextCfg(path: CTDataMem, initClk: nat, currClk: nat)
      returns (found: bool, ghost flip: Candidate, ghost call: nat)
      requires Valid() && PathOk(path) && path.clk == currClk && dataStep.step == c.stepSize
      requires log == c.world.simulate(path.inputVector)
      modifies this`stack, this`pathHashMap, this`hashValue, this`covered, this`log, this`sims, this`simClk,
               this`flips, this`callToSolver, dataStep
      ensures Valid() && dataStep.step == c.stepSize
      ensures found ==> FirstAccepted(c, old(HuntNow(initClk + 1, currClk)), flip, call)
      ensures found ==> dataStep.RowsMatch() && log == c.world.simulate(dataStep.inputVector)
      ensures found ==> |dataStep.inputVector| == simClk
      ensures found ==> FlipDone(c, old(HuntNow(initClk + 1, currClk)), path.inputVector, flip, call,
                                 dataStep.inputVector, old(KnownNow()), KnownNow())
      ensures !found ==> AllRefused(c, old(HuntNow(initClk + 1, currClk)))
      ensures !found ==> log == old(log) && KnownNow() == old(KnownNow())
    {
      hide Accounted, Eligible;
      ghost var h := HuntNow(initClk + 1, currClk);
      var cs := Candidates(initClk + 1, currClk);
      RankedAreEligible(c, h, cs);
      var ranked, n := c.world.rank(callToSolver, cs), 0;
      found, n := TryRanked(path, ranked, h);
      flip, call := if found then ranked[n] else Candidate(0, 0), h.call + n;
      if found {
        assert AcceptedAt(c, h, cs, n, flip, call);
      }
    }

    // ----- one iteration, one target -----

    /** One iteration: a longer path is explored, and a branch of its last step is flipped. Without a result the
        solver has refused all that was ranked. */
    method ConcolicIteration(currPath: CTDataMem) returns (nextPath: CTDataMem?, ghost it: Iter)
      requires Valid() && PathOk(currPath)
      modifies this`stack, this`pathHashMap, this`hashValue, this`covered, this`log, this`sims, this`simClk,
               this`flips, this`callToSolver, dataStep, currPath
      ensures Valid() && PathOk(currPath) && Explores(c, old(currPath.inputVector), currPath.inputVector)
      ensures it.start == old(currPath.inputVector) && it.explored == currPath.inputVector && it.restart == None
      ensures nextPath != null ==> fresh(nextPath) && PathOk(nextPath) && it.next == nextPath.inputVector
      ensures nextPath != null ==> IterOk(c, it) && KnownNow() == IterAdds(c, it, old(KnownNow()))
      ensures nextPath == null ==> log == c.world.simulate(it.explored)
      ensures nextPath == null ==> AllRefused(c, HuntIn(c, it.start, it.explored, pathHashMap, it.asked))
      ensures nextPath == null ==> KnownNow() == Simulated(c, old(KnownNow()), it.explored)
    {
      hide Accounted, ConfigOk, FlipDone, FirstAccepted, AllRefused;
      ghost var start := currPath.inputVector;
      var initClk := currPath.clk;
      ExploreOneStep(currPath);
      ghost var explored, tried, asked, before := currPath.inputVector, pathHashMap, callToSolver, KnownNow();
      var found;
      ghost var flip, call;
      found, flip, call := FindNextCfg(currPath, initClk, currPath.clk);
      nextPath := null;
      if found {
        ghost var rows, after := dataStep.inputVector, KnownNow();
        SimulateBuildStack(dataStep.inputVector);
        nextPath := new CTDataMem.Copy(dataStep);
        it := Iter(start, explored, tried, asked, flip, call, rows, None);
        FlipMakesIter(c, it, before, after);
      } else {
        it := Iter(start, explored, tried, asked, flip, call, [], None);
      }
    }

    /** The loop that erases covered targets from the open list and appends them to the covered one. */
    method MoveCovered()
      modifies this`targets, this`coveredTargets
      ensures targets == Matching(old(targets), covered, false)
      ensures coveredTargets == old(coveredTargets) + Matching(old(targets), covered, true)
    {
      var i := 0;
      ghost var n, keep, gone := 0, Matching([], covered, false), Matching([], covered, true);
      while i < |targets|
        invariant n <= |old(targets)| && i == |keep|
        invariant keep == Matching(old(targets)[..n], covered, false)
        invariant gone == Matching(old(targets)[..n], covered, true)
        invariant targets == keep + old(targets)[n..] && coveredTargets == old(coveredTargets) + gone
        decreases |targets| - i
      {
        var t := targets[i];
        MatchingSnoc(old(targets), n, covered);
        EraseAt(keep, old(targets), n);
        if t in covered {
          coveredTargets := coveredTargets + [t];
          targets := targets[..i] + targets[i + 1..];
          gone := gone + [t];
        } else {
          i := i + 1;
          keep := keep + [t];
        }
        n := n + 1;
      }
      assert old(targets)[..n] == old(targets) && old(targets)[n..] == [];
    }

    /** Covered targets move from the open list to the covered one, and none is lost. */
    method RemoveCoveredTargets()
      requires Valid()
      modifies this`targets, this`coveredTargets
      ensures Valid() && AllTargets() == old(AllTargets())
      ensures targets == Matching(old(targets), covered, false)
      ensures coveredTargets == old(coveredTargets) + Matching(old(targets), covered, true)
    {
      hide ConfigOk, Accounted;
      MoveCovered();
      NoneLost(old(targets), old(coveredTargets), covered);
    }

    /** The first open target is given up. */
    method GiveUp()
      requires Valid() && targets != []
      modifies this`targets, this`uncoveredTargets
      ensures Valid() && AllTargets() == old(AllTargets())
      ensures targets == old(targets)[1..] && uncoveredTargets == old(uncoveredTargets) + [old(targets)[0]]
    {
      hide ConfigOk, Accounted;
      assert targets == [targets[0]] + targets[1..];
      uncoveredTargets := uncoveredTargets + [targets[0]];
      targets := targets[1..];
    }

    /** A path beyond the unrolling limit starts over with one random step. */
    method Restart(path: CTDataMem)
      requires Valid() && PathOk(path)
      modifies this`stack, this`pathHashMap, this`hashValue, this`covered, this`log, this`sims, this`simClk,
               this`simNum, dataStep, path
      ensures Valid() && PathOk(path) && Explores(c, [], path.inputVector) && simNum == old(simNum) + 1
      ensures KnownNow() == Simulated(c, old(KnownNow()), path.inputVector)
    {
      hide ConfigOk, Accounted;
      path.ClearPath();
      stack, log := [], [];
      simNum := simNum + 1;
      ExploreOneStep(path);
    }

    /** The target is moved when the limit is reached, or else when it is covered. */
    method MoveOrGoOn() returns (moved: bool)
      requires Valid() && targets != []
      modifies this`targets, this`coveredTargets, this`uncoveredTargets
      ensures Valid() && AllTargets() == old(AllTargets())
      ensures moved <==> simNum >= c.totalLimit || old(targets[0]) in covered
      ensures moved ==> Moved(c, old(Now()), Now())
      ensures !moved ==> SameLists(old(Now()), Now())
    {
      hide ConfigOk, Accounted;
      if simNum >= c.totalLimit {
        GiveUp();
        return true;
      }
      if targets[0] in covered {
        RemoveCoveredTargets();
        return true;
      }
      return false;
    }

    /** What follows each iteration: restart a path that is too long, and move the target when it is
        covered or the limit is reached. */
    method Settle(path: CTDataMem) returns (moved: bool, ghost restart: Option<seq<string>>)
      requires Valid() && PathOk(path) && targets != []
      modifies this`stack, this`pathHashMap, this`hashValue, this`covered, this`log, this`sims, this`simClk,
               this`simNum, this`targets, this`coveredTargets, this`uncoveredTargets, dataStep, path
      ensures Valid() && PathOk(path) && AllTargets() == old(AllTargets())
      ensures restart.Some? <==> old(path.clk) > c.unroll && old(targets[0]) !in old(covered)
      ensures restart.Some? ==> restart.value == path.inputVector && Explores(c, [], path.inputVector)
      ensures restart.None? ==> path.inputVector == old(path.inputVector)
      ensures simNum == old(simNum) + if restart.Some? then 1 else 0
      ensures KnownNow() == RestartAdds(c, restart, old(KnownNow()))
      ensures moved ==> Moved(c, old(Now()), Now())
      ensures !moved ==> SameLists(old(Now()), Now()) && simNum < c.totalLimit && targets[0] !in covered
      ensures !moved ==> (restart.Some? <==> old(path.clk) > c.unroll)
    {
      hide ConfigOk, Accounted, Simulated, Explores, Moved;
      restart := None;
      if path.clk > c.unroll {
        if targets[0] in covered {
          RemoveCoveredTargets();
          CoveredIsMoved(c, old(Now()), Now());
          return true, restart;
        }
        Restart(path);
        restart := Some(path.inputVector);
        SimulatedGrows(c, old(KnownNow()), path.inputVector);
      }
      label restarted:
      moved := MoveOrGoOn();
      if moved {
        MovedFrom(c, old(Now()), old@restarted(Now()), Now());
      }
    }

    /** One turn of the search: an iteration, and what follows it. */
    method SearchStep(current: CTDataMem, ghost rows: seq<string>, ghost run: seq<Iter>, ghost known: Known)
      returns (path: CTDataMem?, moved: bool, ghost it: Iter)
      requires Valid() && PathOk(current) && targets != []
      requires RunOk(c, run, rows) && current.inputVector == Start(run, rows)
      requires run != [] ==> GoesOn(c, run[|run| - 1])
      requires simNum == Restarts(run) && KnownNow() == RunAdds(c, run, known)
      modifies this, dataStep, current
      ensures Valid() && PathOk(current) && AllTargets() == old(AllTargets())
      ensures it.start == Start(run, rows)
      ensures path == null ==> SameLists(old(Now()), Now()) && simNum == old(simNum)
      ensures path == null ==> Explores(c, it.start, it.explored) && log == c.world.simulate(it.explored)
      ensures path == null ==> AllRefused(c, HuntIn(c, it.start, it.explored, pathHashMap, it.asked))
      ensures path == null ==> KnownNow() == Simulated(c, RunAdds(c, run, known), it.explored)
      ensures path != null ==> fresh(path) && PathOk(path) && path.inputVector == After(it)
      ensures path != null ==> RunOk(c, run + [it], rows) && simNum == Restarts(run + [it])
      ensures path != null ==> KnownNow() == RunAdds(c, run + [it], known)
      ensures path != null && !moved ==>
                simNum > old(simNum) || (simNum == old(simNum) && |it.start| < |After(it)| <= c.unroll)
      ensures path != null && moved ==> Moved(c, old(Now()), Now())
      ensures path != null && !moved ==> SameLists(old(Now()), Now()) && GoesOn(c, it) && simNum < c.totalLimit
    {
      hide ConfigOk, Accounted, IterOk, AllRefused, RunOk, IterAdds, Simulated, Moved;
      moved := false;
      path, it := ConcolicIteration(current);
      if path != null {
        IterAdvances(c, it);
        ghost var restart;
        ghost var before := Now();
        moved, restart := Settle(path);
        if moved {
          MovedFrom(c, old(Now()), before, Now());
        }
        IterRestarted(c, it, restart, RunAdds(c, run, known));
        it := it.(restart := restart);
        RunSnoc(c, run, rows, it);
        RunCounts(c, run, it, known);
      }
    }

    /** The search for the first open target, from some path. It ends for any simulator and any solver, and the
        target stays first until it is moved: to the covered list, or, at the limit, to the uncovered one.
        Without a result the solver has refused all that was ranked after the last exploration. */
    method SearchTarget(start: CTDataMem) returns (path: CTDataMem?, ghost r: Round)
      requires Valid() && PathOk(start) && targets != [] && simNum == 0
      modifies this, dataStep, start
      ensures Valid() && PathOk(start) && AllTargets() == old(AllTargets())
      ensures path != null ==> fresh(path) && PathOk(path)
      ensures r.Searched? && r.start == old(start.inputVector) && (r.found <==> path != null)
      ensures SearchOk(c, old(Now()), r, Now())
      ensures KnownNow() == RoundAdds(c, r, old(KnownNow()))
    {
      hide ConfigOk, Accounted, AllRefused, RunOk, RunAdds, Simulated, Moved, Explores, Restarts;
      var current: CTDataMem := start;
      ghost var rows, run := start.inputVector, [];
      EmptyRun(c, rows, KnownNow());
      while true
        invariant Valid() && PathOk(start) && PathOk(current) && (current == start || fresh(current))
        invariant SameLists(old(Now()), Now()) && AllTargets() == old(AllTargets())
        invariant RunOk(c, run, rows) && current.inputVector == Start(run, rows)
        invariant run != [] ==> GoesOn(c, run[|run| - 1]) && simNum < c.totalLimit
        invariant simNum == Restarts(run) && KnownNow() == RunAdds(c, run, old(KnownNow()))
        decreases c.totalLimit - simNum, c.unroll + 1 - |current.inputVector|
      {
        ghost var it;
        var moved;
        ghost var before := Now();
        path, moved, it := SearchStep(current, rows, run, old(KnownNow()));
        if path == null {
          r := Searched(rows, run, false, it.explored, it.asked);
          return;
        }
        run := run + [it];
        if moved {
          MovedFrom(c, old(Now()), before, Now());
          r := Searched(rows, run, true, [], 0);
          return;
        }
        current := path;
      }
    }

    // ----- the whole search -----

    predicate PathsOk(paths: seq<CTDataMem>)
      reads paths
    {
      forall p | p in paths :: PathOk(p)
    }

    /** The random simulations before the search; each leaves a path. */
    method RandomSimulations(count: nat) returns (paths: seq<CTDataMem>, ghost first: seq<seq<string>>)
      requires Valid() && count > 0
      modifies this`stack, this`pathHashMap, this`hashValue, this`covered, this`log, this`sims, data
      ensures Valid() && |paths| == |first| == count && PathsOk(paths) && fresh(paths)
      ensures forall k | 0 <= k < count :: paths[k].inputVector == first[k] && Explores(c, [], first[k])
      ensures sims == old(sims) + first && flips == old(flips)
    {
      hide Accounted;
      paths, first := [], [];
      for i := 0 to count
        invariant Valid() && |paths| == |first| == i && PathsOk(paths) && fresh(paths)
        invariant forall k | 0 <= k < i :: paths[k].inputVector == first[k] && Explores(c, [], first[k])
        invariant sims == old(sims) + first && flips == old(flips)
      {
        data.Generate(c.stepSize, c.obsPadding);
        SimulateBuildStack(data.inputVector);
        var path := new CTDataMem.Copy(data);
        paths, first := paths + [path], first + [data.inputVector];
      }
    }

    /** A first target that a simulation has covered by chance. */
    method DropCovered()
      requires Valid() && targets != [] && targets[0] in covered
      modifies this`targets, this`coveredTargets
      ensures Valid() && AllTargets() == old(AllTargets())
      ensures targets == old(targets)[1..] && coveredTargets == old(coveredTargets) + [old(targets)[0]]
    {
      hide ConfigOk, Accounted;
      assert targets == [targets[0]] + targets[1..];
      coveredTargets := coveredTargets + [targets[0]];
      targets := targets[1..];
    }

    /** The search for the first target, from a path that is simulated again if it was not the last one. */
    method SearchAgain(closest: CTDataMem, again: bool) returns (path: CTDataMem?, ghost r: Round)
      requires Valid() && targets != [] && PathOk(closest) && simNum == 0
      modifies this, dataStep, closest
      ensures Valid() && AllTargets() == old(AllTargets()) && PathOk(closest)
      ensures path != null ==> fresh(path) && PathOk(path)
      ensures r.Searched? && r.start == old(closest.inputVector) && (r.found <==> path != null)
      ensures old(targets[0]) !in old(covered) ==> RoundOk(c, old(Now()), r, Now())
      ensures KnownNow() == RoundAdds(c, r, if again then Simulated(c, old(KnownNow()), r.start) else old(KnownNow()))
    {
      hide ConfigOk, Accounted, SearchOk, RoundAdds, Simulated, RoundOk;
      if again {
        SimulateBuildStack(closest.inputVector);
      }
      ghost var before := Now();
      path, r := SearchTarget(closest);
      if old(targets[0]) !in old(covered) {
        SearchFrom(c, old(Now()), before, r, Now());
      }
    }

    /** One round of the outer loop, from the path last used or the one closest to the target; a path that was not
        the last one is simulated again. */
    method DoRound(closest: CTDataMem, last: CTDataMem?) returns (path: CTDataMem?, ghost r: Round)
      requires Valid() && targets != [] && PathOk(closest) && (last != null ==> PathOk(last))
      modifies this, dataStep, closest
      ensures Valid() && AllTargets() == old(AllTargets()) && PathOk(closest)
      ensures path != null ==> PathOk(path) && (fresh(path) || path == last)
      ensures RoundOk(c, old(Now()), r, Now())
      ensures r.Dropped? ==> path == last && KnownNow() == old(KnownNow())
      ensures r.Searched? ==> r.start == old(closest.inputVector) && (r.found <==> path != null)
      ensures r.Searched? ==>
                var known := old(KnownNow());
                KnownNow() == RoundAdds(c, r, if closest == last then known else Simulated(c, known, r.start))
    {
      hide ConfigOk, Accounted, SearchOk, RoundAdds, Simulated;
      simNum := 0;
      if targets[0] in covered {
        DropCovered();
        path, r := last, Dropped;
      } else {
        ghost var before := Now();
        path, r := SearchAgain(closest, closest != last);
        RoundFrom(c, old(Now()), before, r, Now());
      }
    }

    /** Rounds of the outer loop. Each starts from a kept path, the closest one of its target,
        or, when its target has none, from the path last used. */
    method Rounds(paths: seq<CTDataMem>, count: nat) returns (ghost moments: seq<Moment>, ghost rounds: seq<Round>)
      requires Valid() && paths != [] && PathsOk(paths)
      modifies this, dataStep, paths
      ensures Valid() && AllTargets() == old(AllTargets()) && PathsOk(paths)
      ensures RoundsOk(c, moments, rounds) && moments[0] == old(Now()) && moments[|moments| - 1] == Now()
      ensures targets == [] || |rounds| == count
    {
      hide ConfigOk, Accounted, RoundOk;
      var path: CTDataMem? := paths[|paths| - 1];
      moments, rounds := [Now()], [];
      var n := 0;
      while targets != [] && n < count
        invariant Valid() && AllTargets() == old(AllTargets()) && PathsOk(paths) && |rounds| == n <= count
        invariant path != null ==> PathOk(path) && (path in paths || fresh(path))
        invariant RoundsOk(c, moments, rounds) && moments[0] == old(Now()) && moments[|moments| - 1] == Now()
        decreases count - n
      {
        var closest := paths[0];
        if * {
          closest :| closest in paths;
        } else if path != null {
          closest := path;
        }
        ghost var before, r := Now(), Dropped;
        path, r := DoRound(closest, path);
        RoundsSnoc(c, moments, rounds, r, Now());
        moments, rounds := moments + [Now()], rounds + [r];
        n := n + 1;
      }
    }

    /** `step_coverage`, for a number of rounds of its outer loop. After the random simulations exactly the targets
        they covered are listed as covered; then, unless no target is left, so many rounds are run, each of which
        moves its target or ends with the solver refusing all that was ranked. No target is ever lost or
        duplicated, and whatever is listed as covered was logged by a simulation or is an answered flip. */
    method StepCoverage(randomSimNum: nat, count: nat)
      returns (ghost first: seq<seq<string>>, ghost moments: seq<Moment>, ghost rounds: seq<Round>)
      requires Valid() && targets != [] && randomSimNum > 0
      modifies this, data, dataStep
      ensures Valid() && AllTargets() == old(AllTargets())
      ensures |first| == randomSimNum && forall k | 0 <= k < |first| :: Explores(c, [], first[k])
      ensures RoundsOk(c, moments, rounds) && moments[|moments| - 1] == Now()
      ensures forall t :: t in moments[0].covered <==> IsLogged(c, old(sims) + first, t) || IsFlipped(old(flips), t)
      ensures forall t :: t in moments[0].open <==> t in old(targets) && t !in moments[0].covered
      ensures forall t :: t in moments[0].done <==>
                t in old(coveredTargets) || (t in old(targets) && t in moments[0].covered)
      ensures moments[0].given == old(uncoveredTargets)
      ensures targets == [] || |rounds| == count
      ensures |flips| <= UINT_RANGE
    {
      var paths;
      paths, first := RandomSimulations(randomSimNum);
      MatchingMembers(targets, covered, false);
      MatchingMembers(targets, covered, true);
      RemoveCoveredTargets();
      moments, rounds := Rounds(paths, count);
      FlipsAreBounded(c, sims, flips, pathHashMap, covered);
    }
  }
}
