/** What a run of the search looks like, for a given simulator, solver and ranking. */
module SearchRuns {
  import opened Basics
  import opened Stimulus
  import opened ModelFile
  import P = PathFilter

  /** A branch that could be taken instead of the one at a stack position. */
  datatype Candidate = Candidate(position: nat, alt: nat)

  /** The programs the search calls. The simulator logs the statements some rows lead through; the solver is
      asked for the n-th time, about a simulation and a candidate, and prints a model or gives up; the ranking
      lists candidates, possibly not all of them. */
  datatype World = World(
    simulate: seq<string> -> seq<P.Logged>,
    solve: (nat, seq<P.Logged>, Candidate) -> Option<seq<string>>,
    rank: (nat, seq<Candidate>) -> seq<Candidate>)

  /** What does not change during a search. Branches and targets are known by number; `siblings` lists the
      branches of the same statement, `dep` the branches that depend on inputs or state. */
  datatype Config = Config(table: P.Table, siblings: seq<seq<nat>>, dep: set<nat>, unroll: nat, stepSize: nat,
                           totalLimit: nat, obsPadding: bool, ports: map<string, SigPos>, width: nat, world: World)

  /** A log the simulator can write: it has a mark beyond clock 0, and known branches. */
  predicate LogOk(c: Config, log: seq<P.Logged>) {
    && (exists l | l in log :: l.Clock? && l.clock > 0)
    && (forall l | l in log && l.Statement? && l.isBranch :: l.id < |c.siblings|)
  }

  /** The printed texts are the lines of a model. */
  ghost predicate Prints(c: Config, texts: seq<string>, lines: seq<Line>) {
    |texts| == |lines| && forall i | 0 <= i < |lines| :: Stands(texts[i], lines[i]) && FitsPorts(lines[i], c.ports)
  }

  ghost predicate ConfigOk(c: Config) {
    && PortsOk(c.ports, c.width) && c.width > 0 && c.stepSize > 0
    && (forall rows :: LogOk(c, c.world.simulate(rows)))
    && (forall n, log, x :: c.world.solve(n, log, x).Some? ==>
          exists lines :: Prints(c, c.world.solve(n, log, x).value, lines))
    && (forall n, cs, x | x in c.world.rank(n, cs) :: x in cs)
  }

  /** One full row per clock. */
  predicate Rows(c: Config, rows: seq<string>) {
    RowsOk(rows, c.width)
  }

  // ----- one choice -----

  /** An untried alternative of a branch on the inputs or the state, in the given clocks: the hash its path would
      have is not among those tried. */
  predicate Eligible(c: Config, log: seq<P.Logged>, tried: set<nat>, x: Candidate, beginClk: nat, endClk: nat) {
    && x.position < |log| && log[x.position].Statement? && log[x.position].isBranch
    && var e, id := P.StackOf(c.table, log)[x.position], log[x.position].id;
       && id in c.dep && id < |c.siblings| && x.alt in c.siblings[id] && x.alt != id
       && beginClk <= e.clock <= endClk
       && (e.hash + c.table[x.alt % 16384] * e.index) % 0x1_0000_0000 !in tried
  }

  function HashOf(c: Config, log: seq<P.Logged>, x: Candidate): (h: nat)
    requires x.position < |log|
    ensures h < UINT_RANGE
  {
    P.AltHash(c.table, P.StackOf(c.table, log)[x.position], x.alt)
  }

  lemma EligibleIsUntried(c: Config, log: seq<P.Logged>, tried: set<nat>, x: Candidate, beginClk: nat, endClk: nat)
    requires Eligible(c, log, tried, x, beginClk, endClk)
    ensures HashOf(c, log, x) !in tried
  {
    var e := P.StackOf(c.table, log)[x.position];
    P.AltHashIs(c.table, e, x.alt, c.table[x.alt % 16384] * e.index);
  }

  /** The clocks between which alternatives are looked for, and the calls made so far. */
  datatype Hunt = Hunt(log: seq<P.Logged>, tried: set<nat>, beginClk: nat, endClk: nat, call: nat)

  ghost predicate AreCandidates(c: Config, h: Hunt, cs: seq<Candidate>) {
    forall x :: x in cs <==> Eligible(c, h.log, h.tried, x, h.beginClk, h.endClk)
  }

  /** Candidates listed by any ranking are eligible. */
  ghost predicate AllEligible(c: Config, h: Hunt, ranked: seq<Candidate>) {
    forall i | 0 <= i < |ranked| :: Eligible(c, h.log, h.tried, ranked[i], h.beginClk, h.endClk)
  }

  lemma RankedAreEligible(c: Config, h: Hunt, cs: seq<Candidate>)
    requires ConfigOk(c) && AreCandidates(c, h, cs)
    ensures AllEligible(c, h, c.world.rank(h.call, cs))
  {
    var ranked := c.world.rank(h.call, cs);
    forall i | 0 <= i < |ranked| ensures Eligible(c, h.log, h.tried, ranked[i], h.beginClk, h.endClk) {
      assert ranked[i] in ranked;
    }
  }

  /** The solver has refused the first n candidates of the ranking. */
  ghost predicate Refused(c: Config, h: Hunt, ranked: seq<Candidate>, n: nat)
    requires n <= |ranked|
  {
    forall i | 0 <= i < n :: c.world.solve(h.call + i, h.log, ranked[i]).None?
  }

  /** All candidates were listed, and the solver refused every one that was ranked. */
  ghost predicate AllRefused(c: Config, h: Hunt) {
    exists cs :: AreCandidates(c, h, cs) && Refused(c, h, c.world.rank(h.call, cs), |c.world.rank(h.call, cs)|)
  }

  /** All candidates were listed, and x is the first in their ranking that the solver did not refuse. */
  ghost predicate FirstAccepted(c: Config, h: Hunt, x: Candidate, call: nat) {
    exists cs, n :: AcceptedAt(c, h, cs, n, x, call)
  }

  ghost predicate AcceptedAt(c: Config, h: Hunt, cs: seq<Candidate>, n: nat, x: Candidate, call: nat) {
    var ranked := c.world.rank(h.call, cs);
    && AreCandidates(c, h, cs) && n < |ranked| && ranked[n] == x && call == h.call + n
    && Refused(c, h, ranked, n) && c.world.solve(call, h.log, x).Some?
  }

  /** When the ranking leaves nothing out, every eligible alternative was refused. */
  lemma RefusedMeansAll(c: Config, h: Hunt, x: Candidate)
    requires AllRefused(c, h) && Eligible(c, h.log, h.tried, x, h.beginClk, h.endClk)
    requires forall n, cs :: x in cs ==> x in c.world.rank(n, cs)
    ensures exists call | call >= h.call :: c.world.solve(call, h.log, x).None?
  {
    var cs :| AreCandidates(c, h, cs) && Refused(c, h, c.world.rank(h.call, cs), |c.world.rank(h.call, cs)|);
    var ranked := c.world.rank(h.call, cs);
    assert x in cs && x in ranked;
    var i :| 0 <= i < |ranked| && ranked[i] == x;
    assert c.world.solve(h.call + i, h.log, x).None?;
  }

  /** The rows after a flip: those up to the clock of the branch, with the printed values in them. */
  ghost predicate Patched(c: Config, explored: seq<string>, texts: seq<string>, next: seq<string>) {
    && |next| <= |explored| && PortsOk(c.ports, c.width)
    && exists lines :: Prints(c, texts, lines) && IsPatched(explored[..|next|], next, lines, c.ports, |next|, c.width)
  }

  // ----- what has been recorded -----

  /** A flip that was chosen. */
  datatype Flip = Flip(call: nat, log: seq<P.Logged>, choice: Candidate, hash: nat)

  /** What is known at some moment: the tried hashes, the covered statements, the simulated rows, the flips. */
  datatype Known = Known(tried: set<nat>, covered: set<nat>, sims: seq<seq<string>>, flips: seq<Flip>)

  /** The simulation of some rows adds their hashes and statements, and nothing else. */
  function Simulated(c: Config, k: Known, rows: seq<string>): Known {
    var log := c.world.simulate(rows);
    Known(k.tried + P.Recorded(c.table, log), k.covered + P.Statements(log), k.sims + [rows], k.flips)
  }

  lemma SimulatedGrows(c: Config, k: Known, rows: seq<string>)
    ensures k.covered <= Simulated(c, k, rows).covered
  {
  }

  /** A flip adds its hash and its alternative. */
  function FlippedTo(c: Config, k: Known, log: seq<P.Logged>, x: Candidate, call: nat): Known {
    var hash := if x.position < |log| then HashOf(c, log, x) else 0;
    Known(k.tried + {hash}, k.covered + {x.alt}, k.sims, k.flips + [Flip(call, log, x, hash)])
  }

  /** The flip of x, after the rows `explored`: the solver answered, and the new rows are simulated. */
  ghost predicate FlipDone(c: Config, h: Hunt, explored: seq<string>, x: Candidate, call: nat, rows: seq<string>,
                           before: Known, after: Known)
  {
    && Eligible(c, h.log, h.tried, x, h.beginClk, h.endClk) && c.world.solve(call, h.log, x).Some?
    && |rows| == P.StackOf(c.table, h.log)[x.position].clock
    && Patched(c, explored, c.world.solve(call, h.log, x).value, rows)
    && after == Simulated(c, FlippedTo(c, before, h.log, x, call), rows)
  }

  // ----- one search -----

  /** An iteration that found a flip: the rows it started from and explored, the choice, the new rows, and, when
      these were too long, the step of random rows that replaces them. */
  datatype Iter = Iter(start: seq<string>, explored: seq<string>, tried: set<nat>, asked: nat, flip: Candidate,
                       call: nat, next: seq<string>, restart: Option<seq<string>>)

  /** One step of rows is explored beyond `start`. */
  ghost predicate Explores(c: Config, start: seq<string>, explored: seq<string>) {
    start <= explored && |explored| == |start| + c.stepSize && Rows(c, explored)
  }

  function HuntIn(c: Config, start: seq<string>, explored: seq<string>, tried: set<nat>, asked: nat): Hunt {
    Hunt(c.world.simulate(explored), tried, |start| + 1, |explored|, asked)
  }

  ghost predicate IterOk(c: Config, it: Iter) {
    var h := HuntIn(c, it.start, it.explored, it.tried, it.asked);
    && Explores(c, it.start, it.explored) && FirstAccepted(c, h, it.flip, it.call)
    && Eligible(c, h.log, h.tried, it.flip, h.beginClk, h.endClk)
    && c.world.solve(it.call, h.log, it.flip).Some?
    && |it.next| == P.StackOf(c.table, h.log)[it.flip.position].clock
    && Patched(c, it.explored, c.world.solve(it.call, h.log, it.flip).value, it.next)
    && (it.restart.Some? ==> |it.next| > c.unroll && Explores(c, [], it.restart.value))
  }

  /** What an iteration adds to what is known: the exploration, the flip, and the new rows, simulated twice. */
  function IterAdds(c: Config, it: Iter, k: Known): Known {
    var explored := Simulated(c, k, it.explored);
    var flipped := FlippedTo(c, explored, c.world.simulate(it.explored), it.flip, it.call);
    Simulated(c, Simulated(c, flipped, it.next), it.next)
  }

  /** A restart adds the simulation of its rows. */
  function RestartAdds(c: Config, rows: Option<seq<string>>, k: Known): Known {
    if rows.Some? then Simulated(c, k, rows.value) else k
  }

  lemma FlipMakesIter(c: Config, it: Iter, before: Known, after: Known)
    requires it.restart == None && Explores(c, it.start, it.explored)
    requires var h := HuntIn(c, it.start, it.explored, it.tried, it.asked);
             && FirstAccepted(c, h, it.flip, it.call)
             && FlipDone(c, h, it.explored, it.flip, it.call, it.next, before, after)
    ensures IterOk(c, it)
    ensures after == Simulated(c, FlippedTo(c, before, c.world.simulate(it.explored), it.flip, it.call), it.next)
  {
  }

  /** Where the next iteration starts. */
  function After(it: Iter): seq<string> {
    if it.restart.Some? then it.restart.value else it.next
  }

  function Start(run: seq<Iter>, start: seq<string>): seq<string> {
    if run == [] then start else After(run[|run| - 1])
  }

  /** Iterations one after the other, from the rows `start`. */
  ghost predicate RunOk(c: Config, run: seq<Iter>, start: seq<string>) {
    (forall k | 0 <= k < |run| :: IterOk(c, run[k])) && Chained(c, run, start)
  }

  predicate Chained(c: Config, run: seq<Iter>, start: seq<string>) {
    && (run != [] ==> run[0].start == start)
    && (forall a, b | 0 <= a && b == a + 1 < |run| :: run[b].start == After(run[a]))
    && (forall k | 0 <= k < |run| - 1 :: GoesOn(c, run[k]))
  }

  /** The rows are short enough to go on from, or have been replaced. */
  predicate GoesOn(c: Config, it: Iter) {
    it.restart.Some? <==> |it.next| > c.unroll
  }

  function Restarts(run: seq<Iter>): nat {
    if run == [] then 0
    else Restarts(run[..|run| - 1]) + if run[|run| - 1].restart.Some? then 1 else 0
  }

  /** What a run adds to what is known. */
  function RunAdds(c: Config, run: seq<Iter>, k: Known): Known {
    if run == [] then k
    else
      var it := run[|run| - 1];
      RestartAdds(c, it.restart, IterAdds(c, it, RunAdds(c, run[..|run| - 1], k)))
  }

  lemma ChainedSnoc(c: Config, run: seq<Iter>, start: seq<string>, it: Iter)
    requires Chained(c, run, start) && it.start == Start(run, start)
    requires run != [] ==> GoesOn(c, run[|run| - 1])
    ensures Chained(c, run + [it], start)
  {
    var longer := run + [it];
    forall k | 0 <= k < |longer| - 1 ensures GoesOn(c, longer[k]) {
      assert longer[k] == run[k];
      assert k < |run| - 1 ==> GoesOn(c, run[k]);
    }
  }

  lemma EmptyRun(c: Config, start: seq<string>, k: Known)
    ensures RunOk(c, [], start) && Start([], start) == start && Restarts([]) == 0 && RunAdds(c, [], k) == k
  {
  }

  lemma RunSnoc(c: Config, run: seq<Iter>, start: seq<string>, it: Iter)
    requires RunOk(c, run, start) && IterOk(c, it) && it.start == Start(run, start)
    requires run != [] ==> GoesOn(c, run[|run| - 1])
    ensures RunOk(c, run + [it], start)
  {
    ChainedSnoc(c, run, start, it);
    forall k | 0 <= k < |run + [it]| ensures IterOk(c, (run + [it])[k]) {
      assert k < |run| ==> (run + [it])[k] == run[k];
    }
  }

  lemma RunCounts(c: Config, run: seq<Iter>, it: Iter, k: Known)
    ensures Restarts(run + [it]) == Restarts(run) + if it.restart.Some? then 1 else 0
    ensures RunAdds(c, run + [it], k) == RestartAdds(c, it.restart, IterAdds(c, it, RunAdds(c, run, k)))
  {
    assert (run + [it])[..|run|] == run;
  }

  /** New rows are longer than those an iteration started from, by at most one step. */
  lemma IterAdvances(c: Config, it: Iter)
    requires IterOk(c, it)
    ensures |it.start| < |it.next| <= |it.start| + c.stepSize
  {
  }

  lemma IterRestarted(c: Config, it: Iter, restart: Option<seq<string>>, k: Known)
    requires IterOk(c, it)
    requires restart.Some? ==> |it.next| > c.unroll && Explores(c, [], restart.value)
    ensures IterOk(c, it.(restart := restart)) && IterAdds(c, it.(restart := restart), k) == IterAdds(c, it, k)
  {
  }

  // ----- targets -----

  /** The members of `s` that are, or are not, in `covered`. */
  function Matching(s: seq<nat>, covered: set<nat>, want: bool): seq<nat> {
    if s == [] then []
    else
      var last := s[|s| - 1];
      Matching(s[..|s| - 1], covered, want) + if (last in covered) == want then [last] else []
  }

  lemma EraseAt(keep: seq<nat>, s: seq<nat>, n: nat)
    requires n < |s|
    ensures var all, i := keep + s[n..], |keep|;
            all[i] == s[n] && all[..i] + all[i + 1..] == keep + s[n + 1..] && all == keep + [s[n]] + s[n + 1..]
  {
  }

  lemma MatchingSnoc(s: seq<nat>, n: nat, covered: set<nat>)
    requires n < |s|
    ensures Matching(s[..n + 1], covered, true)
         == Matching(s[..n], covered, true) + if s[n] in covered then [s[n]] else []
    ensures Matching(s[..n + 1], covered, false)
         == Matching(s[..n], covered, false) + if s[n] in covered then [] else [s[n]]
  {
    assert s[..n + 1][..n] == s[..n];
  }

  lemma {:induction false} MatchingMembers(s: seq<nat>, covered: set<nat>, want: bool)
    ensures forall t :: t in Matching(s, covered, want) <==> t in s && (t in covered) == want
  {
    if s != [] {
      var front, last := s[..|s| - 1], s[|s| - 1];
      MatchingMembers(front, covered, want);
      assert s == front + [last];
      assert forall t :: t in s <==> t in front || t == last;
    }
  }

  /** Covered and open members together are all members, with multiplicity. */
  lemma {:induction false} MatchingSplits(s: seq<nat>, covered: set<nat>)
    ensures multiset(Matching(s, covered, true)) + multiset(Matching(s, covered, false)) == multiset(s)
  {
    if s != [] {
      var front, last := s[..|s| - 1], s[|s| - 1];
      MatchingSplits(front, covered);
      assert s == front + [last];
    }
  }

  /** Moving the covered targets keeps all of them, and lists only covered ones as covered. */
  lemma NoneLost(s: seq<nat>, done: seq<nat>, covered: set<nat>)
    ensures var open, gone := Matching(s, covered, false), Matching(s, covered, true);
            && multiset(open) + multiset(done + gone) == multiset(s) + multiset(done)
            && ((forall t | t in done :: t in covered) ==> forall t | t in done + gone :: t in covered)
  {
    MatchingSplits(s, covered);
    MatchingMembers(s, covered, true);
  }

  // ----- the whole search -----

  /** What the search has reached at some moment. */
  datatype Moment = Moment(open: seq<nat>, done: seq<nat>, given: seq<nat>, covered: set<nat>, tried: set<nat>,
                           log: seq<P.Logged>, simNum: nat, calls: nat)

  /** How a round of the outer loop ends: its target was covered already, or it was searched for. `found` says
      whether the search moved the target; if not, it explored `stopped` and the solver refused everything. */
  datatype Round = Dropped | Searched(start: seq<string>, run: seq<Iter>, found: bool, stopped: seq<string>, asked: nat)

  /** At the limit the first open target goes to the uncovered list; or it is covered, and all covered targets go
      to the covered list. */
  predicate Moved(c: Config, a: Moment, b: Moment)
    requires a.open != []
  {
    || (b.simNum >= c.totalLimit && b.open == a.open[1..] && b.done == a.done && b.given == a.given + [a.open[0]])
    || (a.open[0] in b.covered && b.open == Matching(a.open, b.covered, false)
        && b.done == a.done + Matching(a.open, b.covered, true) && b.given == a.given)
  }

  predicate SameLists(a: Moment, b: Moment) {
    b.open == a.open && b.done == a.done && b.given == a.given
  }

  lemma CoveredIsMoved(c: Config, a: Moment, b: Moment)
    requires a.open != [] && a.open[0] in b.covered && b.open == Matching(a.open, b.covered, false)
    requires b.done == a.done + Matching(a.open, b.covered, true) && b.given == a.given
    ensures Moved(c, a, b)
  {
  }

  lemma MovedFrom(c: Config, a: Moment, a': Moment, b: Moment)
    requires a.open != [] && SameLists(a, a') && Moved(c, a', b)
    ensures Moved(c, a, b)
  {
  }

  /** The search stopped because the solver refused every ranked alternative of the last exploration. */
  ghost predicate Stopped(c: Config, r: Round, b: Moment)
    requires r.Searched?
  {
    && Explores(c, Start(r.run, r.start), r.stopped) && b.log == c.world.simulate(r.stopped)
    && AllRefused(c, HuntIn(c, Start(r.run, r.start), r.stopped, b.tried, r.asked))
  }

  /** What a round adds to what is known. */
  function RoundAdds(c: Config, r: Round, k: Known): Known {
    match r
    case Dropped => k
    case Searched(_, run, found, stopped, _) =>
      if found then RunAdds(c, run, k) else Simulated(c, RunAdds(c, run, k), stopped)
  }

  ghost predicate SearchOk(c: Config, a: Moment, r: Round, b: Moment)
    requires r.Searched? && a.open != []
  {
    && RunOk(c, r.run, r.start) && b.simNum == Restarts(r.run)
    && (if r.found then r.run != [] && Moved(c, a, b) else SameLists(a, b) && Stopped(c, r, b))
  }

  ghost predicate RoundOk(c: Config, a: Moment, r: Round, b: Moment)
    requires a.open != []
  {
    match r
    case Dropped =>
      a.open[0] in a.covered && b == a.(open := a.open[1..], done := a.done + [a.open[0]], simNum := 0)
    case Searched(_, _, _, _, _) =>
      a.open[0] !in a.covered && SearchOk(c, a, r, b)
  }

  /** Rounds one after the other. */
  ghost predicate RoundsOk(c: Config, moments: seq<Moment>, rounds: seq<Round>) {
    && |moments| == |rounds| + 1
    && forall a, b | 0 <= a && b == a + 1 < |moments| ::
         moments[a].open != [] && RoundOk(c, moments[a], rounds[a], moments[b])
  }

  /** Simulating the start again changes nothing a round is about. */
  lemma SearchFrom(c: Config, a: Moment, a': Moment, r: Round, b: Moment)
    requires r.Searched? && a'.open != [] && SameLists(a, a') && SearchOk(c, a', r, b) && a.open[0] !in a.covered
    ensures RoundOk(c, a, r, b)
  {
  }

  /** Nor does resetting the count of simulations. */
  lemma RoundFrom(c: Config, a: Moment, a': Moment, r: Round, b: Moment)
    requires r.Searched? && a'.open != [] && SameLists(a, a') && a.covered == a'.covered && RoundOk(c, a', r, b)
    ensures RoundOk(c, a, r, b)
  {
  }

  lemma RoundsSnoc(c: Config, moments: seq<Moment>, rounds: seq<Round>, r: Round, b: Moment)
    requires RoundsOk(c, moments, rounds) && moments[|rounds|].open != [] && RoundOk(c, moments[|rounds|], r, b)
    ensures RoundsOk(c, moments + [b], rounds + [r])
  {
    var ms, rs := moments + [b], rounds + [r];
    forall x, y | 0 <= x && y == x + 1 < |ms| ensures ms[x].open != [] && RoundOk(c, ms[x], rs[x], ms[y]) {
      if y < |moments| {
        assert RoundOk(c, moments[x], rounds[x], moments[y]);
      }
    }
  }

  // ----- the records are exact -----

  ghost predicate FlipOk(c: Config, f: Flip) {
    && f.choice.position < |f.log| && f.hash == HashOf(c, f.log, f.choice)
    && c.world.solve(f.call, f.log, f.choice).Some?
  }

  function HashesOf(flips: seq<Flip>): (hs: seq<nat>)
    ensures |hs| == |flips|
  {
    seq(|flips|, i requires 0 <= i < |flips| => flips[i].hash)
  }

  /** Some simulation recorded the hash. */
  ghost predicate IsRecorded(c: Config, sims: seq<seq<string>>, h: nat) {
    exists k | 0 <= k < |sims| :: h in P.Recorded(c.table, c.world.simulate(sims[k]))
  }

  /** Some simulation went through the statement. */
  ghost predicate IsLogged(c: Config, sims: seq<seq<string>>, id: nat) {
    exists k | 0 <= k < |sims| :: id in P.Statements(c.world.simulate(sims[k]))
  }

  ghost predicate IsFlipped(flips: seq<Flip>, id: nat) {
    exists k | 0 <= k < |flips| :: flips[k].choice.alt == id
  }

  ghost predicate HasHash(flips: seq<Flip>, h: nat) {
    exists k | 0 <= k < |flips| :: flips[k].hash == h
  }

  /** The tried hashes are those recorded by simulations and those of flips; the covered statements are those a
      simulation went through and the alternatives of flips. */
  ghost predicate Accounted(c: Config, sims: seq<seq<string>>, flips: seq<Flip>, tried: set<nat>, covered: set<nat>) {
    && (forall h :: h in tried <==> IsRecorded(c, sims, h) || HasHash(flips, h))
    && (forall id :: id in covered <==> IsLogged(c, sims, id) || IsFlipped(flips, id))
    && (forall k | 0 <= k < |flips| :: FlipOk(c, flips[k]))
    && Distinct(HashesOf(flips))
  }

  lemma OneMoreSim(c: Config, sims: seq<seq<string>>, flips: seq<Flip>, tried: set<nat>, covered: set<nat>,
                   rows: seq<string>)
    requires Accounted(c, sims, flips, tried, covered)
    ensures var log := c.world.simulate(rows);
            Accounted(c, sims + [rows], flips, tried + P.Recorded(c.table, log), covered + P.Statements(log))
  {
    var sims', log := sims + [rows], c.world.simulate(rows);
    assert sims'[|sims|] == rows && forall k | 0 <= k < |sims| :: sims'[k] == sims[k];
    forall h ensures IsRecorded(c, sims', h) <==> IsRecorded(c, sims, h) || h in P.Recorded(c.table, log) {
      if k :| 0 <= k < |sims'| && h in P.Recorded(c.table, c.world.simulate(sims'[k])) {
        assert k < |sims| ==> sims'[k] == sims[k];
      }
      if k :| 0 <= k < |sims| && h in P.Recorded(c.table, c.world.simulate(sims[k])) {
        assert sims'[k] == sims[k];
      }
    }
    forall id ensures IsLogged(c, sims', id) <==> IsLogged(c, sims, id) || id in P.Statements(log) {
      if k :| 0 <= k < |sims'| && id in P.Statements(c.world.simulate(sims'[k])) {
        assert k < |sims| ==> sims'[k] == sims[k];
      }
      if k :| 0 <= k < |sims| && id in P.Statements(c.world.simulate(sims[k])) {
        assert sims'[k] == sims[k];
      }
    }
  }

  lemma OneMoreFlip(c: Config, sims: seq<seq<string>>, flips: seq<Flip>, tried: set<nat>, covered: set<nat>, f: Flip)
    requires Accounted(c, sims, flips, tried, covered) && FlipOk(c, f) && f.hash !in tried
    ensures Accounted(c, sims, flips + [f], tried + {f.hash}, covered + {f.choice.alt})
  {
    forall h ensures HasHash(flips + [f], h) <==> HasHash(flips, h) || h == f.hash {
      HashSnoc(flips, f, h);
    }
    forall id ensures IsFlipped(flips + [f], id) <==> IsFlipped(flips, id) || id == f.choice.alt {
      FlippedSnoc(flips, f, id);
    }
    forall k | 0 <= k < |flips| ensures HashesOf(flips)[k] != f.hash {
      assert HasHash(flips, flips[k].hash);
    }
    assert HashesOf(flips + [f]) == HashesOf(flips) + [f.hash];
  }

  lemma HashSnoc(flips: seq<Flip>, f: Flip, h: nat)
    ensures HasHash(flips + [f], h) <==> HasHash(flips, h) || h == f.hash
  {
    var longer := flips + [f];
    assert longer[|flips|] == f;
    if k :| 0 <= k < |flips| && flips[k].hash == h {
      assert longer[k].hash == h;
    }
  }

  lemma FlippedSnoc(flips: seq<Flip>, f: Flip, id: nat)
    ensures IsFlipped(flips + [f], id) <==> IsFlipped(flips, id) || id == f.choice.alt
  {
    var longer := flips + [f];
    assert longer[|flips|] == f;
    if k :| 0 <= k < |flips| && flips[k].choice.alt == id {
      assert longer[k].choice.alt == id;
    }
  }

  /** There are at most 2^32 flips. */
  lemma FlipsAreBounded(c: Config, sims: seq<seq<string>>, flips: seq<Flip>, tried: set<nat>, covered: set<nat>)
    requires Accounted(c, sims, flips, tried, covered)
    ensures |flips| <= UINT_RANGE
  {
    forall h | h in HashesOf(flips) ensures h < UINT_RANGE {
      var k :| 0 <= k < |flips| && HashesOf(flips)[k] == h;
      assert FlipOk(c, flips[k]);
    }
    P.FlipBound(HashesOf(flips));
  }

  /** An alternative is refused exactly when its sum equals that of a recorded prefix or of an earlier flip. */
  lemma RefusedIff(c: Config, sims: seq<seq<string>>, flips: seq<Flip>, tried: set<nat>, covered: set<nat>,
                   log: seq<P.Logged>, p: nat, alt: nat, added: nat)
    requires Accounted(c, sims, flips, tried, covered)
    requires p < |log| && log[p].Statement? && log[p].isBranch && added == c.table[alt % 16384] * p
    ensures HashOf(c, log, Candidate(p, alt)) in tried <==>
              var sum := (P.BranchSum(c.table, log[..p]) + added) % 0x1_0000_0000;
              SumRecorded(c, sims, sum) || HasHash(flips, sum)
  {
    P.AltHashIsSum(c.table, log, p, alt, added);
    var sum := (P.BranchSum(c.table, log[..p]) + added) % 0x1_0000_0000;
    SumRecordedIff(c, sims, sum);
  }

  /** Some simulation took branches up to some position with this sum. */
  ghost predicate SumRecorded(c: Config, sims: seq<seq<string>>, sum: nat) {
    exists k, m :: SumAt(c, sims, sum, k, m)
  }

  ghost predicate SumAt(c: Config, sims: seq<seq<string>>, sum: nat, k: nat, m: nat) {
    && k < |sims|
    && var log := c.world.simulate(sims[k]);
       && m < |log| && log[m].Statement? && log[m].isBranch
       && sum == P.BranchSum(c.table, log[..m + 1]) % 0x1_0000_0000
  }

  lemma SumRecordedIff(c: Config, sims: seq<seq<string>>, sum: nat)
    ensures IsRecorded(c, sims, sum) <==> SumRecorded(c, sims, sum)
  {
    if IsRecorded(c, sims, sum) {
      var k :| 0 <= k < |sims| && sum in P.Recorded(c.table, c.world.simulate(sims[k]));
      var log := c.world.simulate(sims[k]);
      P.RecordedAreSums(c.table, log, sum);
      var m: nat :| m < |log| && log[m].Statement? && log[m].isBranch
                 && sum == P.BranchSum(c.table, log[..m + 1]) % 0x1_0000_0000;
      assert SumAt(c, sims, sum, k, m);
    }
    if SumRecorded(c, sims, sum) {
      var k: nat, m: nat :| SumAt(c, sims, sum, k, m);
      P.RecordedAreSums(c.table, c.world.simulate(sims[k]), sum);
    }
  }
}
