/** Restoring the versions of a clock, replaying its events up to a branch, and
    the query that asks for the other side of that branch. */
module Replay {
  import opened Basics
  import opened Terms
  import opened Encoding

  /** `restore_versions`: the registers go back to their snapshot, the inputs to the clock. */
  function Restore(v: Versions, c: nat): Versions
    requires c in v.snap
  {
    Versions(v.snap[c], v.snap[c], c, v.snap)
  }

  /** Equal up to the snapshots, which no formula reads. */
  predicate SameReading(v: Versions, w: Versions) {
    v.curr == w.curr && v.next == w.next && v.inp == w.inp
  }

  /** Other edge-triggered processes are skipped when the branch belongs to `target`. */
  predicate IsKept(e: Event, edge: set<nat>, target: nat)
    requires !e.Mark?
  {
    e.proc !in edge || e.proc == target
  }

  ghost predicate NoMarks(tr: Trace) {
    forall e | e in tr :: !e.Mark?
  }

  function Kept(tr: Trace, edge: set<nat>, target: nat): (kept: Trace)
    requires NoMarks(tr)
    ensures forall e | e in kept :: e in tr
  {
    if tr == [] then []
    else
      assert Last(tr) in tr;
      assert forall e | e in Front(tr) :: e in tr;
      Kept(Front(tr), edge, target) + if IsKept(Last(tr), edge, target) then [Last(tr)] else []
  }

  /** Running `update_term` again on the kept events, from versions `v`. */
  function Replayed(d: Design, v: Versions, tr: Trace, edge: set<nat>, target: nat): (r: (Versions, seq<Formula>))
    requires v.For(d) && TraceOk(d, tr) && NoMarks(tr)
    ensures r.0.For(d)
  {
    if tr == [] then (v, [])
    else
      assert Last(tr) in tr;
      var (w, fs) := Replayed(d, v, Front(tr), edge, target);
      if IsKept(Last(tr), edge, target)
      then (Advance(d, w, Last(tr)), fs + [FormulaOf(d, w, Last(tr))])
      else (w, fs)
  }

  /** The formulas the stack stores for the kept events of `tr`, simulated after `before`. */
  function Stored(d: Design, before: Trace, tr: Trace, edge: set<nat>, target: nat): seq<Formula>
    requires TraceOk(d, before) && TraceOk(d, tr) && NoMarks(tr)
  {
    if tr == [] then []
    else
      assert Last(tr) in tr;
      Stored(d, before, Front(tr), edge, target) +
      if IsKept(Last(tr), edge, target)
      then [FormulaOf(d, VersionsAfter(d, before + Front(tr)), Last(tr))]
      else []
  }

  /** Edge-triggered processes write only non-blocking. */
  predicate EdgeWritesAreNonBlocking(tr: Trace, edge: set<nat>) {
    forall e | e in tr && e.Assign? && e.proc in edge :: !e.blocking
  }

  /** Each register is driven by one process. */
  predicate OneDriver(tr: Trace) {
    forall e, f | e in tr && f in tr && e.Assign? && f.Assign? && e.reg == f.reg :: e.proc == f.proc
  }

  // ----- restoring -----

  /** A snapshot survives everything simulated after it, as long as the clock is not marked again. */
  lemma {:induction false} SnapshotSurvives(d: Design, before: Trace, c: nat, after: Trace)
    requires TraceOk(d, before) && TraceOk(d, after)
    requires Mark(c) !in after
    ensures var tr := before + [Mark(c)] + after;
            && TraceOk(d, tr)
            && c in VersionsAfter(d, tr).snap
            && VersionsAfter(d, tr).snap[c] == VersionsAfter(d, before + [Mark(c)]).curr
  {
    var tr := before + [Mark(c)] + after;
    if after == [] {
      assert tr == before + [Mark(c)];
      assert Front(tr) == before;
    } else {
      assert Front(tr) == before + [Mark(c)] + Front(after);
      assert Last(after) in after;
      SnapshotSurvives(d, before, c, Front(after));
    }
  }

  /** Restoring a clock gives back the versions held right after its mark,
      whatever the counters were moved to in between. */
  lemma RestoreGivesMarkVersions(d: Design, before: Trace, c: nat, after: Trace, v: Versions)
    requires TraceOk(d, before) && TraceOk(d, after) && Mark(c) !in after
    requires v.snap == VersionsAfter(d, before + [Mark(c)] + after).snap
    ensures c in v.snap && SameReading(Restore(v, c), VersionsAfter(d, before + [Mark(c)]))
  {
    SnapshotSurvives(d, before, c, after);
    assert Front(before + [Mark(c)]) == before;
  }

  // ----- replaying -----

  lemma SameReadingSameTerms(d: Design, e: Expr, v: Versions, w: Versions)
    requires ExprOk(d, e) && v.curr == w.curr && v.inp == w.inp
    ensures TermOf(d, e, v.Reading) == TermOf(d, e, w.Reading)
  {
    TermDependsOnVersions(d, e, v.Reading, w.Reading);
  }

  lemma SameReadingSameFormula(d: Design, e: Event, v: Versions, w: Versions)
    requires v.For(d) && w.For(d) && EventOk(d, e) && !e.Mark?
    requires v.curr == w.curr && v.inp == w.inp
    requires e.Assign? ==> v.next[e.reg] == w.next[e.reg]
    ensures FormulaOf(d, v, e) == FormulaOf(d, w, e)
  {
    match e
    case Assign(_, _, _, rhs, _, _) => SameReadingSameTerms(d, rhs, v, w);
    case Branch(l, r, _) =>
      SameReadingSameTerms(d, l, v, w);
      SameReadingSameTerms(d, r, v, w);
    case Mark(_) =>
  }

  /** Registers written by a skipped event. */
  function Skipped(tr: Trace, edge: set<nat>, target: nat): set<nat> {
    set e | e in tr && e.Assign? && e.proc in edge && e.proc != target :: e.reg
  }

  /** Replaying agrees with the simulation on what is read and on every register no skipped event writes. */
  lemma {:induction false} ReplayTracksSimulation(d: Design, before: Trace, tr: Trace, w: Versions, edge: set<nat>,
                                                  target: nat)
    requires TraceOk(d, before) && TraceOk(d, tr) && NoMarks(tr) && w.For(d)
    requires SameReading(w, VersionsAfter(d, before))
    requires EdgeWritesAreNonBlocking(tr, edge) && OneDriver(tr)
    ensures TraceOk(d, before + tr)
    ensures var v, r := VersionsAfter(d, before + tr), Replayed(d, w, tr, edge, target);
            && r.0.curr == v.curr && r.0.inp == v.inp
            && (forall i | 0 <= i < |d.regWidth| && i !in Skipped(tr, edge, target) :: r.0.next[i] == v.next[i])
            && r.1 == Stored(d, before, tr, edge, target)
  {
    if tr == [] {
      assert before + tr == before;
    } else {
      var f, e := Front(tr), Last(tr);
      assert e in tr && forall x | x in f :: x in tr;
      assert Front(before + tr) == before + f;
      ReplayTracksSimulation(d, before, f, w, edge, target);
      var v, r := VersionsAfter(d, before + f), Replayed(d, w, f, edge, target);
      assert Skipped(f, edge, target) <= Skipped(tr, edge, target);
      if IsKept(e, edge, target) {
        if e.Assign? {
          assert e.reg !in Skipped(f, edge, target);
        }
        SameReadingSameFormula(d, e, r.0, v);
      } else if e.Assign? {
        assert e.reg in Skipped(tr, edge, target);
      }
    }
  }

  /** Replay reproduces the stack: after a restore, `update_term` on the kept events of the clock
      yields exactly the stored formulas, and an alternative branch is translated as the simulation would. */
  lemma ReplayReproducesStack(d: Design, before: Trace, c: nat, tr: Trace, rest: Trace, v: Versions,
                              edge: set<nat>, alt: Event)
    requires TraceOk(d, before) && TraceOk(d, tr) && TraceOk(d, rest) && v.For(d)
    requires NoMarks(tr) && Mark(c) !in rest
    requires v.snap == VersionsAfter(d, before + [Mark(c)] + (tr + rest)).snap
    requires EdgeWritesAreNonBlocking(tr, edge) && OneDriver(tr)
    requires alt.Branch? && EventOk(d, alt)
    ensures c in v.snap && Restore(v, c).For(d) && TraceOk(d, before + [Mark(c)] + tr)
    ensures var marked := before + [Mark(c)];
            var r := Replayed(d, Restore(v, c), tr, edge, alt.proc);
            && r.1 == Stored(d, marked, tr, edge, alt.proc)
            && FormulaOf(d, r.0, alt) == FormulaOf(d, VersionsAfter(d, marked + tr), alt)
  {
    var marked := before + [Mark(c)];
    RestoreGivesMarkVersions(d, before, c, tr + rest, v);
    ReplayTracksSimulation(d, marked, tr, Restore(v, c), edge, alt.proc);
    SameReadingSameFormula(d, alt, Replayed(d, Restore(v, c), tr, edge, alt.proc).0, VersionsAfter(d, marked + tr));
  }

  /** The run of `a` reads what the run of `b` reads, and is possible when that of `b` is. */
  ghost predicate ReadsAlike(d: Design, a: Trace, b: Trace, inputs: Inputs, ip: Interp) {
    && Run(d, a, inputs, ip).cur == Run(d, b, inputs, ip).cur
    && Run(d, a, inputs, ip).clock == Run(d, b, inputs, ip).clock
    && (Follows(d, b, inputs, ip) ==> Follows(d, a, inputs, ip))
  }

  /** An event done in both runs, or a non-blocking one done in the second only, keeps them alike. */
  lemma OneMoreEvent(d: Design, a: Trace, b: Trace, e: Event, inputs: Inputs, ip: Interp)
    requires EventOk(d, e) && !e.Mark? && ReadsAlike(d, a, b, inputs, ip)
    ensures ReadsAlike(d, a + [e], b + [e], inputs, ip)
    ensures !(e.Assign? && e.blocking) ==> ReadsAlike(d, a, b + [e], inputs, ip)
  {
    RunSnoc(d, a, e, inputs, ip);
    RunSnoc(d, b, e, inputs, ip);
    SameReadSameStep(d, e, Run(d, a, inputs, ip), inputs, Run(d, b, inputs, ip), inputs, ip);
  }

  /** Skipping is harmless for what is read: the kept events alone give every register the value
      it has in the full simulation at that point of the clock. */
  lemma {:induction false} SkippingChangesNothingRead(d: Design, before: Trace, tr: Trace, edge: set<nat>, target: nat,
                                                      inputs: Inputs, ip: Interp)
    requires TraceOk(d, tr) && NoMarks(tr) && EdgeWritesAreNonBlocking(tr, edge)
    ensures ReadsAlike(d, before + Kept(tr, edge, target), before + tr, inputs, ip)
  {
    var kept := before + Kept(tr, edge, target);
    if tr == [] {
      assert kept == before + tr;
    } else {
      var f, e := Front(tr), Last(tr);
      assert e in tr && forall x | x in f :: x in tr;
      SkippingChangesNothingRead(d, before, f, edge, target, inputs, ip);
      var kept0 := before + Kept(f, edge, target);
      OneMoreEvent(d, kept0, before + f, e, inputs, ip);
      assert before + tr == before + f + [e];
      assert kept == if IsKept(e, edge, target) then kept0 + [e] else kept0;
    }
  }

  // ----- which events are replayed -----

  /** The positions of the events of a clock that are replayed for a branch of process `target`: those of processes
      that are not edge-triggered, and those of the target itself. */
  ghost predicate ReplayedAt(ix: seq<nat>, tr: Trace, edge: set<nat>, target: nat) {
    && Increasing(ix, |tr|)
    && forall m | 0 <= m < |tr| :: m in ix <==> !tr[m].Mark? && (tr[m].proc !in edge || tr[m].proc == target)
  }

  /** Exactly these events are kept, in order. */
  lemma {:induction false} KeptAt(tr: Trace, edge: set<nat>, target: nat) returns (ix: seq<nat>)
    requires NoMarks(tr)
    ensures ReplayedAt(ix, tr, edge, target) && Kept(tr, edge, target) == Pick(tr, ix)
  {
    if tr == [] {
      ix := [];
    } else {
      var f, n := Front(tr), |tr| - 1;
      assert tr[n] in tr && forall x | x in f :: x in tr;
      var front := KeptAt(f, edge, target);
      IncreasingSnoc(front, n);
      assert forall m | 0 <= m < n :: f[m] == tr[m];
      assert forall a | 0 <= a < |front| :: front[a] < n;
      ix := if IsKept(tr[n], edge, target) then front + [n] else front;
      assert Pick(tr, front) == Pick(f, front);
    }
  }

  /** There is only one way to choose them. */
  lemma {:induction false} SamePositions(ix: seq<nat>, jx: seq<nat>, n: nat)
    requires Increasing(ix, n) && Increasing(jx, n) && forall m | 0 <= m < n :: m in ix <==> m in jx
    ensures ix == jx
    decreases n
  {
    if n == 0 {
      IncreasingLength(ix, 0);
      IncreasingLength(jx, 0);
    } else {
      var ix' := IncreasingFront(ix, n);
      var jx' := IncreasingFront(jx, n);
      SamePositions(ix', jx', n - 1);
    }
  }

  lemma ReplayedAtIsKept(ix: seq<nat>, tr: Trace, edge: set<nat>, target: nat)
    requires NoMarks(tr) && ReplayedAt(ix, tr, edge, target)
    ensures Kept(tr, edge, target) == Pick(tr, ix)
  {
    var jx := KeptAt(tr, edge, target);
    SamePositions(ix, jx, |tr|);
  }

  /** `small` is `tr` without some events of other edge-triggered processes. */
  ghost predicate WithoutOthers(small: Trace, tr: Trace, edge: set<nat>, target: nat) {
    exists jx :: LeavesOthersOut(jx, small, tr, edge, target)
  }

  ghost predicate LeavesOthersOut(jx: seq<nat>, small: Trace, tr: Trace, edge: set<nat>, target: nat) {
    && Increasing(jx, |tr|) && small == Pick(tr, jx)
    && forall m | 0 <= m < |tr| && m !in jx :: !tr[m].Mark? && tr[m].proc in edge && tr[m].proc != target
  }

  /** Without its last event a trace leaves out the same others. */
  lemma LeavesOutFront(jx: seq<nat>, small: Trace, tr: Trace, edge: set<nat>, target: nat) returns (jx': seq<nat>)
    requires tr != [] && LeavesOthersOut(jx, small, tr, edge, target)
    ensures Increasing(jx', |Front(tr)|) && LeavesOthersOut(jx', Pick(Front(tr), jx'), Front(tr), edge, target)
    ensures small == Pick(Front(tr), jx') + [Last(tr)]
         || (small == Pick(Front(tr), jx') && !Last(tr).Mark? && !IsKept(Last(tr), edge, target))
  {
    var f, n := Front(tr), |tr| - 1;
    jx' := IncreasingFront(jx, n + 1);
    assert forall m | 0 <= m < n :: f[m] == tr[m];
    assert small == Pick(f, jx') + if n in jx then [tr[n]] else [];
  }

  lemma {:induction false} SameKept(jx: seq<nat>, small: Trace, tr: Trace, edge: set<nat>, target: nat)
    requires NoMarks(tr) && LeavesOthersOut(jx, small, tr, edge, target)
    ensures NoMarks(small) && Kept(small, edge, target) == Kept(tr, edge, target)
    decreases |tr|
  {
    if tr != [] {
      var f, e := Front(tr), Last(tr);
      assert e in tr && forall x | x in f :: x in tr;
      var jx' := LeavesOutFront(jx, small, tr, edge, target);
      var small' := Pick(f, jx');
      SameKept(jx', small', f, edge, target);
      KeptOfSnoc(f, e, edge, target);
      KeptOfSnoc(small', e, edge, target);
      assert tr == f + [e];
    }
  }

  lemma KeptOfSnoc(tr: Trace, e: Event, edge: set<nat>, target: nat)
    requires NoMarks(tr) && !e.Mark?
    ensures NoMarks(tr + [e])
    ensures Kept(tr + [e], edge, target) == Kept(tr, edge, target) + if IsKept(e, edge, target) then [e] else []
  {
    assert Front(tr + [e]) == tr && Last(tr + [e]) == e;
  }

  /** `update_term` on a list of events, one after the other. */
  function Updated(d: Design, v: Versions, tr: Trace): (r: (Versions, seq<Formula>))
    requires v.For(d) && TraceOk(d, tr) && NoMarks(tr)
    ensures r.0.For(d)
  {
    if tr == [] then (v, [])
    else
      assert Last(tr) in tr;
      var (w, fs) := Updated(d, v, Front(tr));
      (Advance(d, w, Last(tr)), fs + [FormulaOf(d, w, Last(tr))])
  }

  lemma UpdatedSnoc(d: Design, v: Versions, tr: Trace, e: Event)
    requires v.For(d) && TraceOk(d, tr) && NoMarks(tr) && EventOk(d, e) && !e.Mark?
    ensures TraceOk(d, tr + [e]) && NoMarks(tr + [e])
    ensures var (w, fs) := Updated(d, v, tr);
            Updated(d, v, tr + [e]) == (Advance(d, w, e), fs + [FormulaOf(d, w, e)])
  {
    assert Front(tr + [e]) == tr && Last(tr + [e]) == e;
  }

  /** Replaying means updating on the kept events, and on no others. */
  lemma {:induction false} ReplayUpdatesKept(d: Design, v: Versions, tr: Trace, edge: set<nat>, target: nat)
    requires v.For(d) && TraceOk(d, tr) && NoMarks(tr)
    ensures TraceOk(d, Kept(tr, edge, target)) && NoMarks(Kept(tr, edge, target))
    ensures Replayed(d, v, tr, edge, target) == Updated(d, v, Kept(tr, edge, target))
  {
    if tr != [] {
      var f, e := Front(tr), Last(tr);
      assert e in tr && forall x | x in f :: x in tr;
      ReplayUpdatesKept(d, v, f, edge, target);
      UpdatedSnoc(d, v, Kept(f, edge, target), e);
      var kept := Kept(f, edge, target);
      assert Kept(tr, edge, target) == if IsKept(e, edge, target) then kept + [e] else kept;
    }
  }

  // ----- the flip query -----

  /** The query for an alternative: the encoding of the events before the clock, of its mark, of the replayed events
      of the clock up to the branch, and of the alternative. */
  ghost predicate AsksFor(d: Design, query: seq<Formula>, before: Trace, c: nat, tr: Trace, edge: set<nat>, alt: Event)
    requires alt.Branch?
  {
    exists ix | ReplayedAt(ix, tr, edge, alt.proc) :: Encodes(d, query, before + [Mark(c)] + Pick(tr, ix) + [alt])
  }

  ghost predicate Encodes(d: Design, query: seq<Formula>, tr: Trace) {
    TraceOk(d, tr) && query == InitFormulas(d) + Encode(d, tr)
  }

  /** The same whichever events of other edge-triggered processes are left out. */
  ghost predicate AsksWithoutOthers(d: Design, query: seq<Formula>, before: Trace, c: nat, tr: Trace, edge: set<nat>,
                                    alt: Event)
    requires alt.Branch?
  {
    forall small | WithoutOthers(small, tr, edge, alt.proc) :: AsksFor(d, query, before, c, small, edge, alt)
  }

  lemma FlipQueryAsksFor(d: Design, before: Trace, c: nat, after: Trace, tr: Trace, v: Versions, edge: set<nat>,
                         alt: Event, small: Trace)
    requires TraceOk(d, before) && TraceOk(d, after) && Mark(c) !in after && v.For(d)
    requires tr <= after && NoMarks(tr) && alt.Branch? && EventOk(d, alt)
    requires v.snap == VersionsAfter(d, before + [Mark(c)] + after).snap
    requires WithoutOthers(small, tr, edge, alt.proc)
    ensures c in v.snap && Restore(v, c).For(d) && TraceOk(d, tr)
    ensures AsksFor(d, FlipQuery(d, before, c, tr, v, edge, alt), before, c, small, edge, alt)
  {
    FlipQueryEncodesFlipped(d, before, c, after, tr, v, edge, alt);
    var jx :| LeavesOthersOut(jx, small, tr, edge, alt.proc);
    SameKept(jx, small, tr, edge, alt.proc);
    var ix := KeptAt(small, edge, alt.proc);
    assert Encodes(d, FlipQuery(d, before, c, tr, v, edge, alt), before + [Mark(c)] + Pick(small, ix) + [alt]);
  }

  lemma NothingLeftOut(tr: Trace, edge: set<nat>, target: nat)
    ensures WithoutOthers(tr, tr, edge, target)
  {
    var jx := seq(|tr|, a requires 0 <= a < |tr| => a);
    forall m | 0 <= m < |tr| ensures m in jx {
      assert jx[m] == m;
    }
    assert LeavesOthersOut(jx, tr, tr, edge, target);
  }

  /** The formulas asserted to look for the other side of a branch: the initial ones, the stored ones
      of the clocks before c, the replayed ones of clock c, and the alternative's. */
  function FlipQuery(d: Design, before: Trace, c: nat, tr: Trace, v: Versions, edge: set<nat>, alt: Event): seq<Formula>
    requires TraceOk(d, before) && TraceOk(d, tr) && NoMarks(tr) && EventOk(d, alt) && alt.Branch?
    requires c in v.snap && Restore(v, c).For(d)
  {
    var r := Replayed(d, Restore(v, c), tr, edge, alt.proc);
    InitFormulas(d) + Encode(d, before) + r.1 + [FormulaOf(d, r.0, alt)]
  }

  /** The events the query is about: everything before the clock, its mark, the kept events, the alternative. */
  function Flipped(before: Trace, c: nat, tr: Trace, edge: set<nat>, alt: Event): Trace
    requires NoMarks(tr) && alt.Branch?
  {
    before + [Mark(c)] + Kept(tr, edge, alt.proc) + [alt]
  }

  lemma {:induction false} ReplayEncodesKept(d: Design, before: Trace, tr: Trace, w: Versions, edge: set<nat>,
                                             target: nat)
    requires TraceOk(d, before) && TraceOk(d, tr) && NoMarks(tr) && w.For(d)
    requires SameReading(w, VersionsAfter(d, before))
    ensures var kept, r := before + Kept(tr, edge, target), Replayed(d, w, tr, edge, target);
            && TraceOk(d, kept)
            && SameReading(r.0, VersionsAfter(d, kept))
            && Encode(d, kept) == Encode(d, before) + r.1
  {
    if tr == [] {
      assert before + Kept(tr, edge, target) == before;
    } else {
      var f, e := Front(tr), Last(tr);
      assert e in tr && forall x | x in f :: x in tr;
      ReplayEncodesKept(d, before, f, w, edge, target);
      var kept, kept' := before + Kept(f, edge, target), before + Kept(tr, edge, target);
      if IsKept(e, edge, target) {
        assert Front(kept') == kept && Last(kept') == e;
        SameReadingSameFormula(d, e, Replayed(d, w, f, edge, target).0, VersionsAfter(d, kept));
      } else {
        assert kept' == kept;
      }
    }
  }

  /** The flip query is the encoding of the kept events followed by the alternative. */
  lemma FlipQueryEncodesFlipped(d: Design, before: Trace, c: nat, after: Trace, tr: Trace, v: Versions,
                                edge: set<nat>, alt: Event)
    requires TraceOk(d, before) && TraceOk(d, after) && Mark(c) !in after && v.For(d)
    requires tr <= after && NoMarks(tr) && alt.Branch? && EventOk(d, alt)
    requires v.snap == VersionsAfter(d, before + [Mark(c)] + after).snap
    ensures c in v.snap && Restore(v, c).For(d) && TraceOk(d, Flipped(before, c, tr, edge, alt)) && TraceOk(d, tr)
    ensures FlipQuery(d, before, c, tr, v, edge, alt) == InitFormulas(d) + Encode(d, Flipped(before, c, tr, edge, alt))
  {
    var marked := before + [Mark(c)];
    assert Front(marked) == before;
    assert forall e | e in tr :: e in after;
    RestoreGivesMarkVersions(d, before, c, after, v);
    ReplayEncodesKept(d, marked, tr, Restore(v, c), edge, alt.proc);
    var r := Replayed(d, Restore(v, c), tr, edge, alt.proc);
    var kept := marked + Kept(tr, edge, alt.proc);
    assert Front(Flipped(before, c, tr, edge, alt)) == kept;
    SameReadingSameFormula(d, alt, r.0, VersionsAfter(d, kept));
  }

  lemma KeepOneMore(a: Trace, b: Trace, e: Event)
    requires NoOvertake(a) && NoOvertake(b + [e]) && Pending(a) <= Pending(b) && !e.Mark?
    ensures NoOvertake(a + [e]) && Pending(a + [e]) <= Pending(b + [e]) && Pending(a) <= Pending(b + [e])
  {
    Snoc(a, e);
    Snoc(b, e);
  }

  lemma KeptSnoc(before: Trace, tr: Trace, edge: set<nat>, target: nat)
    requires tr != [] && NoMarks(tr)
    ensures NoMarks(Front(tr)) && !Last(tr).Mark? && before + tr == before + Front(tr) + [Last(tr)]
    ensures var kept := before + Kept(Front(tr), edge, target);
            before + Kept(tr, edge, target) == if IsKept(Last(tr), edge, target) then kept + [Last(tr)] else kept
  {
    assert Last(tr) in tr && forall x | x in Front(tr) :: x in tr;
  }

  lemma {:induction false} KeepingNeverOvertakes(before: Trace, tr: Trace, edge: set<nat>, target: nat)
    requires NoMarks(tr) && NoOvertake(before + tr)
    ensures NoOvertake(before + Kept(tr, edge, target))
    ensures Pending(before + Kept(tr, edge, target)) <= Pending(before + tr)
  {
    if tr == [] {
      assert before + Kept(tr, edge, target) == before + tr;
    } else {
      var f, e := Front(tr), Last(tr);
      KeptSnoc(before, tr, edge, target);
      Snoc(before + f, e);
      KeepingNeverOvertakes(before, f, edge, target);
      KeepOneMore(before + Kept(f, edge, target), before + f, e);
    }
  }

  /** The flip query is sound and complete: a valuation satisfies it if and only if running the kept events
      concretely on its inputs, from zero, takes every kept branch and then the alternative. */
  lemma FlipQueryExact(d: Design, before: Trace, c: nat, after: Trace, tr: Trace, v: Versions,
                       edge: set<nat>, alt: Event, val: Valuation, ip: Interp)
    requires TraceOk(d, before) && TraceOk(d, after) && Mark(c) !in after && v.For(d)
    requires tr <= after && NoMarks(tr) && alt.Branch? && EventOk(d, alt)
    requires v.snap == VersionsAfter(d, before + [Mark(c)] + after).snap
    requires NoOvertake(before + [Mark(c)] + tr) && FullWidth(d, before) && FullWidth(d, after) && Typed(d, val)
    ensures c in v.snap && Restore(v, c).For(d) && TraceOk(d, tr) && TraceOk(d, Flipped(before, c, tr, edge, alt))
    ensures var flipped, inputs := Flipped(before, c, tr, edge, alt), InputsOf(val);
            Sat(FlipQuery(d, before, c, tr, v, edge, alt), val, ip) <==>
              && ZeroAtStart(d, inputs)
              && Agrees(val, Written(d, flipped, inputs, ip))
              && forall p | 0 <= p < |flipped| :: Happens(Run(d, flipped[..p], inputs, ip), flipped[p], inputs, ip)
  {
    FlipQueryEncodesFlipped(d, before, c, after, tr, v, edge, alt);
    var flipped := Flipped(before, c, tr, edge, alt);
    assert Front(flipped) == before + [Mark(c)] + Kept(tr, edge, alt.proc);
    KeepingNeverOvertakes(before + [Mark(c)], tr, edge, alt.proc);
    assert forall e | e in tr :: e in after;
    EncodingExact(d, flipped, val, ip);
    FollowsEverywhere(d, flipped, InputsOf(val), ip);
  }
}
