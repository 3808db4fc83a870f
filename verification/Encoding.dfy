/** Traces of a simulation, their translation into formulas over versioned
    signals, their concrete execution, and the proof that the two agree. */
module Encoding {
  import opened Terms

  /** One line of the simulation log: a clock mark, a write or a taken branch.
      `proc` is the process the statement belongs to. */
  datatype Event =
    | Mark(clock: nat)
    | Assign(reg: nat, lsb: nat, msb: nat, rhs: Expr, blocking: bool, proc: nat)
    | Branch(lhs: Expr, value: Expr, proc: nat)

  type Trace = seq<Event>

  function Front<T>(s: seq<T>): seq<T>
    requires s != []
  {
    s[..|s| - 1]
  }

  function Last<T>(s: seq<T>): T
    requires s != []
  {
    s[|s| - 1]
  }

  predicate EventOk(d: Design, e: Event) {
    match e
    case Mark(_) => true
    case Assign(i, lsb, msb, rhs, _, _) => i < |d.regWidth| && lsb <= msb < d.regWidth[i] && ExprOk(d, rhs)
    case Branch(l, r, _) => ExprOk(d, l) && ExprOk(d, r)
  }

  predicate TraceOk(d: Design, tr: Trace) {
    forall e | e in tr :: EventOk(d, e)
  }

  /** Every write covers its whole register. */
  predicate FullWidth(d: Design, tr: Trace)
    requires TraceOk(d, tr)
  {
    forall e | e in tr && e.Assign? :: e.msb - e.lsb == d.regWidth[e.reg] - 1
  }

  /** The registers with a non-blocking write since the last clock mark. */
  function Pending(tr: Trace): set<nat> {
    if tr == [] then {}
    else match Last(tr)
      case Mark(_) => {}
      case Assign(i, _, _, _, false, _) => Pending(Front(tr)) + {i}
      case _ => Pending(Front(tr))
  }

  /** No blocking write overtakes a non-blocking write to the same register. */
  predicate NoOvertake(tr: Trace) {
    tr == [] ||
    (NoOvertake(Front(tr)) &&
     (Last(tr).Assign? && Last(tr).blocking ==> Last(tr).reg !in Pending(Front(tr))))
  }

  /** A register is written in one way only: what lint rules ask of a design. */
  predicate OneKindPerRegister(tr: Trace) {
    forall e, f | e in tr && f in tr && e.Assign? && f.Assign? && e.reg == f.reg :: e.blocking == f.blocking
  }

  /** What lint rules ask for is enough for the encoder's ordering assumption. */
  lemma {:induction false} OneKindNeverOvertakes(tr: Trace)
    requires OneKindPerRegister(tr)
    ensures NoOvertake(tr)
    ensures forall i | i in Pending(tr) :: exists e | e in tr :: e.Assign? && !e.blocking && e.reg == i
  {
    if tr != [] {
      assert forall e | e in Front(tr) :: e in tr;
      OneKindNeverOvertakes(Front(tr));
      assert Last(tr) in tr;
    }
  }

  lemma {:induction false} NoOvertakePrefix(tr: Trace, n: nat)
    requires NoOvertake(tr) && n <= |tr|
    ensures NoOvertake(tr[..n])
  {
    if n == |tr| {
      assert tr[..n] == tr;
    } else {
      NoOvertakePrefix(Front(tr), n);
      assert Front(tr)[..n] == tr[..n];
    }
  }

  // ----- the encoder: version counters and formulas -----

  /** `curr` is read, `next` is written; `snap` keeps `curr` of each clock mark. */
  datatype Versions = Versions(curr: seq<nat>, next: seq<nat>, inp: nat, snap: map<nat, seq<nat>>) {
    predicate For(d: Design) {
      |curr| == |d.regWidth| && |next| == |d.regWidth|
    }

    function Reading(s: Sig): nat {
      match s
      case Reg(i) => if i < |curr| then curr[i] else 0
      case Inp(_) => inp
    }
  }

  function FirstVersions(d: Design): Versions {
    Versions(seq(|d.regWidth|, _ => 0), seq(|d.regWidth|, _ => 0), 0, map[])
  }

  function Advance(d: Design, v: Versions, e: Event): (v': Versions)
    requires v.For(d) && EventOk(d, e)
    ensures v'.For(d)
  {
    match e
    case Mark(c) => Versions(v.next, v.next, c, v.snap[c := v.next])
    case Assign(i, _, _, _, blocking, _) =>
      var newest := v.next[i] + 1;
      Versions(if blocking then v.curr[i := newest] else v.curr, v.next[i := newest], v.inp, v.snap)
    case Branch(_, _, _) => v
  }

  /** The formula a write or a branch adds when the versions are `v`. */
  function FormulaOf(d: Design, v: Versions, e: Event): Formula
    requires v.For(d) && EventOk(d, e) && !e.Mark?
  {
    match e
    case Assign(i, lsb, msb, rhs, _, _) =>
      Equal(SelectTerm(d, Reg(i), v.next[i] + 1, lsb, msb), TermOf(d, rhs, v.Reading))
    case Branch(l, r, _) =>
      Equal(TermOf(d, l, v.Reading), TermOf(d, r, v.Reading))
  }

  function VersionsAfter(d: Design, tr: Trace): (v: Versions)
    requires TraceOk(d, tr)
    ensures v.For(d)
  {
    if tr == [] then FirstVersions(d) else Advance(d, VersionsAfter(d, Front(tr)), Last(tr))
  }

  /** The formulas stored for a whole trace. */
  function Encode(d: Design, tr: Trace): seq<Formula>
    requires TraceOk(d, tr)
  {
    if tr == [] then []
    else if Last(tr).Mark? then Encode(d, Front(tr))
    else Encode(d, Front(tr)) + [FormulaOf(d, VersionsAfter(d, Front(tr)), Last(tr))]
  }

  /** Version 0 of every register and of every input is zero. */
  function InitFormulas(d: Design): seq<Formula> {
    seq(|d.regWidth|, i requires 0 <= i < |d.regWidth| => Equal(Var(Reg(i), 0), Const(Zeros(d.regWidth[i])))) +
    seq(|d.inpWidth|, j requires 0 <= j < |d.inpWidth| => Equal(Var(Inp(j), 0), Const(Zeros(d.inpWidth[j]))))
  }

  // ----- the concrete run: values and the queue of non-blocking updates -----

  datatype Update = Update(reg: nat, lsb: nat, bits: Bits)

  /** The values read now, the non-blocking updates still waiting, and the clock of the inputs read. */
  datatype State = State(cur: seq<Bits>, waiting: seq<Update>, clock: nat)

  /** `inputs(j, c)` is the value of input j during clock c. */
  type Inputs = (nat, nat) -> Bits

  function ApplyUpdate(cur: seq<Bits>, u: Update): (r: seq<Bits>)
    ensures |r| == |cur|
  {
    if u.reg < |cur| then cur[u.reg := Splice(cur[u.reg], u.lsb, u.bits)] else cur
  }

  function Flush(cur: seq<Bits>, us: seq<Update>): (r: seq<Bits>)
    ensures |r| == |cur|
  {
    if us == [] then cur else ApplyUpdate(Flush(cur, Front(us)), Last(us))
  }

  function Read(st: State, inputs: Inputs): Sig -> Bits {
    (s: Sig) => match s
      case Reg(i) => if i < |st.cur| then st.cur[i] else []
      case Inp(j) => inputs(j, st.clock)
  }

  function Step(st: State, e: Event, inputs: Inputs, ip: Interp): (st': State)
    ensures |st'.cur| == |st.cur|
  {
    match e
    case Mark(c) => State(Flush(st.cur, st.waiting), [], c)
    case Assign(i, lsb, _, rhs, blocking, _) =>
      var u := Update(i, lsb, Value(rhs, Read(st, inputs), ip));
      if blocking then st.(cur := ApplyUpdate(st.cur, u)) else st.(waiting := st.waiting + [u])
    case Branch(_, _, _) => st
  }

  function Start(d: Design): State {
    State(seq(|d.regWidth|, i requires 0 <= i < |d.regWidth| => Zeros(d.regWidth[i])), [], 0)
  }

  function Run(d: Design, tr: Trace, inputs: Inputs, ip: Interp): (st: State)
    ensures |st.cur| == |d.regWidth|
  {
    if tr == [] then Start(d) else Step(Run(d, Front(tr), inputs, ip), Last(tr), inputs, ip)
  }

  /** An event can happen as logged: a written value has the width of its target, a branch holds. */
  predicate Happens(st: State, e: Event, inputs: Inputs, ip: Interp) {
    match e
    case Mark(_) => true
    case Assign(_, lsb, msb, rhs, _, _) => |Value(rhs, Read(st, inputs), ip)| == msb - lsb + 1
    case Branch(l, r, _) => Value(l, Read(st, inputs), ip) == Value(r, Read(st, inputs), ip)
  }

  /** The run goes through every event of the trace as logged. */
  predicate Follows(d: Design, tr: Trace, inputs: Inputs, ip: Interp) {
    tr == [] ||
    (Follows(d, Front(tr), inputs, ip) && Happens(Run(d, Front(tr), inputs, ip), Last(tr), inputs, ip))
  }

  /** What register i holds, once pending updates have landed. */
  function Settled(st: State): seq<Bits> {
    Flush(st.cur, st.waiting)
  }

  /** All values given to each register, in order, the initial zero first. */
  function Written(d: Design, tr: Trace, inputs: Inputs, ip: Interp): (h: seq<seq<Bits>>)
    requires TraceOk(d, tr)
    ensures |h| == |d.regWidth|
  {
    if tr == [] then seq(|d.regWidth|, i requires 0 <= i < |d.regWidth| => [Zeros(d.regWidth[i])])
    else
      var h := Written(d, Front(tr), inputs, ip);
      assert EventOk(d, Last(tr));
      match Last(tr)
      case Assign(i, _, _, _, blocking, _) =>
        var st := Run(d, tr, inputs, ip);
        h[i := h[i] + [if blocking then st.cur[i] else Settled(st)[i]]]
      case _ => h
  }

  function InputsOf(val: Valuation): Inputs {
    (j: nat, c: nat) => val(Inp(j), c)
  }

  /** The inputs are zero before the first clock, as the first log mark is `;_C 0`. */
  ghost predicate ZeroAtStart(d: Design, inputs: Inputs) {
    forall j | 0 <= j < |d.inpWidth| :: inputs(j, 0) == Zeros(d.inpWidth[j])
  }

  /** Version k of each register is the k-th value the run gives it. */
  ghost predicate Agrees(val: Valuation, h: seq<seq<Bits>>) {
    forall i, k | 0 <= i < |h| && 0 <= k < |h[i]| :: val(Reg(i), k) == h[i][k]
  }

  /** The valuation is a concrete run of the trace on the valuation's own inputs. */
  ghost predicate IsRun(d: Design, tr: Trace, val: Valuation, ip: Interp)
    requires TraceOk(d, tr)
  {
    && ZeroAtStart(d, InputsOf(val))
    && Follows(d, tr, InputsOf(val), ip)
    && Agrees(val, Written(d, tr, InputsOf(val), ip))
  }

  // ----- the queue of waiting updates -----

  ghost predicate NoneFor(us: seq<Update>, i: nat) {
    forall u | u in us :: u.reg != i
  }

  /** An immediate write to a register without waiting updates and the flush commute. */
  lemma {:induction false} FlushCommutes(cur: seq<Bits>, us: seq<Update>, i: nat, b: Bits)
    requires i < |cur| && NoneFor(us, i)
    ensures Flush(cur, us)[i] == cur[i]
    ensures Flush(cur[i := b], us) == Flush(cur, us)[i := b]
  {
    if us != [] {
      assert Last(us) in us;
      assert forall u | u in Front(us) :: u in us;
      FlushCommutes(cur, Front(us), i, b);
    }
  }

  lemma FlushSnoc(cur: seq<Bits>, us: seq<Update>, u: Update)
    ensures Flush(cur, us + [u]) == ApplyUpdate(Flush(cur, us), u)
  {
    assert Front(us + [u]) == us;
  }

  lemma {:induction false} WaitingIsPending(d: Design, tr: Trace, inputs: Inputs, ip: Interp)
    ensures forall u | u in Run(d, tr, inputs, ip).waiting :: u.reg in Pending(tr)
  {
    if tr != [] {
      WaitingIsPending(d, Front(tr), inputs, ip);
    }
  }

  // ----- versions name the values of the run -----

  /** `curr` is the version being read, `next` the version that will be read after the next mark. */
  lemma {:induction false} VersionsNameValues(d: Design, tr: Trace, inputs: Inputs, ip: Interp)
    requires TraceOk(d, tr) && NoOvertake(tr)
    ensures var v, st, h := VersionsAfter(d, tr), Run(d, tr, inputs, ip), Written(d, tr, inputs, ip);
            && v.inp == st.clock
            && (forall i | 0 <= i < |d.regWidth| ::
                  && v.curr[i] <= v.next[i] && |h[i]| == v.next[i] + 1
                  && h[i][v.curr[i]] == st.cur[i]
                  && h[i][v.next[i]] == Settled(st)[i])
  {
    if tr != [] {
      var f, e := Front(tr), Last(tr);
      assert EventOk(d, e);
      VersionsNameValues(d, f, inputs, ip);
      WaitingIsPending(d, f, inputs, ip);
      var st0 := Run(d, f, inputs, ip);
      if e.Assign? {
        var u := Update(e.reg, e.lsb, Value(e.rhs, Read(st0, inputs), ip));
        if e.blocking {
          assert NoneFor(st0.waiting, e.reg);
          FlushCommutes(st0.cur, st0.waiting, e.reg, Splice(st0.cur[e.reg], u.lsb, u.bits));
        } else {
          FlushSnoc(st0.cur, st0.waiting, u);
        }
      }
    }
  }

  lemma Snoc(tr: Trace, e: Event)
    ensures Front(tr + [e]) == tr && Last(tr + [e]) == e
    ensures NoOvertake(tr + [e]) <==> NoOvertake(tr) && (e.Assign? && e.blocking ==> e.reg !in Pending(tr))
    ensures !e.Mark? ==> Pending(tr + [e]) == Pending(tr) + if e.Assign? && !e.blocking then {e.reg} else {}
  {
  }

  lemma RunSnoc(d: Design, tr: Trace, e: Event, inputs: Inputs, ip: Interp)
    ensures Run(d, tr + [e], inputs, ip) == Step(Run(d, tr, inputs, ip), e, inputs, ip)
    ensures Follows(d, tr + [e], inputs, ip) <==>
            Follows(d, tr, inputs, ip) && Happens(Run(d, tr, inputs, ip), e, inputs, ip)
  {
    Snoc(tr, e);
  }

  // ----- the two directions -----

  lemma InitMeaning(d: Design, val: Valuation, ip: Interp)
    ensures Sat(InitFormulas(d), val, ip) <==>
            ZeroAtStart(d, InputsOf(val)) && forall i | 0 <= i < |d.regWidth| :: val(Reg(i), 0) == Zeros(d.regWidth[i])
  {
    var fs, n := InitFormulas(d), |d.regWidth|;
    if Sat(fs, val, ip) {
      forall i | 0 <= i < n ensures val(Reg(i), 0) == Zeros(d.regWidth[i]) {
        assert fs[i] in fs;
      }
      forall j | 0 <= j < |d.inpWidth| ensures InputsOf(val)(j, 0) == Zeros(d.inpWidth[j]) {
        assert fs[n + j] == Equal(Var(Inp(j), 0), Const(Zeros(d.inpWidth[j])));
        assert fs[n + j] in fs;
      }
    }
    if ZeroAtStart(d, InputsOf(val)) && forall i | 0 <= i < n :: val(Reg(i), 0) == Zeros(d.regWidth[i]) {
      forall k | 0 <= k < |fs| ensures Holds(fs[k], val, ip) {
        if k >= n {
          assert fs[k] == Equal(Var(Inp(k - n), 0), Const(Zeros(d.inpWidth[k - n])));
          assert InputsOf(val)(k - n, 0) == Zeros(d.inpWidth[k - n]);
        }
      }
    }
  }

  /** While a valuation is a run, a term at the current versions means what the run reads. */
  lemma TermReadsRun(d: Design, tr: Trace, e: Expr, val: Valuation, ip: Interp)
    requires TraceOk(d, tr) && NoOvertake(tr) && ExprOk(d, e) && Typed(d, val)
    requires Agrees(val, Written(d, tr, InputsOf(val), ip))
    ensures Meaning(TermOf(d, e, VersionsAfter(d, tr).Reading), val, ip)
         == Value(e, Read(Run(d, tr, InputsOf(val), ip), InputsOf(val)), ip)
  {
    var v, inputs := VersionsAfter(d, tr), InputsOf(val);
    var st := Run(d, tr, inputs, ip);
    VersionsNameValues(d, tr, inputs, ip);
    TermMeaning(d, e, v.Reading, val, ip);
    var viaVersions := Through(val, v.Reading);
    var h := Written(d, tr, inputs, ip);
    forall s | d.Has(s) ensures viaVersions(s) == Read(st, inputs)(s) {
      match s
      case Reg(i) =>
        assert v.Reading(s) == v.curr[i] && h[i][v.curr[i]] == st.cur[i];
        assert val(Reg(i), v.curr[i]) == h[i][v.curr[i]];
      case Inp(j) =>
        assert v.Reading(s) == st.clock;
        assert val(Inp(j), st.clock) == inputs(j, st.clock);
    }
    ValueDependsOnSignals(d, e, viaVersions, Read(st, inputs), ip);
  }

  ghost predicate HistoryWidths(d: Design, h: seq<seq<Bits>>) {
    |h| == |d.regWidth| && forall i, k | 0 <= i < |h| && 0 <= k < |h[i]| :: |h[i][k]| == d.regWidth[i]
  }

  lemma {:induction false} RunWidths(d: Design, tr: Trace, inputs: Inputs, ip: Interp)
    requires TraceOk(d, tr)
    ensures var st, h := Run(d, tr, inputs, ip), Written(d, tr, inputs, ip);
            && (forall i | 0 <= i < |d.regWidth| :: |st.cur[i]| == d.regWidth[i] && |Settled(st)[i]| == d.regWidth[i])
            && HistoryWidths(d, h)
  {
    if tr != [] {
      var e, st0, st := Last(tr), Run(d, Front(tr), inputs, ip), Run(d, tr, inputs, ip);
      assert EventOk(d, e);
      RunWidths(d, Front(tr), inputs, ip);
      FlushWidths(st0.cur, st0.waiting);
      FlushWidths(st.cur, st.waiting);
      assert forall i | 0 <= i < |d.regWidth| :: |st0.cur[i]| == |st.cur[i]| == |Settled(st)[i]|;
      var h0 := Written(d, Front(tr), inputs, ip);
      if e.Assign? {
        assert Written(d, tr, inputs, ip)
            == h0[e.reg := h0[e.reg] + [if e.blocking then st.cur[e.reg] else Settled(st)[e.reg]]];
      } else {
        assert Written(d, tr, inputs, ip) == h0;
      }
    }
  }

  lemma {:induction false} FlushWidths(cur: seq<Bits>, us: seq<Update>)
    ensures forall i | 0 <= i < |cur| :: |Flush(cur, us)[i]| == |cur[i]|
  {
    if us != [] {
      FlushWidths(cur, Front(us));
    }
  }

  /** The formula of the last event says exactly that the run takes the event,
      and, for a write, what the new version holds. */
  lemma LastFormula(d: Design, tr: Trace, val: Valuation, ip: Interp)
    requires tr != [] && TraceOk(d, tr) && NoOvertake(tr) && Typed(d, val) && !Last(tr).Mark?
    requires Agrees(val, Written(d, Front(tr), InputsOf(val), ip))
    ensures EventOk(d, Last(tr))
    ensures var inputs := InputsOf(val);
            var v, st := VersionsAfter(d, Front(tr)), Run(d, Front(tr), inputs, ip);
            Holds(FormulaOf(d, v, Last(tr)), val, ip) <==>
              match Last(tr)
              case Assign(i, lsb, msb, rhs, _, _) =>
                Slice(val(Reg(i), v.next[i] + 1), lsb, msb) == Value(rhs, Read(st, inputs), ip)
              case Branch(_, _, _) => Happens(st, Last(tr), inputs, ip)
              case Mark(_) => true
  {
    var f, e := Front(tr), Last(tr);
    assert EventOk(d, e);
    match e
    case Assign(i, lsb, msb, rhs, _, _) =>
      TermReadsRun(d, f, rhs, val, ip);
      SelectMeaning(d, Reg(i), VersionsAfter(d, f).next[i] + 1, lsb, msb, val, ip);
    case Branch(l, r, _) =>
      TermReadsRun(d, f, l, val, ip);
      TermReadsRun(d, f, r, val, ip);
    case Mark(_) =>
  }

  lemma SatSplit(fs: seq<Formula>, gs: seq<Formula>, val: Valuation, ip: Interp)
    ensures Sat(fs + gs, val, ip) <==> Sat(fs, val, ip) && Sat(gs, val, ip)
  {
    assert forall f | f in fs :: f in fs + gs;
    assert forall g | g in gs :: g in fs + gs;
  }

  /** What the run gives register i by a write is the old value with the selected bits replaced. */
  lemma WrittenValue(d: Design, tr: Trace, inputs: Inputs, ip: Interp)
    requires tr != [] && TraceOk(d, tr) && NoOvertake(tr) && Last(tr).Assign?
    ensures var e := Last(tr);
            var h, st := Written(d, Front(tr), inputs, ip), Run(d, Front(tr), inputs, ip);
            && EventOk(d, e)
            && Written(d, tr, inputs, ip) ==
                 h[e.reg := h[e.reg] + [Splice(Settled(st)[e.reg], e.lsb, Value(e.rhs, Read(st, inputs), ip))]]
  {
    var f, e := Front(tr), Last(tr);
    assert EventOk(d, e);
    var st := Run(d, f, inputs, ip);
    WaitingIsPending(d, f, inputs, ip);
    var u := Update(e.reg, e.lsb, Value(e.rhs, Read(st, inputs), ip));
    if e.blocking {
      assert NoneFor(st.waiting, e.reg);
      FlushCommutes(st.cur, st.waiting, e.reg, []);
    } else {
      FlushSnoc(st.cur, st.waiting, u);
    }
  }

  /** The first versions of the signals in a run are zero. */
  lemma RunIsModelAtStart(d: Design, val: Valuation, ip: Interp)
    requires IsRun(d, [], val, ip)
    ensures Sat(InitFormulas(d), val, ip)
  {
    var h := Written(d, [], InputsOf(val), ip);
    forall i | 0 <= i < |d.regWidth| ensures val(Reg(i), 0) == Zeros(d.regWidth[i]) {
      assert val(Reg(i), 0) == h[i][0];
    }
    InitMeaning(d, val, ip);
  }

  /** The formula of a write holds when the new version is what the run writes. */
  lemma WriteHolds(d: Design, tr: Trace, val: Valuation, ip: Interp)
    requires tr != [] && TraceOk(d, tr) && NoOvertake(tr) && Typed(d, val) && Last(tr).Assign?
    requires IsRun(d, tr, val, ip) && Agrees(val, Written(d, Front(tr), InputsOf(val), ip))
    ensures EventOk(d, Last(tr)) && Holds(FormulaOf(d, VersionsAfter(d, Front(tr)), Last(tr)), val, ip)
  {
    var f, e, inputs := Front(tr), Last(tr), InputsOf(val);
    LastFormula(d, tr, val, ip);
    WrittenValue(d, tr, inputs, ip);
    VersionsNameValues(d, f, inputs, ip);
    RunWidths(d, f, inputs, ip);
    var st, h, h' := Run(d, f, inputs, ip), Written(d, f, inputs, ip), Written(d, tr, inputs, ip);
    var x := Value(e.rhs, Read(st, inputs), ip);
    assert Happens(st, e, inputs, ip);
    SliceOfSplice(Settled(st)[e.reg], e.lsb, x);
    assert h'[e.reg][|h[e.reg]|] == Splice(Settled(st)[e.reg], e.lsb, x);
  }

  /** The run of a trace is a run of its front. */
  lemma RunOfFront(d: Design, tr: Trace, val: Valuation, ip: Interp)
    requires tr != [] && TraceOk(d, tr) && IsRun(d, tr, val, ip)
    ensures IsRun(d, Front(tr), val, ip)
  {
    var h, h' := Written(d, Front(tr), InputsOf(val), ip), Written(d, tr, InputsOf(val), ip);
    assert EventOk(d, Last(tr));
    forall i, k | 0 <= i < |h| && 0 <= k < |h[i]| ensures val(Reg(i), k) == h[i][k] {
      assert h[i] <= h'[i];
      assert h'[i][k] == h[i][k];
    }
  }

  /** The stored formulas hold in every run of the trace, part selects included. */
  lemma {:induction false} RunIsModel(d: Design, tr: Trace, val: Valuation, ip: Interp)
    requires TraceOk(d, tr) && NoOvertake(tr) && Typed(d, val) && IsRun(d, tr, val, ip)
    ensures Sat(InitFormulas(d) + Encode(d, tr), val, ip)
  {
    if tr == [] {
      RunIsModelAtStart(d, val, ip);
      SatSplit(InitFormulas(d), Encode(d, tr), val, ip);
    } else {
      var f, e := Front(tr), Last(tr);
      RunOfFront(d, tr, val, ip);
      RunIsModel(d, f, val, ip);
      if e.Assign? {
        WriteHolds(d, tr, val, ip);
      } else if e.Branch? {
        LastFormula(d, tr, val, ip);
      }
      if !e.Mark? {
        assert EventOk(d, e);
        var g := FormulaOf(d, VersionsAfter(d, f), e);
        SatSplit(InitFormulas(d) + Encode(d, f), [g], val, ip);
        assert InitFormulas(d) + Encode(d, tr) == InitFormulas(d) + Encode(d, f) + [g];
      }
    }
  }

  /** The formula of a full-width write fixes the new version. */
  lemma WriteFixesVersion(d: Design, tr: Trace, val: Valuation, ip: Interp)
    requires tr != [] && TraceOk(d, tr) && NoOvertake(tr) && Typed(d, val) && Last(tr).Assign?
    requires EventOk(d, Last(tr)) && Last(tr).msb - Last(tr).lsb == d.regWidth[Last(tr).reg] - 1
    requires Agrees(val, Written(d, Front(tr), InputsOf(val), ip))
    requires Holds(FormulaOf(d, VersionsAfter(d, Front(tr)), Last(tr)), val, ip)
    ensures var e := Last(tr);
            var y := val(Reg(e.reg), VersionsAfter(d, Front(tr)).next[e.reg] + 1);
            && y == Value(e.rhs, Read(Run(d, Front(tr), InputsOf(val), ip), InputsOf(val)), ip)
            && |y| == d.regWidth[e.reg]
  {
    var e := Last(tr);
    LastFormula(d, tr, val, ip);
    assert d.Has(Reg(e.reg));
    var y := val(Reg(e.reg), VersionsAfter(d, Front(tr)).next[e.reg] + 1);
    WholeSelect(y, y);
  }

  /** When the formula of a full-width write holds, the new version is what the run writes. */
  lemma WriteIsTaken(d: Design, tr: Trace, val: Valuation, ip: Interp)
    requires tr != [] && TraceOk(d, tr) && NoOvertake(tr) && Typed(d, val) && Last(tr).Assign?
    requires EventOk(d, Last(tr)) && Last(tr).msb - Last(tr).lsb == d.regWidth[Last(tr).reg] - 1
    requires IsRun(d, Front(tr), val, ip)
    requires Holds(FormulaOf(d, VersionsAfter(d, Front(tr)), Last(tr)), val, ip)
    ensures IsRun(d, tr, val, ip)
  {
    var f, e, inputs := Front(tr), Last(tr), InputsOf(val);
    WriteFixesVersion(d, tr, val, ip);
    RunWidths(d, f, inputs, ip);
    var st, h := Run(d, f, inputs, ip), Written(d, f, inputs, ip);
    var y, z := val(Reg(e.reg), VersionsAfter(d, f).next[e.reg] + 1), Settled(st)[e.reg];
    assert |h[e.reg]| == VersionsAfter(d, f).next[e.reg] + 1 by {
      VersionsNameValues(d, f, inputs, ip);
    }
    WholeSelect(z, y);
    AgreesSnoc(val, h, e.reg, y);
    assert Written(d, tr, inputs, ip) == h[e.reg := h[e.reg] + [y]] by {
      WrittenValue(d, tr, inputs, ip);
    }
  }

  lemma AgreesSnoc(val: Valuation, h: seq<seq<Bits>>, i: nat, x: Bits)
    requires i < |h| && Agrees(val, h) && val(Reg(i), |h[i]|) == x
    ensures Agrees(val, h[i := h[i] + [x]])
  {
  }

  /** With full-width writes every model of the stored formulas is a run of the trace. */
  lemma {:induction false} ModelIsRun(d: Design, tr: Trace, val: Valuation, ip: Interp)
    requires TraceOk(d, tr) && NoOvertake(tr) && FullWidth(d, tr) && Typed(d, val)
    requires Sat(InitFormulas(d) + Encode(d, tr), val, ip)
    ensures IsRun(d, tr, val, ip)
  {
    if tr == [] {
      SatSplit(InitFormulas(d), Encode(d, tr), val, ip);
      InitMeaning(d, val, ip);
    } else {
      var f, e := Front(tr), Last(tr);
      assert e in tr && EventOk(d, e);
      if e.Mark? {
        ModelIsRun(d, f, val, ip);
      } else {
        var g := FormulaOf(d, VersionsAfter(d, f), e);
        assert InitFormulas(d) + Encode(d, tr) == InitFormulas(d) + Encode(d, f) + [g];
        SatSplit(InitFormulas(d) + Encode(d, f), [g], val, ip);
        ModelIsRun(d, f, val, ip);
        if e.Assign? {
          WriteIsTaken(d, tr, val, ip);
        } else {
          LastFormula(d, tr, val, ip);
        }
      }
    }
  }

  /** The encoding is exact: for full-width writes, a valuation satisfies the initial and the stored
      formulas if and only if it is a concrete run from zero that takes every recorded branch. */
  lemma EncodingExact(d: Design, tr: Trace, val: Valuation, ip: Interp)
    requires TraceOk(d, tr) && NoOvertake(tr) && FullWidth(d, tr) && Typed(d, val)
    ensures Sat(InitFormulas(d) + Encode(d, tr), val, ip) <==> IsRun(d, tr, val, ip)
  {
    if Sat(InitFormulas(d) + Encode(d, tr), val, ip) {
      ModelIsRun(d, tr, val, ip);
    }
    if IsRun(d, tr, val, ip) {
      RunIsModel(d, tr, val, ip);
    }
  }

  lemma {:induction false} FollowsAt(d: Design, tr: Trace, inputs: Inputs, ip: Interp, p: nat)
    requires Follows(d, tr, inputs, ip) && p < |tr|
    ensures Happens(Run(d, tr[..p], inputs, ip), tr[p], inputs, ip)
  {
    if p == |tr| - 1 {
      assert tr[..p] == Front(tr);
    } else {
      FollowsAt(d, Front(tr), inputs, ip, p);
      assert Front(tr)[..p] == tr[..p];
    }
  }

  lemma {:induction false} FollowsIfEverywhere(d: Design, tr: Trace, inputs: Inputs, ip: Interp, n: nat)
    requires n <= |tr|
    requires forall p | 0 <= p < n :: Happens(Run(d, tr[..p], inputs, ip), tr[p], inputs, ip)
    ensures Follows(d, tr[..n], inputs, ip)
  {
    if n > 0 {
      FollowsIfEverywhere(d, tr, inputs, ip, n - 1);
      assert Front(tr[..n]) == tr[..n - 1];
    }
  }

  /** `Follows`, read position by position. */
  lemma FollowsEverywhere(d: Design, tr: Trace, inputs: Inputs, ip: Interp)
    ensures Follows(d, tr, inputs, ip) <==>
            forall p | 0 <= p < |tr| :: Happens(Run(d, tr[..p], inputs, ip), tr[p], inputs, ip)
  {
    if Follows(d, tr, inputs, ip) {
      forall p | 0 <= p < |tr| ensures Happens(Run(d, tr[..p], inputs, ip), tr[p], inputs, ip) {
        FollowsAt(d, tr, inputs, ip, p);
      }
    }
    assert tr[..|tr|] == tr;
    if forall p | 0 <= p < |tr| :: Happens(Run(d, tr[..p], inputs, ip), tr[p], inputs, ip) {
      FollowsIfEverywhere(d, tr, inputs, ip, |tr|);
    }
  }

  // ----- from a run to a valuation -----

  /** The valuation a run gives: version k of a register is its k-th value, version c of an input its value
      in clock c. */
  function RunValuation(d: Design, tr: Trace, inputs: Inputs, ip: Interp): Valuation
    requires TraceOk(d, tr)
  {
    var h := Written(d, tr, inputs, ip);
    (s: Sig, k: nat) => match s
      case Reg(i) => if i < |h| && k < |h[i]| then h[i][k] else if i < |h| then Zeros(d.regWidth[i]) else []
      case Inp(j) => inputs(j, k)
  }

  /** What an event does depends only on what the signals read. */
  lemma SameReadSameStep(d: Design, e: Event, st: State, inputs: Inputs, st': State, inputs': Inputs, ip: Interp)
    requires EventOk(d, e)
    requires forall s | d.Has(s) :: Read(st, inputs)(s) == Read(st', inputs')(s)
    ensures Happens(st, e, inputs, ip) == Happens(st', e, inputs', ip)
    ensures e.Assign? ==> Value(e.rhs, Read(st, inputs), ip) == Value(e.rhs, Read(st', inputs'), ip)
  {
    match e
    case Mark(_) =>
    case Assign(_, _, _, rhs, _, _) =>
      ValueDependsOnSignals(d, rhs, Read(st, inputs), Read(st', inputs'), ip);
    case Branch(l, r, _) =>
      ValueDependsOnSignals(d, l, Read(st, inputs), Read(st', inputs'), ip);
      ValueDependsOnSignals(d, r, Read(st, inputs), Read(st', inputs'), ip);
  }

  lemma {:induction false} SameInputsSameRun(d: Design, tr: Trace, inputs: Inputs, inputs': Inputs, ip: Interp)
    requires TraceOk(d, tr)
    requires forall j, c :: inputs(j, c) == inputs'(j, c)
    ensures Run(d, tr, inputs, ip) == Run(d, tr, inputs', ip)
    ensures Written(d, tr, inputs, ip) == Written(d, tr, inputs', ip)
    ensures Follows(d, tr, inputs, ip) == Follows(d, tr, inputs', ip)
  {
    if tr != [] {
      var f, e := Front(tr), Last(tr);
      assert EventOk(d, e);
      SameInputsSameRun(d, f, inputs, inputs', ip);
      var st := Run(d, f, inputs, ip);
      SameReadSameStep(d, e, st, inputs, st, inputs', ip);
    }
  }

  /** The inputs have their declared widths and are zero at the start. */
  ghost predicate InputsOk(d: Design, inputs: Inputs) {
    ZeroAtStart(d, inputs) && forall j, c | 0 <= j < |d.inpWidth| :: |inputs(j, c)| == d.inpWidth[j]
  }

  /** A simulation that takes the logged branches gives a typed valuation that is a run. */
  lemma SimulationGivesRun(d: Design, tr: Trace, inputs: Inputs, ip: Interp)
    requires TraceOk(d, tr) && InputsOk(d, inputs) && Follows(d, tr, inputs, ip)
    ensures Typed(d, RunValuation(d, tr, inputs, ip)) && IsRun(d, tr, RunValuation(d, tr, inputs, ip), ip)
  {
    var val := RunValuation(d, tr, inputs, ip);
    RunWidths(d, tr, inputs, ip);
    var h := Written(d, tr, inputs, ip);
    forall s, k: nat | d.Has(s) ensures |val(s, k)| == d.Width(s) {
      match s
      case Reg(i) => assert val(s, k) == if k < |h[i]| then h[i][k] else Zeros(d.regWidth[i]);
      case Inp(j) => assert val(s, k) == inputs(j, k) && |inputs(j, k)| == d.inpWidth[j];
    }
    SameInputsSameRun(d, tr, inputs, InputsOf(val), ip);
  }

  /** Every simulation that takes the logged branches yields a model of the stored formulas,
      whatever mix of whole-register and part-select writes it makes. */
  lemma SimulationYieldsModel(d: Design, tr: Trace, inputs: Inputs, ip: Interp)
    requires TraceOk(d, tr) && NoOvertake(tr) && InputsOk(d, inputs) && Follows(d, tr, inputs, ip)
    ensures Sat(InitFormulas(d) + Encode(d, tr), RunValuation(d, tr, inputs, ip), ip)
  {
    SimulationGivesRun(d, tr, inputs, ip);
    RunIsModel(d, tr, RunValuation(d, tr, inputs, ip), ip);
  }

  // ----- where exactness stops -----

  /** The formula of a write fixes the new version exactly when the write covers the register. */
  lemma WritePinsVersionIffFullWidth(width: nat, lsb: nat, msb: nat, x: Bits)
    requires lsb <= msb < width && |x| == msb - lsb + 1
    ensures (forall b: Bits, c: Bits
               | |b| == width && |c| == width && Slice(b, lsb, msb) == x && Slice(c, lsb, msb) == x :: b == c)
       <==> msb - lsb == width - 1
  {
    var b, c := Splice(Zeros(width), lsb, x), Splice(seq(width, _ => true), lsb, x);
    SliceOfSplice(Zeros(width), lsb, x);
    SliceOfSplice(seq(width, _ => true), lsb, x);
    if msb - lsb != width - 1 {
      var k := if lsb > 0 then 0 else width - 1;
      assert !b[k] && c[k];
    }
  }

  /** Flips one bit of version n of register i. */
  function FlipBit(val: Valuation, i: nat, n: nat, bit: nat): Valuation {
    (s: Sig, k: nat) =>
      if s == Reg(i) && k == n && bit < |val(s, k)| then val(s, k)[bit := !val(s, k)[bit]] else val(s, k)
  }

  lemma FlipIsTyped(d: Design, val: Valuation, i: nat, n: nat, bit: nat)
    requires Typed(d, val)
    ensures Typed(d, FlipBit(val, i, n, bit))
  {
    var val' := FlipBit(val, i, n, bit);
    forall s, k: nat | d.Has(s) ensures |val'(s, k)| == d.Width(s) {
      assert |val(s, k)| == d.Width(s);
    }
  }

  /** A valuation that differs from a run in a version the trace does not write yet is a run too. */
  lemma FlipIsRun(d: Design, tr: Trace, val: Valuation, ip: Interp, i: nat, n: nat, bit: nat)
    requires TraceOk(d, tr) && IsRun(d, tr, val, ip)
    requires i < |d.regWidth| && n >= |Written(d, tr, InputsOf(val), ip)[i]|
    ensures IsRun(d, tr, FlipBit(val, i, n, bit), ip)
    ensures Written(d, tr, InputsOf(FlipBit(val, i, n, bit)), ip) == Written(d, tr, InputsOf(val), ip)
  {
    var val' := FlipBit(val, i, n, bit);
    SameInputsSameRun(d, tr, InputsOf(val), InputsOf(val'), ip);
    var h := Written(d, tr, InputsOf(val), ip);
    forall j, k | 0 <= j < |h| && 0 <= k < |h[j]| ensures val'(Reg(j), k) == h[j][k] {
      assert val(Reg(j), k) == h[j][k];
    }
    forall j | 0 <= j < |d.inpWidth| ensures InputsOf(val')(j, 0) == Zeros(d.inpWidth[j]) {
      assert InputsOf(val)(j, 0) == Zeros(d.inpWidth[j]);
    }
  }

  /** Every typed model of the formulas of the trace is a run of it. */
  ghost predicate ModelsAreRuns(d: Design, tr: Trace, ip: Interp)
    requires TraceOk(d, tr)
  {
    forall val | Typed(d, val) && Sat(InitFormulas(d) + Encode(d, tr), val, ip) :: IsRun(d, tr, val, ip)
  }

  lemma FlipOutside(b: Bits, bit: nat, lsb: nat, msb: nat)
    requires bit < |b| && !(lsb <= bit <= msb)
    ensures Slice(b[bit := !b[bit]], lsb, msb) == Slice(b, lsb, msb)
  {
  }

  /** What the last event of a trace writes, on given inputs. */
  function NewValue(d: Design, tr: Trace, inputs: Inputs, ip: Interp): Bits
    requires tr != [] && Last(tr).Assign?
  {
    Value(Last(tr).rhs, Read(Run(d, Front(tr), inputs, ip), inputs), ip)
  }

  lemma SameInputsSameNewValue(d: Design, tr: Trace, inputs: Inputs, inputs': Inputs, ip: Interp)
    requires tr != [] && TraceOk(d, tr) && Last(tr).Assign? && EventOk(d, Last(tr))
    requires forall j, c :: inputs(j, c) == inputs'(j, c)
    ensures NewValue(d, tr, inputs, ip) == NewValue(d, tr, inputs', ip)
  {
    SameInputsSameRun(d, Front(tr), inputs, inputs', ip);
    var st := Run(d, Front(tr), inputs, ip);
    SameReadSameStep(d, Last(tr), st, inputs, st, inputs', ip);
  }

  /** `LastFormula` for a write. */
  lemma LastWrite(d: Design, tr: Trace, val: Valuation, ip: Interp, n: nat)
    requires tr != [] && TraceOk(d, tr) && NoOvertake(tr) && Typed(d, val) && IsRun(d, Front(tr), val, ip)
    requires Last(tr).Assign? && EventOk(d, Last(tr)) && n == VersionsAfter(d, Front(tr)).next[Last(tr).reg] + 1
    ensures Holds(FormulaOf(d, VersionsAfter(d, Front(tr)), Last(tr)), val, ip) <==>
            Slice(val(Reg(Last(tr).reg), n), Last(tr).lsb, Last(tr).msb) == NewValue(d, tr, InputsOf(val), ip)
  {
    LastFormula(d, tr, val, ip);
  }

  /** The bits a write selects do not notice a flip outside them, so its equation still holds. */
  lemma FlipKeepsWrite(d: Design, tr: Trace, val: Valuation, val': Valuation, ip: Interp, n: nat)
    requires tr != [] && TraceOk(d, tr) && NoOvertake(tr) && Typed(d, val) && Typed(d, val')
    requires IsRun(d, tr, val, ip) && IsRun(d, Front(tr), val', ip)
    requires Last(tr).Assign? && EventOk(d, Last(tr)) && n == VersionsAfter(d, Front(tr)).next[Last(tr).reg] + 1
    requires forall j, c :: InputsOf(val)(j, c) == InputsOf(val')(j, c)
    requires var e := Last(tr); Slice(val'(Reg(e.reg), n), e.lsb, e.msb) == Slice(val(Reg(e.reg), n), e.lsb, e.msb)
    ensures Holds(FormulaOf(d, VersionsAfter(d, Front(tr)), Last(tr)), val', ip)
  {
    RunOfFront(d, tr, val, ip);
    WriteHolds(d, tr, val, ip);
    LastWrite(d, tr, val, ip, n);
    SameInputsSameNewValue(d, tr, InputsOf(val), InputsOf(val'), ip);
    LastWrite(d, tr, val', ip, n);
  }

  /** Two runs of a trace on the same inputs agree on the versions it writes. */
  lemma RunFixesVersions(d: Design, tr: Trace, val: Valuation, val': Valuation, ip: Interp, i: nat, k: nat)
    requires TraceOk(d, tr) && IsRun(d, tr, val, ip) && IsRun(d, tr, val', ip)
    requires forall j, c :: InputsOf(val)(j, c) == InputsOf(val')(j, c)
    requires i < |d.regWidth| && k < |Written(d, tr, InputsOf(val), ip)[i]|
    ensures val(Reg(i), k) == val'(Reg(i), k)
  {
    SameInputsSameRun(d, tr, InputsOf(val), InputsOf(val'), ip);
    assert val(Reg(i), k) == Written(d, tr, InputsOf(val), ip)[i][k] == val'(Reg(i), k);
  }

  /** A model of the front that satisfies the last formula is a model of the whole. */
  lemma ModelSnoc(d: Design, tr: Trace, val: Valuation, ip: Interp)
    requires tr != [] && TraceOk(d, tr) && !Last(tr).Mark? && EventOk(d, Last(tr))
    requires Sat(InitFormulas(d) + Encode(d, Front(tr)), val, ip)
    requires Holds(FormulaOf(d, VersionsAfter(d, Front(tr)), Last(tr)), val, ip)
    ensures Sat(InitFormulas(d) + Encode(d, tr), val, ip)
  {
    var g := FormulaOf(d, VersionsAfter(d, Front(tr)), Last(tr));
    SatSplit(InitFormulas(d) + Encode(d, Front(tr)), [g], val, ip);
    assert InitFormulas(d) + Encode(d, tr) == InitFormulas(d) + Encode(d, Front(tr)) + [g];
  }

  /** The new version of a write: not written before, and written now. */
  lemma NewVersion(d: Design, tr: Trace, val: Valuation, ip: Interp) returns (n: nat)
    requires tr != [] && TraceOk(d, tr) && NoOvertake(tr) && Last(tr).Assign? && EventOk(d, Last(tr))
    ensures n == VersionsAfter(d, Front(tr)).next[Last(tr).reg] + 1
    ensures n == |Written(d, Front(tr), InputsOf(val), ip)[Last(tr).reg]|
    ensures n < |Written(d, tr, InputsOf(val), ip)[Last(tr).reg]|
  {
    n := VersionsAfter(d, Front(tr)).next[Last(tr).reg] + 1;
    VersionsNameValues(d, Front(tr), InputsOf(val), ip);
    VersionsNameValues(d, tr, InputsOf(val), ip);
  }

  /** A run of a trace that ends in a write, with a bit of the new version flipped that the write does not
      select, is still a model. */
  lemma FlipIsModel(d: Design, tr: Trace, val: Valuation, ip: Interp, n: nat, bit: nat)
    requires tr != [] && TraceOk(d, tr) && NoOvertake(tr) && Typed(d, val) && IsRun(d, tr, val, ip)
    requires Last(tr).Assign? && EventOk(d, Last(tr)) && n == VersionsAfter(d, Front(tr)).next[Last(tr).reg] + 1
    requires n == |Written(d, Front(tr), InputsOf(val), ip)[Last(tr).reg]|
    requires bit < d.regWidth[Last(tr).reg] && !(Last(tr).lsb <= bit <= Last(tr).msb)
    ensures Typed(d, FlipBit(val, Last(tr).reg, n, bit))
    ensures Sat(InitFormulas(d) + Encode(d, tr), FlipBit(val, Last(tr).reg, n, bit), ip)
  {
    var f, e := Front(tr), Last(tr);
    var val' := FlipBit(val, e.reg, n, bit);
    assert d.Has(Reg(e.reg)) && |val(Reg(e.reg), n)| == d.regWidth[e.reg];
    FlipOutside(val(Reg(e.reg), n), bit, e.lsb, e.msb);
    RunOfFront(d, tr, val, ip);
    FlipIsTyped(d, val, e.reg, n, bit);
    FlipIsRun(d, f, val, ip, e.reg, n, bit);
    RunIsModel(d, f, val', ip);
    FlipKeepsWrite(d, tr, val, val', ip, n);
    ModelSnoc(d, tr, val', ip);
  }

  /** No run has a written version flipped. */
  lemma FlipIsNoRun(d: Design, tr: Trace, val: Valuation, ip: Interp, i: nat, n: nat, bit: nat)
    requires TraceOk(d, tr) && IsRun(d, tr, val, ip)
    requires i < |d.regWidth| && n < |Written(d, tr, InputsOf(val), ip)[i]| && bit < |val(Reg(i), n)|
    ensures !IsRun(d, tr, FlipBit(val, i, n, bit), ip)
  {
    var val' := FlipBit(val, i, n, bit);
    assert val'(Reg(i), n)[bit] != val(Reg(i), n)[bit];
    if IsRun(d, tr, val', ip) {
      RunFixesVersions(d, tr, val, val', ip, i, n);
    }
  }

  /** After a part-select write that can happen, there is a model that is not a run. */
  lemma PartSelectBreaksExactness(d: Design, tr: Trace, val: Valuation, ip: Interp)
    requires tr != [] && TraceOk(d, tr) && NoOvertake(tr) && Typed(d, val) && IsRun(d, tr, val, ip)
    requires Last(tr).Assign? && EventOk(d, Last(tr)) && Last(tr).msb - Last(tr).lsb < d.regWidth[Last(tr).reg] - 1
    ensures !ModelsAreRuns(d, tr, ip)
  {
    var e := Last(tr);
    var bit := if e.lsb > 0 then 0 else d.regWidth[e.reg] - 1;
    var n := NewVersion(d, tr, val, ip);
    FlipIsModel(d, tr, val, ip, n, bit);
    assert d.Has(Reg(e.reg)) && |val(Reg(e.reg), n)| == d.regWidth[e.reg];
    FlipIsNoRun(d, tr, val, ip, e.reg, n, bit);
  }

  lemma {:induction false} RunOfPrefix(d: Design, tr: Trace, val: Valuation, ip: Interp, n: nat)
    requires TraceOk(d, tr) && NoOvertake(tr) && IsRun(d, tr, val, ip) && n <= |tr|
    ensures TraceOk(d, tr[..n]) && NoOvertake(tr[..n]) && IsRun(d, tr[..n], val, ip)
  {
    if n == |tr| {
      assert tr[..n] == tr;
    } else {
      RunOfFront(d, tr, val, ip);
      RunOfPrefix(d, Front(tr), val, ip, n);
      assert Front(tr)[..n] == tr[..n];
    }
  }

  /** The encoding stays exact throughout a trace that can be run if and only if all its writes are full-width. */
  lemma ExactThroughoutIffFullWidth(d: Design, tr: Trace, val: Valuation, ip: Interp)
    requires TraceOk(d, tr) && NoOvertake(tr) && Typed(d, val) && IsRun(d, tr, val, ip)
    ensures forall n | 0 <= n <= |tr| :: TraceOk(d, tr[..n])
    ensures (forall n | 0 <= n <= |tr| :: ModelsAreRuns(d, tr[..n], ip)) <==> FullWidth(d, tr)
  {
    forall n | 0 <= n <= |tr| ensures TraceOk(d, tr[..n]) {
      RunOfPrefix(d, tr, val, ip, n);
    }
    if FullWidth(d, tr) {
      forall n | 0 <= n <= |tr| ensures ModelsAreRuns(d, tr[..n], ip) {
        RunOfPrefix(d, tr, val, ip, n);
        FullWidthModelsAreRuns(d, tr[..n], ip);
      }
    } else {
      var p := PartSelectBreaksPrefix(d, tr, val, ip);
    }
  }

  lemma PartSelectBreaksPrefix(d: Design, tr: Trace, val: Valuation, ip: Interp) returns (p: nat)
    requires TraceOk(d, tr) && NoOvertake(tr) && Typed(d, val) && IsRun(d, tr, val, ip) && !FullWidth(d, tr)
    ensures p <= |tr| && TraceOk(d, tr[..p]) && !ModelsAreRuns(d, tr[..p], ip)
  {
    var e :| e in tr && e.Assign? && e.msb - e.lsb != d.regWidth[e.reg] - 1;
    assert EventOk(d, e);
    var q :| 0 <= q < |tr| && tr[q] == e;
    p := q + 1;
    RunOfPrefix(d, tr, val, ip, p);
    PartSelectBreaksExactness(d, tr[..p], val, ip);
  }

  lemma FullWidthModelsAreRuns(d: Design, tr: Trace, ip: Interp)
    requires TraceOk(d, tr) && NoOvertake(tr) && FullWidth(d, tr)
    ensures ModelsAreRuns(d, tr, ip)
  {
    forall val | Typed(d, val) && Sat(InitFormulas(d) + Encode(d, tr), val, ip) ensures IsRun(d, tr, val, ip) {
      ModelIsRun(d, tr, val, ip);
    }
  }

  /** A part-select write leaves the other bits of the new version free: a model that is not a run. */
  lemma PartSelectLosesBits(ip: Interp)
    ensures var d, tr := Design([2], []), [Assign(0, 0, 0, Num([true]), true, 0)];
            && TraceOk(d, tr) && NoOvertake(tr)
            && exists val: Valuation ::
                 Typed(d, val) && Sat(InitFormulas(d) + Encode(d, tr), val, ip) && !IsRun(d, tr, val, ip)
  {
    var d, e := Design([2], []), Assign(0, 0, 0, Num([true]), true, 0);
    var tr := [e];
    assert Front(tr) == [];
    var val: Valuation := (s: Sig, k: nat) => if k == 0 then [false, false] else [true, true];
    assert Zeros(2) == [false, false];
    InitMeaning(d, val, ip);
    var g := FormulaOf(d, FirstVersions(d), e);
    assert Encode(d, tr) == [g];
    assert [true, true][0..1] == [true];
    assert Holds(g, val, ip);
    SatSplit(InitFormulas(d), Encode(d, tr), val, ip);
    WrittenValue(d, tr, InputsOf(val), ip);
    var h := Written(d, tr, InputsOf(val), ip);
    assert h[0][1] == [true, false];
    assert val(Reg(0), 1) != h[0][1];
  }

  /** A part-select write of bit 0, then a branch on bit 1. */
  const HALF_WRITTEN := [Assign(0, 0, 0, Num([true]), true, 0), Branch(Ref(Reg(0), 1, 1), Num([true]), 0)]

  /** The free bits can open a path that no simulation takes: the formulas have a model, yet bit 1 is never written. */
  lemma PartSelectAdmitsImpossiblePath(ip: Interp)
    ensures var d := Design([2], []);
            && TraceOk(d, HALF_WRITTEN) && NoOvertake(HALF_WRITTEN)
            && (exists val :: Typed(d, val) && Sat(InitFormulas(d) + Encode(d, HALF_WRITTEN), val, ip))
            && forall inputs :: !Follows(d, HALF_WRITTEN, inputs, ip)
  {
    var d := Design([2], []);
    var tr, e, b := HALF_WRITTEN[..1], HALF_WRITTEN[0], HALF_WRITTEN[1];
    assert Front(tr) == [] && Front(HALF_WRITTEN) == tr && Zeros(2) == [false, false];
    var val: Valuation := (s: Sig, k: nat) => if k == 0 then [false, false] else [true, true];
    InitMeaning(d, val, ip);
    var g, h := FormulaOf(d, FirstVersions(d), e), FormulaOf(d, VersionsAfter(d, tr), b);
    assert Encode(d, HALF_WRITTEN) == Encode(d, tr) + [h] && Encode(d, tr) == [g];
    assert [true, true][0..1] == [true] == [true, true][1..2];
    assert Holds(g, val, ip) && Holds(h, val, ip);
    SatSplit(InitFormulas(d), Encode(d, HALF_WRITTEN), val, ip);
    assert Splice([false, false], 0, [true]) == [true, false] && Slice([true, false], 1, 1) == [false];
    forall inputs ensures !Follows(d, HALF_WRITTEN, inputs, ip) {
      assert Run(d, [], inputs, ip).cur == [[false, false]];
      assert Run(d, tr, inputs, ip).cur == [[true, false]];
    }
  }
}
