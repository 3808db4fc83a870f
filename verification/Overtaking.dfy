/** When a blocking write overtakes a waiting non-blocking one, and that exactness of the encoding
    depends on nothing else. */
module Overtaking {
  import opened Terms
  import opened Encoding

  // ----- traces of the same shape -----

  /** Events of one kind and one target; what they compute may differ. */
  predicate SameKind(e: Event, f: Event) {
    match e
    case Mark(c) => f == e
    case Assign(i, lsb, msb, _, blocking, proc) => f.Assign? && f == e.(rhs := f.rhs)
    case Branch(_, _, proc) => f.Branch? && f.proc == proc
  }

  /** The same writes and branches in the same order, on data of any kind. */
  predicate SameShape(tr: Trace, t: Trace) {
    |tr| == |t| && forall k | 0 <= k < |tr| :: SameKind(tr[k], t[k])
  }

  lemma {:induction false} ShapeDecides(tr: Trace, t: Trace)
    requires SameShape(tr, t)
    ensures Pending(tr) == Pending(t) && NoOvertake(tr) == NoOvertake(t)
  {
    if tr != [] {
      assert SameKind(tr[|tr| - 1], t[|t| - 1]);
      assert SameShape(Front(tr), Front(t));
      ShapeDecides(Front(tr), Front(t));
    }
  }

  /** The blocking write at position p overtakes. */
  predicate OvertakesAt(tr: Trace, p: nat) {
    p < |tr| && tr[p].Assign? && tr[p].blocking && tr[p].reg in Pending(tr[..p])
  }

  lemma {:induction false} SomeOvertakes(tr: Trace) returns (p: nat)
    requires !NoOvertake(tr)
    ensures OvertakesAt(tr, p)
  {
    if NoOvertake(Front(tr)) {
      p := |tr| - 1;
      assert tr[..p] == Front(tr);
    } else {
      p := SomeOvertakes(Front(tr));
      assert Front(tr)[..p] == tr[..p];
    }
  }

  // ----- the data that shows it -----

  function Ones(n: nat): (b: Bits)
    ensures |b| == n
  {
    seq(n, _ => true)
  }

  /** Non-blocking writes write ones, blocking writes zeros, and branches are always taken. */
  function Telling(e: Event): (e': Event)
    ensures SameKind(e, e')
  {
    match e
    case Mark(_) => e
    case Assign(_, lsb, msb, _, blocking, _) =>
      var w := if lsb <= msb then msb - lsb + 1 else 0;
      e.(rhs := Num(if blocking then Zeros(w) else Ones(w)))
    case Branch(_, _, proc) => Branch(Num([]), Num([]), proc)
  }

  function TellingTrace(tr: Trace): (t: Trace)
    ensures SameShape(tr, t)
  {
    seq(|tr|, k requires 0 <= k < |tr| => Telling(tr[k]))
  }

  lemma TellingFront(d: Design, tr: Trace)
    requires TraceOk(d, tr) && FullWidth(d, tr)
    ensures TraceOk(d, TellingTrace(tr)) && FullWidth(d, TellingTrace(tr))
    ensures tr != [] ==> TraceOk(d, Front(tr)) && FullWidth(d, Front(tr)) && EventOk(d, Last(tr))
    ensures tr != [] ==> Front(TellingTrace(tr)) == TellingTrace(Front(tr))
    ensures tr != [] ==> Last(TellingTrace(tr)) == Telling(Last(tr))
  {
    var t := TellingTrace(tr);
    forall e | e in t ensures EventOk(d, e) && (e.Assign? ==> e.msb - e.lsb == d.regWidth[e.reg] - 1) {
      var k :| 0 <= k < |t| && t[k] == e;
      assert tr[k] in tr && SameKind(tr[k], e);
    }
    if tr != [] {
      assert Last(tr) in tr;
    }
  }

  /** Only updates of whole registers by ones are waiting, and each pending register has one. */
  ghost predicate OnesWait(d: Design, us: seq<Update>, pending: set<nat>) {
    && (forall u | u in us :: u.reg < |d.regWidth| && u.lsb == 0 && u.bits == Ones(d.regWidth[u.reg]))
    && forall i | i in pending :: exists u | u in us :: u.reg == i
  }

  lemma {:induction false} TellingRun(d: Design, tr: Trace, inputs: Inputs, ip: Interp)
    requires TraceOk(d, tr) && FullWidth(d, tr)
    ensures Follows(d, TellingTrace(tr), inputs, ip)
    ensures OnesWait(d, Run(d, TellingTrace(tr), inputs, ip).waiting, Pending(tr))
  {
    if tr != [] {
      TellingFront(d, tr);
      TellingRun(d, Front(tr), inputs, ip);
      var us := Run(d, TellingTrace(Front(tr)), inputs, ip).waiting;
      var e := Last(tr);
      assert e in tr;
      if e.Assign? && !e.blocking {
        OnesWaitSnoc(d, us, Pending(Front(tr)), Update(e.reg, e.lsb, Ones(d.regWidth[e.reg])));
      }
    }
  }

  lemma OnesWaitSnoc(d: Design, us: seq<Update>, pending: set<nat>, u: Update)
    requires OnesWait(d, us, pending) && u.reg < |d.regWidth| && u.lsb == 0 && u.bits == Ones(d.regWidth[u.reg])
    ensures OnesWait(d, us + [u], pending + {u.reg})
  {
    forall i | i in pending + {u.reg} ensures exists x | x in us + [u] :: x.reg == i {
      if i == u.reg {
        assert u in us + [u];
      } else {
        var x :| x in us && x.reg == i;
        assert x in us + [u];
      }
    }
  }

  lemma SpliceWhole(b: Bits, x: Bits)
    requires |b| == |x|
    ensures Splice(b, 0, x) == x
  {
  }

  /** The waiting ones land. */
  lemma {:induction false} OnesLand(d: Design, cur: seq<Bits>, us: seq<Update>, i: nat)
    requires OnesWait(d, us, {i}) && i < |cur| == |d.regWidth| && |cur[i]| == d.regWidth[i]
    ensures Flush(cur, us)[i] == Ones(d.regWidth[i])
  {
    var x :| x in us && x.reg == i;
    var u := Last(us);
    FlushWidths(cur, Front(us));
    assert u in us && Flush(cur, us) == ApplyUpdate(Flush(cur, Front(us)), u);
    if u.reg == i {
      SpliceWhole(Flush(cur, Front(us))[i], u.bits);
    } else {
      assert x in Front(us) && forall y | y in Front(us) :: y in us;
      OnesLand(d, cur, Front(us), i);
    }
  }

  // ----- what follows -----

  /** The encoding of a trace is exact: its typed models are its runs. */
  ghost predicate Exact(d: Design, tr: Trace, ip: Interp)
    requires TraceOk(d, tr)
  {
    forall val | Typed(d, val) :: Sat(InitFormulas(d) + Encode(d, tr), val, ip) <==> IsRun(d, tr, val, ip)
  }

  /** The encoding is exact for whatever a trace of this shape computes, up to any position, followed by a mark
      and a branch. */
  ghost predicate ExactForShape(d: Design, tr: Trace, ip: Interp)
    requires TraceOk(d, tr)
  {
    forall t: Trace, n: nat, c: nat, b: Event
      | SameShape(tr, t) && TraceOk(d, t) && 0 <= n <= |t| && b.Branch? && EventOk(d, b) ::
      TraceOk(d, Probe(t, n, c, b)) && Exact(d, Probe(t, n, c, b), ip)
  }

  function Probe(t: Trace, n: nat, c: nat, b: Event): Trace
    requires n <= |t|
  {
    t[..n] + [Mark(c), b]
  }

  lemma ProbeParts(t: Trace, n: nat, c: nat, b: Event)
    requires n <= |t|
    ensures var x := Probe(t, n, c, b);
            && Last(x) == b && Front(x) == t[..n] + [Mark(c)]
            && Last(Front(x)) == Mark(c) && Front(Front(x)) == t[..n]
    ensures n > 0 ==> Last(t[..n]) == t[n - 1] && Front(t[..n]) == t[..n - 1]
  {
  }

  lemma ShapeKeepsWidths(d: Design, tr: Trace, t: Trace)
    requires TraceOk(d, tr) && FullWidth(d, tr) && SameShape(tr, t) && TraceOk(d, t)
    ensures FullWidth(d, t)
  {
    forall e | e in t && e.Assign? ensures e.msb - e.lsb == d.regWidth[e.reg] - 1 {
      var k :| 0 <= k < |t| && t[k] == e;
      assert tr[k] in tr && SameKind(tr[k], e);
    }
  }

  lemma ProbeIsEncodable(d: Design, t: Trace, n: nat, c: nat, b: Event)
    requires TraceOk(d, t) && NoOvertake(t) && FullWidth(d, t) && n <= |t| && b.Branch? && EventOk(d, b)
    ensures var x := Probe(t, n, c, b); TraceOk(d, x) && FullWidth(d, x) && NoOvertake(x)
  {
    var x := Probe(t, n, c, b);
    ProbeParts(t, n, c, b);
    NoOvertakePrefix(t, n);
    assert NoOvertake(Front(x));
    assert forall e | e in x :: e in t || e == Mark(c) || e == b;
  }

  lemma ProbeIsExact(d: Design, t: Trace, n: nat, c: nat, b: Event, ip: Interp)
    requires TraceOk(d, t) && NoOvertake(t) && FullWidth(d, t) && n <= |t| && b.Branch? && EventOk(d, b)
    ensures TraceOk(d, Probe(t, n, c, b)) && Exact(d, Probe(t, n, c, b), ip)
  {
    var x := Probe(t, n, c, b);
    ProbeIsEncodable(d, t, n, c, b);
    forall val | Typed(d, val) ensures Sat(InitFormulas(d) + Encode(d, x), val, ip) <==> IsRun(d, x, val, ip) {
      EncodingExact(d, x, val, ip);
    }
  }

  // ----- the formulas after an overtaking write -----

  /** A branch that asks for ones in register i. */
  function AskOnes(d: Design, i: nat): Event
    requires i < |d.regWidth| && d.regWidth[i] > 0
  {
    Branch(Ref(Reg(i), 0, d.regWidth[i] - 1), Num(Ones(d.regWidth[i])), 0)
  }

  /** Right after a full-width blocking write of zeros and a mark, no model has ones in the register. */
  lemma ZerosAreRead(d: Design, t: Trace, c: nat, val: Valuation, ip: Interp)
    requires t != [] && TraceOk(d, t) && Last(t).Assign? && EventOk(d, Last(t))
    requires Last(t).msb - Last(t).lsb == d.regWidth[Last(t).reg] - 1
    requires Last(t).rhs == Num(Zeros(d.regWidth[Last(t).reg]))
    ensures var x := Probe(t, |t|, c, AskOnes(d, Last(t).reg));
            TraceOk(d, x) && !Sat(InitFormulas(d) + Encode(d, x), val, ip)
  {
    var e, x := Last(t), Probe(t, |t|, c, AskOnes(d, Last(t).reg));
    assert t[..|t|] == t;
    ProbeParts(t, |t|, c, AskOnes(d, e.reg));
    assert forall f | f in x :: f in t || f == Mark(c) || f == Last(x);
    var v := VersionsAfter(d, Front(t));
    var k := v.next[e.reg] + 1;
    var g, h := FormulaOf(d, v, e), FormulaOf(d, VersionsAfter(d, Front(x)), Last(x));
    assert g == Equal(Var(Reg(e.reg), k), Const(Zeros(d.regWidth[e.reg])));
    assert VersionsAfter(d, t).next[e.reg] == k && VersionsAfter(d, Front(x)).curr[e.reg] == k;
    assert h == Equal(Var(Reg(e.reg), k), Const(Ones(d.regWidth[e.reg])));
    assert Encode(d, x) == Encode(d, t) + [h] && Encode(d, t) == Encode(d, Front(t)) + [g];
    NotZerosAndOnes(InitFormulas(d) + Encode(d, x), g, h, d.regWidth[e.reg], val, ip);
  }

  lemma NotZerosAndOnes(fs: seq<Formula>, g: Formula, h: Formula, n: nat, val: Valuation, ip: Interp)
    requires g in fs && h in fs && n > 0
    requires g.left == h.left && g.right == Const(Zeros(n)) && h.right == Const(Ones(n))
    ensures !Sat(fs, val, ip)
  {
    assert Zeros(n)[0] != Ones(n)[0];
    assert !Holds(g, val, ip) || !Holds(h, val, ip);
  }

  /** Ones that wait for a register are read after the mark. */
  lemma OnesAreReadNext(d: Design, t: Trace, r: nat, c: nat, inputs: Inputs, ip: Interp)
    requires TraceOk(d, t) && Follows(d, t, inputs, ip) && r < |d.regWidth| && d.regWidth[r] > 0
    requires OnesWait(d, Run(d, t, inputs, ip).waiting, {r})
    ensures Follows(d, Probe(t, |t|, c, AskOnes(d, r)), inputs, ip)
  {
    var x, st, n := Probe(t, |t|, c, AskOnes(d, r)), Run(d, t, inputs, ip), d.regWidth[r];
    ProbeParts(t, |t|, c, AskOnes(d, r));
    assert t[..|t|] == t;
    RunWidths(d, t, inputs, ip);
    OnesLand(d, st.cur, st.waiting, r);
    assert Run(d, Front(x), inputs, ip).cur[r] == Ones(n) == Slice(Ones(n), 0, n - 1);
  }

  /** The simulation reads ones after the overtaken write has landed. */
  lemma OnesAreRead(d: Design, tr: Trace, p: nat, c: nat, inputs: Inputs, ip: Interp)
    requires TraceOk(d, tr) && FullWidth(d, tr) && OvertakesAt(tr, p)
    ensures EventOk(d, tr[p])
    ensures Follows(d, Probe(TellingTrace(tr), p + 1, c, AskOnes(d, tr[p].reg)), inputs, ip)
  {
    assert tr[p] in tr;
    var r, pre, t := tr[p].reg, tr[..p + 1], TellingTrace(tr[..p + 1]);
    assert forall e | e in pre :: e in tr;
    assert TellingTrace(tr)[..p + 1] == t && t[..p + 1] == t;
    TellingRun(d, pre, inputs, ip);
    TellingFront(d, pre);
    assert Front(pre) == tr[..p] && r in Pending(pre);
    OnesAreReadNext(d, t, r, c, inputs, ip);
  }

  /** The encoder reads the zeros that overtook. */
  lemma ZerosAreReadThere(d: Design, tr: Trace, p: nat, c: nat, val: Valuation, ip: Interp)
    requires TraceOk(d, tr) && FullWidth(d, tr) && OvertakesAt(tr, p)
    ensures EventOk(d, tr[p])
    ensures var x := Probe(TellingTrace(tr), p + 1, c, AskOnes(d, tr[p].reg));
            TraceOk(d, x) && !Sat(InitFormulas(d) + Encode(d, x), val, ip)
  {
    assert tr[p] in tr;
    var pre, t := tr[..p + 1], TellingTrace(tr[..p + 1]);
    assert forall e | e in pre :: e in tr;
    assert TellingTrace(tr)[..p + 1] == t && t[..p + 1] == t;
    TellingFront(d, pre);
    assert Last(t) in t;
    ZerosAreRead(d, t, c, val, ip);
  }

  /** A simulation takes the path, and no valuation at all satisfies its formulas. */
  lemma OvertakingLosesPath(d: Design, tr: Trace, p: nat, c: nat, ip: Interp)
    requires TraceOk(d, tr) && FullWidth(d, tr) && OvertakesAt(tr, p)
    ensures EventOk(d, tr[p]) && TraceOk(d, Probe(TellingTrace(tr), p + 1, c, AskOnes(d, tr[p].reg)))
    ensures var x := Probe(TellingTrace(tr), p + 1, c, AskOnes(d, tr[p].reg));
            && (forall inputs :: Follows(d, x, inputs, ip))
            && (forall val :: !Sat(InitFormulas(d) + Encode(d, x), val, ip))
  {
    assert tr[p] in tr;
    var x := Probe(TellingTrace(tr), p + 1, c, AskOnes(d, tr[p].reg));
    ZerosAreReadThere(d, tr, p, c, (_, _) => [], ip);
    forall inputs ensures Follows(d, x, inputs, ip) {
      OnesAreRead(d, tr, p, c, inputs, ip);
    }
    forall val ensures !Sat(InitFormulas(d) + Encode(d, x), val, ip) {
      ZerosAreReadThere(d, tr, p, c, val, ip);
    }
  }

  /** A path that can be taken and has no model is not encoded exactly. */
  lemma LostPathIsInexact(d: Design, x: Trace, ip: Interp)
    requires TraceOk(d, x) && (forall inputs :: Follows(d, x, inputs, ip))
    requires forall val :: !Sat(InitFormulas(d) + Encode(d, x), val, ip)
    ensures !Exact(d, x, ip)
  {
    var inputs: Inputs := (j: nat, c: nat) => if j < |d.inpWidth| then Zeros(d.inpWidth[j]) else [];
    SimulationGivesRun(d, x, inputs, ip);
  }

  /** Exactness for every trace of a shape depends on the shape alone: with full-width writes the encoding is
      exact, whatever the expressions are, if and only if no blocking write overtakes a non-blocking one. */
  lemma ExactIffNoOvertake(d: Design, tr: Trace, ip: Interp)
    requires TraceOk(d, tr) && FullWidth(d, tr)
    ensures ExactForShape(d, tr, ip) <==> NoOvertake(tr)
  {
    if NoOvertake(tr) {
      forall t: Trace, n: nat, c: nat, b: Event
        | SameShape(tr, t) && TraceOk(d, t) && 0 <= n <= |t| && b.Branch? && EventOk(d, b)
        ensures TraceOk(d, Probe(t, n, c, b)) && Exact(d, Probe(t, n, c, b), ip)
      {
        ShapeDecides(tr, t);
        ShapeKeepsWidths(d, tr, t);
        ProbeIsExact(d, t, n, c, b, ip);
      }
    } else {
      var p := SomeOvertakes(tr);
      OvertakingLosesPath(d, tr, p, 0, ip);
      TellingFront(d, tr);
      LostPathIsInexact(d, Probe(TellingTrace(tr), p + 1, 0, AskOnes(d, tr[p].reg)), ip);
      assert !ExactForShape(d, tr, ip);
    }
  }

  /** A non-blocking 1 to a one-bit register, a blocking 0, a mark, and a branch on 1. */
  const OVERTAKING := [Assign(0, 0, 0, Num([true]), false, 0), Assign(0, 0, 0, Num([false]), true, 0), Mark(1),
                       Branch(Ref(Reg(0), 0, 0), Num([true]), 0)]

  /** A concrete path that every simulation takes, while no valuation satisfies its formulas. */
  lemma OvertakingBreaksEncoding(ip: Interp)
    ensures var d := Design([1], []);
            && TraceOk(d, OVERTAKING) && FullWidth(d, OVERTAKING) && !NoOvertake(OVERTAKING)
            && (forall inputs :: Follows(d, OVERTAKING, inputs, ip))
            && (forall val :: !Sat(InitFormulas(d) + Encode(d, OVERTAKING), val, ip))
  {
    var d, tr := Design([1], []), OVERTAKING[..2];
    assert Front(tr) == OVERTAKING[..1] && Front(OVERTAKING[..1]) == [];
    assert 0 in Pending(OVERTAKING[..1]) && tr[..1] == OVERTAKING[..1] && OvertakesAt(tr, 1);
    assert Ones(1) == [true] && Zeros(1) == [false];
    assert TellingTrace(tr) == tr;
    OvertakingLosesPath(d, tr, 1, 1, ip);
    assert Probe(tr, 2, 1, AskOnes(d, 0)) == OVERTAKING;
    if NoOvertake(OVERTAKING) {
      NoOvertakePrefix(OVERTAKING, 2);
    }
  }
}
