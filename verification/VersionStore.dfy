/** The version counters and the constraint stack, updated in place as the tool does,
    proved against the functions of Encoding and Replay. */
module VersionStore {
  import opened Basics
  import opened Terms
  import opened Encoding
  import opened Replay

  /** One signal: its counters, the solver terms of its versions, and the version at each clock. */
  class SigCore {
    const sig: Sig
    var currVersion: nat
    var nextVersion: nat
    var termStack: seq<Term>
    var versionAtClock: seq<nat>

    /** Every counter is an index into the term stack, and term k is version k of this signal. */
    ghost predicate Valid()
      reads this
    {
      && currVersion < |termStack| && nextVersion < |termStack|
      && forall k | 0 <= k < |termStack| :: termStack[k] == Var(sig, k)
    }

    constructor (sig: Sig, unroll: nat)
      ensures Valid() && this.sig == sig && currVersion == nextVersion == 0
      ensures |termStack| == unroll + 11 && |versionAtClock| == unroll + 10
    {
      this.sig := sig;
      currVersion, nextVersion := 0, 0;
      termStack := seq(unroll + 11, k requires 0 <= k < unroll + 11 => Var(sig, k));
      versionAtClock := seq(unroll + 10, _ => 0);
    }

    method UpdateNextVersion()
      requires Valid()
      modifies this`nextVersion, this`termStack
      ensures Valid() && nextVersion == old(nextVersion) + 1
      ensures old(termStack) <= termStack
    {
      nextVersion := nextVersion + 1;
      if nextVersion == |termStack| {
        termStack := termStack + [Var(sig, nextVersion)];
      }
    }

    method Commit()
      requires Valid()
      modifies this`currVersion
      ensures Valid() && currVersion == nextVersion
    {
      currVersion := nextVersion;
    }

    method GetTerm(atNext: bool) returns (t: Term)
      requires Valid()
      ensures t == Var(sig, if atNext then nextVersion else currVersion)
    {
      t := termStack[if atNext then nextVersion else currVersion];
    }
  }

  /** One entry of the constraint stack; clock marks carry no formula. */
  datatype Constraint = Constraint(event: Event, clock: nat, formula: Option<Formula>)

  /** The stack a trace leaves: each event with the clock of the last mark and its formula. */
  function StackOf(d: Design, tr: Trace): (s: seq<Constraint>)
    requires TraceOk(d, tr)
    ensures |s| == |tr|
  {
    if tr == [] then []
    else
      var v, e := VersionsAfter(d, Front(tr)), Last(tr);
      StackOf(d, Front(tr)) +
      [if e.Mark? then Constraint(e, e.clock, None) else Constraint(e, v.inp, Some(FormulaOf(d, v, e)))]
  }

  /** The formulas among some stack entries, in order. */
  function FormulasIn(s: seq<Constraint>): seq<Formula> {
    if s == [] then []
    else FormulasIn(Front(s)) + if Last(s).formula.Some? then [Last(s).formula.value] else []
  }

  lemma {:induction false} StackPrefix(d: Design, tr: Trace, n: nat)
    requires TraceOk(d, tr) && n <= |tr|
    ensures TraceOk(d, tr[..n]) && StackOf(d, tr)[..n] == StackOf(d, tr[..n])
  {
    if n == |tr| {
      assert tr[..n] == tr && StackOf(d, tr)[..n] == StackOf(d, tr);
    } else {
      StackPrefix(d, Front(tr), n);
      assert Front(tr)[..n] == tr[..n];
    }
  }

  /** The stack stores exactly the formulas of the encoding. */
  lemma {:induction false} StackStoresEncoding(d: Design, tr: Trace)
    requires TraceOk(d, tr)
    ensures FormulasIn(StackOf(d, tr)) == Encode(d, tr)
  {
    if tr != [] {
      StackStoresEncoding(d, Front(tr));
      assert Front(StackOf(d, tr)) == StackOf(d, Front(tr));
    }
  }

  /** A line of the simulation log. */
  datatype LogLine = ClockLine(clock: nat) | AssignLine(id: nat) | StateLine

  predicate LineOk(line: LogLine, table: seq<Event>, clocks: nat) {
    match line
    case ClockLine(c) => c < clocks
    case AssignLine(id) => id < |table| && !table[id].Mark?
    case StateLine => true
  }

  /** The events of some log lines: marks, and the logged statements looked up by id. */
  function EventsOf(lines: seq<LogLine>, table: seq<Event>): (tr: Trace) {
    if lines == [] then []
    else match Last(lines)
      case ClockLine(c) => EventsOf(Front(lines), table) + [Mark(c)]
      case AssignLine(id) => EventsOf(Front(lines), table) + if id < |table| then [table[id]] else []
      case StateLine => EventsOf(Front(lines), table)
  }

  /** The clock of the last clock line before position n, or 0. */
  ghost predicate ClockBefore(log: seq<LogLine>, n: nat, c: nat)
    requires n <= |log|
  {
    || (c == 0 && forall i | 0 <= i < n :: !log[i].ClockLine?)
    || exists j | 0 <= j < n :: log[j] == ClockLine(c) && forall i | j < i < n :: !log[i].ClockLine?
  }

  /** What the log line at position k pushes: a clock line its mark, an assignment line the statement with its
      formula, both at the clock of the last clock line. */
  ghost predicate PushedBy(e: Constraint, log: seq<LogLine>, k: nat, table: seq<Event>)
    requires k < |log|
  {
    && (log[k].ClockLine? ==> e.event == Mark(log[k].clock) && e.formula == None)
    && (log[k].AssignLine? ==> log[k].id < |table| && e.event == table[log[k].id] && e.formula.Some?)
    && ClockBefore(log, k + 1, e.clock)
  }

  /** The stack has exactly one entry for each of the first n lines that is not a state line, in order. */
  ghost predicate LoggedAt(stack: seq<Constraint>, at: seq<nat>, log: seq<LogLine>, n: nat, table: seq<Event>)
    requires n <= |log|
  {
    && Increasing(at, n) && |at| == |stack|
    && (forall k | 0 <= k < n :: k in at <==> !log[k].StateLine?)
    && forall m | 0 <= m < |stack| :: PushedBy(stack[m], log, at[m], table)
  }

  lemma NothingLogged(log: seq<LogLine>, table: seq<Event>)
    ensures EventsOf(log[..0], table) == []
  {
  }

  lemma EventsSnoc(log: seq<LogLine>, n: nat, table: seq<Event>)
    requires n < |log|
    ensures var tr := EventsOf(log[..n], table);
            EventsOf(log[..n + 1], table) ==
              if log[n].ClockLine? then tr + [Mark(log[n].clock)]
              else if log[n].AssignLine? && log[n].id < |table| then tr + [table[log[n].id]]
              else tr
  {
    assert Front(log[..n + 1]) == log[..n] && Last(log[..n + 1]) == log[n];
  }

  lemma StackSnoc(d: Design, tr: Trace, e: Event)
    requires TraceOk(d, tr) && EventOk(d, e)
    ensures TraceOk(d, tr + [e])
    ensures VersionsAfter(d, tr + [e]).inp == if e.Mark? then e.clock else VersionsAfter(d, tr).inp
    ensures var v := VersionsAfter(d, tr);
            StackOf(d, tr + [e]) == StackOf(d, tr) +
              [if e.Mark? then Constraint(e, e.clock, None) else Constraint(e, v.inp, Some(FormulaOf(d, v, e)))]
  {
    assert Front(tr + [e]) == tr && Last(tr + [e]) == e;
  }

  lemma ClockBeforeNext(log: seq<LogLine>, n: nat, c: nat)
    requires n < |log| && ClockBefore(log, n, c)
    ensures ClockBefore(log, n + 1, if log[n].ClockLine? then log[n].clock else c)
  {
    if log[n].ClockLine? {
      assert log[n] == ClockLine(log[n].clock);
    } else if j :| 0 <= j < n && log[j] == ClockLine(c) && forall i | j < i < n :: !log[i].ClockLine? {
      assert forall i | j < i < n + 1 :: !log[i].ClockLine?;
    }
  }

  lemma OneMoreEntry(stack: seq<Constraint>, at: seq<nat>, log: seq<LogLine>, n: nat, table: seq<Event>, e: Constraint)
    requires n < |log| && LoggedAt(stack, at, log, n, table)
    ensures log[n].StateLine? ==> LoggedAt(stack, at, log, n + 1, table)
    ensures !log[n].StateLine? && PushedBy(e, log, n, table) ==> LoggedAt(stack + [e], at + [n], log, n + 1, table)
  {
    IncreasingSnoc(at, n);
    assert forall a | 0 <= a < |at| :: at[a] != n;
    assert forall k | k in at + [n] :: k in at || k == n;
    assert forall k | k in at || k == n :: k in at + [n];
  }

  /** The stack of a log is what its lines push. */
  lemma {:induction false} StackIsLogged(d: Design, log: seq<LogLine>, n: nat, table: seq<Event>, clocks: nat)
    returns (at: seq<nat>)
    requires n <= |log| && forall k | 0 <= k < n :: LineOk(log[k], table, clocks)
    requires forall e | e in table :: EventOk(d, e)
    ensures TraceOk(d, EventsOf(log[..n], table))
    ensures ClockBefore(log, n, VersionsAfter(d, EventsOf(log[..n], table)).inp)
    ensures LoggedAt(StackOf(d, EventsOf(log[..n], table)), at, log, n, table)
    decreases n
  {
    if n == 0 {
      at := [];
      assert log[..0] == [];
    } else {
      hide EventsOf, StackOf, VersionsAfter, TraceOk, LoggedAt, ClockBefore;
      var m := n - 1;
      at := StackIsLogged(d, log, m, table, clocks);
      var tr := EventsOf(log[..m], table);
      var v := VersionsAfter(d, tr);
      EventsSnoc(log, m, table);
      ClockBeforeNext(log, m, v.inp);
      assert LineOk(log[m], table, clocks);
      match log[m]
      case ClockLine(c) =>
        StackSnoc(d, tr, Mark(c));
        OneMoreEntry(StackOf(d, tr), at, log, m, table, Constraint(Mark(c), c, None));
        at := at + [m];
      case AssignLine(id) =>
        assert table[id] in table;
        StackSnoc(d, tr, table[id]);
        OneMoreEntry(StackOf(d, tr), at, log, m, table, Constraint(table[id], v.inp, Some(FormulaOf(d, v, table[id]))));
        at := at + [m];
      case StateLine =>
        OneMoreEntry(StackOf(d, tr), at, log, m, table, Constraint(Mark(0), 0, None));
    }
  }

  /** The lines before the one that ends the simulation, and what they push. */
  ghost predicate IsLogStack(stack: seq<Constraint>, log: seq<LogLine>, simClk: nat, table: seq<Event>) {
    exists end, at :: EndsAt(log, end, simClk) && LoggedAt(stack, at, log, end, table)
  }

  lemma StackOfLog(d: Design, log: seq<LogLine>, end: nat, simClk: nat, table: seq<Event>, clocks: nat)
    requires EndsAt(log, end, simClk) && forall k | 0 <= k < end :: LineOk(log[k], table, clocks)
    requires forall e | e in table :: EventOk(d, e)
    ensures TraceOk(d, EventsOf(log[..end], table))
    ensures IsLogStack(StackOf(d, EventsOf(log[..end], table)), log, simClk, table)
  {
    hide LoggedAt;
    var at := StackIsLogged(d, log, end, table, clocks);
  }

  ghost predicate EndsAt(log: seq<LogLine>, end: nat, simClk: nat)
    ensures EndsAt(log, end, simClk) ==> end < |log|
  {
    end < |log| && log[end] == ClockLine(simClk + 1) && forall k | 0 <= k < end :: log[k] != ClockLine(simClk + 1)
  }

  predicate DistinctMarks(tr: Trace) {
    forall a, b | 0 <= a < b < |tr| && tr[a].Mark? && tr[b].Mark? :: tr[a].clock != tr[b].clock
  }

  /** The first stack entry of a nonzero clock is the mark of that clock. */
  lemma {:induction false} ClockStartsWithMark(d: Design, tr: Trace, p: nat)
    requires TraceOk(d, tr) && p < |tr|
    requires StackOf(d, tr)[p].clock != 0
    ensures exists q | 0 <= q <= p :: tr[q] == Mark(StackOf(d, tr)[p].clock)
  {
    StackPrefix(d, tr, p + 1);
    var c := StackOf(d, tr)[p].clock;
    assert StackOf(d, tr[..p + 1])[p].clock == c;
    assert Front(tr[..p + 1]) == tr[..p];
    if tr[p].Mark? {
      assert tr[p] == Mark(c);
    } else {
      var q := InputClockIsMark(d, tr[..p]);
      assert tr[q] == Mark(c);
    }
  }

  lemma {:induction false} InputClockIsMark(d: Design, tr: Trace) returns (q: nat)
    requires TraceOk(d, tr) && VersionsAfter(d, tr).inp != 0
    ensures q < |tr| && tr[q] == Mark(VersionsAfter(d, tr).inp)
    ensures forall k | q < k < |tr| :: !tr[k].Mark?
  {
    if Last(tr).Mark? {
      q := |tr| - 1;
    } else {
      q := InputClockIsMark(d, Front(tr));
    }
  }

  /** All signals of a design, and the constraints of the last simulation. */
  class Encoder {
    const d: Design
    const unroll: nat
    const edge: set<nat>
    const regs: seq<SigCore>
    const inputs: seq<SigCore>
    var stack: seq<Constraint>
    ghost var versions: Versions
    ghost var trace: Trace

    /** The two signal lists are indexed by the signals they hold, so no object occurs twice. */
    ghost predicate Shape() {
      && |regs| == |d.regWidth| && |inputs| == |d.inpWidth|
      && (forall i | 0 <= i < |regs| :: regs[i].sig == Reg(i))
      && (forall j | 0 <= j < |inputs| :: inputs[j].sig == Inp(j))
    }

    ghost predicate RegHolds(i: nat, v: Versions)
      requires i < |regs|
      reads regs[i]
    {
      && regs[i].Valid() && |regs[i].versionAtClock| == unroll + 10
      && i < |v.curr| && regs[i].currVersion == v.curr[i]
      && i < |v.next| && regs[i].nextVersion == v.next[i]
      && (forall c | c in v.snap :: 
            && c < |regs[i].versionAtClock| && i < |v.snap[c]|
            && regs[i].versionAtClock[c] == v.snap[c][i] < |regs[i].termStack|)
    }

    ghost predicate InputHolds(j: nat, c: nat)
      requires j < |inputs|
      reads inputs[j]
    {
      inputs[j].Valid() && |inputs[j].termStack| >= unroll + 11 && inputs[j].currVersion == c
    }

    /** The counters and snapshots of all signals are those of `versions`. */
    ghost predicate Valid()
      reads this, regs, inputs
    {
      && Shape() && versions.For(d)
      && (forall c | c in versions.snap :: c < unroll + 10 && |versions.snap[c]| == |regs|)
      && (forall i | 0 <= i < |regs| :: RegHolds(i, versions))
      && (forall j | 0 <= j < |inputs| :: InputHolds(j, versions.inp))
    }

    /** The stack is that of the last simulated trace, and its snapshots are kept. */
    ghost predicate Built()
      reads this
    {
      TraceOk(d, trace) && stack == StackOf(d, trace) && versions.snap == VersionsAfter(d, trace).snap
    }

    constructor (d: Design, unroll: nat, edge: set<nat>)
      ensures this.d == d && this.unroll == unroll && this.edge == edge
      ensures Valid() && Built() && versions == FirstVersions(d) && trace == []
    {
      var rs: seq<SigCore>, ins: seq<SigCore> := [], [];
      for i := 0 to |d.regWidth|
        invariant |rs| == i
        invariant forall k | 0 <= k < i ::
          && rs[k].sig == Reg(k) && rs[k].Valid() && rs[k].currVersion == rs[k].nextVersion == 0
          && |rs[k].versionAtClock| == unroll + 10
      {
        var core := new SigCore(Reg(i), unroll);
        rs := rs + [core];
      }
      for j := 0 to |d.inpWidth|
        invariant |ins| == j
        invariant forall k | 0 <= k < |rs| ::
          && rs[k].sig == Reg(k) && rs[k].Valid() && rs[k].currVersion == rs[k].nextVersion == 0
          && |rs[k].versionAtClock| == unroll + 10
        invariant forall k | 0 <= k < j ::
          ins[k].sig == Inp(k) && ins[k].Valid() && ins[k].currVersion == 0 && |ins[k].termStack| == unroll + 11
      {
        var core := new SigCore(Inp(j), unroll);
        ins := ins + [core];
      }
      this.d, this.unroll, this.edge := d, unroll, edge;
      regs, inputs := rs, ins;
      stack, trace, versions := [], [], FirstVersions(d);
    }

    /** `eval_term` with the current clock. */
    method EvalTerm(e: Expr) returns (t: Term)
      requires Valid() && ExprOk(d, e)
      ensures t == TermOf(d, e, versions.Reading)
      decreases e
    {
      match e
      case Num(b) =>
        t := Const(b);
      case Ref(s, lsb, msb) =>
        var core := if s.Reg? then regs[s.i] else inputs[s.j];
        if s.Reg? {
          assert RegHolds(s.i, versions);
        } else {
          assert InputHolds(s.j, versions.inp);
        }
        t := core.GetTerm(false);
        if msb - lsb != d.Width(s) - 1 {
          t := Extract(t, lsb, msb);
        }
      case App(op, args) =>
        var ts: seq<Term> := [];
        ghost var reading := versions.Reading;
        for k := 0 to |args|
          invariant |ts| == k && forall m | 0 <= m < k :: ts[m] == TermOf(d, args[m], reading)
        {
          var u := EvalTerm(args[k]);
          ts := ts + [u];
        }
        t := Apply(op, ts);
        assert ts == seq(|args|, k requires 0 <= k < |args| => TermOf(d, args[k], reading));
    }

    /** `update_term` of a branch. */
    method UpdateBranch(e: Event) returns (f: Formula)
      requires Valid() && EventOk(d, e) && e.Branch?
      ensures f == FormulaOf(d, versions, e)
    {
      var left := EvalTerm(e.lhs);
      var right := EvalTerm(e.value);
      f := Equal(left, right);
    }

    /** `update_term` of an assignment: a new version, the equation, and the commit of a blocking write. */
    method UpdateAssign(e: Event) returns (f: Formula)
      requires Valid() && EventOk(d, e) && e.Assign?
      modifies this`versions, regs[e.reg]
      ensures Valid() && versions == Advance(d, old(versions), e)
      ensures f == FormulaOf(d, old(versions), e)
    {
      var i, core := e.reg, regs[e.reg];
      ghost var before := versions;
      assert RegHolds(i, before);
      core.UpdateNextVersion();
      versions := versions.(next := versions.next[i := versions.next[i] + 1]);
      var left := core.GetTerm(true);
      if e.msb - e.lsb != d.regWidth[i] - 1 {
        left := Extract(left, e.lsb, e.msb);
      }
      forall k | 0 <= k < |regs| ensures RegHolds(k, versions) {
        assert k != i ==> regs[k] != core && RegHolds(k, before);
      }
      var right := EvalTerm(e.rhs);
      SameReadingSameTerms(d, e.rhs, before, versions);
      f := Equal(left, right);
      if e.blocking {
        core.Commit();
        versions := versions.(curr := versions.curr[i := versions.next[i]]);
        forall k | 0 <= k < |regs| ensures RegHolds(k, versions) {
          assert k != i ==> regs[k] != core && RegHolds(k, before);
        }
      }
    }

    method SetInputVersion(c: nat)
      requires Valid() && c < unroll + 11
      modifies this`versions, inputs
      ensures Valid() && versions == old(versions).(inp := c)
    {
      for j := 0 to |inputs|
        modifies inputs
        invariant forall k | 0 <= k < j :: InputHolds(k, c)
        invariant forall k | j <= k < |inputs| :: InputHolds(k, versions.inp)
        invariant forall i | 0 <= i < |regs| :: regs[i] !in inputs && RegHolds(i, versions)
      {
        assert InputHolds(j, versions.inp);
        inputs[j].currVersion := c;
      }
      versions := versions.(inp := c);
      assert forall i | 0 <= i < |regs| && RegHolds(i, old(versions)) :: RegHolds(i, versions);
    }

    method CommitVersions(c: nat)
      requires Valid() && c < unroll + 10
      modifies this`versions, regs
      ensures Valid()
      ensures var v := old(versions); versions == v.(curr := v.next, snap := v.snap[c := v.next])
    {
      ghost var committed := versions.(curr := versions.next, snap := versions.snap[c := versions.next]);
      for i := 0 to |regs|
        modifies regs
        invariant forall j | 0 <= j < |inputs| :: inputs[j] !in regs && InputHolds(j, versions.inp)
        invariant forall k | 0 <= k < i :: RegHolds(k, committed)
        invariant forall k | i <= k < |regs| :: RegHolds(k, versions)
      {
        assert RegHolds(i, versions);
        regs[i].Commit();
        regs[i].versionAtClock := regs[i].versionAtClock[c := regs[i].currVersion];
        assert RegHolds(i, committed);
      }
      versions := committed;
    }

    method RestoreVersions(c: nat)
      requires Valid() && c in versions.snap
      modifies this`versions, regs, inputs
      ensures Valid() && versions == Restore(old(versions), c)
    {
      ghost var restored := versions.(curr := versions.snap[c], next := versions.snap[c]);
      for i := 0 to |regs|
        modifies regs
        invariant forall j | 0 <= j < |inputs| :: inputs[j] !in regs && InputHolds(j, versions.inp)
        invariant forall k | 0 <= k < i :: RegHolds(k, restored)
        invariant forall k | i <= k < |regs| :: RegHolds(k, versions)
      {
        assert RegHolds(i, versions);
        regs[i].currVersion := regs[i].versionAtClock[c];
        regs[i].nextVersion := regs[i].currVersion;
        assert RegHolds(i, restored);
      }
      versions := restored;
      assert Valid();
      SetInputVersion(c);
    }

    method ClearRegisters()
      requires Valid()
      modifies this`versions, regs
      ensures Valid() && versions == FirstVersions(d).(inp := old(versions).inp)
    {
      ghost var first := FirstVersions(d).(inp := versions.inp);
      for i := 0 to |regs|
        modifies regs
        invariant forall j | 0 <= j < |inputs| :: inputs[j] !in regs && InputHolds(j, versions.inp)
        invariant forall k | 0 <= k < i :: RegHolds(k, first)
        invariant forall k | i <= k < |regs| :: RegHolds(k, versions)
      {
        assert RegHolds(i, versions);
        regs[i].currVersion, regs[i].nextVersion := 0, 0;
        assert RegHolds(i, first);
      }
      versions := first;
    }

    method ClearInputs()
      requires Valid()
      modifies this`versions, inputs
      ensures Valid() && versions == old(versions).(inp := 0)
    {
      for j := 0 to |inputs|
        modifies inputs
        invariant forall k | 0 <= k < j :: InputHolds(k, 0)
        invariant forall k | j <= k < |inputs| :: InputHolds(k, versions.inp)
        invariant forall i | 0 <= i < |regs| :: regs[i] !in inputs && RegHolds(i, versions)
      {
        assert InputHolds(j, versions.inp);
        inputs[j].currVersion, inputs[j].nextVersion := 0, 0;
      }
      versions := versions.(inp := 0);
      assert forall i | 0 <= i < |regs| && RegHolds(i, old(versions)) :: RegHolds(i, versions);
    }

    method ClearAllVersions()
      requires Valid()
      modifies this`versions, regs, inputs
      ensures Valid() && versions == FirstVersions(d)
    {
      ClearRegisters();
      ClearInputs();
    }

    /** `update_term`, whichever kind of statement it is called on. */
    method UpdateTerm(e: Event) returns (f: Formula)
      requires Valid() && EventOk(d, e) && !e.Mark?
      modifies this`versions, regs
      ensures Valid() && versions == Advance(d, old(versions), e)
      ensures f == FormulaOf(d, old(versions), e)
    {
      if e.Assign? {
        f := UpdateAssign(e);
      } else {
        f := UpdateBranch(e);
      }
    }

    lemma Extended(e: Event)
      requires TraceOk(d, trace)
      ensures Front(trace + [e]) == trace && Last(trace + [e]) == e
    {
    }

    /** A clock line: the mark is pushed, the inputs move to the clock, the registers commit. */
    method PushMark(c: nat)
      requires Valid() && Built() && versions == VersionsAfter(d, trace) && c < unroll + 10
      modifies this`versions, this`stack, this`trace, regs, inputs
      ensures Valid() && Built() && versions == VersionsAfter(d, trace)
      ensures trace == old(trace) + [Mark(c)] && versions.inp == c
    {
      Extended(Mark(c));
      stack := stack + [Constraint(Mark(c), c, None)];
      SetInputVersion(c);
      CommitVersions(c);
      trace := trace + [Mark(c)];
    }

    /** An assignment line: `create_constraint`. */
    method PushConstraint(clock: nat, e: Event)
      requires Valid() && Built() && versions == VersionsAfter(d, trace)
      requires EventOk(d, e) && !e.Mark? && clock == versions.inp
      modifies this`versions, this`stack, this`trace, regs
      ensures Valid() && Built() && versions == VersionsAfter(d, trace)
      ensures trace == old(trace) + [e] && versions.inp == clock
    {
      Extended(e);
      var f := UpdateTerm(e);
      stack := stack + [Constraint(e, clock, Some(f))];
      trace := trace + [e];
    }

    /** `build_stack`, from cleared versions: reads the log up to the mark after `simClk`. */
    method BuildStack(log: seq<LogLine>, table: seq<Event>, simClk: nat)
      requires Valid() && versions == FirstVersions(d)
      requires ClockLine(simClk + 1) in log
      requires forall k | 0 <= k < EndOf(log, simClk) :: LineOk(log[k], table, unroll + 10)
      requires forall e | e in table :: EventOk(d, e)
      modifies this`versions, this`stack, this`trace, regs, inputs
      ensures Valid() && Built() && versions == VersionsAfter(d, trace)
      ensures trace == EventsOf(log[..EndOf(log, simClk)], table)
      ensures IsLogStack(stack, log, simClk, table)
    {
      hide EventsOf, IsLogStack;
      stack, trace := [], [];
      EndOfIsFirst(log, simClk);
      NothingLogged(log, table);
      var clock, k := 0, 0;
      while true
        invariant 0 <= k <= EndOf(log, simClk)
        invariant Valid() && Built() && versions == VersionsAfter(d, trace) && clock == versions.inp
        invariant trace == EventsOf(log[..k], table)
        decreases EndOf(log, simClk) - k
      {
        EventsSnoc(log, k, table);
        match log[k] {
          case ClockLine(c) =>
            clock := c;
            if c == simClk + 1 {
              break;
            }
            PushMark(c);
          case AssignLine(id) =>
            assert table[id] in table;
            PushConstraint(clock, table[id]);
          case StateLine =>
        }
        k := k + 1;
      }
      StackOfLog(d, log, k, simClk, table, unroll + 10);
    }

    /** `simulate_build_stack` after the simulator has written its log. */
    method SimulateBuildStack(log: seq<LogLine>, table: seq<Event>, simClk: nat)
      requires Valid()
      requires ClockLine(simClk + 1) in log
      requires forall k | 0 <= k < EndOf(log, simClk) :: LineOk(log[k], table, unroll + 10)
      requires forall e | e in table :: EventOk(d, e)
      modifies this`versions, this`stack, this`trace, regs, inputs
      ensures Valid() && Built()
      ensures trace == EventsOf(log[..EndOf(log, simClk)], table)
      ensures FormulasIn(stack) == Encode(d, trace) && IsLogStack(stack, log, simClk, table)
    {
      ClearAllVersions();
      BuildStack(log, table, simClk);
      StackStoresEncoding(d, trace);
    }

    /** The constraints from after the mark up to p, replayed for the process of the branch. */
    method ReplayUpTo(from: nat, p: nat, target: nat) returns (fs: seq<Formula>)
      requires Valid() && TraceOk(d, trace) && stack == StackOf(d, trace)
      requires from <= p <= |trace| && TraceOk(d, trace[from..p]) && NoMarks(trace[from..p])
      modifies this`versions, regs
      ensures Valid() && (versions, fs) == Replayed(d, old(versions), trace[from..p], edge, target)
      ensures versions.snap == old(versions).snap
      ensures forall ix | ReplayedAt(ix, trace[from..p], edge, target) ::
                var events := Pick(trace[from..p], ix);
                TraceOk(d, events) && NoMarks(events) && (versions, fs) == Updated(d, old(versions), events)
    {
      fs := [];
      var k := from;
      while k != p
        invariant from <= k <= p && TraceOk(d, trace[from..k]) && NoMarks(trace[from..k])
        invariant Valid() && (versions, fs) == Replayed(d, old(versions), trace[from..k], edge, target)
        invariant versions.snap == old(versions).snap
        decreases p - k
      {
        EntriesAreEvents(d, trace, k);
        var e := stack[k].event;
        assert trace[from..p][k - from] == e;
        assert trace[from..k + 1] == trace[from..k] + [e] && Front(trace[from..k + 1]) == trace[from..k];
        if e.proc !in edge || e.proc == target {
          var f := UpdateTerm(e);
          fs := fs + [f];
        }
        k := k + 1;
      }
      ReplayUpdatesKept(d, old(versions), trace[from..p], edge, target);
      forall ix | ReplayedAt(ix, trace[from..p], edge, target)
        ensures Pick(trace[from..p], ix) == Kept(trace[from..p], edge, target)
      {
        ReplayedAtIsKept(ix, trace[from..p], edge, target);
      }
    }

    /** The first query loop: the stored formulas of the clocks before that of constraint p. */
    method StoredBefore(p: nat) returns (fs: seq<Formula>, q: nat)
      requires TraceOk(d, trace) && stack == StackOf(d, trace) && DistinctMarks(trace)
      requires p < |stack| && !stack[p].event.Mark? && stack[p].clock != 0
      ensures q < p && trace[q] == Mark(stack[p].clock) && NoMarks(trace[q + 1..p])
      ensures Mark(stack[p].clock) !in trace[q + 1..]
      ensures TraceOk(d, trace[..q]) && fs == Encode(d, trace[..q])
    {
      EntriesAreEvents(d, trace, p);
      fs, q := [], 0;
      while stack[q].clock != stack[p].clock
        invariant 0 <= q <= p
        invariant forall m | 0 <= m < q :: stack[m].clock != stack[p].clock
        invariant fs == FormulasIn(stack[..q])
        decreases p - q
      {
        assert Front(stack[..q + 1]) == stack[..q];
        if stack[q].formula.Some? {
          fs := fs + [stack[q].formula.value];
        }
        q := q + 1;
      }
      MarkComesFirst(d, trace, q, p);
      StackPrefix(d, trace, q);
      StackStoresEncoding(d, trace[..q]);
    }

    /** The query loops of `find_next_cfg` for the constraint at p and an alternative of its branch:
        stored formulas up to the clock's mark, then the replay up to p, then the alternative. What other
        edge-triggered processes do in the clock leaves no trace in the query. */
    method BuildQuery(p: nat, alt: Event) returns (query: seq<Formula>, q: nat)
      requires Valid() && Built() && DistinctMarks(trace)
      requires p < |stack| && stack[p].event.Branch? && stack[p].clock != 0
      requires alt.Branch? && EventOk(d, alt) && alt.proc == stack[p].event.proc
      modifies this`versions, regs, inputs
      ensures Valid() && Built()
      ensures q < p && trace[q] == Mark(stack[p].clock) && NoMarks(trace[q + 1..p])
      ensures Mark(stack[p].clock) !in trace[q + 1..]
      ensures stack[p].clock in old(versions).snap && Restore(old(versions), stack[p].clock).For(d)
      ensures TraceOk(d, trace[..q]) && TraceOk(d, trace[q + 1..p])
      ensures query == FlipQuery(d, trace[..q], stack[p].clock, trace[q + 1..p], old(versions), edge, alt)
      ensures AsksFor(d, query, trace[..q], stack[p].clock, trace[q + 1..p], edge, alt)
      ensures AsksWithoutOthers(d, query, trace[..q], stack[p].clock, trace[q + 1..p], edge, alt)
    {
      var stored, k := StoredBefore(p);
      q := k;
      SnapshotThere(d, trace, q, stack[p].clock);
      RestoreVersions(stack[p].clock);
      var replayed := ReplayUpTo(q + 1, p, stack[p].event.proc);
      var last := UpdateBranch(alt);
      query := InitFormulas(d) + stored + replayed + [last];
      QueryAsksFor(d, trace, old(versions), q, p, stack[p].clock, edge, alt);
    }
  }

  /** Where the log line that ends the simulation is. */
  function EndOf(log: seq<LogLine>, simClk: nat): (k: nat)
    requires ClockLine(simClk + 1) in log
    ensures k < |log|
  {
    if log[0] == ClockLine(simClk + 1) then 0 else 1 + EndOf(log[1..], simClk)
  }

  lemma {:induction false} EndOfIsFirst(log: seq<LogLine>, simClk: nat)
    requires ClockLine(simClk + 1) in log
    ensures log[EndOf(log, simClk)] == ClockLine(simClk + 1)
    ensures forall k | 0 <= k < EndOf(log, simClk) :: log[k] != ClockLine(simClk + 1)
  {
    if log[0] != ClockLine(simClk + 1) {
      EndOfIsFirst(log[1..], simClk);
    }
  }

  lemma {:induction false} EntriesAreEvents(d: Design, tr: Trace, k: nat)
    requires TraceOk(d, tr) && k < |tr|
    ensures StackOf(d, tr)[k].event == tr[k]
    ensures tr[k].Mark? ==> StackOf(d, tr)[k].clock == tr[k].clock
  {
    if k < |tr| - 1 {
      EntriesAreEvents(d, Front(tr), k);
    }
  }

  /** With distinct marks, the first entry of a clock is its mark and none follows up to p. */
  lemma MarkComesFirst(d: Design, tr: Trace, k: nat, p: nat)
    requires TraceOk(d, tr) && DistinctMarks(tr) && k <= p < |tr| && !tr[p].Mark?
    requires StackOf(d, tr)[p].clock != 0
    requires StackOf(d, tr)[k].clock == StackOf(d, tr)[p].clock
    requires forall m | 0 <= m < k :: StackOf(d, tr)[m].clock != StackOf(d, tr)[k].clock
    ensures k < p && tr[k] == Mark(StackOf(d, tr)[p].clock)
    ensures NoMarks(tr[k + 1..p]) && forall m | k < m < |tr| :: tr[m] != tr[k]
  {
    var c := StackOf(d, tr)[p].clock;
    ClockStartsWithMark(d, tr, k);
    var q0 :| 0 <= q0 <= k && tr[q0] == Mark(c);
    EntriesAreEvents(d, tr, q0);
    assert q0 == k;
    StackPrefix(d, tr, p + 1);
    assert Front(tr[..p + 1]) == tr[..p];
    var q := InputClockIsMark(d, tr[..p]);
    assert tr[q] == Mark(c);
    assert q == k;
    forall e | e in tr[k + 1..p] ensures !e.Mark? {
      var m :| 0 <= m < p - k - 1 && tr[k + 1..p][m] == e;
      assert tr[..p][k + 1 + m] == e;
    }
  }

  lemma SnapshotThere(d: Design, tr: Trace, k: nat, c: nat)
    requires TraceOk(d, tr) && k < |tr| && tr[k] == Mark(c)
    requires forall m | k < m < |tr| :: tr[m] != tr[k]
    ensures c in VersionsAfter(d, tr).snap
  {
    SnapshotSurvives(d, tr[..k], c, tr[k + 1..]);
    assert tr[..k] + [Mark(c)] + tr[k + 1..] == tr;
  }

  lemma SplitAtMark(d: Design, tr: Trace, q: nat, p: nat)
    requires TraceOk(d, tr) && q < p < |tr|
    ensures tr[..q] + [tr[q]] + tr[q + 1..] == tr && tr[q + 1..p] <= tr[q + 1..]
    ensures TraceOk(d, tr[..q]) && TraceOk(d, tr[q + 1..]) && TraceOk(d, tr[q + 1..p])
  {
    assert forall e | e in tr[..q] || e in tr[q + 1..] || e in tr[q + 1..p] :: e in tr;
  }

  /** The flip query of a simulated trace, without the events of other edge-triggered processes or with them. */
  lemma QueryAsksFor(d: Design, tr: Trace, v: Versions, q: nat, p: nat, c: nat, edge: set<nat>, alt: Event)
    requires TraceOk(d, tr) && q < p < |tr| && tr[q] == Mark(c) && NoMarks(tr[q + 1..p]) && Mark(c) !in tr[q + 1..]
    requires v.For(d) && v.snap == VersionsAfter(d, tr).snap && alt.Branch? && EventOk(d, alt)
    ensures TraceOk(d, tr[..q]) && TraceOk(d, tr[q + 1..p]) && c in v.snap && Restore(v, c).For(d)
    ensures var query := FlipQuery(d, tr[..q], c, tr[q + 1..p], v, edge, alt);
            && AsksFor(d, query, tr[..q], c, tr[q + 1..p], edge, alt)
            && AsksWithoutOthers(d, query, tr[..q], c, tr[q + 1..p], edge, alt)
  {
    SplitAtMark(d, tr, q, p);
    var mid := tr[q + 1..p];
    NothingLeftOut(mid, edge, alt.proc);
    FlipQueryAsksFor(d, tr[..q], c, tr[q + 1..], mid, v, edge, alt, mid);
    forall small | WithoutOthers(small, mid, edge, alt.proc)
      ensures AsksFor(d, FlipQuery(d, tr[..q], c, mid, v, edge, alt), tr[..q], c, small, edge, alt)
    {
      FlipQueryAsksFor(d, tr[..q], c, tr[q + 1..], mid, v, edge, alt, small);
    }
  }
}
