/** From the solver's answer to the next simulation: the rows patched with a model of the flip query
    drive the design into the flipped branch. */
module FlipAnswer {
  import opened Basics
  import opened Terms
  import opened Encoding
  import opened Replay
  import opened VersionStore
  import opened Stimulus
  import opened ModelFile
  import opened DataMem

  // ----- what a formula depends on -----

  /** Version k of signal s occurs in the term. */
  predicate Occurs(t: Term, s: Sig, k: nat) {
    match t
    case Const(_) => false
    case Var(s', k') => s == s' && k == k'
    case Extract(u, _, _) => Occurs(u, s, k)
    case Apply(_, args) => exists m | 0 <= m < |args| :: Occurs(args[m], s, k)
  }

  predicate OccursIn(f: Formula, s: Sig, k: nat) {
    Occurs(f.left, s, k) || Occurs(f.right, s, k)
  }

  ghost predicate OccursAmong(fs: seq<Formula>, s: Sig, k: nat) {
    exists f | f in fs :: OccursIn(f, s, k)
  }

  lemma {:induction false} MeaningDependsOnOccurring(t: Term, val: Valuation, val': Valuation, ip: Interp)
    requires forall s, k | Occurs(t, s, k) :: val(s, k) == val'(s, k)
    ensures Meaning(t, val, ip) == Meaning(t, val', ip)
  {
    match t
    case Const(_) =>
    case Var(s, k) => assert Occurs(t, s, k);
    case Extract(u, _, _) =>
      assert forall s, k | Occurs(u, s, k) :: Occurs(t, s, k);
      MeaningDependsOnOccurring(u, val, val', ip);
    case Apply(op, args) =>
      forall m | 0 <= m < |args| ensures Meaning(args[m], val, ip) == Meaning(args[m], val', ip) {
        assert forall s, k | Occurs(args[m], s, k) :: Occurs(t, s, k);
        MeaningDependsOnOccurring(args[m], val, val', ip);
      }
      assert seq(|args|, m requires 0 <= m < |args| => Meaning(args[m], val, ip))
          == seq(|args|, m requires 0 <= m < |args| => Meaning(args[m], val', ip));
  }

  /** Formulas depend only on the versions that occur in them. */
  lemma SatDependsOnOccurring(fs: seq<Formula>, val: Valuation, val': Valuation, ip: Interp)
    requires Sat(fs, val, ip) && forall s, k | OccursAmong(fs, s, k) :: val(s, k) == val'(s, k)
    ensures Sat(fs, val', ip)
  {
    forall f | f in fs ensures Holds(f, val', ip) {
      assert Holds(f, val, ip);
      forall s, k | OccursIn(f, s, k) ensures val(s, k) == val'(s, k) {
        assert OccursAmong(fs, s, k);
      }
      assert forall s, k | Occurs(f.left, s, k) || Occurs(f.right, s, k) :: OccursIn(f, s, k);
      MeaningDependsOnOccurring(f.left, val, val', ip);
      MeaningDependsOnOccurring(f.right, val, val', ip);
    }
  }

  // ----- which inputs occur in a query -----

  lemma {:induction false} TermReadsVersions(d: Design, e: Expr, version: Sig -> nat, s: Sig, k: nat)
    requires ExprOk(d, e) && Occurs(TermOf(d, e, version), s, k)
    ensures d.Has(s) && k == version(s)
  {
    if e.App? {
      var args := TermOf(d, e, version).args;
      var m :| 0 <= m < |args| && Occurs(args[m], s, k);
      TermReadsVersions(d, e.args[m], version, s, k);
    }
  }

  lemma FormulaReadsClock(d: Design, v: Versions, e: Event, j: nat, k: nat)
    requires v.For(d) && EventOk(d, e) && !e.Mark? && OccursIn(FormulaOf(d, v, e), Inp(j), k)
    ensures j < |d.inpWidth| && k == v.inp
  {
    var f := FormulaOf(d, v, e);
    match e
    case Assign(_, _, _, rhs, _, _) =>
      assert !Occurs(f.left, Inp(j), k);
      TermReadsVersions(d, rhs, v.Reading, Inp(j), k);
    case Branch(l, r, _) =>
      if Occurs(f.left, Inp(j), k) {
        TermReadsVersions(d, l, v.Reading, Inp(j), k);
      } else {
        TermReadsVersions(d, r, v.Reading, Inp(j), k);
      }
  }

  ghost predicate MarksUpTo(tr: Trace, limit: nat) {
    forall e | e in tr && e.Mark? :: e.clock <= limit
  }

  /** The inputs in the stored formulas are those of the clocks of the trace. */
  lemma {:induction false} EncodingReadsClocks(d: Design, tr: Trace, limit: nat)
    requires TraceOk(d, tr) && MarksUpTo(tr, limit)
    ensures VersionsAfter(d, tr).inp <= limit
    ensures forall f, j: nat, k: nat | f in Encode(d, tr) && OccursIn(f, Inp(j), k) :: j < |d.inpWidth| && k <= limit
  {
    if tr != [] {
      var front, e := Front(tr), Last(tr);
      assert e in tr && forall x | x in front :: x in tr;
      EncodingReadsClocks(d, front, limit);
      if !e.Mark? {
        assert EventOk(d, e);
        var v := VersionsAfter(d, front);
        var g := FormulaOf(d, v, e);
        forall j: nat, k: nat | OccursIn(g, Inp(j), k) ensures j < |d.inpWidth| && k <= limit {
          FormulaReadsClock(d, v, e, j, k);
        }
        assert forall f | f in Encode(d, tr) :: f in Encode(d, front) || f == g;
      }
    }
  }

  lemma InitReadsZero(d: Design, j: nat, k: nat)
    requires OccursAmong(InitFormulas(d), Inp(j), k)
    ensures j < |d.inpWidth| && k == 0
  {
    var fs, n := InitFormulas(d), |d.regWidth|;
    var f :| f in fs && OccursIn(f, Inp(j), k);
    var m :| 0 <= m < |fs| && fs[m] == f;
    assert m >= n ==> f == Equal(Var(Inp(m - n), 0), Const(Zeros(d.inpWidth[m - n])));
  }

  // ----- rows as inputs -----

  /** Bits of a field, least significant first, and back. */
  function BitsOf(s: string): (b: Bits)
    ensures |b| == |s|
  {
    seq(|s|, k requires 0 <= k < |s| => s[|s| - 1 - k] == '1')
  }

  function DigitsOf(b: Bits): (s: string)
    ensures |s| == |b| && IsBinary(s)
  {
    seq(|b|, k requires 0 <= k < |b| => if b[|b| - 1 - k] then '1' else '0')
  }

  lemma BitsOfDigits(b: Bits)
    ensures BitsOf(DigitsOf(b)) == b
  {
  }

  /** Input j of the design is driven by the field of port `names[j]`. */
  ghost predicate PortsFor(d: Design, names: seq<string>, ports: map<string, SigPos>, width: nat) {
    && PortsOk(ports, width) && |names| == |d.inpWidth|
    && forall j | 0 <= j < |names| :: names[j] in ports && ports[names[j]].width == d.inpWidth[j]
  }

  /** Row c - 1 drives the inputs during clock c; before the first clock they are zero. */
  ghost function RowInputs(d: Design, names: seq<string>, ports: map<string, SigPos>, rows: seq<string>): Inputs {
    (j: nat, c: nat) =>
      if j >= |d.inpWidth| then []
      else if j < |names| && names[j] in ports && 1 <= c <= |rows| && PosOk(ports[names[j]], |rows[c - 1]|)
      then BitsOf(Field(rows[c - 1], ports[names[j]]))
      else Zeros(d.inpWidth[j])
  }

  lemma RowInputsAreTyped(d: Design, names: seq<string>, ports: map<string, SigPos>, rows: seq<string>, width: nat,
                          j: nat, c: nat)
    requires PortsFor(d, names, ports, width) && j < |d.inpWidth|
    ensures |RowInputs(d, names, ports, rows)(j, c)| == d.inpWidth[j]
    ensures c == 0 ==> RowInputs(d, names, ports, rows)(j, c) == Zeros(d.inpWidth[j])
  {
    assert names[j] in ports;
    if 1 <= c <= |rows| && PosOk(ports[names[j]], |rows[c - 1]|) {
      assert RowInputs(d, names, ports, rows)(j, c) == BitsOf(Field(rows[c - 1], ports[names[j]]));
    } else {
      assert RowInputs(d, names, ports, rows)(j, c) == Zeros(d.inpWidth[j]);
    }
  }

  /** The model's lines list every input version that occurs in the formulas, up to the limit. */
  ghost predicate Lists(lines: seq<Line>, names: seq<string>, fs: seq<Formula>, val: Valuation, limit: nat) {
    forall j, k | 0 <= j < |names| && 1 <= k <= limit && OccursAmong(fs, Inp(j), k) ::
      LastValue(lines, names[j], k) == Some(DigitsOf(val(Inp(j), k)))
  }

  /** The patched rows drive the inputs that occur in the formulas as the model says. */
  lemma RowsHoldAnswer(d: Design, names: seq<string>, ports: map<string, SigPos>, width: nat, before: seq<string>,
                       rows: seq<string>, lines: seq<Line>, fs: seq<Formula>, val: Valuation, limit: nat,
                       j: nat, k: nat)
    requires PortsFor(d, names, ports, width) && limit <= |before|
    requires IsPatched(before, rows, lines, ports, limit, width) && Lists(lines, names, fs, val, limit)
    requires j < |d.inpWidth| && 1 <= k <= limit && OccursAmong(fs, Inp(j), k)
    ensures RowInputs(d, names, ports, rows)(j, k) == val(Inp(j), k)
  {
    var r := k - 1;
    assert names[j] in ports && RowOk(rows[r], width);
    assert FieldIsLast(before, rows, lines, ports[names[j]], names[j], r);
    BitsOfDigits(val(Inp(j), k));
  }

  /** The model with its inputs replaced by those of the rows. */
  ghost function Driven(val: Valuation, inputs: Inputs): Valuation {
    (s: Sig, k: nat) => match s
      case Reg(_) => val(s, k)
      case Inp(j) => inputs(j, k)
  }

  // ----- the rows take the flip -----

  /** With the inputs of the patched rows the model still satisfies the formulas of a trace. */
  lemma DrivenIsModel(d: Design, tr: Trace, names: seq<string>, ports: map<string, SigPos>, width: nat,
                      before: seq<string>, rows: seq<string>, lines: seq<Line>, val: Valuation, limit: nat, ip: Interp)
    requires TraceOk(d, tr) && MarksUpTo(tr, limit) && PortsFor(d, names, ports, width) && limit <= |before|
    requires IsPatched(before, rows, lines, ports, limit, width)
    requires Lists(lines, names, InitFormulas(d) + Encode(d, tr), val, limit)
    requires Sat(InitFormulas(d) + Encode(d, tr), val, ip)
    ensures Sat(InitFormulas(d) + Encode(d, tr), Driven(val, RowInputs(d, names, ports, rows)), ip)
  {
    var fs, inputs := InitFormulas(d) + Encode(d, tr), RowInputs(d, names, ports, rows);
    var val' := Driven(val, inputs);
    SatSplit(InitFormulas(d), Encode(d, tr), val, ip);
    InitMeaning(d, val, ip);
    forall s, k | OccursAmong(fs, s, k) ensures val(s, k) == val'(s, k) {
      if s.Inp? {
        OccurringInput(d, tr, limit, s.j, k);
        if k == 0 {
          RowInputsAreTyped(d, names, ports, rows, width, s.j, 0);
          assert InputsOf(val)(s.j, 0) == Zeros(d.inpWidth[s.j]);
        } else {
          RowsHoldAnswer(d, names, ports, width, before, rows, lines, fs, val, limit, s.j, k);
        }
      }
    }
    SatDependsOnOccurring(fs, val, val', ip);
  }

  lemma OccurringInput(d: Design, tr: Trace, limit: nat, j: nat, k: nat)
    requires TraceOk(d, tr) && MarksUpTo(tr, limit) && OccursAmong(InitFormulas(d) + Encode(d, tr), Inp(j), k)
    ensures j < |d.inpWidth| && k <= limit
  {
    var f :| f in InitFormulas(d) + Encode(d, tr) && OccursIn(f, Inp(j), k);
    EncodingReadsClocks(d, tr, limit);
    if f in InitFormulas(d) {
      InitReadsZero(d, j, k);
    }
  }

  /** Whatever trace the formulas encode: the rows patched with a model of them drive the design through it. */
  lemma RowsFollow(d: Design, tr: Trace, names: seq<string>, ports: map<string, SigPos>, width: nat,
                   before: seq<string>, rows: seq<string>, lines: seq<Line>, val: Valuation, limit: nat, ip: Interp)
    requires TraceOk(d, tr) && NoOvertake(tr) && FullWidth(d, tr) && MarksUpTo(tr, limit) && Typed(d, val)
    requires PortsFor(d, names, ports, width) && limit <= |before|
    requires IsPatched(before, rows, lines, ports, limit, width)
    requires Lists(lines, names, InitFormulas(d) + Encode(d, tr), val, limit)
    requires Sat(InitFormulas(d) + Encode(d, tr), val, ip)
    ensures Follows(d, tr, RowInputs(d, names, ports, rows), ip)
  {
    var inputs := RowInputs(d, names, ports, rows);
    var val' := Driven(val, inputs);
    DrivenIsModel(d, tr, names, ports, width, before, rows, lines, val, limit, ip);
    forall s, k: nat | d.Has(s) ensures |val'(s, k)| == d.Width(s) {
      if s.Inp? {
        RowInputsAreTyped(d, names, ports, rows, width, s.j, k);
      } else {
        assert |val(s, k)| == d.Width(s);
      }
    }
    ModelIsRun(d, tr, val', ip);
    SameInputsSameRun(d, tr, inputs, InputsOf(val'), ip);
  }

  // ----- the whole step -----

  /** What the solver prints: a model of the query, every occurring input listed. */
  ghost predicate Answers(d: Design, names: seq<string>, ports: map<string, SigPos>, limit: nat, query: seq<Formula>,
                          texts: seq<string>, lines: seq<Line>, val: Valuation, ip: Interp)
  {
    && Typed(d, val) && Sat(query, val, ip) && Lists(lines, names, query, val, limit)
    && |texts| == |lines| && forall i | 0 <= i < |lines| :: Stands(texts[i], lines[i]) && FitsPorts(lines[i], ports)
  }

  type Solver = seq<Formula> -> Option<seq<string>>

  /** A sound solver: what it prints is a model. It may give up on any query. */
  ghost predicate IsSound(d: Design, names: seq<string>, ports: map<string, SigPos>, limit: nat, solver: Solver,
                          ip: Interp)
  {
    forall query | solver(query).Some? ::
      exists lines, val :: Answers(d, names, ports, limit, query, solver(query).value, lines, val, ip)
  }

  ghost predicate MarksAscend(tr: Trace) {
    forall a, b | 0 <= a < b < |tr| && tr[a].Mark? && tr[b].Mark? :: tr[a].clock < tr[b].clock
  }

  lemma AscendingAreDistinct(tr: Trace)
    requires MarksAscend(tr)
    ensures DistinctMarks(tr)
  {
  }

  /** The flipped trace meets what the encoding asks for when the simulated one does. */
  lemma FlippedIsEncodable(d: Design, tr: Trace, q: nat, p: nat, c: nat, edge: set<nat>, alt: Event)
    requires TraceOk(d, tr) && FullWidth(d, tr) && NoOvertake(tr) && MarksAscend(tr)
    requires q < p < |tr| && tr[q] == Mark(c) && NoMarks(tr[q + 1..p]) && alt.Branch? && EventOk(d, alt)
    ensures var x := Flipped(tr[..q], c, tr[q + 1..p], edge, alt);
            TraceOk(d, x) && FullWidth(d, x) && NoOvertake(x) && MarksUpTo(x, c)
  {
    var kept := Kept(tr[q + 1..p], edge, alt.proc);
    var x := Flipped(tr[..q], c, tr[q + 1..p], edge, alt);
    assert tr[..q] + [Mark(c)] + tr[q + 1..p] == tr[..p];
    NoOvertakePrefix(tr, p);
    KeepingNeverOvertakes(tr[..q] + [Mark(c)], tr[q + 1..p], edge, alt.proc);
    assert Front(x) == tr[..q] + [Mark(c)] + kept;
    forall e | e in x ensures (e in tr || e == alt) && (e.Mark? ==> e.clock <= c) {
      if e in tr[..q] {
        var m :| 0 <= m < q && tr[m] == e;
      }
      assert e in tr[..q] || e == Mark(c) || e in kept || e == alt;
    }
  }

  /** A model of the query in the rows drives the design into the alternative. */
  lemma AnswerTakesFlip(d: Design, before: Trace, c: nat, after: Trace, tr: Trace, v: Versions, edge: set<nat>,
                        alt: Event, names: seq<string>, ports: map<string, SigPos>, width: nat, was: seq<string>,
                        rows: seq<string>, lines: seq<Line>, val: Valuation, ip: Interp)
    requires TraceOk(d, before) && TraceOk(d, after) && Mark(c) !in after && v.For(d)
    requires tr <= after && TraceOk(d, tr) && NoMarks(tr) && alt.Branch? && EventOk(d, alt)
    requires v.snap == VersionsAfter(d, before + [Mark(c)] + after).snap && c in v.snap && Restore(v, c).For(d)
    requires TraceOk(d, Flipped(before, c, tr, edge, alt)) && FullWidth(d, Flipped(before, c, tr, edge, alt))
    requires NoOvertake(Flipped(before, c, tr, edge, alt)) && MarksUpTo(Flipped(before, c, tr, edge, alt), c)
    requires PortsFor(d, names, ports, width) && c <= |was|
    requires IsPatched(was, rows, lines, ports, c, width) && Typed(d, val)
    requires Sat(FlipQuery(d, before, c, tr, v, edge, alt), val, ip)
    requires Lists(lines, names, FlipQuery(d, before, c, tr, v, edge, alt), val, c)
    ensures Follows(d, Flipped(before, c, tr, edge, alt), RowInputs(d, names, ports, rows), ip)
  {
    FlipQueryEncodesFlipped(d, before, c, after, tr, v, edge, alt);
    RowsFollow(d, Flipped(before, c, tr, edge, alt), names, ports, width, was, rows, lines, val, c, ip);
  }

  /** On these inputs everything before the clock goes as logged, then its mark, then the events `mid` of the clock
      that are not of other edge-triggered processes, and then the alternative is taken. */
  ghost predicate Takes(d: Design, before: Trace, c: nat, mid: Trace, edge: set<nat>, alt: Event, inputs: Inputs,
                        ip: Interp)
    requires alt.Branch?
  {
    exists ix | ReplayedAt(ix, mid, edge, alt.proc) ::
      Follows(d, before + [Mark(c)] + Pick(mid, ix) + [alt], inputs, ip)
  }

  /** The versions and the position a query was built from. */
  ghost predicate QueryAt(d: Design, tr: Trace, v: Versions, q: nat, p: nat, c: nat, edge: set<nat>, alt: Event,
                          query: seq<Formula>)
  {
    && TraceOk(d, tr) && q < p < |tr| && tr[q] == Mark(c) && Mark(c) !in tr[q + 1..]
    && TraceOk(d, tr[..q]) && TraceOk(d, tr[q + 1..p]) && NoMarks(tr[q + 1..p]) && alt.Branch? && EventOk(d, alt)
    && v.For(d) && v.snap == VersionsAfter(d, tr).snap && c in v.snap && Restore(v, c).For(d)
    && query == FlipQuery(d, tr[..q], c, tr[q + 1..p], v, edge, alt)
  }

  lemma AnswerTakesFlipAt(d: Design, tr: Trace, v: Versions, q: nat, p: nat, c: nat, edge: set<nat>, alt: Event,
                          query: seq<Formula>, names: seq<string>, ports: map<string, SigPos>, width: nat,
                          was: seq<string>, rows: seq<string>, lines: seq<Line>, val: Valuation, ip: Interp)
    requires QueryAt(d, tr, v, q, p, c, edge, alt, query)
    requires FullWidth(d, tr) && NoOvertake(tr) && MarksAscend(tr)
    requires PortsFor(d, names, ports, width) && c <= |was| && IsPatched(was, rows, lines, ports, c, width)
    requires Typed(d, val) && Sat(query, val, ip) && Lists(lines, names, query, val, c)
    ensures Takes(d, tr[..q], c, tr[q + 1..p], edge, alt, RowInputs(d, names, ports, rows), ip)
  {
    FlippedIsEncodable(d, tr, q, p, c, edge, alt);
    SplitAtMark(d, tr, q, p);
    AnswerTakesFlip(d, tr[..q], c, tr[q + 1..], tr[q + 1..p], v, edge, alt, names, ports, width, was, rows, lines,
                    val, ip);
    var ix := KeptAt(tr[q + 1..p], edge, alt.proc);
  }

  /** The rows before the branch are taken over. */
  method TakeRows(path: CTDataMem, data: CTDataMem, clock: nat)
    requires path.RowsMatch() && clock <= path.clk && data != path
    modifies data
    ensures data.RowsMatch() && data.clk == clock && data.inputVector == path.inputVector[..clock]
    ensures data.inPorts == path.inPorts && data.width == path.width
  {
    data.ClearInputVector();
    data.Intercept(path, 0, clock);
    assert path.inputVector[0..clock] == path.inputVector[..clock];
  }

  /** The solver is asked, and its model is written into the rows. */
  method Solve(ghost d: Design, ghost tr: Trace, ghost v: Versions, ghost q: nat, ghost p: nat, clock: nat,
               ghost edge: set<nat>, ghost alt: Event, query: seq<Formula>, data: CTDataMem, ghost names: seq<string>,
               solver: Solver, ghost ip: Interp)
    returns (sat: bool)
    requires QueryAt(d, tr, v, q, p, clock, edge, alt, query)
    requires FullWidth(d, tr) && NoOvertake(tr) && MarksAscend(tr)
    requires PortsFor(d, names, data.inPorts, data.width) && data.RowsMatch() && data.clk == clock
    requires IsSound(d, names, data.inPorts, clock, solver, ip)
    modifies data`inputVector
    ensures data.RowsMatch()
    ensures sat ==> Takes(d, tr[..q], clock, tr[q + 1..p], edge, alt,
                          RowInputs(d, names, data.inPorts, data.inputVector), ip)
    ensures !sat ==> data.inputVector == old(data.inputVector)
  {
    var answer := solver(query);
    sat := answer.Some?;
    if sat {
      ghost var lines, val :| Answers(d, names, data.inPorts, clock, query, answer.value, lines, val, ip);
      data.UpdateInputVectors(answer.value, lines, clock);
      AnswerTakesFlipAt(d, tr, v, q, p, clock, edge, alt, query, names, data.inPorts, data.width,
                        old(data.inputVector), data.inputVector, lines, val, ip);
    }
  }

  /** The attempt at one candidate: the query is built, the rows before the branch are taken over, and the
      solver's model is written into them. If the solver answers, then a simulation on the inputs of the new
      rows goes through every event kept in the query, taking its branches, and then takes the alternative. */
  method TryFlip(encoder: Encoder, p: nat, alt: Event, path: CTDataMem, data: CTDataMem, ghost names: seq<string>,
                 solver: Solver, ghost ip: Interp)
    returns (sat: bool, ghost q: nat)
    requires encoder.Valid() && encoder.Built() && data != path
    requires FullWidth(encoder.d, encoder.trace) && NoOvertake(encoder.trace) && MarksAscend(encoder.trace)
    requires p < |encoder.stack| && encoder.stack[p].event.Branch?
    requires 0 < encoder.stack[p].clock <= path.clk && path.RowsMatch()
    requires alt.Branch? && EventOk(encoder.d, alt) && alt.proc == encoder.stack[p].event.proc
    requires PortsFor(encoder.d, names, path.inPorts, path.width)
    requires IsSound(encoder.d, names, path.inPorts, encoder.stack[p].clock, solver, ip)
    modifies encoder`versions, encoder.regs, encoder.inputs, data
    ensures encoder.Valid() && encoder.Built()
    ensures q < p <= |encoder.trace| && encoder.trace[q] == Mark(encoder.stack[p].clock)
    ensures NoMarks(encoder.trace[q + 1..p]) && data.RowsMatch() && data.clk == encoder.stack[p].clock
    ensures sat ==> Takes(encoder.d, encoder.trace[..q], encoder.stack[p].clock, encoder.trace[q + 1..p], encoder.edge,
                          alt, RowInputs(encoder.d, names, data.inPorts, data.inputVector), ip)
  {
    AscendingAreDistinct(encoder.trace);
    var query, k := encoder.BuildQuery(p, alt);
    q := k;
    var clock := encoder.stack[p].clock;
    TakeRows(path, data, clock);
    sat := Solve(encoder.d, encoder.trace, old(encoder.versions), q, p, clock, encoder.edge, alt, query, data, names,
                 solver, ip);
  }
}
