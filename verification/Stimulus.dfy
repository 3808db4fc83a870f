/** The stimulus memory: input rows with bit fields, patched from the solver's model. */
module Stimulus {
  import opened Basics

  /** The bits an input takes in every row. */
  datatype SigPos = SigPos(msb: nat, lsb: nat, width: nat)

  predicate IsBit(c: char) {
    c == '0' || c == '1'
  }

  predicate IsBinary(s: string) {
    forall k | 0 <= k < |s| :: IsBit(s[k])
  }

  predicate RowOk(row: string, width: nat) {
    |row| == width && IsBinary(row)
  }

  /** Bit b of a row; the last character is bit 0. */
  function BitAt(row: string, b: nat): char
    requires b < |row|
  {
    row[|row| - 1 - b]
  }

  /** The characters of a bit field, most significant first. */
  function Field(row: string, p: SigPos): string
    requires p.lsb <= p.msb < |row|
  {
    row[|row| - 1 - p.msb..|row| - p.lsb]
  }

  /** `std::string::replace` of `len` characters from `pos` on. */
  function Replace(s: string, pos: nat, len: nat, v: string): string
    requires pos <= |s|
  {
    s[..pos] + v + s[if pos + len < |s| then pos + len else |s|..]
  }

  predicate PosOk(p: SigPos, width: nat) {
    p.lsb <= p.msb < width && p.width == p.msb - p.lsb + 1
  }

  function ModifyRow(row: string, p: SigPos, v: string): string
    requires p.msb < |row|
  {
    Replace(row, |row| - p.msb - 1, p.width, v)
  }

  /** A value of the field's width replaces the field and nothing else. */
  lemma ModifySetsField(row: string, p: SigPos, v: string)
    requires PosOk(p, |row|) && |v| == p.width
    ensures |ModifyRow(row, p, v)| == |row| && Field(ModifyRow(row, p, v), p) == v
    ensures forall b | 0 <= b < |row| && !Owns(p, b) :: BitAt(ModifyRow(row, p, v), b) == BitAt(row, b)
    ensures IsBinary(row) && IsBinary(v) ==> IsBinary(ModifyRow(row, p, v))
  {
  }

  // ----- the ports -----

  predicate Disjoint(p: SigPos, q: SigPos) {
    p.msb < q.lsb || q.msb < p.lsb
  }

  predicate Owns(p: SigPos, b: nat) {
    p.lsb <= b <= p.msb
  }

  /** Distinct inputs take disjoint bits of the row. */
  predicate PortsOk(ports: map<string, SigPos>, width: nat) {
    && (forall n | n in ports :: PosOk(ports[n], width))
    && (forall m, n | m in ports && n in ports && m != n :: Disjoint(ports[m], ports[n]))
  }

  ghost predicate Owned(ports: map<string, SigPos>, b: nat) {
    exists n :: n in ports && Owns(ports[n], b)
  }

  /** Every bit of the row belongs to an input. */
  ghost predicate Covers(ports: map<string, SigPos>, width: nat) {
    forall b | 0 <= b < width :: Owned(ports, b)
  }

  // ----- patching -----

  /** A line of the solver's model: the value of a version of a signal, or text that is skipped. */
  datatype Line = Assigns(name: string, clock: nat, bits: string) | Text(text: string)

  /** The value the lines give last to version k of a signal. */
  function LastValue(lines: seq<Line>, name: string, k: nat): Option<string> {
    if lines == [] then None
    else match lines[|lines| - 1]
      case Assigns(n, c, bits) =>
        if n == name && c == k then Some(bits) else LastValue(lines[..|lines| - 1], name, k)
      case Text(_) => LastValue(lines[..|lines| - 1], name, k)
  }

  predicate FitsPorts(line: Line, ports: map<string, SigPos>) {
    line.Assigns? && line.name in ports ==> |line.bits| == ports[line.name].width && IsBinary(line.bits)
  }

  predicate RowsOk(rows: seq<string>, width: nat) {
    forall k | 0 <= k < |rows| :: RowOk(rows[k], width)
  }

  function PatchOne(rows: seq<string>, line: Line, ports: map<string, SigPos>, limit: nat, width: nat): (r: seq<string>)
    requires limit <= |rows| && PortsOk(ports, width) && RowsOk(rows, width)
    ensures |r| == |rows|
  {
    if line.Assigns? && line.name in ports && 1 <= line.clock <= limit
    then rows[line.clock - 1 := ModifyRow(rows[line.clock - 1], ports[line.name], line.bits)]
    else rows
  }

  lemma PatchOneKeepsRows(rows: seq<string>, line: Line, ports: map<string, SigPos>, limit: nat, width: nat)
    requires limit <= |rows| && PortsOk(ports, width) && RowsOk(rows, width) && FitsPorts(line, ports)
    ensures RowsOk(PatchOne(rows, line, ports, limit, width), width)
  {
    if line.Assigns? && line.name in ports && 1 <= line.clock <= limit {
      ModifySetsField(rows[line.clock - 1], ports[line.name], line.bits);
    }
  }

  /** What the model file promises: rows keep their shape, every known input of every row up to the limit
      holds the last value given for it, and all else is as before. */
  ghost predicate IsPatched(before: seq<string>, after: seq<string>, lines: seq<Line>, ports: map<string, SigPos>,
                            limit: nat, width: nat)
    requires limit <= |before| && PortsOk(ports, width)
  {
    && |after| == |before| && RowsOk(before, width) && RowsOk(after, width)
    && (forall r | limit <= r < |after| :: after[r] == before[r])
    && (forall r, n | 0 <= r < limit && n in ports :: FieldIsLast(before, after, lines, ports[n], n, r))
    && (forall r, b | 0 <= r < |after| && 0 <= b < width && !Owned(ports, b) ::
          BitAt(after[r], b) == BitAt(before[r], b))
  }

  predicate FieldIsLast(before: seq<string>, after: seq<string>, lines: seq<Line>, p: SigPos, n: string, r: nat)
    requires r < |before| == |after| && p.lsb <= p.msb < |before[r]| && p.msb < |after[r]|
  {
    Field(after[r], p) == Expected(Field(before[r], p), LastValue(lines, n, r + 1))
  }

  function Expected(field: string, last: Option<string>): string {
    match last
    case Some(v) => v
    case None => field
  }

  /** A write to one field leaves a disjoint field as it is. */
  lemma OtherFieldKept(row: string, p: SigPos, v: string, q: SigPos)
    requires PosOk(p, |row|) && PosOk(q, |row|) && |v| == p.width && Disjoint(p, q)
    ensures |ModifyRow(row, p, v)| == |row| && Field(ModifyRow(row, p, v), q) == Field(row, q)
  {
    var row' := ModifyRow(row, p, v);
    ModifySetsField(row, p, v);
    forall k | 0 <= k < |Field(row, q)| ensures Field(row', q)[k] == Field(row, q)[k] {
      assert BitAt(row', q.msb - k) == BitAt(row, q.msb - k);
    }
  }

  /** A field of one row after one line. */
  lemma FieldAfterPatch(row: string, line: Line, ports: map<string, SigPos>, width: nat, n: string)
    requires PortsOk(ports, width) && |row| == width && n in ports
    requires line.Assigns? && line.name in ports && FitsPorts(line, ports)
    ensures var row' := ModifyRow(row, ports[line.name], line.bits);
            |row'| == width && Field(row', ports[n]) == if n == line.name then line.bits else Field(row, ports[n])
  {
    ModifySetsField(row, ports[line.name], line.bits);
    if n != line.name {
      OtherFieldKept(row, ports[line.name], line.bits, ports[n]);
    }
  }

  lemma LastValueSnoc(lines: seq<Line>, line: Line, n: string, k: nat)
    ensures LastValue(lines + [line], n, k)
         == if line.Assigns? && line.name == n && line.clock == k then Some(line.bits) else LastValue(lines, n, k)
  {
    assert (lines + [line])[..|lines|] == lines;
  }

  /** The same, against the last value given for it in row r. */
  lemma FieldStep(row: string, field: string, lines: seq<Line>, line: Line, ports: map<string, SigPos>, width: nat,
                  n: string, r: nat)
    requires PortsOk(ports, width) && |row| == width && n in ports && FitsPorts(line, ports)
    requires Field(row, ports[n]) == Expected(field, LastValue(lines, n, r + 1))
    ensures var row' := PatchRow(row, line, ports, width, r);
            |row'| == width && Field(row', ports[n]) == Expected(field, LastValue(lines + [line], n, r + 1))
  {
    LastValueSnoc(lines, line, n, r + 1);
    if line.Assigns? && line.name in ports && line.clock == r + 1 {
      FieldAfterPatch(row, line, ports, width, n);
    }
  }

  /** What one line does to row r. */
  function PatchRow(row: string, line: Line, ports: map<string, SigPos>, width: nat, r: nat): string
    requires PortsOk(ports, width) && |row| == width
  {
    if line.Assigns? && line.name in ports && line.clock == r + 1
    then ModifyRow(row, ports[line.name], line.bits)
    else row
  }

  lemma PatchOneByRow(rows: seq<string>, line: Line, ports: map<string, SigPos>, limit: nat, width: nat, r: nat)
    requires limit <= |rows| && PortsOk(ports, width) && RowsOk(rows, width) && r < limit
    ensures |rows[r]| == width
    ensures PatchOne(rows, line, ports, limit, width)[r] == PatchRow(rows[r], line, ports, width, r)
  {
    assert RowOk(rows[r], width);
  }

  /** One more line of the model. */
  lemma PatchedSnoc(before: seq<string>, after: seq<string>, lines: seq<Line>, line: Line, ports: map<string, SigPos>,
                    limit: nat, width: nat)
    requires limit <= |before| && PortsOk(ports, width) && FitsPorts(line, ports)
    requires IsPatched(before, after, lines, ports, limit, width)
    ensures IsPatched(before, PatchOne(after, line, ports, limit, width), lines + [line], ports, limit, width)
  {
    var after' := PatchOne(after, line, ports, limit, width);
    PatchOneKeepsRows(after, line, ports, limit, width);
    forall r, n | 0 <= r < limit && n in ports
      ensures FieldIsLast(before, after', lines + [line], ports[n], n, r)
    {
      assert FieldIsLast(before, after, lines, ports[n], n, r);
      PatchOneByRow(after, line, ports, limit, width, r);
      FieldStep(after[r], Field(before[r], ports[n]), lines, line, ports, width, n, r);
    }
    forall r, b | 0 <= r < |after'| && 0 <= b < width && !Owned(ports, b)
      ensures BitAt(after'[r], b) == BitAt(before[r], b)
    {
      if after'[r] != after[r] {
        ModifySetsField(after[r], ports[line.name], line.bits);
      }
    }
  }

  lemma PatchedByNothing(before: seq<string>, ports: map<string, SigPos>, limit: nat, width: nat)
    requires limit <= |before| && PortsOk(ports, width) && RowsOk(before, width)
    ensures IsPatched(before, before, [], ports, limit, width)
  {
  }
}
