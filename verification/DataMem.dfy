/** The stimulus memory object: its input layout, its rows, and the operations of a path on them. */
module DataMem {
  import opened Basics
  import opened Stimulus
  import opened ModelFile

  class CTDataMem {
    var inPorts: map<string, SigPos>
    var inputVector: seq<string>
    var width: nat
    var clk: nat
    var step: nat

    constructor ()
      ensures inPorts == map[] && inputVector == [] && width == clk == step == 0
    {
      inPorts, inputVector := map[], [];
      width, clk, step := 0, 0, 0;
    }

    /** The copy an `SMTPath` is made of. */
    constructor Copy(src: CTDataMem)
      ensures inPorts == src.inPorts && inputVector == src.inputVector
      ensures width == src.width && clk == src.clk && step == src.step
    {
      inPorts, inputVector := src.inPorts, src.inputVector;
      width, clk, step := src.width, src.clk, src.step;
    }

    predicate LayoutOk()
      reads this
    {
      PortsOk(inPorts, width)
    }

    /** One row of the full width for every clock. */
    predicate RowsMatch()
      reads this
    {
      |inputVector| == clk && RowsOk(inputVector, width)
    }

    /** The new input takes the next bits; inputs of distinct names tile the row. */
    method AddInput(name: string, portWidth: nat)
      requires LayoutOk() && portWidth > 0
      modifies this`inPorts, this`width
      ensures LayoutOk() && width == old(width) + portWidth
      ensures inPorts == old(inPorts)[name := SigPos(old(width) + portWidth - 1, old(width), portWidth)]
      ensures old(Covers(inPorts, width)) && name !in old(inPorts) ==> Covers(inPorts, width)
    {
      var sig := SigPos(width + portWidth - 1, width, portWidth);
      inPorts := inPorts[name := sig];
      width := width + portWidth;
      if old(Covers(inPorts, width)) && name !in old(inPorts) {
        forall b | 0 <= b < width ensures Owned(inPorts, b) {
          if b < old(width) {
            assert old(Owned(inPorts, b));
            ghost var n :| n in old(inPorts) && Owns(old(inPorts)[n], b);
            assert n in inPorts && Owns(inPorts[n], b);
          } else {
            assert Owns(inPorts[name], b);
          }
        }
      }
    }

    /** One random row: the odd bits first, then groups of 16. With observation padding its top bit
        tells odd rows from even ones. */
    method RandomRow(k: nat, obsPadding: bool) returns (row: string)
      requires width > 0
      ensures RowOk(row, width) && (obsPadding ==> row[0] == if k % 2 == 1 then '1' else '0')
    {
      var count, extra := width / 16, width % 16;
      row := [];
      var num: nat := *;
      for j := 0 to extra
        invariant RowOk(row, j)
      {
        row := row + [if num % 2 == 1 then '1' else '0'];
        num := num / 2;
      }
      for i := 0 to count
        invariant RowOk(row, extra + 16 * i)
      {
        num := *;
        for j := 0 to 16
          invariant RowOk(row, extra + 16 * i + j)
        {
          row := row + [if num % 2 == 1 then '1' else '0'];
          num := num / 2;
        }
      }
      if obsPadding {
        row := row[0 := if k % 2 == 1 then '1' else '0'];
      }
    }

    method Generate(stepSize: nat, obsPadding: bool)
      requires stepSize > 0 && width > 0
      modifies this`inputVector, this`clk, this`step
      ensures RowsMatch() && clk == step == stepSize
      ensures obsPadding ==> forall k | 0 <= k < stepSize :: inputVector[k][0] == if k % 2 == 1 then '1' else '0'
    {
      step, clk := stepSize, stepSize;
      inputVector := [];
      for k := 0 to step
        invariant step == clk == stepSize && |inputVector| == k && RowsOk(inputVector, width)
        invariant obsPadding ==> forall m | 0 <= m < k :: inputVector[m][0] == if m % 2 == 1 then '1' else '0'
      {
        var row := RandomRow(k, obsPadding);
        inputVector := inputVector + [row];
      }
    }

    method Modify(clock: nat, sig: SigPos, value: string)
      requires clock < |inputVector| && sig.msb < |inputVector[clock]|
      modifies this`inputVector
      ensures inputVector == old(inputVector)[clock := ModifyRow(old(inputVector)[clock], sig, value)]
    {
      var str := inputVector[clock];
      inputVector := inputVector[clock := Replace(str, |str| - sig.msb - 1, sig.width, value)];
    }

    /** Patches the rows from the model file: each known input of each row below the limit ends with the
        last value given for it, and nothing else changes. */
    method UpdateInputVectors(texts: seq<string>, ghost lines: seq<Line>, limit: nat)
      requires LayoutOk() && RowsOk(inputVector, width) && limit <= |inputVector|
      requires |texts| == |lines|
      requires forall i | 0 <= i < |lines| :: Stands(texts[i], lines[i]) && FitsPorts(lines[i], inPorts)
      modifies this`inputVector
      ensures IsPatched(old(inputVector), inputVector, lines, inPorts, limit, width)
    {
      PatchedByNothing(inputVector, inPorts, limit, width);
      for i := 0 to |texts|
        invariant IsPatched(old(inputVector), inputVector, lines[..i], inPorts, limit, width)
      {
        assert lines[..i + 1] == lines[..i] + [lines[i]];
        PatchedSnoc(old(inputVector), inputVector, lines[..i], lines[i], inPorts, limit, width);
        PatchFrom(texts[i], lines[i], limit);
      }
      assert lines[..|lines|] == lines;
    }

    /** One line of the model file. */
    method PatchFrom(text: string, ghost line: Line, limit: nat)
      requires LayoutOk() && RowsOk(inputVector, width) && limit <= |inputVector|
      requires Stands(text, line) && FitsPorts(line, inPorts)
      modifies this`inputVector
      ensures inputVector == PatchOne(old(inputVector), line, inPorts, limit, width)
    {
      if Skips(text) {
        if line.Assigns? {
          RenderedIsRead(line.name, line.clock, line.bits);
        }
        return;
      }
      var name, clock, value := ParseLine(text, line.name, line.clock, line.bits);
      if name in inPorts {
        if clock == 0 {
          return;
        }
        if clock <= limit {
          assert RowOk(inputVector[clock - 1], width);
          Modify(clock - 1, inPorts[name], value);
        }
      }
    }

    method ClearInputVector()
      modifies this`inputVector
      ensures inputVector == []
    {
      inputVector := [];
    }

    /** The first `end` rows of another memory. */
    method Intercept(source: CTDataMem, start: nat, end: nat)
      modifies this
      ensures clk == end && width == old(source.width) && inPorts == old(source.inPorts) && step == old(step)
      ensures inputVector == var e := if end > |old(source.inputVector)| then |old(source.inputVector)| else end;
                             if start < e then old(source.inputVector)[start..e] else []
    {
      var rows := source.inputVector;
      inPorts, width, clk := source.inPorts, source.width, end;
      var last := if end > |rows| then |rows| else end;
      inputVector := if start < last then rows[start..last] else [];
    }

    /** `ConnectPath`: the clock advances by this path's step, the other's rows of its step are appended. */
    method ConnectPath(other: CTDataMem)
      requires other.step <= |other.inputVector| && other != this
      modifies this`inputVector, this`clk
      ensures clk == old(clk) + step
      ensures inputVector == old(inputVector) + other.inputVector[..other.step]
    {
      clk := step + clk;
      for i := 0 to other.step
        invariant clk == old(clk) + step && inputVector == old(inputVector) + other.inputVector[..i]
      {
        inputVector := inputVector + [other.inputVector[i]];
      }
    }

    method ClearPath()
      modifies this`inputVector, this`clk
      ensures inputVector == [] && clk == 0
    {
      inputVector, clk := [], 0;
    }
  }
}
