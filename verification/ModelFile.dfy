/** Lines of the solver's model file: how they are printed and how they are scanned. */
module ModelFile {
  import opened Basics
  import opened Stimulus

  /** Decimal digits, as `std::to_string` prints them. */
  function Decimal(k: nat): (s: string)
    ensures s != [] && forall i | 0 <= i < |s| :: '0' <= s[i] <= '9'
  {
    if k < 10 then [('0' as int + k) as char] else Decimal(k / 10) + [('0' as int + k % 10) as char]
  }

  /** The number the scanner accumulates from digits, in 32-bit arithmetic. */
  function Scanned(s: string): nat
    requires forall i | 0 <= i < |s| :: '0' <= s[i] <= '9'
  {
    if s == [] then 0
    else (Scanned(s[..|s| - 1]) * 10 + (s[|s| - 1] as int - '0' as int)) % UINT_RANGE
  }

  /** Printing and scanning a version number gives it back. */
  lemma {:induction false} ScanDecimal(k: nat)
    requires k < UINT_RANGE
    ensures Scanned(Decimal(k)) == k
  {
    if k < 10 {
      assert Decimal(k)[..0] == [];
    } else {
      ScanDecimal(k / 10);
      assert Decimal(k)[..|Decimal(k)| - 1] == Decimal(k / 10);
    }
  }

  /** The line for version k of a signal. */
  function Render(name: string, k: nat, bits: string): string {
    "(= " + name + "_" + Decimal(k) + " 0b" + bits + ")"
  }

  predicate NameOk(name: string) {
    ' ' !in name && '(' !in name
  }

  /** What a line of the file stands for. Other text must be of the kind the scanner skips. */
  predicate Stands(text: string, line: Line) {
    match line
    case Assigns(name, k, bits) =>
      text == Render(name, k, bits) && NameOk(name) && k < UINT_RANGE && bits != [] && IsBinary(bits)
    case Text(t) => text == t && Skips(t)
  }

  /** Lines with a function value, and indented ones, are not looked at. */
  predicate Skips(text: string) {
    HasAt(text, "(function", 0) || (text != [] && text[0] == ' ')
  }

  /** `find` of a word from position i on. */
  predicate HasAt(text: string, word: string, i: nat)
    decreases |text| - i
  {
    i <= |text| && (word <= text[i..] || HasAt(text, word, i + 1))
  }

  lemma {:induction false} OnlyFirstOpens(text: string, i: nat)
    requires |text| >= 2 && text[1] == '=' && forall k | 1 <= k < |text| :: text[k] != '('
    ensures !HasAt(text, "(function", i)
    decreases |text| - i
  {
    if i <= |text| {
      if i + 1 < |text| {
        assert text[i..][0] == text[i] && text[i..][1] == text[i + 1];
      }
      OnlyFirstOpens(text, i + 1);
    }
  }

  /** A printed line is never skipped. */
  lemma RenderedIsRead(name: string, k: nat, bits: string)
    requires NameOk(name) && IsBinary(bits)
    ensures !Skips(Render(name, k, bits))
  {
    var text := Render(name, k, bits);
    var digits := Decimal(k);
    assert text == "(= " + (name + ("_" + (digits + (" 0b" + (bits + ")")))));
    OnlyFirstOpens(text, 0);
  }

  /** Where the parts of a printed line are. */
  lemma RenderParts(name: string, k: nat, bits: string)
    requires NameOk(name) && IsBinary(bits)
    ensures var text, n, m := Render(name, k, bits), |name|, |Decimal(k)|;
            && |text| == n + m + |bits| + 8
            && text[3..3 + n] == name && text[3 + n] == '_'
            && text[4 + n..4 + n + m] == Decimal(k)
            && text[4 + n + m] == ' '
            && text[7 + n + m..7 + n + m + |bits|] == bits
            && text[7 + n + m + |bits|] == ')'
  {
  }

  /** The scan of one line: the name up to the last underscore before the blank, the version after it,
      and the bits up to the closing parenthesis. It recovers what was printed, whatever underscores and
      digits the name has. */
  method ParseLine(text: string, ghost name: string, ghost k: nat, ghost bits: string)
    returns (n: string, clock: nat, value: string)
    requires text == Render(name, k, bits) && NameOk(name) && k < UINT_RANGE && bits != [] && IsBinary(bits)
    ensures n == name && clock == k && value == bits
  {
    RenderParts(name, k, bits);
    ghost var blank := 4 + |name| + |Decimal(k)|;
    var line := text;
    var pos := 3;
    while line[pos] != ' '
      invariant 3 <= pos <= blank
      decreases blank - pos
    {
      assert pos < 3 + |name| ==> text[pos] == text[3..3 + |name|][pos - 3];
      assert 4 + |name| <= pos < blank ==> text[pos] == Decimal(k)[pos - 4 - |name|];
      pos := pos + 1;
    }
    BlankIsFirst(name, k, bits, pos);
    var mark1 := pos + 3;
    line := line[pos := '\0'];
    pos := pos - 1;
    while line[pos] != '_'
      invariant 3 + |name| <= pos < blank
      decreases pos
    {
      pos := pos - 1;
    }
    assert forall i | 4 + |name| <= i < blank :: text[i] == Decimal(k)[i - 4 - |name|];
    assert pos == 3 + |name|;
    n := line[3..pos];
    assert n == text[3..pos];
    pos := pos + 1;
    clock := 0;
    while line[pos] != '\0'
      invariant 4 + |name| <= pos <= blank
      invariant clock == Scanned(Decimal(k)[..pos - 4 - |name|])
      decreases blank - pos
    {
      ghost var i := pos - 4 - |name|;
      assert line[pos] == Decimal(k)[i];
      assert Decimal(k)[..i + 1][..i] == Decimal(k)[..i];
      clock := (clock * 10 + (line[pos] as int - '0' as int)) % UINT_RANGE;
      pos := pos + 1;
    }
    assert pos == blank && Decimal(k)[..|Decimal(k)|] == Decimal(k);
    ScanDecimal(k);
    pos := mark1 + 1;
    while line[pos] != ')'
      invariant mark1 < pos <= mark1 + |bits|
      decreases |line| - pos
    {
      assert line[pos] == text[pos];
      assert pos < mark1 + |bits| ==> text[pos] == bits[pos - mark1];
      pos := pos + 1;
    }
    assert forall i | mark1 <= i < mark1 + |bits| :: text[i] == bits[i - mark1];
    value := line[mark1..pos];
    assert value == text[mark1..pos];
  }

  /** The first blank from position 3 on is the one after the version. */
  lemma BlankIsFirst(name: string, k: nat, bits: string, pos: nat)
    requires NameOk(name) && IsBinary(bits) && 3 <= pos <= 4 + |name| + |Decimal(k)|
    requires pos < |Render(name, k, bits)| && Render(name, k, bits)[pos] == ' '
    ensures pos == 4 + |name| + |Decimal(k)|
  {
    RenderParts(name, k, bits);
    var text := Render(name, k, bits);
    assert forall i | 3 <= i < 3 + |name| :: text[i] == name[i - 3] != ' ';
    assert forall i | 4 + |name| <= i < 4 + |name| + |Decimal(k)| :: text[i] == Decimal(k)[i - 4 - |name|] != ' ';
  }
}
