/** Decoding of Verilog numbers, bit strings of any width, into machine words. */
module Numbers {
  /** Powers of two. */
  function Pow2(n: nat): (p: nat)
    ensures p > 0
  {
    if n == 0 then 1 else 2 * Pow2(n - 1)
  }

  lemma {:induction false} Pow2Grows(m: nat, n: nat)
    requires m < n
    ensures 2 * Pow2(m) <= Pow2(n)
  {
    if m < n - 1 {
      Pow2Grows(m, n - 1);
    }
  }

  predicate Defined(bits: string) {
    forall k | 0 <= k < |bits| :: bits[k] == '0' || bits[k] == '1'
  }

  /** The unsigned value of a bit string, least significant bit first. */
  function Unsigned(bits: string): nat {
    if bits == [] then 0
    else Unsigned(bits[..|bits| - 1]) + if bits[|bits| - 1] == '1' then Pow2(|bits| - 1) else 0
  }

  /** The two's complement value of a bit string. */
  function Signed(bits: string): int
    requires bits != []
  {
    Unsigned(bits) - if bits[|bits| - 1] == '1' then Pow2(|bits|) else 0
  }

  lemma {:induction false} UnsignedBound(bits: string)
    ensures Unsigned(bits) < Pow2(|bits|)
  {
    if bits != [] {
      UnsignedBound(bits[..|bits| - 1]);
    }
  }

  /** A machine word of W bits, bit 0 first. */
  type Word = seq<bool>

  function WordUnsigned(w: Word): nat {
    if w == [] then 0 else WordUnsigned(w[..|w| - 1]) + if w[|w| - 1] then Pow2(|w| - 1) else 0
  }

  /** What the word means as a signed integer. */
  function WordSigned(w: Word): int
    requires w != []
  {
    WordUnsigned(w) - if w[|w| - 1] then Pow2(|w|) else 0
  }

  /** `value |= 1 << idx`. */
  function SetBit(w: Word, idx: nat): Word
    requires idx < |w|
  {
    w[idx := true]
  }

  /** `value |= ~((1 << n) - 1)`. */
  function SetFrom(w: Word, n: nat): (r: Word)
    ensures |r| == |w|
  {
    seq(|w|, k requires 0 <= k < |w| => w[k] || k >= n)
  }

  /** The bits from position n on are all `fill`. */
  predicate FilledFrom(bits: string, n: nat, fill: char) {
    forall k | n <= k < |bits| :: bits[k] == fill
  }

  /** The word holds the low bits of the number, continued with `fill`. */
  predicate Holds(w: Word, bits: string, n: nat, fill: bool)
    requires n <= |bits|
  {
    && (forall k | 0 <= k < n && k < |w| :: w[k] == (bits[k] == '1'))
    && (forall k | n <= k < |w| :: w[k] == fill)
  }

  // ----- values of continued bit strings -----

  /** Bits continued with zeros keep the unsigned value. */
  lemma {:induction false} ZerosOnTop(bits: string, n: nat)
    requires n <= |bits| && FilledFrom(bits, n, '0')
    ensures Unsigned(bits) == Unsigned(bits[..n])
  {
    if n == |bits| {
      assert bits[..n] == bits;
    } else {
      ZerosOnTop(bits[..|bits| - 1], n);
      assert bits[..|bits| - 1][..n] == bits[..n];
    }
  }

  /** Bits continued with ones gain the difference of the powers. */
  lemma {:induction false} OnesOnTop(bits: string, n: nat)
    requires n <= |bits| && FilledFrom(bits, n, '1')
    ensures Unsigned(bits) == Unsigned(bits[..n]) + Pow2(|bits|) - Pow2(n)
  {
    if n == |bits| {
      assert bits[..n] == bits;
    } else {
      OnesOnTop(bits[..|bits| - 1], n);
      assert bits[..|bits| - 1][..n] == bits[..n];
    }
  }

  lemma {:induction false} WordValue(w: Word, bits: string, n: nat, fill: bool)
    requires n <= |bits| && n <= |w| && Holds(w, bits, n, fill)
    ensures WordUnsigned(w) == Unsigned(bits[..n]) + if fill then Pow2(|w|) - Pow2(n) else 0
    decreases |w|
  {
    if w != [] {
      var m := |w| - 1;
      if n <= m {
        WordValue(w[..m], bits, n, fill);
      } else {
        WordValue(w[..m], bits, m, fill);
        assert bits[..n][..m] == bits[..m];
      }
    } else {
      assert bits[..n] == [];
    }
  }

  // ----- trimming -----

  /** The highest position from 1 on whose bit differs from `msb`, or 0. */
  function Top(bits: string, msb: char): (t: nat)
    ensures t < |bits| || t == 0
  {
    TopBelow(bits, msb, |bits|)
  }

  function TopBelow(bits: string, msb: char, n: nat): (t: nat)
    requires n <= |bits|
    ensures t < n || t == 0
    ensures t > 0 ==> bits[t] != msb
    ensures forall k | t < k < n :: bits[k] == msb
  {
    if n <= 1 then 0 else if bits[n - 1] != msb then n - 1 else TopBelow(bits, msb, n - 1)
  }

  /** The width the decoders trim to. */
  function TrimmedWidth(bits: string, msb: char): (w: nat)
    requires bits != []
    ensures 1 <= w <= |bits|
  {
    var t := Top(bits, msb);
    if t == 0 then 1 else if t + 1 < |bits| then t + 2 else t + 1
  }

  method Trim(bits: string, msb: char) returns (trimWid: nat)
    requires bits != []
    ensures trimWid == TrimmedWidth(bits, msb)
  {
    trimWid := |bits| - 1;
    while trimWid > 0
      invariant trimWid < |bits|
      invariant TopBelow(bits, msb, trimWid + 1) == Top(bits, msb)
    {
      if msb != bits[trimWid] {
        trimWid := trimWid + 1;
        break;
      }
      trimWid := trimWid - 1;
    }
    if trimWid < |bits| {
      trimWid := trimWid + 1;
    }
  }

  // ----- what the trimmed width means -----

  /** The integer fits in n bits of two's complement. */
  predicate FitsIn(v: int, n: nat)
    requires n > 0
  {
    0 - Pow2(n - 1) <= v < Pow2(n - 1)
  }

  lemma FitsInMore(v: int, m: nat, n: nat)
    requires 0 < m <= n && FitsIn(v, m)
    ensures FitsIn(v, n)
  {
    if m < n {
      Pow2Grows(m - 1, n - 1);
    }
  }

  /** Continued with its sign, a number keeps its value. */
  lemma SignedPrefix(bits: string, n: nat)
    requires Defined(bits) && 0 < n <= |bits| && FilledFrom(bits, n, bits[|bits| - 1])
    ensures Signed(bits) == Unsigned(bits[..n]) - if bits[|bits| - 1] == '1' then Pow2(n) else 0
  {
    if bits[|bits| - 1] == '1' {
      OnesOnTop(bits, n);
    } else {
      ZerosOnTop(bits, n);
    }
  }

  /** A signed number fits in its trimmed width, plus one bit for a single odd bit, and, above that, in no less. */
  lemma SignedTrim(bits: string)
    requires bits != [] && Defined(bits)
    ensures var w := TrimmedWidth(bits, bits[|bits| - 1]);
            if w > 2 then FitsIn(Signed(bits), w) && !FitsIn(Signed(bits), w - 1) else FitsIn(Signed(bits), 2)
  {
    var msb := bits[|bits| - 1];
    var t := Top(bits, msb);
    var low := bits[..t + 1];
    SignedPrefix(bits, t + 1);
    UnsignedBound(low);
    UnsignedBound(low[..t]);
    assert low[t] == bits[t];
    if t == 0 {
      assert Pow2(1) == 2;
    } else {
      assert Pow2(t + 1) == 2 * Pow2(t);
    }
  }

  /** An unsigned number is trimmed to W bits or less when it has no more, or is below half the range. */
  lemma UnsignedTrim(bits: string, W: nat)
    requires bits != [] && Defined(bits) && W > 1
    ensures TrimmedWidth(bits, '0') <= W <==> |bits| <= W || Unsigned(bits) < Pow2(W - 1)
  {
    var t := Top(bits, '0');
    var low := bits[..t + 1];
    ZerosOnTop(bits, t + 1);
    UnsignedBound(low);
    assert low[t] == bits[t];
    if t + 1 < W - 1 {
      Pow2Grows(t + 1, W - 1);
    } else if W - 1 < t {
      Pow2Grows(W - 1, t);
    }
    if t == 0 {
      assert Pow2(1) == 2;
    }
  }

  /** A word that continues a signed number with its sign has the number's value. */
  lemma SignedWord(w: Word, bits: string, n: nat)
    requires Defined(bits) && 0 < n <= |bits| && n <= |w|
    requires FilledFrom(bits, n, bits[|bits| - 1]) && (n == |w| ==> bits[n - 1] == bits[|bits| - 1])
    requires Holds(w, bits, n, bits[|bits| - 1] == '1')
    ensures WordSigned(w) == Signed(bits)
  {
    WordValue(w, bits, n, bits[|bits| - 1] == '1');
    SignedPrefix(bits, n);
    if n < |w| {
      assert w[|w| - 1] == (bits[|bits| - 1] == '1');
    } else {
      assert w[|w| - 1] == (bits[n - 1] == '1');
    }
  }

  lemma UnsignedWord(w: Word, bits: string, n: nat)
    requires Defined(bits) && 0 < n <= |bits| && n <= |w| && FilledFrom(bits, n, '0')
    requires Holds(w, bits, n, false)
    ensures WordUnsigned(w) == Unsigned(bits)
  {
    WordValue(w, bits, n, false);
    ZerosOnTop(bits, n);
  }

  /** Above the top position a number only repeats its fill bit. */
  lemma TrimFills(bits: string, msb: char)
    requires bits != [] && (msb == '0' || msb == bits[|bits| - 1])
    ensures var w := TrimmedWidth(bits, msb); FilledFrom(bits, w, msb) && (1 < w < |bits| ==> bits[w - 1] == msb)
    ensures msb == bits[|bits| - 1] ==> var w := TrimmedWidth(bits, msb); 1 < w ==> bits[w - 1] == msb
  {
  }

  // ----- the decoders -----

  /** The word of the trimmed bits, or the error code for an undefined one. */
  method BuildWord(bits: string, trimWid: nat, W: nat) returns (value: Word, resultType: int)
    requires 0 < trimWid <= |bits| && trimWid <= W
    ensures |value| == W
    ensures resultType == 0 <==> Defined(bits[..trimWid])
    ensures resultType == 0 ==> Holds(value, bits, trimWid, false)
    ensures resultType != 0 ==> resultType < 0 && forall k | 0 <= k < W :: !value[k]
  {
    value, resultType := seq(W, _ => false), 0;
    for idx := 0 to trimWid
      invariant |value| == W && resultType == 0 && Defined(bits[..idx])
      invariant Holds(value, bits, idx, false)
    {
      assert bits[..idx + 1] == bits[..idx] + [bits[idx]];
      if bits[idx] == '1' {
        value := SetBit(value, idx);
      } else if bits[idx] != '0' {
        resultType := -1;
        if trimWid == 1 {
          if bits[idx] == 'x' {
            resultType := resultType - 1;
          }
          resultType := resultType - 1;
        }
        value := seq(W, _ => false);
        assert !Defined(bits[..trimWid]) by {
          assert bits[..trimWid][idx] == bits[idx];
        }
        return;
      }
    }
  }

  /** The signed decoder for words of W bits. For a signed number of defined bits it succeeds, with the exact
      value, if and only if the value fits, and otherwise it returns the least width that holds the value. */
  method DecodeInt(bits: string, isSigned: bool, W: nat) returns (value: Word, resultType: int)
    requires bits != [] && W > 2
    ensures |value| == W
    ensures Defined(bits) && isSigned ==> (resultType == 0 <==> FitsIn(Signed(bits), W))
    ensures Defined(bits) && isSigned && resultType == 0 ==> WordSigned(value) == Signed(bits)
    ensures Defined(bits) && isSigned && resultType != 0 ==>
              resultType > W && FitsIn(Signed(bits), resultType) && !FitsIn(Signed(bits), resultType - 1)
    ensures Defined(bits) && !isSigned ==> (resultType == 0 <==> |bits| <= W || Unsigned(bits) < Pow2(W - 1))
    ensures Defined(bits) && !isSigned && resultType == 0 ==> WordUnsigned(value) == Unsigned(bits)
    ensures resultType < 0 ==> !Defined(bits)
  {
    var msb := if isSigned then bits[|bits| - 1] else '0';
    var trimWid := Trim(bits, msb);
    TrimFills(bits, msb);
    if Defined(bits) {
      SignedTrim(bits);
      UnsignedTrim(bits, W);
      if isSigned {
        SignedFitsIffTrimmed(bits, W);
      }
    }
    if trimWid > W {
      return seq(W, _ => false), trimWid;
    }
    value, resultType := BuildWord(bits, trimWid, W);
    if resultType == 0 {
      if isSigned && msb == '1' && trimWid < W {
        value := SetFrom(value, trimWid);
      }
      if Defined(bits) {
        if isSigned {
          SignedWord(value, bits, trimWid);
        } else {
          UnsignedWord(value, bits, trimWid);
        }
      }
    }
  }

  lemma SignedFitsIffTrimmed(bits: string, W: nat)
    requires bits != [] && Defined(bits) && W > 2
    ensures FitsIn(Signed(bits), W) <==> TrimmedWidth(bits, bits[|bits| - 1]) <= W
  {
    var w := TrimmedWidth(bits, bits[|bits| - 1]);
    SignedTrim(bits);
    if w <= W {
      FitsInMore(Signed(bits), if w > 2 then w else 2, W);
    } else if FitsIn(Signed(bits), W) {
      FitsInMore(Signed(bits), W, w - 1);
    }
  }

  method GetInt32FromBits(bits: string, isSigned: bool) returns (value: Word, resultType: int)
    requires bits != []
    ensures |value| == 32
    ensures Defined(bits) && isSigned ==>
              if FitsIn(Signed(bits), 32) then resultType == 0 && WordSigned(value) == Signed(bits)
              else resultType > 32 && FitsIn(Signed(bits), resultType) && !FitsIn(Signed(bits), resultType - 1)
  {
    value, resultType := DecodeInt(bits, isSigned, 32);
  }

  method GetInt64FromNumber(bits: string, isSigned: bool) returns (value: Word, resultType: int)
    requires bits != []
    ensures |value| == 64
    ensures Defined(bits) && isSigned ==>
              if FitsIn(Signed(bits), 64) then resultType == 0 && WordSigned(value) == Signed(bits)
              else resultType > 64 && FitsIn(Signed(bits), resultType) && !FitsIn(Signed(bits), resultType - 1)
  {
    value, resultType := DecodeInt(bits, isSigned, 64);
  }

  /** 2^63 written with 65 digits: it fits in 64 bits, but it is trimmed to 65. */
  lemma LongNumberRefused()
    ensures var bits := seq(65, k => if k == 63 then '1' else '0');
            Defined(bits) && Unsigned(bits) == Pow2(63) < Pow2(64) && TrimmedWidth(bits, '0') > 64
  {
    var bits := seq(65, k => if k == 63 then '1' else '0');
    ZerosOnTop(bits, 64);
    ZerosOnTop(bits[..63], 0);
    assert bits[..64][..63] == bits[..63] && bits[..63][..0] == [];
    UnsignedTrim(bits, 64);
  }

  /** The unsigned decoder. It succeeds, with the exact value, if and only if the number has at most
      64 bits or is below half the range: a longer number of 2^63 or more is refused although it may fit. */
  method GetUint64FromNumber(bits: string) returns (value: Word, resultType: int)
    requires bits != []
    ensures |value| == 64
    ensures Defined(bits) ==> (resultType == 0 <==> |bits| <= 64 || Unsigned(bits) < Pow2(63))
    ensures Defined(bits) && resultType == 0 ==> WordUnsigned(value) == Unsigned(bits)
  {
    var trimWid := Trim(bits, '0');
    TrimFills(bits, '0');
    if Defined(bits) {
      UnsignedTrim(bits, 64);
    }
    if trimWid > 64 {
      return seq(64, _ => false), trimWid;
    }
    value, resultType := BuildWord(bits, trimWid, 64);
    if resultType == 0 && Defined(bits) {
      UnsignedWord(value, bits, trimWid);
    }
  }
}
