/** The SHA-256 test bench driver: a C string cut into padded blocks for the hash core. */
module Sha256Chunker {
  import opened Basics

  type Byte = n: int | 0 <= n < 256

  const MESSAGE_BITS := 512
  const MESSAGE_BYTES := 64
  const BITS_PER_BYTE := 8

  function Zeros(n: nat): (z: seq<Byte>)
    ensures |z| == n
  {
    seq(n, _ => 0)
  }

  /** n shifted right by j bytes. */
  function ShiftRight(n: nat, j: nat): nat {
    if j == 0 then n else ShiftRight(n / 256, j - 1)
  }

  /** The size field: eight bytes, most significant first. */
  function SizeBytes(n: nat): (b: seq<Byte>)
    ensures |b| == 8
  {
    seq(8, i requires 0 <= i < 8 => ShiftRight(n, 7 - i) % 256)
  }

  /** The number that bytes, most significant first, stand for. */
  function BigEndian(b: seq<Byte>): nat {
    if b == [] then 0 else 256 * BigEndian(b[..|b| - 1]) + b[|b| - 1]
  }

  lemma {:induction false} ShiftStep(n: nat, j: nat)
    ensures ShiftRight(n, j + 1) == ShiftRight(n, j) / 256
  {
    if j > 0 {
      ShiftStep(n / 256, j - 1);
    }
  }

  lemma FourBytes(n: nat, j: nat)
    ensures ShiftRight(n, j + 4) == ShiftRight(n / 0x1_0000_0000, j)
  {
    var a, b, c := n / 256, n / 256 / 256, n / 256 / 256 / 256;
    assert ShiftRight(n, j + 4) == ShiftRight(a, j + 3);
    assert ShiftRight(a, j + 3) == ShiftRight(b, j + 2);
    assert ShiftRight(b, j + 2) == ShiftRight(c, j + 1);
    assert ShiftRight(c, j + 1) == ShiftRight(c / 256, j);
  }

  lemma {:induction false} SizePrefix(n: nat, k: nat)
    requires k <= 8 && ShiftRight(n, 8) == 0
    ensures BigEndian(SizeBytes(n)[..k]) == ShiftRight(n, 8 - k)
  {
    if k > 0 {
      SizePrefix(n, k - 1);
      ShiftStep(n, 8 - k);
      assert SizeBytes(n)[..k][..k - 1] == SizeBytes(n)[..k - 1];
    }
  }

  /** The size field holds any size below 2^64. */
  lemma SizeIsBigEndian(n: nat)
    requires n < 0x1_0000_0000_0000_0000
    ensures BigEndian(SizeBytes(n)) == n
  {
    FourBytes(n, 4);
    FourBytes(n / 0x1_0000_0000, 0);
    SizePrefix(n, 8);
    assert SizeBytes(n)[..8] == SizeBytes(n);
  }

  // ----- section 5.1.1 of FIPS 180-4, for messages of whole bytes -----

  /** The bytes of zeros after the byte 0x80. */
  function ZeroBytes(len: nat): (z: nat)
    ensures z < 64
  {
    var extra := len % 64;
    if extra < 56 then 55 - extra else 119 - extra
  }

  /** With the seven zero bits of 0x80 they make the length 448 modulo 512, and no fewer zero bits do. */
  lemma ZeroBytesAreLeast(len: nat, zeroBits: nat)
    requires zeroBits <= 8 * ZeroBytes(len) + 7
    ensures (8 * len + 1 + zeroBits) % 512 == 448 <==> zeroBits == 8 * ZeroBytes(len) + 7
  {
    var q := len / 64;
    var extra := len % 64;
    if extra < 56 {
      Remainder(8 * len + 1 + zeroBits, 512, q, 8 * extra + 1 + zeroBits);
    } else if 8 * extra + 1 + zeroBits < 512 {
      Remainder(8 * len + 1 + zeroBits, 512, q, 8 * extra + 1 + zeroBits);
    } else {
      Remainder(8 * len + 1 + zeroBits, 512, q + 1, 8 * extra + 1 + zeroBits - 512);
    }
  }

  lemma Remainder(x: nat, d: nat, q: nat, r: nat)
    requires r < d && x == d * q + r
    ensures x % d == r && x / d == q
  {
    var e := x / d - q;
    assert d * e == r - x % d;
    Multiple(d, e);
  }

  lemma Multiple(d: nat, e: int)
    ensures e > 0 ==> d * e >= d
    ensures e < 0 ==> d * e <= 0 - d
  {
  }

  /** The padded message of the standard up to the size. */
  function Front(msg: seq<Byte>): seq<Byte> {
    msg + [0x80] + Zeros(ZeroBytes(|msg|))
  }

  /** The padded message of the standard. */
  function Pad(msg: seq<Byte>): seq<Byte> {
    Front(msg) + SizeBytes(8 * |msg|)
  }

  // ----- what the driver appends -----

  /** The number of bytes appended to a message of that many bits. */
  function AddedBytes(bits: nat): (n: nat)
    ensures 8 <= n && bits % MESSAGE_BITS / 8 + n <= 2 * MESSAGE_BYTES
  {
    var extra := bits % MESSAGE_BITS;
    (if extra > 448 then 2 * MESSAGE_BITS - extra else MESSAGE_BITS - extra) / BITS_PER_BYTE
  }

  /** The appended bytes: zeros and the size, the first byte replaced by 0x80. */
  function Padding(bits: nat): (p: seq<Byte>)
    ensures |p| == AddedBytes(bits)
  {
    (Zeros(AddedBytes(bits) - 8) + SizeBytes(bits))[0 := 0x80]
  }

  method AddPadding(messageBits: nat, buffer: array<Byte>) returns (added: nat)
    requires buffer.Length >= 2 * MESSAGE_BYTES
    modifies buffer
    ensures added == AddedBytes(messageBits)
    ensures var start := messageBits % MESSAGE_BITS / 8;
            && start + added <= 2 * MESSAGE_BYTES
            && buffer[..] == old(buffer[..start]) + Padding(messageBits) + old(buffer[start + added..])
  {
    var extraBits := messageBits % MESSAGE_BITS;
    var paddingBits := if extraBits > 448 then 2 * MESSAGE_BITS - extraBits else MESSAGE_BITS - extraBits;
    var startByte := extraBits / BITS_PER_BYTE;
    var sizeStartByte := startByte + paddingBits / BITS_PER_BYTE - 8;
    var i := startByte;
    while i < sizeStartByte + 8
      invariant startByte <= i <= sizeStartByte + 8
      invariant forall k | 0 <= k < buffer.Length && !(startByte <= k < i) :: buffer[k] == old(buffer[k])
      invariant forall k | startByte <= k < i :: buffer[k] == Padding(messageBits)[k - startByte]
    {
      if i == startByte {
        buffer[i] := 0x80;
      } else if i >= sizeStartByte {
        var offset := i - sizeStartByte;
        buffer[i] := ShiftRight(messageBits, 7 - offset) % 256;
      } else {
        buffer[i] := 0;
      }
      i := i + 1;
    }
    return paddingBits / BITS_PER_BYTE;
  }

  /** The bit count the driver passes on, in 32-bit unsigned arithmetic. */
  function BitCount(len: nat): nat {
    len * BITS_PER_BYTE % UINT_RANGE
  }

  /** The padding fills the last block, or with more than 56 bytes in it one more. */
  lemma PaddingFillsBlocks(len: nat)
    ensures BitCount(len) % MESSAGE_BITS == 8 * (len % 64)
    ensures BitCount(len) % MESSAGE_BITS / 8 == len % 64
    ensures AddedBytes(BitCount(len)) == (if len % 64 > 56 then 128 else 64) - len % 64
  {
    var wraps := len * 8 / UINT_RANGE;
    assert BitCount(len) == 512 * (len / 64 - 0x80_0000 * wraps) + 8 * (len % 64);
    Remainder(BitCount(len), MESSAGE_BITS, len / 64 - 0x80_0000 * wraps, 8 * (len % 64));
  }

  /** The byte stream the driver feeds to the core. */
  function Padded(msg: seq<Byte>): seq<Byte> {
    msg + Padding(BitCount(|msg|))
  }

  // ----- the core -----

  /** A block taken by the core: by the init strobe, which starts a hash, or by the next strobe. */
  datatype Absorbed = Init(block: seq<Byte>) | Next(block: seq<Byte>)

  class Core {
    var loaded: seq<Byte>
    var absorbed: seq<Absorbed>

    method LoadPaddedMessage(block: seq<Byte>)
      modifies `loaded
      ensures loaded == block
    {
      loaded := block;
    }

    method StrobeInit()
      modifies `absorbed
      ensures absorbed == old(absorbed) + [Init(loaded)]
    {
      absorbed := absorbed + [Init(loaded)];
    }

    method StrobeNext()
      modifies `absorbed
      ensures absorbed == old(absorbed) + [Next(loaded)]
    {
      absorbed := absorbed + [Next(loaded)];
    }
  }

  /** The bytes of the absorbed blocks, in order. */
  function Joined(blocks: seq<Absorbed>): seq<Byte> {
    if blocks == [] then [] else Joined(blocks[..|blocks| - 1]) + blocks[|blocks| - 1].block
  }

  /** One hash: blocks of 64 bytes, the first and no other started by the init strobe. */
  predicate OneHash(blocks: seq<Absorbed>) {
    forall k | 0 <= k < |blocks| :: |blocks[k].block| == MESSAGE_BYTES && (blocks[k].Init? <==> k == 0)
  }

  /** One more block, after what was absorbed before the hash. */
  lemma OneMoreBlock(before: seq<Absorbed>, absorbed: seq<Absorbed>, b: Absorbed)
    requires before <= absorbed && OneHash(absorbed[|before|..])
    requires |b.block| == MESSAGE_BYTES && (b.Init? <==> absorbed == before)
    ensures before < absorbed + [b] && OneHash((absorbed + [b])[|before|..])
    ensures Joined((absorbed + [b])[|before|..]) == Joined(absorbed[|before|..]) + b.block
  {
    var blocks := absorbed[|before|..];
    assert (absorbed + [b])[|before|..] == blocks + [b];
    assert (blocks + [b])[..|blocks|] == blocks;
  }

  // ----- the driver -----

  /** The text starts with a C string of n bytes. */
  predicate CString(text: seq<Byte>, n: nat) {
    n < |text| && text[n] == 0 && forall k | 0 <= k < n :: text[k] != 0
  }

  /** Copies up to a block of the string into the buffer. */
  method CopyNext(text: seq<Byte>, ghost n: nat, ptr: nat, message: array<Byte>) returns (length: nat, done: bool)
    requires CString(text, n) && ptr <= n
    requires message.Length == 2 * MESSAGE_BITS
    modifies message
    ensures length == if n - ptr < MESSAGE_BYTES then n - ptr else MESSAGE_BYTES
    ensures done <==> n - ptr < MESSAGE_BYTES
    ensures message[..length] == text[ptr..ptr + length]
    ensures message[length..] == old(message[length..])
  {
    length, done := 0, false;
    while length < MESSAGE_BYTES
      invariant length <= MESSAGE_BYTES && ptr + length <= n && !done
      invariant forall k | 0 <= k < length :: message[k] == text[ptr + k]
      invariant forall k | length <= k < message.Length :: message[k] == old(message[k])
    {
      if text[ptr + length] == 0 {
        done := true;
        break;
      }
      message[length] := text[ptr + length];
      length := length + 1;
    }
  }

  /** Sends one block of the buffer, and then, while padding remains, another. */
  method Send(core: Core, message: array<Byte>, addedBytes: nat, firstTime: bool, ghost before: seq<Absorbed>)
    requires message.Length == 2 * MESSAGE_BITS && addedBytes <= 2 * MESSAGE_BYTES
    requires before <= core.absorbed && OneHash(core.absorbed[|before|..])
    requires firstTime <==> core.absorbed == before
    modifies core
    ensures before < core.absorbed && OneHash(core.absorbed[|before|..])
    ensures Joined(core.absorbed[|before|..]) ==
            old(Joined(core.absorbed[|before|..]))
            + message[..SentBytes(addedBytes)]
  {
    var off, remaining: int, first, again := 0, addedBytes, firstTime, true;
    while again
      invariant again <==> off == 0 || remaining > 0
      invariant (off == 0 || off == MESSAGE_BYTES || off == 2 * MESSAGE_BYTES) && remaining == addedBytes - off
      invariant off > MESSAGE_BYTES ==> addedBytes > MESSAGE_BYTES
      invariant before <= core.absorbed && OneHash(core.absorbed[|before|..])
      invariant first <==> core.absorbed == before
      invariant off > 0 ==> !first
      invariant Joined(core.absorbed[|before|..]) == old(Joined(core.absorbed[|before|..])) + message[..off]
      decreases 2 * MESSAGE_BYTES - off
    {
      ghost var was := core.absorbed;
      core.LoadPaddedMessage(message[off..off + MESSAGE_BYTES]);
      if first {
        core.StrobeInit();
        first := false;
      } else {
        core.StrobeNext();
      }
      OneMoreBlock(before, was, core.absorbed[|core.absorbed| - 1]);
      assert message[..off] + message[off..off + MESSAGE_BYTES] == message[..off + MESSAGE_BYTES];
      remaining := remaining - MESSAGE_BYTES;
      off := off + MESSAGE_BYTES;
      again := remaining > 0;
    }
  }

  /** How many bytes of the buffer are sent when that many were added. */
  function SentBytes(added: nat): nat {
    if added > MESSAGE_BYTES then 2 * MESSAGE_BYTES else MESSAGE_BYTES
  }

  /** Fills the buffer with the next full block, or with what is left of the string and its padding. */
  method Fill(text: seq<Byte>, ghost n: nat, ptr: nat, message: array<Byte>)
    returns (totalBytes: nat, done: bool, addedBytes: nat)
    requires CString(text, n) && ptr <= n && ptr % MESSAGE_BYTES == 0 && message.Length == 2 * MESSAGE_BITS
    modifies message
    ensures done <==> n - ptr < MESSAGE_BYTES
    ensures !done ==> totalBytes == ptr + MESSAGE_BYTES <= n
    ensures addedBytes <= 2 * MESSAGE_BYTES
    ensures text[..ptr] + message[..SentBytes(addedBytes)] == if done then Padded(text[..n]) else text[..totalBytes]
  {
    var length;
    length, done := CopyNext(text, n, ptr, message);
    totalBytes, addedBytes := ptr + length, 0;
    SplitString(text, totalBytes, ptr);
    if done {
      ghost var copied := message[..];
      LastPart(n, ptr);
      addedBytes := AddPadding(BitCount(totalBytes), message);
      LastBlocks(text[..n], ptr, copied, message[..]);
    }
  }

  /** One turn of the loop over the string. */
  method SendNext(text: seq<Byte>, ghost n: nat, core: Core, ptr: nat, firstTime: bool, ghost before: seq<Absorbed>)
    returns (totalBytes: nat, done: bool)
    requires CString(text, n) && ptr <= n && ptr % MESSAGE_BYTES == 0
    requires before <= core.absorbed && OneHash(core.absorbed[|before|..])
    requires firstTime <==> core.absorbed == before
    requires Joined(core.absorbed[|before|..]) == text[..ptr]
    modifies core
    ensures before < core.absorbed && OneHash(core.absorbed[|before|..])
    ensures done <==> n - ptr < MESSAGE_BYTES
    ensures !done ==> totalBytes == ptr + MESSAGE_BYTES <= n
    ensures Joined(core.absorbed[|before|..]) == if done then Padded(text[..n]) else text[..totalBytes]
  {
    var message := new Byte[2 * MESSAGE_BITS](_ => 0);
    var addedBytes;
    totalBytes, done, addedBytes := Fill(text, n, ptr, message);
    Send(core, message, addedBytes, firstTime, before);
  }

  lemma SplitString(text: seq<Byte>, n: nat, ptr: nat)
    requires ptr <= n <= |text|
    ensures text[..n][..ptr] == text[..ptr] && text[..n][ptr..] == text[ptr..n]
    ensures text[..ptr] + text[ptr..n] == text[..n]
  {
  }

  /** The loop over the string. */
  method SendAll(text: seq<Byte>, ghost n: nat, core: Core)
    requires CString(text, n)
    modifies core
    ensures old(core.absorbed) <= core.absorbed
    ensures OneHash(core.absorbed[|old(core.absorbed)|..])
    ensures Joined(core.absorbed[|old(core.absorbed)|..]) == Padded(text[..n])
  {
    var done, firstTime, totalBytes := false, true, 0;
    ghost var before := core.absorbed;
    while !done
      invariant before <= core.absorbed && OneHash(core.absorbed[|before|..])
      invariant !done ==> totalBytes <= n && totalBytes % MESSAGE_BYTES == 0
      invariant !done ==> (firstTime <==> core.absorbed == before)
      invariant Joined(core.absorbed[|before|..]) == if done then Padded(text[..n]) else text[..totalBytes]
      decreases !done, n - totalBytes
    {
      totalBytes, done := SendNext(text, n, core, totalBytes, firstTime, before);
      firstTime := false;
    }
  }

  /** The whole string goes to the core as one hash, and the blocks join to the standard's padded message
      if and only if the length is not 56 modulo 64 and is below 2^29. */
  method HashString(text: seq<Byte>, ghost n: nat, core: Core)
    requires CString(text, n) && n < 0x8000_0000
    modifies core
    ensures old(core.absorbed) <= core.absorbed
    ensures var blocks := core.absorbed[|old(core.absorbed)|..];
            && OneHash(blocks)
            && Joined(blocks) == Padded(text[..n])
            && (Joined(blocks) == Pad(text[..n]) <==> n % 64 != 56 && n < 0x2000_0000)
  {
    SendAll(text, n, core);
    PaddedIsStandard(text[..n]);
  }

  lemma LastPart(n: nat, ptr: nat)
    requires ptr <= n < ptr + MESSAGE_BYTES && ptr % MESSAGE_BYTES == 0
    ensures n - ptr == n % MESSAGE_BYTES
    ensures BitCount(n) % MESSAGE_BITS / 8 == n - ptr
  {
    Remainder(n, MESSAGE_BYTES, ptr / MESSAGE_BYTES, n - ptr);
    PaddingFillsBlocks(n);
  }

  /** The last part of the string and its padding fill the blocks that are sent last. */
  lemma LastBlocks(msg: seq<Byte>, sofar: nat, copied: seq<Byte>, message: seq<Byte>)
    requires sofar <= |msg| && |msg| - sofar == |msg| % 64
    requires |copied| == 2 * MESSAGE_BITS && copied[..|msg| - sofar] == msg[sofar..]
    requires var bits := BitCount(|msg|);
             var start := bits % MESSAGE_BITS / 8;
             && start + AddedBytes(bits) <= 2 * MESSAGE_BYTES
             && message == copied[..start] + Padding(bits) + copied[start + AddedBytes(bits)..]
    ensures msg[..sofar] + message[..SentBytes(AddedBytes(BitCount(|msg|)))] == Padded(msg)
  {
    var bits := BitCount(|msg|);
    var added := AddedBytes(bits);
    PaddingFillsBlocks(|msg|);
    assert message[..|msg| - sofar + added] == msg[sofar..] + Padding(bits);
    assert msg[..sofar] + msg[sofar..] == msg;
  }

  // ----- against the standard -----

  /** The stream is the padded message of the standard exactly when the length is not 56 modulo 64, where the
      byte 0x80 takes the place of the top size byte, and is below 2^29, where the bit count wraps around. */
  lemma PaddedIsStandard(msg: seq<Byte>)
    requires |msg| < 0x8000_0000
    ensures Padded(msg) == Pad(msg) <==> |msg| % 64 != 56 && |msg| < 0x2000_0000
  {
    if |msg| % 64 == 56 {
      PaddingFillsBlocks(|msg|);
      assert |Padded(msg)| == |msg| + 8 && |Pad(msg)| == |msg| + 72;
    } else {
      SizeLast(msg);
      if |msg| >= 0x2000_0000 {
        SizesDiffer(|msg|);
        SuffixesDiffer(Front(msg), SizeBytes(BitCount(|msg|)), SizeBytes(8 * |msg|));
      }
    }
  }

  /** 56 bytes are sent as one block, while the standard pads them to two. */
  lemma FiftySixBytesAreCutShort()
    ensures var msg := seq(56, _ => 1); |Padded(msg)| == 64 && |Pad(msg)| == 128
  {
    PaddingFillsBlocks(56);
  }

  /** With room for the byte 0x80 the stream differs from the standard's in the size only. */
  lemma SizeLast(msg: seq<Byte>)
    requires |msg| % 64 != 56
    ensures Padded(msg) == Front(msg) + SizeBytes(BitCount(|msg|))
  {
    PaddingFillsBlocks(|msg|);
    var n := ZeroBytes(|msg|);
    assert Zeros(n + 1)[0 := 0x80] == [0x80] + Zeros(n);
    assert Padding(BitCount(|msg|)) == [0x80] + Zeros(n) + SizeBytes(BitCount(|msg|));
  }

  lemma SuffixesDiffer(front: seq<Byte>, a: seq<Byte>, b: seq<Byte>)
    requires a != b
    ensures front + a != front + b
  {
    assert (front + a)[|front|..] == a && (front + b)[|front|..] == b;
  }

  /** A bit count that wrapped around is another size. */
  lemma SizesDiffer(len: nat)
    requires 0x2000_0000 <= len < 0x8000_0000
    ensures SizeBytes(BitCount(len)) != SizeBytes(8 * len)
  {
    SizeIsBigEndian(BitCount(len));
    SizeIsBigEndian(8 * len);
  }
}
