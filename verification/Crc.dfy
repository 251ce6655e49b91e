/** CRC-32 (ITU-T V.42): the table-driven routine of the engine, proved equal
    to the bit-serial definition, and what a checksum match guarantees.

    A 32-bit word is its sequence of bits, bit 0 (least significant) first. */
module Crc {
  import opened Bytes

  type bits = seq<bool>

  type word = w: bits | |w| == 32 witness Zeros(32)

  function Zeros(n: nat): (w: bits)
    ensures |w| == n
  {
    seq(n, _ => false)
  }

  function Xor(a: word, b: word): (r: word)
    ensures forall i :: 0 <= i < 32 ==> r[i] == (a[i] != b[i])
  {
    seq(32, i requires 0 <= i < 32 => a[i] != b[i])
  }

  /** Logical shift right by `n`. */
  function Shr(a: word, n: nat): (r: word)
    requires n <= 32
    ensures forall i :: 0 <= i < 32 ==> r[i] == (i + n < 32 && a[i + n])
  {
    a[n..] + Zeros(n)
  }

  function BitsOf(n: nat, width: nat): (b: bits)
    ensures |b| == width
  {
    if width == 0 then [] else [n % 2 == 1] + BitsOf(n / 2, width - 1)
  }

  function Value(b: bits): (n: nat)
  {
    if b == [] then 0 else (if b[0] then 1 else 0) + 2 * Value(b[1..])
  }

  lemma {:induction false} ValueRoundTrip(b: bits)
    ensures Value(b) < Pow2(|b|)
    ensures BitsOf(Value(b), |b|) == b
  {
    if b != [] {
      ValueRoundTrip(b[1..]);
      assert Value(b) / 2 == Value(b[1..]);
      assert BitsOf(Value(b), |b|) == [b[0]] + b[1..];
    }
  }

  lemma {:induction false} BitsRoundTrip(n: nat, width: nat)
    requires n < Pow2(width)
    ensures Value(BitsOf(n, width)) == n
  {
    if width > 0 {
      BitsRoundTrip(n / 2, width - 1);
      assert BitsOf(n, width)[1..] == BitsOf(n / 2, width - 1);
    }
  }

  lemma Powers()
    ensures Pow2(8) == 256
    ensures Pow2(32) == U32
  {
    assert Pow2(4) == 16;
    assert Pow2(8) == 256;
    assert Pow2(12) == 0x1000;
    assert Pow2(16) == 0x1_0000;
    assert Pow2(20) == 0x10_0000;
    assert Pow2(24) == 0x100_0000;
    assert Pow2(28) == 0x1000_0000;
  }

  lemma WordValue(w: bits)
    requires |w| == 32
    ensures Value(w) < U32
  {
    Powers();
    ValueRoundTrip(w);
  }

  // ---- The bit-serial register -------------------------------------------

  function Nibble(n: nat): (b: bits)
    ensures |b| == 4
  {
    [n % 2 == 1, n / 2 % 2 == 1, n / 4 % 2 == 1, n / 8 % 2 == 1]
  }

  /** 0xEDB8_8320: the generator polynomial, reflected. */
  const POLYNOMIAL: word :=
    Nibble(0x0) + Nibble(0x2) + Nibble(0x3) + Nibble(0x8) +
    Nibble(0x8) + Nibble(0xB) + Nibble(0xD) + Nibble(0xE)

  /** 0xFFFF_FFFF */
  function Ones(): (w: word)
    ensures forall i :: 0 <= i < 32 ==> w[i]
  {
    seq(32, _ => true)
  }

  /** Shift one message bit into the reflected feedback register. */
  function FeedBit(c: word, bit: bool): word {
    if c[0] != bit then Xor(Shr(c, 1), POLYNOMIAL) else Shr(c, 1)
  }

  function FeedBits(c: word, message: bits): word
    decreases |message|
  {
    if message == [] then c else FeedBits(FeedBit(c, message[0]), message[1..])
  }

  /** The eight bits of a byte, least significant first. */
  function ByteBits(b: byte): (r: bits)
    ensures |r| == 8
  {
    BitsOf(b as int, 8)
  }

  function Feed(c: word, data: bytes): word
    decreases |data|
  {
    if data == [] then c else Feed(FeedBits(c, ByteBits(data[0])), data[1..])
  }

  /** The checksum by definition: every message bit through the register, then complemented. */
  function Crc32(data: bytes): (r: nat)
    ensures r < U32
  {
    var w: bits := Xor(Feed(Ones(), data), Ones());
    WordValue(w);
    Value(w)
  }

  // ---- Register steps with the message already mixed in -------------------

  function Step(c: word): word {
    FeedBit(c, false)
  }

  function Steps(c: word, n: nat): word
    decreases n
  {
    if n == 0 then c else Steps(Step(c), n - 1)
  }

  lemma {:induction false} StepsAppend(c: word, n: nat)
    ensures Steps(c, n + 1) == Step(Steps(c, n))
    decreases n
  {
    if n > 0 {
      StepsAppend(Step(c), n - 1);
    }
  }

  /** A bit string in the low bits of an otherwise zero word. */
  function Widen(m: bits): (r: word)
    requires |m| <= 32
    ensures forall i :: 0 <= i < 32 ==> r[i] == (i < |m| && m[i])
  {
    m + Zeros(32 - |m|)
  }

  /** Feeding a bit is stepping the register with the pending bits mixed in. */
  lemma FeedBitIsStep(c: word, m: bits)
    requires 0 < |m| <= 32
    ensures Step(Xor(c, Widen(m))) == Xor(FeedBit(c, m[0]), Widen(m[1..]))
  {
    var x := Xor(c, Widen(m));
    assert x[0] == (c[0] != m[0]);
    assert forall i :: 0 <= i < 32 ==> Shr(x, 1)[i] == (Shr(c, 1)[i] != Widen(m[1..])[i]);
  }

  lemma {:induction false} FeedBitsIsSteps(c: word, m: bits)
    requires |m| <= 32
    ensures FeedBits(c, m) == Steps(Xor(c, Widen(m)), |m|)
    decreases |m|
  {
    hide Xor, Widen, FeedBit, Step;
    if m == [] {
      XorNothing(c);
    } else {
      var next := FeedBit(c, m[0]);
      FeedBitsIsSteps(next, m[1..]);
      FeedBitIsStep(c, m);
    }
  }

  lemma XorNothing(c: word)
    ensures Xor(c, Widen([])) == c
  {
  }

  predicate LowZero(x: word, n: nat) {
    n <= 32 && forall i :: 0 <= i < n ==> !x[i]
  }

  /** Steps only shift the bits they have not reached. */
  lemma {:induction false} StepsSplit(high: word, low: word, n: nat)
    requires LowZero(high, n)
    ensures Steps(Xor(high, low), n) == Xor(Shr(high, n), Steps(low, n))
    decreases n
  {
    if n == 0 {
      assert Shr(high, 0) == high;
    } else {
      assert Step(Xor(high, low)) == Xor(Shr(high, 1), Step(low));
      StepsSplit(Shr(high, 1), Step(low), n - 1);
      assert Shr(Shr(high, 1), n - 1) == Shr(high, n);
    }
  }

  // ---- The table-driven form ---------------------------------------------

  /** `c & 0xFF` */
  function LowByte(c: word): word {
    Widen(c[..8])
  }

  /** A table lookup performs eight register steps at once. */
  lemma LookupIsSteps(c: word)
    ensures Steps(c, 8) == Xor(Steps(LowByte(c), 8), Shr(c, 8))
  {
    var high := HighBits(c);
    StepsSplit(high, LowByte(c), 8);
    XorComm(Shr(c, 8), Steps(LowByte(c), 8));
  }

  /** `c & 0xFFFF_FF00` */
  function HighBits(c: word): (r: word)
    ensures LowZero(r, 8) && c == Xor(r, LowByte(c)) && Shr(r, 8) == Shr(c, 8)
  {
    var r: word := Zeros(8) + c[8..];
    assert forall i :: 0 <= i < 32 ==> r[i] == (i >= 8 && c[i]);
    r
  }

  lemma XorComm(a: word, b: word)
    ensures Xor(a, b) == Xor(b, a)
  {
  }

  predicate IsTable(t: seq<word>) {
    |t| == 256 && forall i :: 0 <= i < 256 ==> t[i] == Steps(BitsOf(i, 32), 8)
  }

  /** Entry `i` of the table is `i` stepped eight times. */
  method BuildTable() returns (t: seq<word>)
    ensures IsTable(t)
  {
    t := [];
    for i := 0 to 256
      invariant |t| == i
      invariant forall j :: 0 <= j < i ==> t[j] == Steps(BitsOf(j, 32), 8)
    {
      var crc: word := BitsOf(i, 32);
      for k := 0 to 8
        invariant crc == Steps(BitsOf(i, 32), k)
      {
        StepsAppend(BitsOf(i, 32), k);
        if crc[0] {
          crc := Xor(Shr(crc, 1), POLYNOMIAL);
        } else {
          crc := Shr(crc, 1);
        }
      }
      t := t + [crc];
    }
  }

  /** The table-driven loop computes the bit-serial checksum. */
  method ComputeCrc32(data: bytes) returns (r: nat)
    ensures r == Crc32(data)
  {
    var table := BuildTable();
    var crc := Ones();
    for i := 0 to |data|
      invariant Feed(crc, data[i..]) == Feed(Ones(), data)
    {
      TableStep(table, crc, data[i]);
      assert data[i..][1..] == data[i + 1..];
      var slot := LowByte(Xor(crc, Widen(ByteBits(data[i]))));
      crc := Xor(table[Value(slot)], Shr(crc, 8));
    }
    r := Value(Xor(crc, Ones()));
  }

  lemma {:induction false} ValueWiden(m: bits, n: nat)
    ensures Value(m + Zeros(n)) == Value(m)
  {
    if m != [] {
      assert (m + Zeros(n))[1..] == m[1..] + Zeros(n);
      ValueWiden(m[1..], n);
    } else if n > 0 {
      assert (m + Zeros(n))[1..] == [] + Zeros(n - 1);
      ValueWiden([], n - 1);
    }
  }

  lemma TableStep(table: seq<word>, c: word, b: byte)
    requires IsTable(table)
    ensures var slot := LowByte(Xor(c, Widen(ByteBits(b))));
            Value(slot) < 256 &&
            Xor(table[Value(slot)], Shr(c, 8)) == FeedBits(c, ByteBits(b))
  {
    var x := Xor(c, Widen(ByteBits(b)));
    SlotValue(x);
    FeedBitsIsSteps(c, ByteBits(b));
    LookupIsSteps(x);
    assert Shr(x, 8) == Shr(c, 8);
  }

  lemma SlotValue(x: word)
    ensures Value(LowByte(x)) < 256
    ensures BitsOf(Value(LowByte(x)), 32) == LowByte(x)
  {
    Powers();
    ValueRoundTrip(x[..8]);
    ValueWiden(x[..8], 24);
    ValueRoundTrip(LowByte(x));
  }

  // ---- What a matching checksum rules out --------------------------------

  /** The top bit a step leaves tells which bit it consumed. */
  lemma StepInjective(a: word, b: word)
    requires Step(a) == Step(b)
    ensures a == b
  {
    assert Nibble(0xE)[3];
    assert POLYNOMIAL[31];
    assert Step(a)[31] == a[0] && Step(b)[31] == b[0];
    forall i | 1 <= i < 32
      ensures a[i] == b[i]
    {
      assert Step(a)[i - 1] == Step(b)[i - 1];
      assert Shr(a, 1)[i - 1] == a[i] && Shr(b, 1)[i - 1] == b[i];
    }
  }

  lemma {:induction false} StepsInjective(a: word, b: word, n: nat)
    requires Steps(a, n) == Steps(b, n)
    ensures a == b
    decreases n
  {
    if n > 0 {
      StepsInjective(Step(a), Step(b), n - 1);
      StepInjective(a, b);
    }
  }

  lemma XorCancels(a: word, b: word, x: word)
    requires Xor(a, x) == Xor(b, x)
    ensures a == b
  {
    forall i | 0 <= i < 32
      ensures a[i] == b[i]
    {
      assert Xor(a, x)[i] == Xor(b, x)[i];
    }
  }

  lemma {:induction false} FeedInjective(a: word, b: word, data: bytes)
    requires Feed(a, data) == Feed(b, data)
    ensures a == b
    decreases |data|
  {
    if data != [] {
      var m := ByteBits(data[0]);
      FeedInjective(FeedBits(a, m), FeedBits(b, m), data[1..]);
      FeedBitsIsSteps(a, m);
      FeedBitsIsSteps(b, m);
      StepsInjective(Xor(a, Widen(m)), Xor(b, Widen(m)), 8);
      XorCancels(a, b, Widen(m));
    }
  }

  lemma {:induction false} FeedConcat(c: word, a: bytes, b: bytes)
    ensures Feed(c, a + b) == Feed(Feed(c, a), b)
    decreases |a|
  {
    if a == [] {
      assert a + b == b;
    } else {
      assert (a + b)[1..] == a[1..] + b;
      FeedConcat(FeedBits(c, ByteBits(a[0])), a[1..], b);
    }
  }

  lemma {:induction false} FeedBitsConcat(c: word, a: bits, b: bits)
    ensures FeedBits(c, a + b) == FeedBits(FeedBits(c, a), b)
    decreases |a|
  {
    if a == [] {
      assert a + b == b;
    } else {
      assert (a + b)[1..] == a[1..] + b;
      FeedBitsConcat(FeedBit(c, a[0]), a[1..], b);
    }
  }

  /** All message bits of a byte string. */
  function MessageBits(data: bytes): (r: bits)
    ensures |r| == 8 * |data|
  {
    if data == [] then [] else ByteBits(data[0]) + MessageBits(data[1..])
  }

  lemma {:induction false} FeedIsFeedBits(c: word, data: bytes)
    ensures Feed(c, data) == FeedBits(c, MessageBits(data))
    decreases |data|
  {
    if data != [] {
      FeedIsFeedBits(FeedBits(c, ByteBits(data[0])), data[1..]);
      FeedBitsConcat(c, ByteBits(data[0]), MessageBits(data[1..]));
    }
  }

  lemma {:induction false} MessageBitsInjective(a: bytes, b: bytes)
    requires |a| == |b| && MessageBits(a) == MessageBits(b)
    ensures a == b
  {
    if a != [] {
      assert ByteBits(a[0]) == MessageBits(a)[..8] == MessageBits(b)[..8] == ByteBits(b[0]);
      assert MessageBits(a[1..]) == MessageBits(a)[8..] == MessageBits(b)[8..] == MessageBits(b[1..]);
      Powers();
      BitsRoundTrip(a[0] as int, 8);
      BitsRoundTrip(b[0] as int, 8);
      MessageBitsInjective(a[1..], b[1..]);
    }
  }

  /** From one register value, different strings of at most four bytes lead to different values. */
  lemma WindowInjective(c: word, a: bytes, b: bytes)
    requires |a| == |b| <= 4
    requires Feed(c, a) == Feed(c, b)
    ensures a == b
  {
    var m, n := MessageBits(a), MessageBits(b);
    FeedIsFeedBits(c, a);
    FeedIsFeedBits(c, b);
    FeedBitsIsSteps(c, m);
    FeedBitsIsSteps(c, n);
    StepsInjective(Xor(c, Widen(m)), Xor(c, Widen(n)), |m|);
    XorComm(c, Widen(m));
    XorComm(c, Widen(n));
    XorCancels(Widen(m), Widen(n), c);
    assert m == Widen(m)[..|m|] && n == Widen(n)[..|n|];
    MessageBitsInjective(a, b);
  }

  /** Every change confined to four adjacent bytes changes the checksum. */
  lemma BurstDetected(pre: bytes, a: bytes, b: bytes, post: bytes)
    requires |a| == |b| <= 4 && a != b
    ensures Crc32(pre + a + post) != Crc32(pre + b + post)
  {
    if Crc32(pre + a + post) == Crc32(pre + b + post) {
      var u, v := Feed(Ones(), pre + a + post), Feed(Ones(), pre + b + post);
      ValueRoundTrip(Xor(u, Ones()));
      ValueRoundTrip(Xor(v, Ones()));
      XorCancels(u, v, Ones());
      FeedConcat(Ones(), pre + a, post);
      FeedConcat(Ones(), pre + b, post);
      FeedInjective(Feed(Ones(), pre + a), Feed(Ones(), pre + b), post);
      FeedConcat(Ones(), pre, a);
      FeedConcat(Ones(), pre, b);
      WindowInjective(Feed(Ones(), pre), a, b);
    }
  }
}
