/** Bytes, little-endian integers and length-prefixed strings: the primitives
    every on-disk format of the engine is built from. */
module Bytes {

  newtype byte = x: int | 0 <= x < 0x100

  type bytes = seq<byte>

  datatype Option<+T> = None | Some(value: T)

  const U32: int := 0x1_0000_0000
  const U64: int := 0x1_0000_0000_0000_0000

  function Pow2(n: nat): (p: nat)
    ensures p > 0
  {
    if n == 0 then 1 else 2 * Pow2(n - 1)
  }

  function Pow256(width: nat): (p: nat)
    ensures p > 0
  {
    if width == 0 then 1 else 256 * Pow256(width - 1)
  }

  lemma Widths()
    ensures Pow256(4) == U32
    ensures Pow256(8) == U64
  {
    assert Pow256(2) == 0x1_0000;
    assert Pow256(4) == 0x1_0000_0000;
    assert Pow256(6) == 0x1_0000_0000_0000;
  }

  /** The `width` low-order bytes of `n`, least significant first; higher bytes
      are dropped, as an `as u32` cast drops them. */
  function Le(n: nat, width: nat): (b: bytes)
    ensures |b| == width
  {
    if width == 0 then [] else [(n % 256) as byte] + Le(n / 256, width - 1)
  }

  function LeValue(b: bytes): (n: nat)
  {
    if b == [] then 0 else b[0] as int + 256 * LeValue(b[1..])
  }

  lemma {:induction false} LeRoundTrip(n: nat, width: nat)
    requires n < Pow256(width)
    ensures LeValue(Le(n, width)) == n
  {
    if width > 0 {
      LeRoundTrip(n / 256, width - 1);
      assert Le(n, width)[1..] == Le(n / 256, width - 1);
    }
  }

  lemma {:induction false} LeValueRoundTrip(b: bytes)
    ensures LeValue(b) < Pow256(|b|)
    ensures Le(LeValue(b), |b|) == b
  {
    if b != [] {
      LeValueRoundTrip(b[1..]);
      assert LeValue(b) / 256 == LeValue(b[1..]);
      assert Le(LeValue(b), |b|) == [b[0]] + b[1..];
    }
  }

  /** Equal values come from equal byte strings. */
  lemma LeValueInjective(a: bytes, b: bytes)
    requires |a| == |b| && LeValue(a) == LeValue(b)
    ensures a == b
  {
    LeValueRoundTrip(a);
    LeValueRoundTrip(b);
  }

  function U32Bytes(n: nat): (b: bytes)
    ensures |b| == 4
  {
    Le(n, 4)
  }

  lemma U32Value(n: nat)
    requires n < U32
    ensures LeValue(U32Bytes(n)) == n
  {
    Widths();
    LeRoundTrip(n, 4);
  }

  /** Two's complement of a signed 64-bit value. */
  function I64Bytes(n: int): (b: bytes)
    ensures |b| == 8
  {
    Le(n % U64, 8)
  }

  predicate IsI64(n: int) {
    -U64 / 2 <= n < U64 / 2
  }

  // Readers: a value and the unread rest; too few bytes; or bytes that cannot be a value.

  datatype Parsed<+T> = Short | Invalid | Read(value: T, rest: bytes) {
    predicate IsFailure() {
      !Read?
    }

    function PropagateFailure<U>(): (r: Parsed<U>)
      requires IsFailure()
      ensures r.IsFailure() && r.Short? == Short?
    {
      if Short? then Short else Invalid
    }

    function Extract(): (T, bytes)
      requires Read?
    {
      (value, rest)
    }
  }

  function ReadExact(s: bytes, n: nat): (r: Parsed<bytes>)
    ensures r.Read? ==> |r.value| == n && r.value + r.rest == s
    ensures r.Read? <==> n <= |s|
    ensures !r.Invalid?
  {
    if |s| < n then Short else Read(s[..n], s[n..])
  }

  function ReadU32(s: bytes): (r: Parsed<nat>)
    ensures r.Read? ==> r.value < U32 && |r.rest| == |s| - 4
    ensures r.Read? <==> |s| >= 4
    ensures !r.Invalid?
  {
    if |s| < 4 then Short
    else
      LeValueRoundTrip(s[..4]);
      Widths();
      Read(LeValue(s[..4]), s[4..])
  }

  function ReadI64(s: bytes): (r: Parsed<int>)
    ensures r.Read? ==> IsI64(r.value) && |r.rest| == |s| - 8
    ensures r.Read? <==> |s| >= 8
    ensures !r.Invalid?
  {
    if |s| < 8 then Short
    else
      LeValueRoundTrip(s[..8]);
      Widths();
      var n := LeValue(s[..8]);
      Read(if n < U64 / 2 then n else n - U64, s[8..])
  }

  /** Length-prefixed byte string. */
  function Prefixed(b: bytes): (r: bytes)
    ensures |r| == 4 + |b|
  {
    U32Bytes(|b|) + b
  }

  function ReadPrefixed(s: bytes): (r: Parsed<bytes>)
    ensures r.Read? ==> |r.rest| == |s| - 4 - |r.value|
    ensures r.Read? ==> |r.value| < U32
    ensures !r.Invalid?
  {
    match ReadU32(s)
    case Read(n, rest) => ReadExact(rest, n)
    case _ => Short
  }

  lemma ReadU32Of(n: nat, rest: bytes)
    requires n < U32
    ensures ReadU32(U32Bytes(n) + rest) == Read(n, rest)
  {
    Widths();
    LeRoundTrip(n, 4);
    assert (U32Bytes(n) + rest)[..4] == U32Bytes(n);
    assert (U32Bytes(n) + rest)[4..] == rest;
  }

  lemma ReadI64Of(n: int, rest: bytes)
    requires IsI64(n)
    ensures ReadI64(I64Bytes(n) + rest) == Read(n, rest)
  {
    Widths();
    LeRoundTrip(n % U64, 8);
    assert (I64Bytes(n) + rest)[..8] == I64Bytes(n);
    assert (I64Bytes(n) + rest)[8..] == rest;
  }

  lemma ReadPrefixedOf(b: bytes, rest: bytes)
    requires |b| < U32
    ensures ReadPrefixed(Prefixed(b) + rest) == Read(b, rest)
  {
    assert Prefixed(b) + rest == U32Bytes(|b|) + (b + rest);
    ReadU32Of(|b|, b + rest);
    assert (b + rest)[..|b|] == b;
    assert (b + rest)[|b|..] == rest;
  }

  /** A successful length-prefixed read consumed exactly the encoding of what it returned. */
  lemma ReadPrefixedInverse(s: bytes)
    requires ReadPrefixed(s).Read?
    ensures s == Prefixed(ReadPrefixed(s).value) + ReadPrefixed(s).rest
  {
    LeValueRoundTrip(s[..4]);
    assert s == s[..4] + s[4..];
  }

  // Reading loops: what is read so far, in front of what is still to be read.

  function Prepend<T>(done: seq<T>, r: Parsed<seq<T>>): Parsed<seq<T>> {
    match r
    case Read(more, rest) => Read(done + more, rest)
    case bad => bad
  }

  lemma PrependNothing<T>(r: Parsed<seq<T>>)
    ensures Prepend([], r) == r
  {
    if r.Read? {
      assert [] + r.value == r.value;
    }
  }

  lemma PrependOne<T>(done: seq<T>, x: T, r: Parsed<seq<T>>)
    ensures Prepend(done, Prepend([x], r)) == Prepend(done + [x], r)
  {
    if r.Read? {
      assert done + ([x] + r.value) == done + [x] + r.value;
    }
  }
}
