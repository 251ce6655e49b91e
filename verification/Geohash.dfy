/** Geohashes: two 26-bit cell numbers with their bits interleaved.
    Coordinates are real numbers. */
module Geohash {
  import opened Bytes

  const GEO_STEP := 26
  const CELLS: nat := 0x400_0000

  // ---- Bits --------------------------------------------------------------

  /** Bit `i`: shift right, mask. */
  function Bit(x: nat, i: nat): nat {
    x / Pow2(i) % 2
  }

  /** Bitwise or. */
  function Or(a: nat, b: nat): nat {
    if a == 0 then b
    else if b == 0 then a
    else (if a % 2 == 1 || b % 2 == 1 then 1 else 0) + 2 * Or(a / 2, b / 2)
  }

  lemma BitStep(x: nat, i: nat)
    ensures Bit(x, 0) == x % 2
    ensures Bit(x, i + 1) == Bit(x / 2, i)
  {
    DivTwice(x, Pow2(i));
  }

  lemma DivTwice(x: nat, p: nat)
    requires p > 0
    ensures x / (2 * p) == x / 2 / p
  {
    var q, r := x / 2 / p, x / 2 % p;
    assert x / 2 == q * p + r;
    assert x == (2 * p) * q + (2 * r + x % 2);
    Quotient(x, 2 * p, q, 2 * r + x % 2);
  }

  lemma MulAtLeast(d: nat, k: int)
    ensures k >= 1 ==> d * k >= d
    ensures k <= -1 ==> d * k <= 0 - d
  {
    assert k >= 1 ==> d * (k - 1) >= 0;
    assert k <= -1 ==> d * (-k - 1) >= 0;
  }

  lemma Quotient(x: nat, d: nat, q: nat, r: nat)
    requires r < d && x == d * q + r
    ensures x / d == q
  {
    MulAtLeast(d, x / d - q);
    assert d * (x / d - q) == d * (x / d) - d * q;
  }

  /** Setting a bit that is clear adds its weight. */
  lemma {:induction false} OrClearBit(a: nat, k: nat, b: nat)
    requires b <= 1 && Bit(a, k) == 0
    ensures Or(a, b * Pow2(k)) == a + b * Pow2(k)
    decreases k
  {
    BitStep(a, if k == 0 then 0 else k - 1);
    if a != 0 && b == 1 {
      if k == 0 {
        assert Or(a / 2, 0) == a / 2;
      } else {
        assert Pow2(k) == 2 * Pow2(k - 1);
        OrClearBit(a / 2, k - 1, 1);
      }
    }
  }

  // ---- Interleaving ------------------------------------------------------

  /** The low `n` bits of `x` at odd and of `y` at even positions. */
  function Interleaved(x: nat, y: nat, n: nat): nat {
    if n == 0 then 0 else y % 2 + 2 * (x % 2) + 4 * Interleaved(x / 2, y / 2, n - 1)
  }

  /** The low `n` bits at even positions. */
  function Evens(h: nat, n: nat): nat {
    if n == 0 then 0 else h % 2 + 2 * Evens(h / 4, n - 1)
  }

  function Odds(h: nat, n: nat): nat {
    Evens(h / 2, n)
  }

  lemma Parts(a: nat, b: nat, rest: nat)
    requires a <= 1 && b <= 1
    ensures var h := a + 2 * b + 4 * rest;
            h % 2 == a && h / 2 % 2 == b && h / 4 == rest && h / 2 / 4 == rest / 2
  {
  }

  lemma {:induction false} EvensInterleaved(x: nat, y: nat, n: nat)
    ensures Evens(Interleaved(x, y, n), n) == y % Pow2(n)
    decreases n
  {
    if n != 0 {
      EvensInterleaved(x / 2, y / 2, n - 1);
      Parts(y % 2, x % 2, Interleaved(x / 2, y / 2, n - 1));
      ModStep(y, Pow2(n - 1));
    }
  }

  lemma {:induction false} OddsInterleaved(x: nat, y: nat, n: nat)
    ensures Odds(Interleaved(x, y, n), n) == x % Pow2(n)
    decreases n
  {
    if n != 0 {
      OddsInterleaved(x / 2, y / 2, n - 1);
      Parts(y % 2, x % 2, Interleaved(x / 2, y / 2, n - 1));
      ModStep(x, Pow2(n - 1));
    }
  }

  lemma ModStep(x: nat, p: nat)
    requires p > 0
    ensures x % (2 * p) == x % 2 + 2 * (x / 2 % p)
  {
    DivTwice(x, p);
    var q := x / 2 / p;
    assert x / 2 == q * p + x / 2 % p;
    assert x == (2 * p) * q + (2 * (x / 2 % p) + x % 2);
    assert x == (2 * p) * (x / (2 * p)) + x % (2 * p);
  }

  lemma {:induction false} InterleavesSplit(h: nat, n: nat)
    ensures Interleaved(Odds(h, n), Evens(h, n), n) == h % Pow2(2 * n)
    decreases n
  {
    if n != 0 {
      InterleavesSplit(h / 4, n - 1);
      assert Odds(h, n) == h / 2 % 2 + 2 * Odds(h / 4, n - 1) by { assert h / 2 / 4 == h / 4 / 2; }
      assert Odds(h, n) / 2 == Odds(h / 4, n - 1) && Evens(h, n) / 2 == Evens(h / 4, n - 1);
      assert Pow2(2 * n) == 2 * Pow2(2 * n - 1) && Pow2(2 * n - 1) == 2 * Pow2(2 * (n - 1));
      ModStep(h, Pow2(2 * n - 1));
      ModStep(h / 2, Pow2(2 * (n - 1)));
      assert h / 2 / 2 == h / 4;
    }
  }

  lemma {:induction false} Below(x: nat, y: nat, n: nat)
    ensures Interleaved(x, y, n) < Pow2(2 * n)
    decreases n
  {
    if n != 0 {
      Below(x / 2, y / 2, n - 1);
      assert Pow2(2 * n) == 2 * Pow2(2 * n - 1) && Pow2(2 * n - 1) == 2 * Pow2(2 * (n - 1));
    }
  }

  // ---- The loops ---------------------------------------------------------

  lemma Scale(b: nat, k: nat)
    ensures 2 * (b * Pow2(k)) == b * Pow2(k + 1)
    ensures 4 * (b * Pow2(k)) == b * Pow2(k + 2)
  {
    assert Pow2(k + 1) == 2 * Pow2(k) && Pow2(k + 2) == 4 * Pow2(k);
    assert b * (2 * Pow2(k)) == 2 * (b * Pow2(k)) && b * (4 * Pow2(k)) == 4 * (b * Pow2(k));
  }

  lemma {:induction false} InterleavedNext(x: nat, y: nat, i: nat)
    ensures Interleaved(x, y, i + 1) == Interleaved(x, y, i) + Bit(x, i) * Pow2(2 * i + 1) + Bit(y, i) * Pow2(2 * i)
    decreases i
  {
    hide Pow2, Bit;
    if i == 0 {
      BitStep(x, 0);
      BitStep(y, 0);
      SmallPowers();
      assert Interleaved(x / 2, y / 2, 0) == 0;
    } else {
      InterleavedNext(x / 2, y / 2, i - 1);
      BitStep(x, i - 1);
      BitStep(y, i - 1);
      Scale(Bit(x, i), 2 * i - 1);
      Scale(Bit(y, i), 2 * i - 2);
    }
  }

  lemma SmallPowers()
    ensures Pow2(0) == 1 && Pow2(1) == 2
  {
  }

  lemma {:induction false} EvensNext(h: nat, i: nat)
    ensures Evens(h, i + 1) == Evens(h, i) + Bit(h, 2 * i) * Pow2(i) && Evens(h, i) < Pow2(i)
    decreases i
  {
    hide Pow2, Bit;
    SmallPowers();
    if i == 0 {
      BitStep(h, 0);
      assert Evens(h / 4, 0) == 0;
    } else {
      EvensNext(h / 4, i - 1);
      BitStep(h, 2 * i - 1);
      BitStep(h / 2, 2 * i - 2);
      assert h / 2 / 2 == h / 4;
      Scale(Bit(h, 2 * i), i - 1);
      Scale(1, i - 1);
    }
  }

  /** A bit above a number is clear. */
  lemma ClearAbove(a: nat, k: nat)
    requires a < Pow2(k)
    ensures Bit(a, k) == 0
  {
    Quotient(a, Pow2(k), 0, a);
  }

  /** Adding a higher bit leaves a lower one clear. */
  lemma {:induction false} ClearBelow(a: nat, k: nat, b: nat)
    requires a < Pow2(k)
    ensures Bit(a + b * Pow2(k + 1), k) == 0
  {
    var p := Pow2(k);
    assert a + b * Pow2(k + 1) == p * (2 * b) + a;
    Quotient(a + b * Pow2(k + 1), p, 2 * b, a);
  }

  lemma BitIsBit(x: nat, i: nat)
    ensures Bit(x, i) <= 1
  {
  }

  method Interleave(x: nat, y: nat) returns (r: nat)
    ensures r == Interleaved(x, y, GEO_STEP)
  {
    hide Or, Bit, Pow2, Interleaved;
    r := 0;
    Start(x, y);
    for i := 0 to GEO_STEP
      invariant r == Interleaved(x, y, i)
    {
      Below(x, y, i);
      PowerOrder(2 * i);
      ClearAbove(r, 2 * i + 1);
      BitIsBit(x, i);
      BitIsBit(y, i);
      OrClearBit(r, 2 * i + 1, Bit(x, i));
      ClearBelow(r, 2 * i, Bit(x, i));
      r := Or(r, Bit(x, i) * Pow2(2 * i + 1));
      OrClearBit(r, 2 * i, Bit(y, i));
      r := Or(r, Bit(y, i) * Pow2(2 * i));
      InterleavedNext(x, y, i);
    }
  }

  lemma Start(x: nat, y: nat)
    ensures Interleaved(x, y, 0) == 0
  {
  }

  lemma PowerOrder(n: nat)
    ensures Pow2(n) < Pow2(n + 1)
  {
  }

  /** Setting the next bit of the low half. */
  lemma NextEven(h: nat, i: nat)
    ensures Or(Evens(h, i), Bit(h, 2 * i) * Pow2(i)) == Evens(h, i + 1)
  {
    hide Or, Pow2, Bit, Evens;
    EvensNext(h, i);
    ClearAbove(Evens(h, i), i);
    BitIsBit(h, 2 * i);
    OrClearBit(Evens(h, i), i, Bit(h, 2 * i));
  }

  lemma NoBits(h: nat)
    ensures Evens(h, 0) == 0
  {
  }

  method Deinterleave(hash: nat) returns (x: nat, y: nat)
    ensures x == Odds(hash, GEO_STEP) && y == Evens(hash, GEO_STEP)
  {
    hide Or, Pow2, Bit, Evens;
    x, y := 0, 0;
    NoBits(hash);
    NoBits(hash / 2);
    for i := 0 to GEO_STEP
      invariant x == Evens(hash / 2, i) && y == Evens(hash, i)
    {
      BitStep(hash, 2 * i);
      NextEven(hash / 2, i);
      NextEven(hash, i);
      x := Or(x, Bit(hash, 2 * i + 1) * Pow2(i));
      y := Or(y, Bit(hash, 2 * i) * Pow2(i));
    }
  }

  lemma Sizes()
    ensures Pow2(GEO_STEP) == CELLS && Pow2(2 * GEO_STEP) == CELLS * CELLS
  {
    assert Pow2(10) == 0x400;
    assert Pow2(20) == 0x10_0000;
    assert Pow2(30) == 0x4000_0000;
    assert Pow2(40) == 0x100_0000_0000;
    assert Pow2(50) == 0x4_0000_0000_0000;
  }

  /** Mutual inverses on 26-bit pairs and 52-bit hashes. Bits beyond are dropped. */
  lemma Inverses(x: nat, y: nat, hash: nat)
    ensures Odds(Interleaved(x, y, GEO_STEP), GEO_STEP) == x % CELLS
    ensures Evens(Interleaved(x, y, GEO_STEP), GEO_STEP) == y % CELLS
    ensures Interleaved(Odds(hash, GEO_STEP), Evens(hash, GEO_STEP), GEO_STEP) == hash % (CELLS * CELLS)
  {
    hide Odds, Evens, Interleaved, Pow2;
    Sizes();
    OddsInterleaved(x, y, GEO_STEP);
    EvensInterleaved(x, y, GEO_STEP);
    InterleavesSplit(hash, GEO_STEP);
  }

  // ---- Coordinates -------------------------------------------------------

  datatype Axis = Axis(min: real, range: real)

  const LON := Axis(-180.0, 360.0)
  const LAT := Axis(-85.05112878, 170.10225756)

  function Max(a: Axis): real {
    a.min + a.range
  }

  predicate Accepted(a: Axis, v: real) {
    a.min <= v <= Max(a)
  }

  /** The cell of a coordinate: truncation of its position in the range. */
  function Cell(a: Axis, v: real): nat
    requires a.range > 0.0 && Accepted(a, v)
  {
    CellPosition(a, v);
    Position(a, v).Floor
  }

  function Position(a: Axis, v: real): real
    requires a.range > 0.0
  {
    (v - a.min) / a.range * CELLS as real
  }

  lemma CellPosition(a: Axis, v: real)
    requires a.range > 0.0 && Accepted(a, v)
    ensures 0.0 <= Position(a, v) <= CELLS as real
    ensures Position(a, v) == CELLS as real <==> v == Max(a)
    ensures v == a.min + Position(a, v) * a.range / CELLS as real
  {
    var t := (v - a.min) / a.range;
    assert t * a.range == v - a.min;
    assert t >= 0.0;
    assert t <= 1.0;
    assert t == 1.0 <==> v == Max(a);
  }

  /** The middle of a cell. */
  function Middle(a: Axis, cell: nat): real {
    var low := a.min + cell as real / CELLS as real * a.range;
    var high := a.min + (cell + 1) as real / CELLS as real * a.range;
    (low + high) / 2.0
  }

  lemma MiddleAt(a: Axis, cell: nat)
    ensures Middle(a, cell) == a.min + (cell as real + 0.5) * a.range / CELLS as real
  {
  }

  function HalfCell(a: Axis): real {
    a.range / (2 * CELLS) as real
  }

  predicate Near(a: Axis, u: real, v: real) {
    -HalfCell(a) <= u - v <= HalfCell(a)
  }

  /** Every coordinate below the upper end is in a cell, within half a cell of its middle. */
  lemma CellBounds(a: Axis, v: real)
    requires a.range > 0.0 && Accepted(a, v)
    ensures Cell(a, v) < CELLS <==> v != Max(a)
    ensures Cell(a, v) <= CELLS
    ensures Near(a, Middle(a, Cell(a, v)), v)
  {
    CellPosition(a, v);
    var p, c := Position(a, v), Cell(a, v);
    assert c as real <= p < c as real + 1.0;
    MiddleAt(a, c);
    var d := c as real + 0.5 - p;
    assert Middle(a, c) - v == d * a.range / CELLS as real;
    HalfBound(a, d);
  }

  lemma HalfBound(a: Axis, d: real)
    requires a.range > 0.0 && -0.5 <= d <= 0.5
    ensures -HalfCell(a) <= d * a.range / CELLS as real <= HalfCell(a)
  {
    var low, high := -0.5, 0.5;
    Monotone(low, d, a.range);
    Monotone(d, high, a.range);
    Divided(low * a.range, d * a.range, CELLS as real);
    Divided(d * a.range, high * a.range, CELLS as real);
    assert HalfCell(a) == high * a.range / CELLS as real;
    assert low * a.range / CELLS as real == -HalfCell(a);
  }

  lemma Divided(x: real, y: real, c: real)
    requires x <= y && c > 0.0
    ensures x / c <= y / c
  {
    Monotone(x, y, 1.0 / c);
    assert x / c == x * (1.0 / c) && y / c == y * (1.0 / c);
  }

  lemma Monotone(x: real, y: real, k: real)
    requires x <= y && k > 0.0
    ensures x * k <= y * k
  {
    assert (y - x) * k >= 0.0;
  }

  /** The middle of a cell lies in that cell. */
  lemma CellOfMiddle(a: Axis, cell: nat)
    requires a.range > 0.0 && cell < CELLS
    ensures Accepted(a, Middle(a, cell)) && Cell(a, Middle(a, cell)) == cell
  {
    MiddleAt(a, cell);
    var t := (cell as real + 0.5) / CELLS as real;
    assert Middle(a, cell) - a.min == t * a.range;
    assert 0.0 < t < 1.0;
    Monotone(0.0, t, a.range);
    Monotone(t, 1.0, a.range);
    assert Middle(a, cell) == a.min + t * a.range;
    assert a.min <= Middle(a, cell) <= Max(a);
    assert 0.0 < t * a.range < a.range;
    assert (t * a.range) / a.range == t;
    assert Position(a, Middle(a, cell)) == cell as real + 0.5;
  }

  // ---- Hashes ------------------------------------------------------------

  datatype Point = Point(lon: real, lat: real)

  /** `validate_coords`. */
  predicate Valid(p: Point) {
    Accepted(LON, p.lon) && Accepted(LAT, p.lat)
  }

  function Encoded(p: Point): nat
    requires Valid(p)
  {
    Interleaved(Cell(LON, p.lon), Cell(LAT, p.lat), GEO_STEP)
  }

  function Decoded(hash: nat): Point {
    Point(Middle(LON, Odds(hash, GEO_STEP)), Middle(LAT, Evens(hash, GEO_STEP)))
  }

  method Encode(p: Point) returns (hash: nat)
    requires Valid(p)
    ensures hash == Encoded(p)
  {
    hide Interleaved;
    var lonBits, latBits := Cell(LON, p.lon), Cell(LAT, p.lat);
    hash := Interleave(lonBits, latBits);
  }

  method Decode(hash: nat) returns (p: Point)
    ensures p == Decoded(hash)
  {
    hide Odds, Evens;
    var lonBits, latBits := Deinterleave(hash);
    p := Point(Middle(LON, lonBits), Middle(LAT, latBits));
  }

  lemma LastCellDropped(a: Axis, v: real)
    requires a.range > 0.0 && Accepted(a, v)
    ensures Near(a, Middle(a, Cell(a, v) % CELLS), v) <==> v != Max(a)
  {
    CellBounds(a, v);
    MiddleAt(a, 0);
    if v == Max(a) {
      assert Cell(a, v) == CELLS;
      assert Middle(a, 0) - v == 0.5 * a.range / CELLS as real - a.range;
      assert HalfCell(a) == 0.5 * a.range / CELLS as real;
    }
  }

  /** Decoding an encoded point lands within half a cell on an axis exactly
      when the coordinate is below its upper end; the end itself, which is
      accepted, wraps to the first cell. */
  lemma EncodeThenDecode(p: Point)
    requires Valid(p)
    ensures Near(LON, Decoded(Encoded(p)).lon, p.lon) <==> p.lon != 180.0
    ensures Near(LAT, Decoded(Encoded(p)).lat, p.lat) <==> p.lat != 85.05112878
  {
    hide Odds, Evens, Interleaved, Cell, Middle;
    Inverses(Cell(LON, p.lon), Cell(LAT, p.lat), 0);
    LastCellDropped(LON, p.lon);
    LastCellDropped(LAT, p.lat);
  }

  lemma OddsBelow(hash: nat)
    ensures Odds(hash, GEO_STEP) < CELLS && Evens(hash, GEO_STEP) < CELLS
  {
    hide Odds, Evens, Pow2;
    Sizes();
    EvensNext(hash, GEO_STEP);
    EvensNext(hash / 2, GEO_STEP);
    OddsAreEvens(hash, GEO_STEP);
  }

  lemma OddsAreEvens(hash: nat, n: nat)
    ensures Odds(hash, n) == Evens(hash / 2, n)
  {
  }

  /** Encoding a decoded 52-bit hash gives the hash. */
  lemma DecodeThenEncode(hash: nat)
    requires hash < CELLS * CELLS
    ensures Valid(Decoded(hash)) && Encoded(Decoded(hash)) == hash
  {
    hide Odds, Evens, Interleaved, Cell, Middle;
    OddsBelow(hash);
    CellOfMiddle(LON, Odds(hash, GEO_STEP));
    CellOfMiddle(LAT, Evens(hash, GEO_STEP));
    Inverses(0, 0, hash);
  }
}
