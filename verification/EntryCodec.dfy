/** The cold-store entry format: every value type the engine can evict. */
module EntryCodec {
  import opened Bytes

  // ---- Text --------------------------------------------------------------

  predicate Continuation(b: byte) {
    0x80 <= b < 0xC0
  }

  /** Length of the UTF-8 sequence at the front of `s`, 0 if there is none
      (table 3-7 of the Unicode standard). */
  function ScalarLength(s: bytes): (n: nat)
    ensures n <= |s| && n <= 4
  {
    if |s| >= 1 && s[0] < 0x80 then 1
    else if |s| >= 2 && 0xC2 <= s[0] < 0xE0 && Continuation(s[1]) then 2
    else if |s| >= 3 && Continuation(s[2]) &&
            ((s[0] == 0xE0 && 0xA0 <= s[1] < 0xC0) || (s[0] == 0xED && 0x80 <= s[1] < 0xA0) ||
             (0xE1 <= s[0] < 0xF0 && s[0] != 0xED && Continuation(s[1]))) then 3
    else if |s| >= 4 && Continuation(s[2]) && Continuation(s[3]) &&
            ((s[0] == 0xF0 && 0x90 <= s[1] < 0xC0) || (s[0] == 0xF4 && 0x80 <= s[1] < 0x90) ||
             (0xF1 <= s[0] < 0xF4 && Continuation(s[1]))) then 4
    else 0
  }

  predicate Utf8(s: bytes)
    decreases |s|
  {
    s == [] || (ScalarLength(s) > 0 && Utf8(s[ScalarLength(s)..]))
  }

  type Text = s: bytes | Utf8(s) witness []

  // ---- Coders ------------------------------------------------------------

  /** How one type is written and read, and which of its values fit the format. */
  datatype Coder<!T> = Coder(write: T -> bytes, read: bytes -> Parsed<T>, fits: T -> bool)

  /** Reading what was written for a value that fits gives the value and leaves what follows. */
  ghost predicate Lawful<T(!new)>(c: Coder<T>) {
    forall x: T, rest: bytes :: c.fits(x) ==> c.read(c.write(x) + rest) == Read(x, rest)
  }

  function BytesCoder(): (c: Coder<bytes>)
    ensures Lawful(c)
  {
    var c := Coder(Prefixed, ReadPrefixed, (b: bytes) => |b| < U32);
    assert Lawful(c) by {
      forall x: bytes, rest: bytes | c.fits(x)
        ensures c.read(c.write(x) + rest) == Read(x, rest)
      {
        ReadPrefixedOf(x, rest);
      }
    }
    c
  }

  function ReadText(s: bytes): Parsed<Text> {
    var (raw, rest) :- ReadPrefixed(s);
    if Utf8(raw) then Read(raw, rest) else Invalid
  }

  function TextCoder(): (c: Coder<Text>)
    ensures Lawful(c)
  {
    var c := Coder((t: Text) => Prefixed(t), ReadText, (t: Text) => |t| < U32);
    assert Lawful(c) by {
      forall x: Text, rest: bytes | c.fits(x)
        ensures c.read(c.write(x) + rest) == Read(x, rest)
      {
        ReadPrefixedOf(x, rest);
      }
    }
    c
  }

  function I64Coder(): (c: Coder<int>)
    ensures Lawful(c)
  {
    var c := Coder(I64Bytes, ReadI64, IsI64);
    assert Lawful(c) by {
      forall x: int, rest: bytes | c.fits(x)
        ensures c.read(c.write(x) + rest) == Read(x, rest)
      {
        ReadI64Of(x, rest);
      }
    }
    c
  }

  /** An unsigned 64-bit count written as 32 bits, larger ones as the largest. */
  function ClampedCoder(): (c: Coder<nat>)
    ensures Lawful(c)
  {
    var c := Coder((n: nat) => U32Bytes(Clamp(n)), ReadU32, (n: nat) => n < U32);
    assert Lawful(c) by {
      forall x: nat, rest: bytes | c.fits(x)
        ensures c.read(c.write(x) + rest) == Read(x, rest)
      {
        ReadU32Of(x, rest);
      }
    }
    c
  }

  function Clamp(n: nat): (r: nat)
    ensures r < U32 && (n < U32 ==> r == n)
  {
    if n < U32 then n else U32 - 1
  }

  /** Exactly `n` bytes as they are: the bit pattern of a float, or a 64-bit word. */
  function RawCoder(n: nat): (c: Coder<bytes>)
    ensures Lawful(c)
  {
    var c := Coder((b: bytes) => b, (s: bytes) => ReadExact(s, n), (b: bytes) => |b| == n);
    assert Lawful(c) by {
      forall x: bytes, rest: bytes | c.fits(x)
        ensures c.read(c.write(x) + rest) == Read(x, rest)
      {
        assert (x + rest)[..n] == x && (x + rest)[n..] == rest;
      }
    }
    c
  }

  function Pair<A(!new), B(!new)>(a: Coder<A>, b: Coder<B>): (c: Coder<(A, B)>)
    requires Lawful(a) && Lawful(b)
    ensures Lawful(c)
  {
    var c := Coder(
      (p: (A, B)) => a.write(p.0) + b.write(p.1),
      (s: bytes) => (var (x, s1) :- a.read(s); var (y, s2) :- b.read(s1); Read((x, y), s2)),
      (p: (A, B)) => a.fits(p.0) && b.fits(p.1));
    assert Lawful(c) by {
      forall p: (A, B), rest: bytes | c.fits(p)
        ensures c.read(c.write(p) + rest) == Read(p, rest)
      {
        assert c.write(p) + rest == a.write(p.0) + (b.write(p.1) + rest);
        assert a.read(a.write(p.0) + (b.write(p.1) + rest)) == Read(p.0, b.write(p.1) + rest);
        assert b.read(b.write(p.1) + rest) == Read(p.1, rest);
      }
    }
    c
  }

  // ---- Counted lists -----------------------------------------------------

  function WriteList<T>(write: T -> bytes, xs: seq<T>): bytes {
    if xs == [] then [] else write(xs[0]) + WriteList(write, xs[1..])
  }

  function WriteCounted<T>(write: T -> bytes, xs: seq<T>): bytes {
    U32Bytes(|xs|) + WriteList(write, xs)
  }

  function ReadList<T>(read: bytes -> Parsed<T>, s: bytes, n: nat): Parsed<seq<T>>
    decreases n
  {
    if n == 0 then Read([], s)
    else
      var (x, s1) :- read(s);
      var (xs, s2) :- ReadList(read, s1, n - 1);
      Read([x] + xs, s2)
  }

  function ReadCounted<T>(read: bytes -> Parsed<T>, s: bytes): Parsed<seq<T>> {
    var (n, rest) :- ReadU32(s);
    ReadList(read, rest, n)
  }

  predicate AllFit<T>(fits: T -> bool, xs: seq<T>) {
    |xs| < U32 && forall i :: 0 <= i < |xs| ==> fits(xs[i])
  }

  lemma {:induction false} ReadListOf<T(!new)>(c: Coder<T>, xs: seq<T>, rest: bytes)
    requires Lawful(c) && forall i :: 0 <= i < |xs| ==> c.fits(xs[i])
    ensures ReadList(c.read, WriteList(c.write, xs) + rest, |xs|) == Read(xs, rest)
  {
    if xs == [] {
      assert [] + rest == rest;
    } else {
      var tail := WriteList(c.write, xs[1..]) + rest;
      assert WriteList(c.write, xs) + rest == c.write(xs[0]) + tail;
      assert c.fits(xs[0]) && c.read(c.write(xs[0]) + tail) == Read(xs[0], tail);
      ReadListOf(c, xs[1..], rest);
      assert xs == [xs[0]] + xs[1..];
    }
  }

  function Many<T(!new)>(a: Coder<T>): (c: Coder<seq<T>>)
    requires Lawful(a)
    ensures Lawful(c)
  {
    var c := Coder((xs: seq<T>) => WriteCounted(a.write, xs),
                   (s: bytes) => ReadCounted(a.read, s),
                   (xs: seq<T>) => AllFit(a.fits, xs));
    assert Lawful(c) by {
      forall xs: seq<T>, rest: bytes | c.fits(xs)
        ensures c.read(c.write(xs) + rest) == Read(xs, rest)
      {
        assert c.write(xs) + rest == U32Bytes(|xs|) + (WriteList(a.write, xs) + rest);
        ReadU32Of(|xs|, WriteList(a.write, xs) + rest);
        ReadListOf(a, xs, rest);
      }
    }
    c
  }

  /** The writing loop shared by every list. */
  method WriteEach<T>(write: T -> bytes, xs: seq<T>, w: bytes) returns (out: bytes)
    ensures out == w + WriteCounted(write, xs)
  {
    out := w + U32Bytes(|xs|);
    for i := 0 to |xs|
      invariant out + WriteList(write, xs[i..]) == w + WriteCounted(write, xs)
    {
      assert xs[i..][1..] == xs[i + 1..];
      assert out + WriteList(write, xs[i..]) == out + write(xs[i]) + WriteList(write, xs[i + 1..]);
      out := out + write(xs[i]);
    }
    assert out + [] == out;
  }

  /** The reading loop shared by every list. */
  method ReadEach<T>(read: bytes -> Parsed<T>, s: bytes) returns (r: Parsed<seq<T>>)
    ensures r == ReadCounted(read, s)
  {
    var count := ReadU32(s);
    if count.IsFailure() {
      return count.PropagateFailure();
    }
    var n, start := count.value, count.rest;
    var xs: seq<T>, cursor := [], start;
    PrependNothing(ReadList(read, start, n));
    for i := 0 to n
      invariant Prepend(xs, ReadList(read, cursor, n - i)) == ReadList(read, start, n)
    {
      var one := read(cursor);
      if one.IsFailure() {
        return one.PropagateFailure();
      }
      PrependOne(xs, one.value, ReadList(read, one.rest, n - i - 1));
      xs, cursor := xs + [one.value], one.rest;
    }
    assert xs + [] == xs;
    r := Read(xs, cursor);
  }

  // ---- Values ------------------------------------------------------------

  type Fields = seq<(Text, bytes)>

  /** A consumer and the ids it has pending. */
  type Consumer = (Text, seq<Text>)

  /** An id, its consumer, and how often it was delivered. */
  type Delivery = ((Text, Text), nat)

  /** Name and last delivered id; consumers and pending deliveries. */
  type Group = ((Text, Text), (seq<Consumer>, seq<Delivery>))

  datatype Value =
    | Str(text: bytes)
    | List(items: seq<bytes>)
    | Hash(fields: Fields, expiries: seq<(Text, int)>)
    | Set(members: seq<Text>)
    | SortedSet(scores: seq<(Text, bytes)>)
    | Stream(lastId: Text, entries: seq<(Text, Fields)>, groups: seq<Group>)
    | Vector(data: seq<bytes>, metadata: Option<Text>, encrypted: bool)
    | HyperLogLog(registers: bytes)
    | TimeSeries(samples: seq<(int, bytes)>, retention: bytes, labels: seq<(Text, Text)>)

  datatype Entry = Entry(key: Text, value: Value, ttl: int)

  const HLL_REGISTERS: int := 16384
  const HLL_MAX: int := 51

  function FieldsCoder(): (c: Coder<Fields>)
    ensures Lawful(c)
  {
    Many(Pair(TextCoder(), BytesCoder()))
  }

  function ExpiriesCoder(): (c: Coder<seq<(Text, int)>>)
    ensures Lawful(c)
  {
    Many(Pair(TextCoder(), I64Coder()))
  }

  function ScoresCoder(): (c: Coder<seq<(Text, bytes)>>)
    ensures Lawful(c)
  {
    Many(Pair(TextCoder(), RawCoder(8)))
  }

  function GroupsCoder(): (c: Coder<seq<Group>>)
    ensures Lawful(c)
  {
    Many(Pair(Pair(TextCoder(), TextCoder()),
              Pair(Many(Pair(TextCoder(), Many(TextCoder()))),
                   Many(Pair(Pair(TextCoder(), TextCoder()), ClampedCoder())))))
  }

  function StreamCoder(): (c: Coder<(Text, seq<(Text, Fields)>)>)
    ensures Lawful(c)
  {
    Pair(TextCoder(), Many(Pair(TextCoder(), FieldsCoder())))
  }

  function SeriesCoder(): (c: Coder<(seq<(int, bytes)>, (bytes, seq<(Text, Text)>))>)
    ensures Lawful(c)
  {
    Pair(Many(Pair(I64Coder(), RawCoder(8))), Pair(RawCoder(8), Many(Pair(TextCoder(), TextCoder()))))
  }

  // 'S' 'L' 'H' 'h' 'T' 'Z' 'X' 'V' 'P' 'I'
  function TypeByte(v: Value): byte {
    match v
    case Str(_) => 0x53
    case List(_) => 0x4C
    case Hash(_, e) => if e != [] then 0x68 else 0x48
    case Set(_) => 0x54
    case SortedSet(_) => 0x5A
    case Stream(_, _, _) => 0x58
    case Vector(_, _, _) => 0x56
    case HyperLogLog(_) => 0x50
    case TimeSeries(_, _, _) => 0x49
  }

  function WriteMetadata(metadata: Option<Text>): bytes {
    if metadata.Some? then [1] + Prefixed(metadata.value) else [0]
  }

  function WriteValue(v: Value): bytes {
    match v
    case Str(text) => Prefixed(text)
    case List(items) => Many(BytesCoder()).write(items)
    case Hash(fields, expiries) =>
      FieldsCoder().write(fields) + if expiries != [] then ExpiriesCoder().write(expiries) else []
    case Set(members) => Many(TextCoder()).write(members)
    case SortedSet(scores) => ScoresCoder().write(scores)
    case Stream(lastId, entries, groups) => StreamCoder().write((lastId, entries)) + GroupsCoder().write(groups)
    case Vector(data, metadata, _) =>
      Many(RawCoder(4)).write(data) + WriteMetadata(metadata)
    case HyperLogLog(registers) => U32Bytes(|registers|) + registers
    case TimeSeries(samples, retention, labels) => SeriesCoder().write((samples, (retention, labels)))
  }

  function ReadRegisters(s: bytes): Parsed<bytes> {
    var (n, s1) :- ReadU32(s);
    if n != HLL_REGISTERS then Invalid
    else
      var (registers, s2) :- ReadExact(s1, n);
      if exists i :: 0 <= i < |registers| && registers[i] as int > HLL_MAX then Invalid else Read(registers, s2)
  }

  /** Nothing left means a stream written before it had groups. */
  function ReadGroups(s: bytes): Parsed<seq<Group>> {
    if s == [] then Read([], []) else GroupsCoder().read(s)
  }

  function ReadMetadata(s: bytes): Parsed<Option<Text>> {
    var (flag, s1) :- ReadExact(s, 1);
    if flag[0] == 1 then
      var (text, s2) :- ReadText(s1);
      Read(Some(text), s2)
    else Read(None, s1)
  }

  function ReadHash(tag: byte, s: bytes): Parsed<Value> {
    var (fields, s1) :- FieldsCoder().read(s);
    if tag == 0x68 then
      var (expiries, s2) :- ExpiriesCoder().read(s1);
      Read(Hash(fields, expiries), s2)
    else Read(Hash(fields, []), s1)
  }

  function ReadStream(s: bytes): Parsed<Value> {
    var (head, s1) :- StreamCoder().read(s);
    var (groups, s2) :- ReadGroups(s1);
    Read(Stream(head.0, head.1, groups), s2)
  }

  function ReadVector(s: bytes): Parsed<Value> {
    var (data, s1) :- Many(RawCoder(4)).read(s);
    var (metadata, s2) :- ReadMetadata(s1);
    Read(Vector(data, metadata, false), s2)
  }

  function ReadValue(tag: byte, s: bytes): Parsed<Value> {
    if tag == 0x53 then
      var (text, rest) :- ReadPrefixed(s);
      Read(Str(text), rest)
    else if tag == 0x4C then
      var (items, rest) :- Many(BytesCoder()).read(s);
      Read(List(items), rest)
    else if tag == 0x48 || tag == 0x68 then ReadHash(tag, s)
    else if tag == 0x54 then
      var (members, rest) :- Many(TextCoder()).read(s);
      Read(Set(members), rest)
    else if tag == 0x5A then
      var (scores, rest) :- ScoresCoder().read(s);
      Read(SortedSet(scores), rest)
    else if tag == 0x58 then ReadStream(s)
    else if tag == 0x56 then ReadVector(s)
    else if tag == 0x50 then
      var (registers, rest) :- ReadRegisters(s);
      Read(HyperLogLog(registers), rest)
    else if tag == 0x49 then
      var (series, rest) :- SeriesCoder().read(s);
      Read(TimeSeries(series.0, series.1.0, series.1.1), rest)
    else Invalid
  }

  /** `write_single_entry` */
  function WriteEntry(e: Entry): bytes {
    [TypeByte(e.value)] + (Prefixed(e.key) + (I64Bytes(if e.ttl > 0 then e.ttl else -1) + WriteValue(e.value)))
  }

  /** `read_single_entry` */
  function ReadEntry(s: bytes): Parsed<Entry> {
    var (tag, s1) :- ReadExact(s, 1);
    var (key, s2) :- ReadText(s1);
    var (ttl, s3) :- ReadI64(s2);
    var (value, s4) :- ReadValue(tag[0], s3);
    Read(Entry(key, value, ttl), s4)
  }

  // ---- Round trip --------------------------------------------------------

  /** What a delivery is read back as: its count in 32 bits. */
  function NormalDelivery(d: Delivery): Delivery {
    (d.0, Clamp(d.1))
  }

  function NormalDeliveries(ds: seq<Delivery>): seq<Delivery> {
    seq(|ds|, i requires 0 <= i < |ds| => NormalDelivery(ds[i]))
  }

  function NormalGroup(g: Group): Group {
    (g.0, (g.1.0, NormalDeliveries(g.1.1)))
  }

  function NormalGroups(gs: seq<Group>): seq<Group> {
    seq(|gs|, i requires 0 <= i < |gs| => NormalGroup(gs[i]))
  }

  function Normal(v: Value): Value {
    match v
    case Stream(lastId, entries, groups) => Stream(lastId, entries, NormalGroups(groups))
    case Vector(data, metadata, _) => Vector(data, metadata, false)
    case other => other
  }

  /** What an entry is read back as: no TTL is -1, counts in 32 bits, vectors not marked encrypted. */
  function NormalEntry(e: Entry): Entry {
    Entry(e.key, Normal(e.value), if e.ttl > 0 then e.ttl else -1)
  }

  predicate ValidRegisters(registers: bytes) {
    |registers| == HLL_REGISTERS && forall i :: 0 <= i < |registers| ==> registers[i] as int <= HLL_MAX
  }

  /** Every length and count fits the format; registers are those of a HyperLogLog. */
  predicate Fits(v: Value) {
    match v
    case Str(text) => |text| < U32
    case List(items) => Many(BytesCoder()).fits(items)
    case Hash(fields, expiries) => FieldsCoder().fits(fields) && ExpiriesCoder().fits(expiries)
    case Set(members) => Many(TextCoder()).fits(members)
    case SortedSet(scores) => ScoresCoder().fits(scores)
    case Stream(lastId, entries, groups) => StreamCoder().fits((lastId, entries)) && GroupsCoder().fits(NormalGroups(groups))
    case Vector(data, metadata, _) =>
      Many(RawCoder(4)).fits(data) && (metadata.Some? ==> |metadata.value| < U32)
    case HyperLogLog(registers) => ValidRegisters(registers)
    case TimeSeries(samples, retention, labels) => SeriesCoder().fits((samples, (retention, labels)))
  }

  predicate EntryFits(e: Entry) {
    |e.key| < U32 && e.ttl < U64 / 2 && Fits(e.value)
  }

  /** A lawful coder reads back what it wrote. */
  lemma ReadBack<T(!new)>(c: Coder<T>, x: T, rest: bytes)
    requires Lawful(c) && c.fits(x)
    ensures c.read(c.write(x) + rest) == Read(x, rest)
  {
  }

  lemma {:induction false} WriteListSame<T>(write: T -> bytes, xs: seq<T>, ys: seq<T>)
    requires |xs| == |ys| && forall i :: 0 <= i < |xs| ==> write(xs[i]) == write(ys[i])
    ensures WriteList(write, xs) == WriteList(write, ys)
  {
    if xs != [] {
      WriteListSame(write, xs[1..], ys[1..]);
    }
  }

  /** Counts above 32 bits are written like the largest one. */
  lemma NormalGroupsWrite(gs: seq<Group>)
    ensures GroupsCoder().write(gs) == GroupsCoder().write(NormalGroups(gs))
  {
    var delivery := Pair(Pair(TextCoder(), TextCoder()), ClampedCoder());
    var group := Pair(Pair(TextCoder(), TextCoder()), Pair(Many(Pair(TextCoder(), Many(TextCoder()))), Many(delivery)));
    forall i | 0 <= i < |gs|
      ensures group.write(gs[i]) == group.write(NormalGroups(gs)[i])
    {
      var ds := gs[i].1.1;
      assert forall j :: 0 <= j < |ds| ==> delivery.write(ds[j]) == delivery.write(NormalDeliveries(ds)[j]);
      WriteListSame(delivery.write, ds, NormalDeliveries(ds));
    }
    WriteListSame(group.write, gs, NormalGroups(gs));
  }

  lemma NormalWrites(v: Value)
    ensures WriteValue(v) == WriteValue(Normal(v)) && TypeByte(v) == TypeByte(Normal(v))
  {
    if v.Stream? {
      NormalGroupsWrite(v.groups);
    }
  }

  lemma HashRoundTrip(v: Value, rest: bytes)
    requires v.Hash? && Fits(v)
    ensures ReadValue(TypeByte(v), WriteValue(v) + rest) == Read(v, rest)
  {
    hide Many, RawCoder, StreamCoder, GroupsCoder, ExpiriesCoder, FieldsCoder, ScoresCoder, SeriesCoder;
    hide BytesCoder, TextCoder, Utf8;
    var tail := if v.expiries != [] then ExpiriesCoder().write(v.expiries) else [];
    assert WriteValue(v) + rest == FieldsCoder().write(v.fields) + (tail + rest);
    ReadBack(FieldsCoder(), v.fields, tail + rest);
    if v.expiries != [] {
      ReadBack(ExpiriesCoder(), v.expiries, rest);
    } else {
      assert [] + rest == rest;
    }
  }

  lemma StreamRoundTrip(v: Value, rest: bytes)
    requires v.Stream? && Fits(v)
    ensures ReadValue(TypeByte(v), WriteValue(v) + rest) == Read(Normal(v), rest)
  {
    hide StreamCoder, NormalGroups, GroupsCoder, ExpiriesCoder, FieldsCoder, ScoresCoder, SeriesCoder, Many, RawCoder;
    hide BytesCoder, TextCoder, Utf8;
    NormalGroupsWrite(v.groups);
    var head, groups := (v.lastId, v.entries), NormalGroups(v.groups);
    var tail := GroupsCoder().write(groups);
    GroupsNotEmpty(groups);
    assert WriteValue(v) + rest == StreamCoder().write(head) + (tail + rest);
    ReadBack(StreamCoder(), head, tail + rest);
    ReadBack(GroupsCoder(), groups, rest);
  }

  lemma GroupsNotEmpty(gs: seq<Group>)
    ensures |GroupsCoder().write(gs)| >= 4
  {
  }

  lemma VectorRoundTrip(v: Value, rest: bytes)
    requires v.Vector? && Fits(v)
    ensures ReadValue(TypeByte(v), WriteValue(v) + rest) == Read(Normal(v), rest)
  {
    hide Many, RawCoder, StreamCoder, GroupsCoder, ExpiriesCoder, FieldsCoder, ScoresCoder, SeriesCoder;
    hide BytesCoder, TextCoder, Utf8;
    hide ReadMetadata, WriteMetadata;
    var c, tail := Many(RawCoder(4)), WriteMetadata(v.metadata);
    assert WriteValue(v) + rest == c.write(v.data) + (tail + rest);
    ReadBack(c, v.data, tail + rest);
    MetadataRoundTrip(v.metadata, rest);
  }

  lemma MetadataRoundTrip(metadata: Option<Text>, rest: bytes)
    requires metadata.Some? ==> |metadata.value| < U32
    ensures ReadMetadata(WriteMetadata(metadata) + rest) == Read(metadata, rest)
  {
    hide Utf8, Prefixed, ReadPrefixed;
    var s := WriteMetadata(metadata) + rest;
    if metadata.Some? {
      assert s[..1] == [1] && s[1..] == Prefixed(metadata.value) + rest;
      ReadPrefixedOf(metadata.value, rest);
    } else {
      assert s[..1] == [0] && s[1..] == rest;
    }
  }

  /** Registers are read back exactly when they are those of a HyperLogLog. */
  lemma RegistersRoundTrip(registers: bytes, rest: bytes)
    requires |registers| < U32
    ensures ReadRegisters(U32Bytes(|registers|) + registers + rest) ==
            if ValidRegisters(registers) then Read(registers, rest) else Invalid
  {
    hide U32Bytes;
    assert U32Bytes(|registers|) + registers + rest == U32Bytes(|registers|) + (registers + rest);
    ReadU32Of(|registers|, registers + rest);
    assert (registers + rest)[..|registers|] == registers;
    assert (registers + rest)[|registers|..] == rest;
  }

  /** Every value that fits is read back in its normal form, and exactly its own bytes are consumed. */
  lemma ValueRoundTrip(v: Value, rest: bytes)
    requires Fits(v)
    ensures ReadValue(TypeByte(v), WriteValue(v) + rest) == Read(Normal(v), rest)
  {
    hide ReadValue, WriteValue, TypeByte, Fits, NormalGroups;
    match v {
      case Hash(_, _) => HashRoundTrip(v, rest);
      case Stream(_, _, _) => StreamRoundTrip(v, rest);
      case Vector(_, _, _) => VectorRoundTrip(v, rest);
      case HyperLogLog(_) => HyperLogLogRoundTrip(v, rest);
      case _ => PlainRoundTrip(v, rest);
    }
  }

  lemma HyperLogLogRoundTrip(v: Value, rest: bytes)
    requires v.HyperLogLog? && Fits(v)
    ensures ReadValue(TypeByte(v), WriteValue(v) + rest) == Read(v, rest)
  {
    hide Many, RawCoder, StreamCoder, GroupsCoder, ExpiriesCoder, FieldsCoder, ScoresCoder, SeriesCoder;
    hide BytesCoder, TextCoder, Utf8, ReadRegisters;
    RegistersRoundTrip(v.registers, rest);
  }

  lemma PlainRoundTrip(v: Value, rest: bytes)
    requires v.Str? || v.List? || v.Set? || v.SortedSet? || v.TimeSeries?
    requires Fits(v)
    ensures ReadValue(TypeByte(v), WriteValue(v) + rest) == Read(v, rest)
  {
    hide Many, RawCoder, StreamCoder, GroupsCoder, ExpiriesCoder, FieldsCoder, ScoresCoder, SeriesCoder;
    hide BytesCoder, TextCoder, Utf8;
    match v {
      case Str(text) => ReadPrefixedOf(text, rest);
      case List(items) => ReadBack(Many(BytesCoder()), items, rest);
      case Set(members) => ReadBack(Many(TextCoder()), members, rest);
      case SortedSet(scores) => ReadBack(ScoresCoder(), scores, rest);
      case TimeSeries(samples, retention, labels) => ReadBack(SeriesCoder(), (samples, (retention, labels)), rest);
    }
  }

  /** The entry round trip, whatever bytes follow. */
  lemma EntryRoundTrip(e: Entry, rest: bytes)
    requires EntryFits(e)
    ensures ReadEntry(WriteEntry(e) + rest) == Read(NormalEntry(e), rest)
  {
    hide ReadValue, WriteValue, Normal, Fits, TypeByte, Utf8;
    var ttl := if e.ttl > 0 then e.ttl else -1;
    var s3 := WriteValue(e.value) + rest;
    var s2 := I64Bytes(ttl) + s3;
    var s1 := Prefixed(e.key) + s2;
    assert WriteEntry(e) + rest == [TypeByte(e.value)] + s1;
    assert ([TypeByte(e.value)] + s1)[..1] == [TypeByte(e.value)];
    assert ([TypeByte(e.value)] + s1)[1..] == s1;
    ReadPrefixedOf(e.key, s2);
    ReadI64Of(ttl, s3);
    ValueRoundTrip(e.value, rest);
  }
}
