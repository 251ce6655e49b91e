/** The cold-store data file: checksummed records, the index over them, and
    the scan that rebuilds the index. */
module ColdFormat {
  import opened Bytes
  import opened EntryCodec
  import opened Sets
  import Crc

  // "LXD1"
  const DATA_MAGIC: bytes := [0x4C, 0x58, 0x44, 0x31]

  // ---- Records -----------------------------------------------------------

  /** Length, checksum, payload. */
  function Envelope(data: bytes): bytes
    requires |data| < U32
  {
    U32Bytes(|data|) + U32Bytes(Crc.Crc32(data)) + data
  }

  datatype RecordRead =
    | Incomplete
    | Corrupted(size: nat)
    | Unparsable(size: nat)
    | Found(entry: Entry, size: nat)

  /** The record at the front of the unread bytes, as startup reads it. */
  function ReadRecord(s: bytes): (r: RecordRead)
    ensures !r.Incomplete? ==> 8 <= r.size <= |s|
  {
    hide Crc.Crc32, ReadEntry;
    if |s| < 8 then Incomplete
    else
      var length := LeValue(s[..4]);
      if 8 + length > |s| then Incomplete
      else
        var data := s[8..8 + length];
        if LeValue(s[4..8]) != Crc.Crc32(data) then Corrupted(8 + length)
        else match ReadEntry(data)
          case Read(e, _) => Found(e, 8 + length)
          case _ => Unparsable(8 + length)
  }

  /** A complete record: its length field covers exactly its bytes. */
  predicate Complete(c: bytes) {
    |c| >= 8 && LeValue(c[..4]) == |c| - 8
  }

  function KeyOf(c: bytes): Option<Text> {
    match ReadRecord(c)
    case Found(e, _) => Some(e.key)
    case _ => None
  }

  function TtlOf(c: bytes): int {
    match ReadRecord(c)
    case Found(e, _) => e.ttl
    case _ => -1
  }

  /** The record an index entry refers to, validated as `read_indexed_entry` does. */
  function ReadIndexed(c: bytes, key: Text): Option<Value> {
    hide Crc.Crc32, ReadEntry;
    if |c| < 8 || LeValue(c[..4]) != |c| - 8 || LeValue(c[4..8]) != Crc.Crc32(c[8..]) then None
    else match ReadEntry(c[8..])
      case Read(e, rest) => if e.key != key || rest != [] then None else Some(e.value)
      case _ => None
  }

  lemma EnvelopeParts(data: bytes)
    requires |data| < U32
    ensures var c := Envelope(data);
            Complete(c) && |c| == 8 + |data| && c[8..] == data && LeValue(c[4..8]) == Crc.Crc32(data)
  {
    hide Crc.Crc32, LeValue;
    var c := Envelope(data);
    U32Value(|data|);
    U32Value(Crc.Crc32(data));
    assert c[..4] == U32Bytes(|data|);
    assert c[4..8] == U32Bytes(Crc.Crc32(data));
  }

  /** An entry small enough for the 32-bit fields of its record. */
  predicate Storable(e: Entry) {
    EntryFits(e) && |WriteEntry(e)| + 8 < U32
  }

  function Record(e: Entry): bytes
    requires Storable(e)
  {
    Envelope(WriteEntry(e))
  }

  /** What is written is found again, normalized, both by startup and by lookups. */
  lemma RecordRoundTrip(e: Entry)
    requires Storable(e)
    ensures Complete(Record(e)) && |Record(e)| == 8 + |WriteEntry(e)|
    ensures ReadRecord(Record(e)) == Found(NormalEntry(e), |Record(e)|)
    ensures ReadIndexed(Record(e), e.key) == Some(NormalEntry(e).value)
  {
    hide Crc.Crc32, ReadEntry, WriteEntry, LeValue, EntryFits, Envelope;
    var data, c := WriteEntry(e), Record(e);
    EnvelopeParts(data);
    EntryRoundTrip(e, []);
    assert data + [] == data;
    assert c[8..8 + |data|] == data;
  }

  /** Only the bytes of the record itself are looked at. */
  lemma ReadsPrefix(s: bytes)
    requires !ReadRecord(s).Incomplete?
    ensures var c := s[..ReadRecord(s).size]; Complete(c) && ReadRecord(c) == ReadRecord(s)
  {
    hide Crc.Crc32, ReadEntry, LeValue;
    var c := s[..ReadRecord(s).size];
    assert c[..4] == s[..4] && c[4..8] == s[4..8] && c[8..|c|] == s[8..|c|];
  }

  lemma ReadsComplete(c: bytes, rest: bytes)
    requires Complete(c)
    ensures var r := ReadRecord(c + rest); !r.Incomplete? && r.size == |c| && r == ReadRecord(c)
  {
    hide Crc.Crc32, ReadEntry, LeValue;
    var s := c + rest;
    assert s[..4] == c[..4] && s[4..8] == c[4..8] && s[8..|c|] == c[8..|c|];
  }

  /** Every proper prefix of a record is incomplete. */
  lemma TornRecord(c: bytes, k: nat)
    requires Complete(c) && k < |c|
    ensures ReadRecord(c[..k]) == Incomplete
  {
    hide Crc.Crc32, ReadEntry, LeValue;
    if k >= 8 {
      assert c[..k][..4] == c[..4];
    }
  }

  // ---- Files as sequences of records -------------------------------------

  function Joined(cs: seq<bytes>): bytes {
    if cs == [] then [] else Joined(cs[..|cs| - 1]) + cs[|cs| - 1]
  }

  predicate AllComplete(cs: seq<bytes>) {
    forall i :: 0 <= i < |cs| ==> Complete(cs[i])
  }

  /** The complete records at the front of the bytes. */
  function Split(s: bytes): (cs: seq<bytes>)
    ensures AllComplete(cs)
    decreases |s|
  {
    hide ReadRecord, Complete;
    var r := ReadRecord(s);
    if r.Incomplete? then []
    else
      ReadsPrefix(s);
      [s[..r.size]] + Split(s[r.size..])
  }

  lemma AppendChunk(cs: seq<bytes>, c: bytes)
    ensures Joined(cs + [c]) == Joined(cs) + c
  {
    assert (cs + [c])[..|cs|] == cs;
  }

  lemma {:induction false} JoinedConcat(a: seq<bytes>, b: seq<bytes>)
    ensures Joined(a + b) == Joined(a) + Joined(b)
    decreases |b|
  {
    if b == [] {
      assert a + b == a;
    } else {
      var front, last := b[..|b| - 1], b[|b| - 1];
      assert (a + b)[..|a + b| - 1] == a + front;
      JoinedConcat(a, front);
      assert Joined(a) + Joined(front) + last == Joined(a) + (Joined(front) + last);
    }
  }

  lemma JoinedCons(c: bytes, cs: seq<bytes>)
    ensures Joined([c] + cs) == c + Joined(cs)
  {
    AppendChunk([], c);
    assert [] + [c] == [c];
    JoinedConcat([c], cs);
  }

  /** The split of a sequence of records followed by an incomplete one. */
  lemma {:induction false} SplitJoined(cs: seq<bytes>, tail: bytes)
    requires AllComplete(cs) && ReadRecord(tail) == Incomplete
    ensures Split(Joined(cs) + tail) == cs
  {
    hide ReadRecord, Complete;
    if cs == [] {
      assert Joined(cs) + tail == tail;
    } else {
      var c, more := cs[0], cs[1..];
      assert cs == [c] + more;
      JoinedCons(c, more);
      var rest := Joined(more) + tail;
      assert Joined(cs) + tail == c + rest;
      ReadsComplete(c, rest);
      assert (c + rest)[..|c|] == c && (c + rest)[|c|..] == rest;
      SplitJoined(more, tail);
    }
  }

  lemma NothingIncomplete()
    ensures ReadRecord([]) == Incomplete
  {
  }

  lemma {:induction false} CutRecords(cs: seq<bytes>, k: nat) returns (n: nat, tail: bytes)
    requires AllComplete(cs) && k <= |Joined(cs)|
    ensures n <= |cs| && |Joined(cs[..n])| <= k && (n < |cs| ==> k < |Joined(cs[..n + 1])|)
    ensures Joined(cs)[..k] == Joined(cs[..n]) + tail && ReadRecord(tail) == Incomplete
  {
    hide ReadRecord, Complete;
    NothingIncomplete();
    if k == |Joined(cs)| {
      n, tail := |cs|, [];
      assert cs[..n] == cs;
      assert Joined(cs)[..k] == Joined(cs) + [];
    } else {
      var front := cs[..|cs| - 1];
      if k < |Joined(front)| {
        n, tail := CutRecords(front, k);
        assert front[..n] == cs[..n] && front[..n + 1] == cs[..n + 1];
      } else {
        n, tail := |cs| - 1, cs[|cs| - 1][..k - |Joined(front)|];
        assert cs[..n + 1] == cs;
        TornRecord(cs[|cs| - 1], k - |Joined(front)|);
      }
    }
  }

  /** Cutting a data file anywhere loses only the records the cut reaches. */
  lemma TornFile(cs: seq<bytes>, k: nat) returns (n: nat)
    requires AllComplete(cs) && 4 <= k <= 4 + |Joined(cs)|
    ensures n <= |cs| && 4 + |Joined(cs[..n])| <= k && (n < |cs| ==> k < 4 + |Joined(cs[..n + 1])|)
    ensures Split((DATA_MAGIC + Joined(cs))[..k][4..]) == cs[..n]
  {
    hide ReadRecord, Complete, Joined, Split;
    var tail;
    n, tail := CutRecords(cs, k - 4);
    SplitJoined(cs[..n], tail);
    assert (DATA_MAGIC + Joined(cs))[..k][4..] == Joined(cs)[..k - 4];
  }

  // ---- The index ---------------------------------------------------------

  datatype DiskEntry = DiskEntry(offset: nat, length: nat, ttl: int, createdAt: int)

  type Index = map<Text, DiskEntry>

  /** File offset of record `i`. */
  function Offset(cs: seq<bytes>, i: nat): nat
    requires i <= |cs|
  {
    4 + |Joined(cs[..i])|
  }

  /** Position of the last record of a key. */
  function LastOf(cs: seq<bytes>, key: Text): (r: Option<nat>)
    ensures r.Some? ==> r.value < |cs|
  {
    hide KeyOf;
    if cs == [] then None
    else if KeyOf(cs[|cs| - 1]) == Some(key) then Some(|cs| - 1)
    else LastOf(cs[..|cs| - 1], key)
  }

  lemma {:induction false} LastOfIsLast(cs: seq<bytes>, key: Text)
    ensures match LastOf(cs, key)
            case Some(i) => KeyOf(cs[i]) == Some(key) && forall j :: i < j < |cs| ==> KeyOf(cs[j]) != Some(key)
            case None => forall j :: 0 <= j < |cs| ==> KeyOf(cs[j]) != Some(key)
  {
    hide KeyOf;
    if cs != [] {
      LastOfIsLast(cs[..|cs| - 1], key);
    }
  }

  /** The index entry describes the last record of its key. */
  predicate Points(cs: seq<bytes>, key: Text, d: DiskEntry) {
    var i := LastOf(cs, key);
    i.Some? && d == DiskEntry(Offset(cs, i.value), |cs[i.value]|, TtlOf(cs[i.value]), d.createdAt)
  }

  predicate IndexOk(cs: seq<bytes>, index: Index) {
    forall key <- index :: Points(cs, key, index[key])
  }

  function LengthOf(d: DiskEntry): nat {
    d.length
  }

  /** The bytes the index refers to. */
  ghost function LiveBytes(index: Index): nat {
    Sum(index, LengthOf)
  }

  lemma LastOfAppended(cs: seq<bytes>, c: bytes, key: Text)
    ensures LastOf(cs + [c], key) == if KeyOf(c) == Some(key) then Some(|cs|) else LastOf(cs, key)
  {
    hide KeyOf;
    assert (cs + [c])[..|cs|] == cs;
  }

  lemma OffsetAppended(cs: seq<bytes>, c: bytes, i: nat)
    requires i <= |cs|
    ensures Offset(cs + [c], i) == Offset(cs, i)
    ensures Offset(cs, |cs|) == 4 + |Joined(cs)|
  {
    assert (cs + [c])[..i] == cs[..i];
    assert cs[..|cs|] == cs;
  }

  lemma PointsAppended(cs: seq<bytes>, c: bytes, key: Text, d: DiskEntry)
    requires KeyOf(c) != Some(key)
    ensures Points(cs + [c], key, d) <==> Points(cs, key, d)
  {
    hide KeyOf, TtlOf, Joined, Offset, LastOf;
    LastOfAppended(cs, c, key);
    if LastOf(cs, key).Some? {
      OffsetAppended(cs, c, LastOf(cs, key).value);
    }
  }

  lemma PointsLast(cs: seq<bytes>, c: bytes, key: Text, createdAt: int)
    requires KeyOf(c) == Some(key)
    ensures Points(cs + [c], key, DiskEntry(4 + |Joined(cs)|, |c|, TtlOf(c), createdAt))
  {
    hide KeyOf, TtlOf, Joined, Offset, LastOf;
    LastOfAppended(cs, c, key);
    OffsetAppended(cs, c, |cs|);
  }

  /** A new record of a key leaves the other index entries right and is
      described by its own. */
  lemma AppendIndexOk(cs: seq<bytes>, c: bytes, index: Index, key: Text, createdAt: int)
    requires IndexOk(cs, index) && KeyOf(c) == Some(key)
    ensures IndexOk(cs + [c], index[key := DiskEntry(4 + |Joined(cs)|, |c|, TtlOf(c), createdAt)])
  {
    hide KeyOf, TtlOf, Joined, Points;
    var updated := index[key := DiskEntry(4 + |Joined(cs)|, |c|, TtlOf(c), createdAt)];
    PointsLast(cs, c, key, createdAt);
    forall other | other in updated
      ensures Points(cs + [c], other, updated[other])
    {
      if other != key {
        PointsAppended(cs, c, other, index[other]);
      }
    }
  }

  /** Where a record lies in the file. */
  lemma ChunkAt(cs: seq<bytes>, i: nat, tail: bytes)
    requires i < |cs|
    ensures var file := DATA_MAGIC + Joined(cs) + tail;
            Offset(cs, i) + |cs[i]| <= 4 + |Joined(cs)| &&
            file[Offset(cs, i)..Offset(cs, i) + |cs[i]|] == cs[i]
  {
    hide Joined;
    var pre, post := cs[..i], cs[i + 1..];
    assert cs == (pre + [cs[i]]) + post;
    JoinedConcat(pre + [cs[i]], post);
    AppendChunk(pre, cs[i]);
    assert DATA_MAGIC + Joined(cs) + tail == (DATA_MAGIC + Joined(pre)) + (cs[i] + (Joined(post) + tail));
  }

  /** Records of different positions do not overlap. */
  lemma ChunksDisjoint(cs: seq<bytes>, i: nat, j: nat)
    requires i < j < |cs|
    ensures Offset(cs, i) + |cs[i]| <= Offset(cs, j)
  {
    hide Joined;
    assert cs[..j] == (cs[..i] + [cs[i]]) + cs[i + 1..j];
    JoinedConcat(cs[..i] + [cs[i]], cs[i + 1..j]);
    AppendChunk(cs[..i], cs[i]);
  }

  // ---- Rebuilding --------------------------------------------------------

  datatype Rebuilt = Rebuilt(index: Index, dead: nat, total: nat, corrupted: seq<nat>, unparsable: seq<nat>)

  /** Offsets of the records satisfying `p`, in file order. */
  function Where(cs: seq<bytes>, p: bytes -> bool): seq<nat> {
    if cs == [] then []
    else
      var more := cs[..|cs| - 1];
      Where(more, p) + if p(cs[|cs| - 1]) then [4 + |Joined(more)|] else []
  }

  predicate IsCorrupted(c: bytes) {
    ReadRecord(c).Corrupted?
  }

  predicate IsUnparsable(c: bytes) {
    ReadRecord(c).Unparsable?
  }

  /** The index of a log of records: exactly the keys that have a readable
      record, each at its last one; every rejected record reported; every byte
      either live or dead. */
  ghost predicate Describes(r: Rebuilt, cs: seq<bytes>, now: int) {
    && IndexOk(cs, r.index)
    && (forall key: Text :: key in r.index <==> LastOf(cs, key).Some?)
    && (forall key <- r.index :: r.index[key].createdAt == now)
    && r.total == 4 + |Joined(cs)| && 4 + LiveBytes(r.index) + r.dead == r.total
    && r.corrupted == Where(cs, IsCorrupted) && r.unparsable == Where(cs, IsUnparsable)
  }

  lemma WhereAppended(cs: seq<bytes>, c: bytes, p: bytes -> bool)
    ensures Where(cs + [c], p) == Where(cs, p) + if p(c) then [4 + |Joined(cs)|] else []
  {
    hide Joined;
    assert (cs + [c])[..|cs|] == cs;
  }

  function Inserted(r: Rebuilt, key: Text, ttl: int, size: nat, now: int): Rebuilt {
    r.(index := r.index[key := DiskEntry(r.total, size, ttl, now)],
       dead := r.dead + (if key in r.index then r.index[key].length else 0),
       total := r.total + size)
  }

  lemma DescribesFound(r: Rebuilt, cs: seq<bytes>, c: bytes, key: Text, now: int)
    requires Describes(r, cs, now) && KeyOf(c) == Some(key) && !IsCorrupted(c) && !IsUnparsable(c)
    ensures Describes(Inserted(r, key, TtlOf(c), |c|, now), cs + [c], now)
  {
    hide KeyOf, TtlOf, Where, Joined, LastOf, IndexOk, Sum, IsCorrupted, IsUnparsable;
    AppendChunk(cs, c);
    AppendIndexOk(cs, c, r.index, key, now);
    SumInsert(r.index, LengthOf, key, DiskEntry(r.total, |c|, TtlOf(c), now));
    WhereAppended(cs, c, IsCorrupted);
    WhereAppended(cs, c, IsUnparsable);
    forall other: Text
      ensures LastOf(cs + [c], other).Some? <==> other == key || LastOf(cs, other).Some?
    {
      LastOfAppended(cs, c, other);
    }
  }

  function Refused(r: Rebuilt, size: nat, corrupted: bool): Rebuilt {
    r.(dead := r.dead + size, total := r.total + size,
       corrupted := r.corrupted + (if corrupted then [r.total] else []),
       unparsable := r.unparsable + (if corrupted then [] else [r.total]))
  }

  lemma IndexUnaffected(cs: seq<bytes>, c: bytes, index: Index)
    requires IndexOk(cs, index) && KeyOf(c).None?
    ensures IndexOk(cs + [c], index)
  {
    hide KeyOf, TtlOf, Joined, Points;
    forall key | key in index
      ensures Points(cs + [c], key, index[key])
    {
      PointsAppended(cs, c, key, index[key]);
    }
  }

  lemma DescribesRefused(r: Rebuilt, cs: seq<bytes>, c: bytes, now: int)
    requires Describes(r, cs, now) && KeyOf(c).None? && IsCorrupted(c) != IsUnparsable(c)
    ensures Describes(Refused(r, |c|, IsCorrupted(c)), cs + [c], now)
  {
    hide KeyOf, TtlOf, Where, Joined, LastOf, IndexOk, Sum, IsCorrupted, IsUnparsable;
    AppendChunk(cs, c);
    IndexUnaffected(cs, c, r.index);
    WhereAppended(cs, c, IsCorrupted);
    WhereAppended(cs, c, IsUnparsable);
    forall other: Text
      ensures LastOf(cs + [c], other) == LastOf(cs, other)
    {
      LastOfAppended(cs, c, other);
    }
  }

  lemma NothingDescribed(now: int)
    ensures Describes(Rebuilt(map[], 0, 4, [], []), [], now)
  {
  }

  /** The effect of one scanned record. */
  function Advance(r: Rebuilt, next: RecordRead, now: int): (after: Rebuilt)
    requires !next.Incomplete?
    ensures after.total == r.total + next.size
  {
    match next
    case Corrupted(size) => Refused(r, size, true)
    case Unparsable(size) => Refused(r, size, false)
    case Found(e, size) => Inserted(r, e.key, e.ttl, size, now)
  }

  lemma DescribesNext(r: Rebuilt, cs: seq<bytes>, c: bytes, now: int)
    requires Describes(r, cs, now) && !ReadRecord(c).Incomplete? && ReadRecord(c).size == |c|
    ensures Describes(Advance(r, ReadRecord(c), now), cs + [c], now)
  {
    hide ReadRecord, Describes, KeyOf, TtlOf, IsCorrupted, IsUnparsable;
    Kinds(c);
    match ReadRecord(c) {
      case Found(e, _) => DescribesFound(r, cs, c, e.key, now);
      case _ => DescribesRefused(r, cs, c, now);
    }
  }

  /** How far a scan has come: the bytes before `at` are the records `cs`. */
  predicate Scanned(file: bytes, cs: seq<bytes>, at: nat) {
    4 <= at <= |file| && AllComplete(cs) && file[4..] == Joined(cs) + file[at..]
  }

  lemma ScannedNext(file: bytes, cs: seq<bytes>, at: nat)
    requires Scanned(file, cs, at) && !ReadRecord(file[at..]).Incomplete?
    ensures var next := ReadRecord(file[at..]);
            at + next.size <= |file| &&
            var c := file[at..at + next.size];
            ReadRecord(c) == next && Scanned(file, cs + [c], at + next.size)
  {
    hide ReadRecord, Complete, Joined;
    var rest := file[at..];
    var next := ReadRecord(rest);
    ReadsPrefix(rest);
    var c := file[at..at + next.size];
    assert rest[..next.size] == c;
    assert rest == c + file[at + next.size..];
    ChunkMoved(cs, c, file[at + next.size..]);
  }

  lemma ScanStart(file: bytes)
    requires |file| >= 4
    ensures Scanned(file, [], 4)
  {
  }

  lemma ScanEnd(file: bytes, cs: seq<bytes>, at: nat)
    requires Scanned(file, cs, at) && ReadRecord(file[at..]) == Incomplete
    ensures Split(file[4..]) == cs
  {
    hide ReadRecord, Complete, Joined, Split;
    SplitJoined(cs, file[at..]);
  }

  /** `rebuild_index`: scan from the header, stop at an incomplete record. */
  method RebuildIndex(file: bytes, now: int) returns (r: Rebuilt)
    requires |file| >= 4
    ensures Describes(r, Split(file[4..]), now)
    ensures Scanned(file, Split(file[4..]), r.total) && ReadRecord(file[r.total..]) == Incomplete
  {
    hide ReadRecord, Describes, Split, Scanned, Advance;
    ghost var cs: seq<bytes> := [];
    r := Rebuilt(map[], 0, 4, [], []);
    NothingDescribed(now);
    ScanStart(file);
    var next := ReadNext(file[4..]);
    while !next.Incomplete?
      invariant r.total <= |file| && next == ReadRecord(file[r.total..])
      invariant Scanned(file, cs, r.total) && Describes(r, cs, now)
      decreases |file| - r.total
    {
      ghost var c := file[r.total..r.total + next.size];
      ScannedNext(file, cs, r.total);
      DescribesNext(r, cs, c, now);
      r := Advance(r, next, now);
      cs := cs + [c];
      next := ReadNext(file[r.total..]);
    }
    ScanEnd(file, cs, r.total);
  }

  lemma ChunkMoved(cs: seq<bytes>, c: bytes, rest: bytes)
    ensures Joined(cs) + (c + rest) == Joined(cs + [c]) + rest
  {
    hide Joined;
    AppendChunk(cs, c);
  }

  lemma Kinds(c: bytes)
    requires !ReadRecord(c).Incomplete?
    ensures match ReadRecord(c)
            case Found(e, _) => KeyOf(c) == Some(e.key) && TtlOf(c) == e.ttl && !IsCorrupted(c) && !IsUnparsable(c)
            case Corrupted(_) => KeyOf(c).None? && IsCorrupted(c) && !IsUnparsable(c)
            case _ => KeyOf(c).None? && !IsCorrupted(c) && IsUnparsable(c)
  {
    hide ReadRecord;
  }

  /** One turn of the scan: two length checks, the checksum, the entry. */
  method ReadNext(s: bytes) returns (r: RecordRead)
    ensures r == ReadRecord(s)
  {
    hide Crc.Crc32, ReadEntry, LeValue;
    if |s| < 8 {
      return Incomplete;
    }
    var length, stored := LeValue(s[..4]), LeValue(s[4..8]);
    if 8 + length > |s| {
      return Incomplete;
    }
    var data := s[8..8 + length];
    var computed := Crc.ComputeCrc32(data);
    if stored != computed {
      return Corrupted(8 + length);
    }
    match ReadEntry(data) {
      case Read(e, _) => r := Found(e, 8 + length);
      case _ => r := Unparsable(8 + length);
    }
  }
}
