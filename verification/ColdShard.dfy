/** The operations of a cold-storage shard. */
module ColdShard {
  import opened Bytes
  import opened EntryCodec
  import opened ColdFormat
  import opened FileSystem
  import opened ColdStore
  import opened Sets
  import Crc

  predicate Digits(s: string) {
    s != "" && forall i :: 0 <= i < |s| ==> '0' <= s[i] <= '9'
  }

  const STEM := "data.compact."

  /** Names compaction stages its output under: a process id and a nonce. */
  predicate IsTemp(name: string) {
    name == "data.compact.tmp" ||
    (STEM <= name && exists i | |STEM| <= i < |name| ::
       name[i] == '.' && Digits(name[|STEM|..i]) && Digits(name[i + 1..]))
  }

  lemma TempNames(name: string)
    requires IsTemp(name)
    ensures name != DATA && name != PREV
  {
    assert name[5] == 'c' && DATA[5] == 'l' && PREV[5] == 'p';
  }

  predicate IsArtifact(name: string) {
    name == PREV || IsTemp(name)
  }

  /** `Died` is a crash; `Refused` leaves the shard closed for an operator. */
  datatype Status = Ok | Err | Died | Refused | Legacy

  /** `read_indexed_entry`: read the addressed bytes and validate all of them. */
  method ReadIndexedEntry(data: bytes, key: Text, d: DiskEntry) returns (r: Option<Value>)
    requires d.offset + d.length <= |data|
    ensures r == ReadIndexed(data[d.offset..d.offset + d.length], key)
  {
    hide Crc.Crc32, ReadEntry, LeValue;
    var buf := data[d.offset..d.offset + d.length];
    if |buf| < 8 || LeValue(buf[..4]) != |buf| - 8 {
      return None;
    }
    var computed := Crc.ComputeCrc32(buf[8..]);
    if LeValue(buf[4..8]) != computed {
      return None;
    }
    match ReadEntry(buf[8..]) {
      case Read(e, rest) =>
        if e.key != key || rest != [] {
          return None;
        }
        return Some(e.value);
      case _ => return None;
    }
  }

  /** Copying a validated entry writes its record again, byte for byte. */
  lemma CopiedRecord(c: bytes, key: Text)
    requires ReadIndexed(c, key).Some?
    ensures |c[8..]| < U32 && Envelope(c[8..]) == c
  {
    hide Crc.Crc32, ReadEntry, LeValue;
    Widths();
    LeValueRoundTrip(c[..4]);
    LeValueRoundTrip(c[4..8]);
    assert c == c[..4] + c[4..8] + c[8..];
  }

  lemma NotData(name: string)
    requires IsArtifact(name)
    ensures name != DATA
  {
    if IsTemp(name) {
      TempNames(name);
    }
  }

  lemma BackupIsArtifact()
    ensures IsArtifact(PREV)
  {
  }

  /** The name is in the directory. */
  predicate Has(disk: Disk, name: string) {
    |disk.dirs| > 0 && name in disk.Visible()
  }

  /** Without a visible backup the canonical name has been good all along. */
  lemma StableData(disk: Disk, live: map<Text, bytes>, loss: Loss)
    requires Holds(disk, live, loss) && |disk.dirs| > 0 && DATA in disk.Visible()
    ensures loss != Unknown ==> |disk.dirs| > 0 && NamesGood(disk, disk.Visible(), DATA, live) && Leads(disk, disk.Visible(), live)
    ensures loss == Names && PREV !in disk.Visible() ==> Always(disk, DATA, live)
  {
    hide Good;
    HoldsWeaker(disk, live, loss);
  }

  /** The canonical path leads to file `i`, whatever a crash leaves. */
  ghost predicate Bound(dirs: seq<Dir>, i: nat) {
    |dirs| > 0 && forall k | 0 <= k < |dirs| :: DATA in dirs[k] && dirs[k][DATA] == i
  }

  lemma SyncedValid(disk: Disk)
    requires disk.Valid()
    ensures disk.SyncDir().Valid()
  {
  }

  /** Nothing is less durable than before, and the given records are not. */
  ghost predicate Lasting(before: Disk, after: Disk, live: map<Text, bytes>) {
    Firmer(before, after) && AsFirm(before, after, Keeps(live))
  }

  lemma LastingStill(a: Disk, b: Disk, c: Disk, live: map<Text, bytes>)
    requires Lasting(a, b, live) && Lasting(b, c, live)
    ensures Lasting(a, c, live)
  {
    hide Firm;
  }

  lemma SyncLasting(disk: Disk, live: map<Text, bytes>)
    requires |disk.dirs| > 0
    ensures Lasting(disk, disk.SyncDir(), live)
    ensures FirmDir(disk, disk.Visible(), Full) ==> Firm(disk.SyncDir(), Full)
  {
    hide Firm, FirmDir;
    SyncFirm(disk);
    assert AsFirm(disk, disk.SyncDir(), Keeps(live));
  }

  lemma EnterLasting(disk: Disk, dir: Dir, live: map<Text, bytes>)
    requires |disk.dirs| > 0
    requires forall f: Firmness :: FirmDir(disk, disk.Visible(), f) ==> FirmDir(disk, dir, f)
    ensures Lasting(disk, disk.Enter(dir), live)
  {
    hide Firm, FirmDir;
    EnterFirm(disk, dir);
    assert AsFirm(disk, disk.Enter(dir), Keeps(live));
  }

  /** Dropping another name than the canonical one. */
  lemma UnlinkHolds(disk: Disk, live: map<Text, bytes>, loss: Loss, name: string)
    requires Has(disk, DATA) && Holds(disk, live, loss) && name != DATA && (loss == Names ==> Always(disk, DATA, live))
    ensures var after := disk.Enter(disk.Visible() - {name});
            Holds(after, live, loss) && (loss == Names ==> Always(after, DATA, live)) && Lasting(disk, after, live)
  {
    hide Good, Lasting, Solid;
    var dir := disk.Visible() - {name};
    StableData(disk, live, loss);
    EnterHolds(disk, live, loss, dir);
    if loss == Names {
      EnterAlways(disk, DATA, live, dir);
    }
    EnterLasting(disk, dir, live);
  }

  /** A name for a file beside the generations. */
  lemma BindHolds(disk: Disk, live: map<Text, bytes>, loss: Loss, name: string, i: nat)
    requires Has(disk, DATA) && Holds(disk, live, loss) && (loss == Names ==> Always(disk, DATA, live))
    requires name != DATA && name != PREV && i in disk.inodes && Aside(disk, i)
    ensures var after := disk.Enter(disk.Visible()[name := i]);
            && Holds(after, live, loss) && (loss == Names ==> Always(after, DATA, live))
            && Aside(after, i) && Lasting(disk, after, live)
  {
    hide Good, Lasting, Solid;
    var dir := disk.Visible()[name := i];
    StableData(disk, live, loss);
    EnterHolds(disk, live, loss, dir);
    if loss == Names {
      EnterAlways(disk, DATA, live, dir);
    }
    EnterLasting(disk, dir, live);
  }

  /** The keys copied so far keep their records and lifetimes. */
  ghost predicate Copied(cs: seq<bytes>, index: Index, copied: seq<bytes>, newIndex: Index) {
    IndexesAll(copied, newIndex) &&
    forall key <- newIndex :: key in index && RecordOf(copied, key) == RecordOf(cs, key) &&
                              newIndex[key].ttl == index[key].ttl && newIndex[key].createdAt == index[key].createdAt
  }

  /** The bytes are the complete record the index has for the key. */
  predicate IsRecordOf(cs: seq<bytes>, index: Index, key: Text, record: bytes) {
    && key in index && record == RecordOf(cs, key)
    && KeyOf(record) == Some(key) && Complete(record) && TtlOf(record) == index[key].ttl
  }

  /** Both files stand for the same map. */
  ghost predicate SameCells(cs: seq<bytes>, index: Index, copied: seq<bytes>, newIndex: Index) {
    CellsOf(copied, newIndex) == CellsOf(cs, index) && Live(copied, newIndex) == Live(cs, index) &&
    IndexesAll(copied, newIndex)
  }

  lemma EmptyShard()
    ensures ShardOk(DATA_MAGIC, [], map[], 0, 4)
  {
  }

  lemma NothingCopied(cs: seq<bytes>, index: Index)
    ensures Copied(cs, index, [], map[])
  {
    NothingIndexed();
  }

  lemma CopiedNext(cs: seq<bytes>, index: Index, copied: seq<bytes>, newIndex: Index, key: Text, total: nat)
    requires Copied(cs, index, copied, newIndex) && key in index
    requires KeyOf(RecordOf(cs, key)) == Some(key) && index[key].ttl == TtlOf(RecordOf(cs, key))
    ensures var c := RecordOf(cs, key);
            Copied(cs, index, copied + [c], Added(newIndex, key, total, c, index[key].createdAt))
  {
    hide KeyOf, TtlOf, RecordOf, LastOf;
    var c := RecordOf(cs, key);
    forall other: Text
      ensures RecordOf(copied + [c], other) == if other == key then c else RecordOf(copied, other)
      ensures LastOf(copied + [c], other).Some? <==> other == key || LastOf(copied, other).Some?
    {
      RecordAdded(copied, c, key, other);
      LastOfAppended(copied, c, other);
    }
  }

  lemma AllCopied(cs: seq<bytes>, index: Index, copied: seq<bytes>, newIndex: Index)
    requires Copied(cs, index, copied, newIndex) && newIndex.Keys == index.Keys
    ensures SameCells(cs, index, copied, newIndex)
  {
    hide RecordOf, ReadIndexed, IndexesAll;
  }

  /** The second name of the canonical generation. */
  lemma LinkHolds(disk: Disk, live: map<Text, bytes>, loss: Loss)
    requires Has(disk, DATA) && Holds(disk, live, loss) && (loss == Names ==> Always(disk, DATA, live))
    ensures var after := disk.Enter(disk.Visible()[PREV := disk.Visible()[DATA]]);
            && Holds(after, live, loss) && Lasting(disk, after, live)
            && (loss != Unknown ==> Leads(after, after.Visible(), live) && NamesGood(after, after.Visible(), PREV, live))
  {
    hide Good, Lasting, Solid;
    var dir := disk.Visible()[PREV := disk.Visible()[DATA]];
    StableData(disk, live, loss);
    EnterHolds(disk, live, loss, dir);
    EnterLasting(disk, dir, live);
  }

  /** Replacing the canonical name while the backup's is good throughout. */
  lemma UnnameHolds(disk: Disk, live: map<Text, bytes>, loss: Loss)
    requires |disk.dirs| > 0 && Holds(disk, live, loss) && (loss == Unknown || (loss == Names && Always(disk, PREV, live)))
    ensures var after := disk.Enter(disk.Visible() - {DATA});
            Holds(after, live, loss) && (loss == Names ==> Always(after, PREV, live)) && Lasting(disk, after, live)
  {
    hide Good, Lasting, Solid;
    var dir := disk.Visible() - {DATA};
    EnterHolds(disk, live, loss, dir);
    if loss == Names {
      EnterAlways(disk, PREV, live, dir);
    }
    EnterLasting(disk, dir, live);
  }

  lemma InstallHolds(disk: Disk, live: map<Text, bytes>, loss: Loss, tmp: string, next: nat)
    requires |disk.dirs| > 0 && tmp != PREV && next in disk.inodes && Solid(disk.inodes[next], Full)
    requires Good(disk.inodes[next].data, live)
    requires (loss == Unknown || (loss == Names && Always(disk, PREV, live))) && Holds(disk, live, loss)
    ensures var dir := (disk.Visible() - {tmp})[DATA := next]; var after := disk.Enter(dir);
            Holds(after, live, loss) && Lasting(disk, after, live) && Leads(after, dir, live)
  {
    hide Good, Firmer;
    var dir := (disk.Visible() - {tmp})[DATA := next];
    EnterHolds(disk, live, loss, dir);
    FullKeeps(disk.inodes[next], live);
    InstallFirm(disk, live, tmp, next);
    EnteredLeads(disk, live, dir);
  }

  lemma InstallFirm(disk: Disk, live: map<Text, bytes>, tmp: string, next: nat)
    requires |disk.dirs| > 0 && tmp != PREV && next in disk.inodes
    requires Solid(disk.inodes[next], Full) && Solid(disk.inodes[next], Keeps(live))
    ensures var after := disk.Enter((disk.Visible() - {tmp})[DATA := next]);
            Lasting(disk, after, live)
  {
    hide Sure;
    var dir := (disk.Visible() - {tmp})[DATA := next];
    EnterAsFirm(disk, dir, Full);
    EnterAsFirm(disk, dir, Header);
    EnterAsFirm(disk, dir, Keeps(live));
  }

  lemma OneDir(disk: Disk, file: nat)
    requires |disk.dirs| == 1 && DATA in disk.Visible() && disk.Visible()[DATA] == file
    ensures Bound(disk.dirs, file)
  {
  }

  /** Every key that has a readable record is indexed. */
  ghost predicate IndexesAll(cs: seq<bytes>, index: Index) {
    forall key: Text :: key in index <==> LastOf(cs, key).Some?
  }

  lemma NothingIndexed()
    ensures IndexesAll([], map[])
  {
  }

  lemma VisibleFile(disk: Disk, name: string)
    requires disk.Valid() && name in disk.Visible()
    ensures disk.Visible()[name] in disk.inodes
  {
  }

  /** Every given record is indexed again. */
  ghost predicate Recovers(cs: seq<bytes>, index: Index, live: map<Text, bytes>) {
    forall key <- live :: key in index && RecordOf(cs, key) == live[key]
  }

  lemma GoodWhole(data: bytes, live: map<Text, bytes>)
    requires Good(data, live)
    ensures |data| >= 4 && data[..4] == DATA_MAGIC
  {
    hide Joined, Split, LastOf, RecordOf;
  }

  /** The scanned part of a file is a shard of its own. */
  lemma Described(data: bytes, r: Rebuilt, now: int)
    requires |data| >= 4 && data[..4] == DATA_MAGIC
    requires Describes(r, Split(data[4..]), now) && Scanned(data, Split(data[4..]), r.total)
    ensures 4 <= r.total <= |data| && IndexesAll(Split(data[4..]), r.index)
    ensures ShardOk(data[..r.total], Split(data[4..]), r.index, r.dead, r.total)
  {
    hide Joined, Split, LastOf, Sum, IndexOk, Where, ColdFormat.Complete;
    var cs := Split(data[4..]);
    assert data[..r.total] == data[..4] + data[4..][..|Joined(cs)|];
  }

  lemma WholeScan(data: bytes, r: Rebuilt, now: int, live: map<Text, bytes>)
    requires Good(data, live) && Describes(r, Split(data[4..]), now)
    ensures r.total == |data| && Recovers(Split(data[4..]), r.index, live)
  {
    hide Joined, Split, LastOf, Sum, IndexOk, Where, RecordOf;
  }

  lemma SafeMissing(disk: Disk, live: map<Text, bytes>, loss: Loss)
    requires |disk.dirs| > 0 && Holds(disk, live, loss) && loss != Unknown
    ensures DATA !in disk.Visible() ==> PREV in disk.Visible()
  {
    hide Good;
    HoldsWeaker(disk, live, loss);
  }

  /** The backup takes the canonical name. */
  function Restored(dir: Dir): Dir
    requires PREV in dir
  {
    (dir - {PREV})[DATA := dir[PREV]]
  }

  lemma RestoredValues(dir: Dir)
    requires PREV in dir && DATA !in dir
    ensures Restored(dir).Values == dir.Values
  {
    forall i | i in dir.Values
      ensures i in Restored(dir).Values
    {
      var name :| name in dir && dir[name] == i;
      assert i == if name == PREV then Restored(dir)[DATA] else Restored(dir)[name];
    }
  }

  /** Restoring is safe as far as the directory is found in one of its states. */
  lemma RestoreHolds(disk: Disk, live: map<Text, bytes>, loss: Loss)
    requires Has(disk, PREV) && DATA !in disk.Visible() && Holds(disk, live, loss)
    ensures var renamed := disk.Enter(Restored(disk.Visible()));
            && renamed.Valid() && Firmer(disk, renamed)
            && Holds(renamed, live, if loss == Names then States else loss)
            && (loss != Unknown ==> Leads(renamed, renamed.Visible(), live))
  {
    hide Good, Firmer, Solid;
    var dir := Restored(disk.Visible());
    RestoredValues(disk.Visible());
    HoldsWeaker(disk, live, loss);
    VisibleValues(disk);
    EnterHolds(disk, live, if loss == Names then States else loss, dir);
    EnterFirm(disk, dir);
    if loss != Unknown {
      EnteredLeads(disk, live, dir);
    }
  }

  lemma RestoreSynced(disk: Disk, live: map<Text, bytes>, loss: Loss)
    requires Has(disk, PREV) && DATA !in disk.Visible() && Holds(disk, live, loss)
    ensures var after := disk.Enter(Restored(disk.Visible())).SyncDir();
            after.Valid() && Holds(after, live, loss) && Firmer(disk, after)
  {
    hide Holds, Disk.Valid, Firm, Leads, Restored;
    var renamed := disk.Enter(Restored(disk.Visible()));
    RestoreHolds(disk, live, loss);
    SyncFirm(renamed);
    SyncedValid(renamed);
    UnknownHolds(renamed.SyncDir(), live);
    if loss != Unknown {
      HoldsSynced(renamed, live, loss);
    }
  }

  lemma Unchanged(disk: Disk)
    ensures Firmer(disk, disk)
  {
  }

  lemma VisibleValues(disk: Disk)
    requires disk.Valid()
    ensures disk.Visible().Values <= disk.inodes.Keys
  {
  }

  lemma TrimmedValid(disk: Disk, i: nat, n: nat)
    requires disk.Valid() && i in disk.inodes && n <= |disk.inodes[i].data|
    ensures disk.Write(i, Inode(disk.inodes[i].data[..n], n)).Valid()
  {
  }

  lemma CreatedValid(disk: Disk, next: nat)
    requires disk.Valid()
    ensures disk.Write(next, Inode([], 0)).Enter(disk.Visible()[DATA := next]).Valid()
  {
  }

  /** The bytes an index entry addresses. */
  function At(data: bytes, d: DiskEntry): bytes
    requires d.offset + d.length <= |data|
  {
    data[d.offset..d.offset + d.length]
  }

  predicate InBounds(index: Index, total: nat) {
    forall key <- index :: index[key].offset + index[key].length <= total
  }

  /** The entries address the same bytes in both files. */
  predicate Kept(before: bytes, after: bytes, index: Index) {
    forall key <- index ::
      index[key].offset + index[key].length <= |before| && index[key].offset + index[key].length <= |after| &&
      At(after, index[key]) == At(before, index[key])
  }

  /** What a lookup finds where the index says, if `junk` was left behind the
      last record before the record `c` was stored. */
  function Shifted(junk: bytes, c: bytes): bytes {
    (junk + c)[..|c|]
  }

  /** The index counts from `total`, the record goes to the end of the file. */
  lemma PutShifts(data: bytes, total: nat, c: bytes, d: DiskEntry)
    requires total <= |data| && d.offset == total && d.length == |c|
    ensures At(data + c, d) == Shifted(data[total..], c)
  {
  }

  /** What a lookup reports from the addressed bytes. */
  function Looked(data: bytes, index: Index, key: Text, now: int): Answer
    requires InBounds(index, |data|)
  {
    if key !in index || Expired(index[key].ttl, index[key].createdAt, now) then Missing
    else match ReadIndexed(At(data, index[key]), key)
      case None => Failed
      case Some(v) =>
        Hit(v, if index[key].ttl > 0 then Some(index[key].ttl - Elapsed(index[key].createdAt, now)) else None)
  }

  lemma ShardBounds(data: bytes, cs: seq<bytes>, index: Index, dead: nat, total: nat)
    requires ShardOk(data, cs, index, dead, total)
    ensures InBounds(index, total) && total == |data| && 4 + LiveBytes(index) + dead == total
  {
    hide ReadIndexed, RecordOf, KeyOf, TtlOf, Complete, LastOf, IndexOk, Sum;
    forall key | key in index
      ensures index[key].offset + index[key].length <= total
    {
      IndexedBytes(data, cs, index, dead, total, key);
    }
  }

  lemma UnknownHolds(disk: Disk, live: map<Text, bytes>)
    requires disk.Valid()
    ensures Holds(disk, live, Unknown)
  {
  }

  lemma SyncedInside(disk: Disk, i: nat)
    requires disk.Valid() && i in disk.inodes
    ensures disk.inodes[i].synced <= |disk.inodes[i].data|
  {
  }

  lemma PrefixAt(data: bytes, total: nat, d: DiskEntry)
    requires d.offset + d.length <= total <= |data|
    ensures data[..total][d.offset..d.offset + d.length] == data[d.offset..d.offset + d.length]
  {
  }

  /** Entries inside a common prefix address the same bytes. */
  lemma KeptPrefix(before: bytes, after: bytes, index: Index, total: nat)
    requires total <= |before| && total <= |after| && before[..total] == after[..total] && InBounds(index, total)
    ensures Kept(before, after, index)
  {
    forall key | key in index
      ensures At(after, index[key]) == At(before, index[key])
    {
      PrefixAt(before, total, index[key]);
      PrefixAt(after, total, index[key]);
    }
  }

  /** The counters after a new entry at the end. */
  lemma Counted(index: Index, key: Text, d: DiskEntry, total: nat)
    requires InBounds(index, total) && d.offset == total
    ensures InBounds(index[key := d], total + d.length)
    ensures LiveBytes(index[key := d]) + Freed(index, key) == LiveBytes(index) + d.length
  {
    hide Sum;
    SumInsert(index, LengthOf, key, d);
  }

  lemma SolidWritten(disk: Disk, i: nat, node: Inode)
    requires Solid(node, Full)
    ensures Firmer(disk, disk.Write(i, node))
  {
    hide Sure;
    forall f, k | (f == Full || f == Header) && Firm(disk, f) && 0 <= k < |disk.dirs|
      ensures FirmDir(disk.Write(i, node), disk.dirs[k], f)
    {
      assert FirmDir(disk, disk.dirs[k], f);
    }
  }

  /** A file rewritten with its header still on stable storage. */
  lemma RewrittenFile(disk: Disk, i: nat, node: Inode)
    requires disk.Valid() && i in disk.inodes && node.synced <= |node.data| && (disk.inodes[i].synced >= 4 ==> node.synced >= 4)
    ensures disk.Write(i, node).Valid() && disk.Write(i, node).dirs == disk.dirs
    ensures Firm(disk, Header) ==> Firm(disk.Write(i, node), Header)
  {
    var after := disk.Write(i, node);
    forall k | 0 <= k < |disk.dirs| && FirmDir(disk, disk.dirs[k], Header)
      ensures FirmDir(after, after.dirs[k], Header)
    {
    }
  }

  /** The strongest promise a synced directory allows. */
  function Level(loss: Loss): Loss {
    if loss == Unknown then Unknown else Names
  }

  /** The old generation is durably under its second name. */
  ghost predicate Backed(disk: Disk, live: map<Text, bytes>, loss: Loss) {
    Holds(disk, live, Level(loss)) && (loss != Unknown ==> Always(disk, PREV, live))
  }

  /** The records are among those of the index. */
  predicate Among(kept: map<Text, bytes>, live: map<Text, bytes>) {
    forall key <- kept :: key in live && live[key] == kept[key]
  }

  lemma HoldsLess(disk: Disk, live: map<Text, bytes>, loss: Loss)
    requires Holds(disk, live, Names)
    ensures Holds(disk, live, loss)
  {
    hide Good;
    HoldsWeaker(disk, live, Names);
  }

  lemma LevelHolds(disk: Disk, live: map<Text, bytes>, loss: Loss)
    requires Holds(disk, live, Level(loss))
    ensures Holds(disk, live, loss)
  {
    hide Holds;
    if loss != Unknown {
      HoldsLess(disk, live, loss);
    }
  }

  lemma HoldsSynced(disk: Disk, live: map<Text, bytes>, loss: Loss)
    requires disk.Valid() && Leads(disk, disk.Visible(), live)
    ensures var after := disk.SyncDir();
            && after.Valid() && Holds(after, live, Names) && Holds(after, live, loss) && Leads(after, after.Visible(), live)
            && (DATA in disk.Visible() ==> Always(after, DATA, live))
  {
    hide Holds, Good, Always;
    SyncHolds(disk, live);
    HoldsWeaker(disk.SyncDir(), live, Names);
    HoldsLess(disk.SyncDir(), live, loss);
  }

  lemma SyncedHolds(disk: Disk, live: map<Text, bytes>, loss: Loss)
    requires Holds(disk, live, loss)
    ensures var after := disk.SyncDir();
            && Holds(after, live, loss)
            && (loss != Unknown ==> Holds(after, live, Names) && (DATA in disk.Visible() ==> Always(after, DATA, live)))
  {
    hide Good, Always, Leads;
    HoldsWeaker(disk, live, loss);
    SyncedValid(disk);
    if loss != Unknown {
      HoldsSynced(disk, live, loss);
    }
  }

  lemma BackedSynced(disk: Disk, live: map<Text, bytes>, loss: Loss)
    requires Holds(disk, live, loss) && (loss != Unknown ==> NamesGood(disk, disk.Visible(), PREV, live))
    ensures Holds(disk.SyncDir(), live, loss) && Backed(disk.SyncDir(), live, loss)
  {
    hide Good, Always, NamesGood;
    SyncedHolds(disk, live, loss);
    if loss != Unknown {
      HoldsWeaker(disk, live, loss);
      SyncHolds(disk, live);
    }
  }

  lemma OnlyData(disk: Disk, i: nat)
    requires |disk.dirs| > 0 && DATA in disk.Visible() && disk.Visible()[DATA] == i && PREV !in disk.Visible()
    requires i in disk.inodes && Solid(disk.inodes[i], Full)
    ensures FirmDir(disk, disk.Visible(), Full)
  {
  }

  /** Every live record passes validation. */
  predicate AllReadable(cs: seq<bytes>, index: Index) {
    forall key <- index :: ReadIndexed(RecordOf(cs, key), key).Some?
  }

  // ---- What startup makes of a file --------------------------------------

  function Records(data: bytes): seq<bytes> {
    if |data| < 4 then [] else Split(data[4..])
  }

  /** Neither empty nor of this format. */
  predicate IsLegacy(data: bytes) {
    data != [] && (|data| < 4 || data[..4] != DATA_MAGIC)
  }

  /** Of this format, or empty, and not a sequence of whole records. */
  ghost predicate Torn(data: bytes) {
    !Whole(data) && !IsLegacy(data)
  }

  lemma FileKinds(data: bytes)
    ensures data == [] ==> Torn(data) && Records(data) == []
    ensures |data| >= 4 && data[..4] == DATA_MAGIC ==> !IsLegacy(data)
    ensures |data| >= 4 ==> Records(data) == Split(data[4..])
    ensures data != [] && (|data| < 4 || data[..4] != DATA_MAGIC) ==> IsLegacy(data)
  {
  }

  lemma TornOrWhole(data: bytes, total: nat)
    requires |data| >= 4 && data[..4] == DATA_MAGIC && ColdFormat.Scanned(data, Split(data[4..]), total)
    ensures total != |data| <==> !Whole(data)
  {
    hide Split, Joined;
    assert data == data[..4] + data[4..];
    if total == |data| {
      assert data[total..] == [];
    }
  }

  function FirstRecords(disk: Disk): seq<bytes>
    requires disk.Valid()
  {
    match Start(disk.Visible())
    case None => []
    case Some(i) => Records(disk.inodes[i].data)
  }

  /** There is a generation with something in it. */
  predicate Begun(disk: Disk)
    requires disk.Valid()
  {
    var i := Start(disk.Visible());
    i.Some? && disk.inodes[i.value].data != []
  }

  /** Startup leaves the shard closed for an operator: with no generation
      beside an unfinished one, or with a torn one beside its backup. */
  ghost predicate Refuses(disk: Disk)
    requires disk.Valid()
  {
    match Start(disk.Visible())
    case None => exists name <- disk.Visible() :: IsTemp(name)
    case Some(i) => PREV in disk.Visible() && Torn(disk.inodes[i].data)
  }

  /** Startup got as far as renaming the backup. */
  predicate Interrupted(before: Disk, after: Disk) {
    && |before.dirs| > 0 && DATA !in before.Visible() && PREV in before.Visible()
    && after == before.Enter(Restored(before.Visible()))
  }

  /** The record at the end of file `i`. */
  function Appended(disk: Disk, i: nat, c: bytes): Disk
    requires i in disk.inodes
  {
    disk.Write(i, disk.inodes[i].(data := disk.inodes[i].data + c))
  }

  class DiskShard {
    var disk: Disk
    var ino: nat
    var index: Index
    var deadBytes: nat
    var totalBytes: nat
    var compactionSafe: bool

    /** The records of the open file. */
    ghost var chunks: seq<bytes>

    /** What holds in every state: the index stays inside the file, and every
        byte up to `totalBytes` is counted as header, live or dead. */
    ghost predicate Bounded()
      reads this
    {
      && disk.Valid() && ino in disk.inodes && totalBytes <= |disk.inodes[ino].data|
      && InBounds(index, totalBytes) && 4 + LiveBytes(index) + deadBytes == totalBytes
    }

    /** File and index agree. */
    ghost predicate Valid()
      reads this
      ensures Valid() ==> Bounded()
    {
      Bounded() && ShardOk(disk.inodes[ino].data[..totalBytes], chunks, index, deadBytes, totalBytes)
    }

    /** No bytes of a failed write lie behind the last record. */
    ghost predicate Clean()
      reads this
    {
      ino in disk.inodes && totalBytes == |disk.inodes[ino].data|
    }

    /** The open file is the one at the canonical path. */
    ghost predicate Installed()
      reads this
    {
      |disk.dirs| > 0 && DATA in disk.Visible() && disk.Visible()[DATA] == ino
    }

    ghost function View(): map<Text, Cell>
      reads this
    {
      CellsOf(chunks, index)
    }

    /** Append a record and index it. Of a write only `reach` bytes may go
        through; they are cut off again, unless that fails too. Appending goes
        to the end of the file, but the index counts from `totalBytes`. */
    method Put(e: Entry, now: int, reach: nat, cut: bool) returns (ok: bool)
      requires Bounded() && Storable(e)
      modifies this`disk, this`index, this`deadBytes, this`totalBytes, this`chunks
      ensures Bounded() && disk.dirs == old(disk.dirs) && ok == (reach >= |Record(e)|)
      ensures Clean() <==> if ok then old(Clean()) else cut || (old(Clean()) && reach == 0)
      ensures old(Valid()) && (old(Clean()) || !ok) ==>
                Valid() && View() == if ok then old(View())[e.key := Fresh(e, now)] else old(View())
      ensures ok ==>
                && disk.inodes[ino].data == old(disk.inodes[ino].data) + Record(e) && totalBytes == old(totalBytes) + |Record(e)|
                && index == old(index)[e.key := DiskEntry(old(totalBytes), |Record(e)|, if e.ttl > 0 then e.ttl else -1, now)]
      ensures ok ==> At(disk.inodes[ino].data, index[e.key]) == Shifted(old(disk.inodes[ino].data[totalBytes..]), Record(e))
      ensures !ok ==>
                && index == old(index) && totalBytes == old(totalBytes)
                && disk.inodes[ino].data == if cut then old(disk.inodes[ino].data)[..totalBytes]
                                            else old(disk.inodes[ino].data) + Record(e)[..reach]
      ensures Kept(old(disk.inodes[ino].data), disk.inodes[ino].data, old(index))
      ensures old(Firm(disk, Header)) ==> Firm(disk, Header)
      ensures ok ==> disk == Appended(old(disk), ino, Record(e))
      ensures ok && old(Valid() && Clean()) ==> chunks == old(chunks) + [Record(e)]
      ensures !ok ==> chunks == old(chunks) && (cut && old(Clean()) ==> disk == old(disk))
    {
      hide ShardOk, CellsOf, Record, Storable, NormalEntry, Sum, Disk.Valid, Firm, InBounds, Valid;
      if reach < |Record(e)| {
        TakeBack(Record(e), reach, cut);
        return false;
      }
      Append(e, now);
      return true;
    }

    /** A write that stopped early. */
    method TakeBack(c: bytes, reach: nat, cut: bool)
      requires Bounded() && reach < |c|
      modifies this`disk
      ensures Bounded() && disk.dirs == old(disk.dirs) && (old(Valid()) ==> Valid()) && (old(Firm(disk, Header)) ==> Firm(disk, Header))
      ensures disk.inodes[ino].data == if cut then old(disk.inodes[ino].data)[..totalBytes]
                                       else old(disk.inodes[ino].data) + c[..reach]
      ensures Kept(old(disk.inodes[ino].data), disk.inodes[ino].data, index)
      ensures cut && old(Clean()) ==> disk == old(disk)
    {
      hide ShardOk, Sum, Disk.Valid, Firm;
      var node := disk.inodes[ino];
      SyncedInside(disk, ino);
      disk := disk.Write(ino, node.(data := node.data + c[..reach]));
      if cut {
        var keep := if node.synced <= totalBytes then node.synced else totalBytes;
        disk := disk.Write(ino, Inode(disk.inodes[ino].data[..totalBytes], keep));
      }
      assert (node.data + c[..reach])[..totalBytes] == node.data[..totalBytes];
      KeptPrefix(node.data, disk.inodes[ino].data, index, totalBytes);
      RewrittenFile(old(disk), ino, disk.inodes[ino]);
      assert disk == old(disk).Write(ino, disk.inodes[ino]);
      assert cut && old(Clean()) ==> disk.inodes[ino] == node;
    }

    /** A write that went through. */
    method Append(e: Entry, now: int)
      requires Bounded() && Storable(e)
      modifies this`disk, this`index, this`deadBytes, this`totalBytes, this`chunks
      ensures Bounded() && disk.dirs == old(disk.dirs) && (old(Firm(disk, Header)) ==> Firm(disk, Header))
      ensures old(Valid()) && old(Clean()) ==> Valid() && View() == old(View())[e.key := Fresh(e, now)]
      ensures disk.inodes[ino].data == old(disk.inodes[ino].data) + Record(e) && totalBytes == old(totalBytes) + |Record(e)|
      ensures index == old(index)[e.key := DiskEntry(old(totalBytes), |Record(e)|, if e.ttl > 0 then e.ttl else -1, now)]
      ensures At(disk.inodes[ino].data, index[e.key]) == Shifted(old(disk.inodes[ino].data[totalBytes..]), Record(e))
      ensures Kept(old(disk.inodes[ino].data), disk.inodes[ino].data, old(index))
      ensures disk == Appended(old(disk), ino, Record(e)) && (old(Valid() && Clean()) ==> chunks == old(chunks) + [Record(e)])
    {
      hide ShardOk, CellsOf, KeyOf, TtlOf, ReadIndexed, Record, Storable, Complete, NormalEntry, ReadRecord, Sum;
      hide Disk.Valid, Firm;
      hide InBounds, Kept, LiveBytes, Fresh, Freed;
      var node, c := disk.inodes[ino], Record(e);
      SyncedInside(disk, ino);
      var entry := DiskEntry(totalBytes, |c|, if e.ttl > 0 then e.ttl else -1, now);
      ghost var exact := Valid() && Clean();
      if exact {
        assert node.data[..totalBytes] == node.data;
        StoredEntry(node.data, chunks, index, deadBytes, totalBytes, e, now, c, entry);
        chunks := chunks + [c];
      }
      assert (node.data + c)[..totalBytes] == node.data[..totalBytes];
      KeptPrefix(node.data, node.data + c, index, totalBytes);
      PutShifts(node.data, totalBytes, c, entry);
      RewrittenFile(disk, ino, node.(data := node.data + c));
      disk := disk.Write(ino, node.(data := node.data + c));
      Counted(index, e.key, entry, totalBytes);
      deadBytes := deadBytes + Freed(index, e.key);
      index := index[e.key := entry];
      totalBytes := totalBytes + |c|;
      assert exact ==> (node.data + c)[..totalBytes] == node.data + c;
    }

    /** A lookup reads and validates the indexed bytes; an expired key is dropped. */
    method Get(key: Text, now: int) returns (r: Answer)
      requires Bounded()
      modifies this`index, this`deadBytes
      ensures Bounded() && r == Looked(disk.inodes[ino].data, old(index), key, now)
      ensures old(Valid()) ==> Valid() && View() == Touched(old(View()), key, now) && r == Find(old(View()), key, now)
    {
      hide ShardOk, KeyOf, TtlOf, ReadIndexed, RecordOf, LastOf, Complete, Sum;
      ghost var data := disk.inodes[ino].data;
      if key !in index {
        return Missing;
      }
      var d := index[key];
      if Expired(d.ttl, d.createdAt, now) {
        Forget(key);
        return Missing;
      }
      if Valid() {
        IndexedBytes(data[..totalBytes], chunks, index, deadBytes, totalBytes, key);
        PrefixAt(data, totalBytes, d);
      }
      var value := ReadIndexedEntry(disk.inodes[ino].data, key, d);
      if value.None? {
        return Failed;
      }
      return Hit(value.value, if d.ttl > 0 then Some(d.ttl - Elapsed(d.createdAt, now)) else None);
    }

    /** The key leaves the index; its bytes are dead. */
    method Forget(key: Text)
      requires Bounded() && key in index
      modifies this`index, this`deadBytes
      ensures Bounded() && index == old(index) - {key}
      ensures old(Valid()) ==> Valid() && View() == old(View()) - {key}
    {
      hide ShardOk, ReadIndexed, RecordOf, Sum, Disk.Valid;
      if Valid() {
        Dropped(disk.inodes[ino].data[..totalBytes], chunks, index, deadBytes, totalBytes, key);
      }
      SumWithout(index, LengthOf, key);
      deadBytes := deadBytes + index[key].length;
      index := index - {key};
    }

    method Remove(key: Text)
      requires Bounded()
      modifies this`index, this`deadBytes
      ensures Bounded() && index == old(index) - {key}
      ensures old(Valid()) ==> Valid() && View() == old(View()) - {key}
    {
      hide ShardOk, ReadIndexed, RecordOf, Sum, Disk.Valid;
      if key in index {
        Forget(key);
      }
    }

    // ---- Compaction --------------------------------------------------------

    /** No crash can bring another file to the canonical path. */
    ghost predicate Alone()
      reads this
    {
      Bound(disk.dirs, ino)
    }

    /** An open file that is clean is a good generation. */
    lemma GoodFile()
      requires Valid() && Clean()
      ensures Good(disk.inodes[ino].data, Live(chunks, index))
    {
      hide ShardOk, Good, Live;
      assert disk.inodes[ino].data[..totalBytes] == disk.inodes[ino].data;
      GoodGeneration(disk.inodes[ino].data, chunks, index, deadBytes, totalBytes);
    }

    /** What a crash between two operations leaves, by how far it reaches. */
    lemma Settled(loss: Loss)
      requires Valid() && (loss != Unknown ==> Clean() && Installed()) && (loss == States || loss == Names ==> Alone())
      ensures Holds(disk, Live(chunks, index), loss)
    {
      hide ShardOk, Good, Live;
      if loss != Unknown {
        GoodFile();
      }
    }

    /** Unlink leftovers of earlier compactions. A backup is removed only once
        the canonical name itself is durable. */
    method RemoveArtifacts(faults: bool, ghost live: map<Text, bytes>, ghost loss: Loss) returns (ok: bool)
      requires Has(disk, DATA) && Holds(disk, live, loss)
      modifies this`disk
      ensures Has(disk, DATA) && disk.Visible()[DATA] == old(disk.Visible()[DATA]) && disk.inodes == old(disk.inodes)
      ensures ok ==> forall name | name in disk.Visible() :: !IsArtifact(name)
      ensures Holds(disk, live, loss) && Lasting(old(disk), disk, live) && (ok && loss == Names ==> Always(disk, DATA, live))
      ensures !faults ==> ok
      ensures ok && |old(disk.dirs)| == 1 ==> |disk.dirs| == 1
    {
      hide Holds, IsArtifact, Always, NamesGood, Disk.Valid, Firm;
      var artifacts := set name | name in disk.Visible() && IsArtifact(name);
      BackupIsArtifact();
      StableData(disk, live, loss);
      if artifacts == {} {
        assert forall name | name in disk.Visible() && IsArtifact(name) :: name in artifacts;
        return true;
      }
      var hit := false;
      if PREV in artifacts {
        hit := Struck(faults);
        if hit {
          return false;
        }
        SyncData(live, loss);
      }
      ok := UnlinkAll(artifacts, faults, live, loss);
      if !ok {
        return;
      }
      hit := Struck(faults);
      if hit {
        return false;
      }
      SyncData(live, loss);
    }

    method SyncData(ghost live: map<Text, bytes>, ghost loss: Loss)
      requires Has(disk, DATA) && Holds(disk, live, loss)
      modifies this`disk
      ensures disk == old(disk).SyncDir() && Holds(disk, live, loss) && Lasting(old(disk), disk, live)
      ensures loss != Unknown ==> Holds(disk, live, Names) && Always(disk, DATA, live)
    {
      hide Holds, Always, NamesGood, Disk.Valid, Firm;
      SyncedHolds(disk, live, loss);
      SyncLasting(disk, live);
      disk := disk.SyncDir();
    }

    method UnlinkAll(artifacts: set<string>, faults: bool, ghost live: map<Text, bytes>, ghost loss: Loss) returns (ok: bool)
      requires Has(disk, DATA) && Holds(disk, live, loss) && (loss == Names ==> Always(disk, DATA, live))
      requires forall name <- artifacts :: IsArtifact(name)
      modifies this`disk
      ensures Has(disk, DATA) && disk.Visible()[DATA] == old(disk.Visible()[DATA]) && disk.inodes == old(disk.inodes)
      ensures ok ==> disk.Visible() == old(disk.Visible()) - artifacts
      ensures Holds(disk, live, loss) && Lasting(old(disk), disk, live) && (loss == Names ==> Always(disk, DATA, live))
      ensures !faults ==> ok
    {
      hide Holds, IsArtifact, Always, Disk.Valid, Firm;
      var todo := artifacts;
      while todo != {}
        invariant todo <= artifacts && Has(disk, DATA) && disk.Visible() == old(disk.Visible()) - (artifacts - todo)
        invariant disk.inodes == old(disk.inodes) && Holds(disk, live, loss) && Lasting(old(disk), disk, live)
        invariant loss == Names ==> Always(disk, DATA, live)
        decreases todo
      {
        var hit := Struck(faults);
        if hit {
          return false;
        }
        var name :| name in todo;
        NotData(name);
        UnlinkHolds(disk, live, loss, name);
        disk := disk.Enter(disk.Visible() - {name});
        todo := todo - {name};
      }
      return true;
    }

    /** A new generation is being written beside the open one. */
    ghost predicate Staging(next: nat, tmp: string, live: map<Text, bytes>, loss: Loss)
      reads this
      ensures Staging(next, tmp, live, loss) ==> next in disk.inodes && ino in disk.inodes
    {
      && Valid() && Installed() && Holds(disk, live, loss)
      && (loss == Names ==> Always(disk, DATA, live))
      && next in disk.inodes && Aside(disk, next) && next != ino
      && IsTemp(tmp) && tmp in disk.Visible() && disk.Visible()[tmp] == next && PREV !in disk.Visible()
    }

    /** Create the staging file. */
    method Stage(next: nat, tmp: string, ghost live: map<Text, bytes>, ghost loss: Loss)
      requires Valid() && Installed() && Holds(disk, live, loss)
      requires loss == Names ==> Always(disk, DATA, live)
      requires next !in disk.inodes && IsTemp(tmp) && PREV !in disk.Visible()
      modifies this`disk
      ensures Staging(next, tmp, live, loss) && disk.inodes[next] == Inode([], 0) && Lasting(old(disk), disk, live)
      ensures disk.inodes[ino] == old(disk.inodes[ino])
    {
      hide FirmDir, Solid, Disk.Valid;
      hide ShardOk, IsTemp, Always, Holds, Aside, Live, Firm, InBounds, Sum;
      UnusedAside(disk, next);
      WriteAside(disk, live, loss, next, Inode([], 0));
      disk := disk.Write(next, Inode([], 0));
      TempNames(tmp);
      BindHolds(disk, live, loss, tmp, next);
      disk := disk.Enter(disk.Visible()[tmp := next]);
    }

    /** A write to the staging file, which may stop early. */
    method Extend(next: nat, tmp: string, more: bytes, faults: bool, ghost live: map<Text, bytes>, ghost loss: Loss)
      returns (ok: bool)
      requires Staging(next, tmp, live, loss)
      modifies this`disk
      ensures Staging(next, tmp, live, loss) && Lasting(old(disk), disk, live) && disk.inodes[ino] == old(disk.inodes[ino])
      ensures ok ==> disk.inodes[next].data == old(disk.inodes[next].data) + more
      ensures !faults ==> ok
    {
      hide FirmDir, Solid;
      hide ShardOk, IsTemp, Always, Holds, Aside, Live, Firm, InBounds, Sum;
      var node := disk.inodes[next];
      var written := Reached(faults, |more|);
      WriteAside(disk, live, loss, next, node.(data := node.data + more[..written]));
      disk := disk.Write(next, node.(data := node.data + more[..written]));
      assert written == |more| ==> more[..written] == more;
      return written == |more|;
    }

    /** Validate a live record and write it again. */
    method CopyOne(next: nat, tmp: string, key: Text, faults: bool, ghost live: map<Text, bytes>, ghost loss: Loss)
      returns (ok: bool, record: bytes)
      requires Staging(next, tmp, live, loss) && key in index
      modifies this`disk
      ensures Staging(next, tmp, live, loss) && Lasting(old(disk), disk, live) && disk.inodes[ino] == old(disk.inodes[ino])
      ensures ok ==> disk.inodes[next].data == old(disk.inodes[next].data) + record
      ensures ok ==> IsRecordOf(chunks, index, key, record)
      ensures !faults ==> (ok <==> ReadIndexed(RecordOf(chunks, key), key).Some?)
    {
      hide ShardOk, IsTemp, Always, Holds, Aside, Live, ReadIndexed, KeyOf, TtlOf, RecordOf, Complete, Firm, Sum;
      hide LastOf;
      var d, data := index[key], disk.inodes[ino].data;
      IndexedBytes(data[..totalBytes], chunks, index, deadBytes, totalBytes, key);
      PrefixAt(data, totalBytes, d);
      var value := ReadIndexedEntry(data, key, d);
      if value.None? {
        return false, [];
      }
      CopiedRecord(RecordOf(chunks, key), key);
      record := Envelope(data[d.offset..d.offset + d.length][8..]);
      ok := Extend(next, tmp, record, faults, live, loss);
    }

    /** The new generation so far. */
    ghost predicate Partial(next: nat, newIndex: Index, newTotal: nat, copied: seq<bytes>)
      reads this
    {
      && next in disk.inodes && ShardOk(disk.inodes[next].data, copied, newIndex, 0, newTotal)
      && Copied(chunks, index, copied, newIndex)
    }

    /** Copy one more record and index it in the new generation. */
    method CopyNext(next: nat, tmp: string, key: Text, soFar: Index, total: nat, ghost done: seq<bytes>, faults: bool,
                    ghost live: map<Text, bytes>, ghost loss: Loss)
      returns (ok: bool, newIndex: Index, newTotal: nat, ghost copied: seq<bytes>)
      requires Staging(next, tmp, live, loss) && key in index && key !in soFar
      requires Partial(next, soFar, total, done)
      modifies this`disk
      ensures Staging(next, tmp, live, loss) && Lasting(old(disk), disk, live) && disk.inodes[ino] == old(disk.inodes[ino])
      ensures ok ==> Partial(next, newIndex, newTotal, copied) && newIndex.Keys == soFar.Keys + {key}
      ensures !faults ==> (ok <==> ReadIndexed(RecordOf(chunks, key), key).Some?)
    {
      hide FirmDir, Solid, Disk.Valid;
      hide ShardOk, IsTemp, Always, Holds, Aside, Live, ReadIndexed, KeyOf, TtlOf, RecordOf, Complete, Copied;
      hide Firm, Sum, InBounds, LiveBytes, LastOf, Lasting;
      newIndex, newTotal, copied := soFar, total, done;
      ghost var data := disk.inodes[next].data;
      var record: bytes;
      ok, record := CopyOne(next, tmp, key, faults, live, loss);
      if !ok {
        return;
      }
      Stored(data, done, soFar, 0, total, record, key, index[key].createdAt);
      CopiedNext(chunks, index, done, soFar, key, total);
      newIndex := soFar[key := DiskEntry(total, |record|, index[key].ttl, index[key].createdAt)];
      newTotal := total + |record|;
      copied := done + [record];
    }

    /** Copy every live record, then sync. Any order of the keys will do. */
    method CopyLive(next: nat, tmp: string, faults: bool, ghost live: map<Text, bytes>, ghost loss: Loss)
      returns (status: Status, newIndex: Index, newTotal: nat, ghost copied: seq<bytes>)
      requires Staging(next, tmp, live, loss) && disk.inodes[next] == Inode([], 0)
      modifies this`disk
      ensures Staging(next, tmp, live, loss) && Lasting(old(disk), disk, live) && disk.inodes[ino] == old(disk.inodes[ino])
      ensures status == Ok || status == Err || status == Died
      ensures status == Ok ==> ShardOk(disk.inodes[next].data, copied, newIndex, 0, newTotal) && Solid(disk.inodes[next], Full)
      ensures status == Ok ==> SameCells(chunks, index, copied, newIndex)
      ensures !faults ==> status != Died && (AllReadable(chunks, index) ==> status == Ok)
    {
      hide FirmDir, Solid, Disk.Valid;
      hide ShardOk, IsTemp, Always, Holds, Aside, Live, ReadIndexed, KeyOf, TtlOf, RecordOf, Complete, Copied;
      hide Firm, Sum, InBounds;
      hide SameCells, LiveBytes, LastOf, IndexesAll, Lasting;
      newIndex, newTotal, copied := map[], 4, [];
      var ok := Extend(next, tmp, DATA_MAGIC, faults, live, loss);
      if !ok {
        return Err, newIndex, newTotal, copied;
      }
      assert [] + DATA_MAGIC == DATA_MAGIC;
      EmptyShard();
      NothingCopied(chunks, index);
      var todo := index.Keys;
      while todo != {}
        invariant Staging(next, tmp, live, loss) && Lasting(old(disk), disk, live) && disk.inodes[ino] == old(disk.inodes[ino])
        invariant todo <= index.Keys && newIndex.Keys == index.Keys - todo
        invariant Partial(next, newIndex, newTotal, copied)
        decreases todo
      {
        var hit := Struck(faults);
        if hit {
          return Died, newIndex, newTotal, copied;
        }
        var key :| key in todo;
        ghost var before := disk;
        ok, newIndex, newTotal, copied := CopyNext(next, tmp, key, newIndex, newTotal, copied, faults, live, loss);
        LastingStill(old(disk), before, disk, live);
        if !ok {
          return Err, newIndex, newTotal, copied;
        }
        todo := todo - {key};
      }
      AllCopied(chunks, index, copied, newIndex);
      var hit := Struck(faults);
      if hit {
        return Err, newIndex, newTotal, copied;
      }
      ShardBounds(disk.inodes[next].data, copied, newIndex, 0, newTotal);
      ghost var before := disk;
      SyncStaged(next, tmp, live, loss);
      LastingStill(old(disk), before, disk, live);
      status := Ok;
    }

    method SyncStaged(next: nat, tmp: string, ghost live: map<Text, bytes>, ghost loss: Loss)
      requires Staging(next, tmp, live, loss) && |disk.inodes[next].data| >= 4
      modifies this`disk
      ensures Staging(next, tmp, live, loss) && Lasting(old(disk), disk, live) && disk.inodes[ino] == old(disk.inodes[ino])
      ensures disk.inodes[next].data == old(disk.inodes[next].data) && Solid(disk.inodes[next], Full)
    {
      hide FirmDir, Sure, Disk.Valid;
      hide ShardOk, IsTemp, Always, Holds, Aside, Live, Firm, InBounds, Sum;
      var node := disk.inodes[next];
      WriteAside(disk, live, loss, next, node.(synced := |node.data|));
      disk := disk.Write(next, node.(synced := |node.data|));
    }

    /** Give the old generation its second name, durably. */
    method LinkBackup(next: nat, tmp: string, faults: bool, ghost live: map<Text, bytes>, ghost loss: Loss) returns (status: Status)
      requires Staging(next, tmp, live, loss)
      modifies this`disk
      ensures Valid() && Installed() && Holds(disk, live, loss)
      ensures disk.inodes == old(disk.inodes) && Lasting(old(disk), disk, live)
      ensures status == Ok || status == Err || status == Died
      ensures status == Ok ==> Backed(disk, live, loss) && tmp in disk.Visible() && disk.Visible()[tmp] == next
      ensures !faults ==> status == Ok
    {
      hide FirmDir, Solid, Disk.Valid;
      hide ShardOk, IsTemp, Always, Holds, Aside, Live, NamesGood, Firm, InBounds, Sum;
      var hit := Struck(faults);
      if hit {
        return Err;
      }
      TempNames(tmp);
      LinkHolds(disk, live, loss);
      disk := disk.Enter(disk.Visible()[PREV := ino]);
      hit := Struck(faults);
      if hit {
        return Died;
      }
      hit := Struck(faults);
      if hit {
        return Err;
      }
      BackedSynced(disk, live, loss);
      SyncLasting(disk, live);
      disk := disk.SyncDir();
      return Ok;
    }

    /** Replace the canonical name. Where replacing is not atomic, a crash in
        the middle finds no canonical name at all. */
    method Replace(next: nat, tmp: string, faults: bool, ghost live: map<Text, bytes>, ghost loss: Loss) returns (died: bool)
      requires Holds(disk, live, loss) && (loss == Unknown || (loss == Names && Always(disk, PREV, live)))
      requires next in disk.inodes && Good(disk.inodes[next].data, live) && Solid(disk.inodes[next], Full) && IsTemp(tmp)
      modifies this`disk
      ensures Holds(disk, live, loss) && disk.inodes == old(disk.inodes) && Lasting(old(disk), disk, live)
      ensures !died ==> Leads(disk, disk.Visible(), live) && DATA in disk.Visible() && disk.Visible()[DATA] == next
      ensures !faults ==> !died
    {
      hide IsTemp, Always, Holds, Good, Firm, Solid;
      TempNames(tmp);
      UnnameHolds(disk, live, loss);
      disk := disk.Enter(disk.Visible() - {DATA});
      var hit := Struck(faults);
      if hit {
        return true;
      }
      InstallHolds(disk, live, loss, tmp, next);
      disk := disk.Enter((disk.Visible() - {tmp})[DATA := next]);
      return false;
    }

    /** Make the new name durable, then drop the backup. */
    method Retire(faults: bool, ghost live: map<Text, bytes>, ghost loss: Loss) returns (status: Status)
      requires Valid() && Installed() && Holds(disk, live, loss) && Leads(disk, disk.Visible(), live)
      requires Solid(disk.inodes[ino], Full)
      modifies this`disk
      ensures Valid() && Installed() && disk.inodes == old(disk.inodes) && Holds(disk, live, loss) && Lasting(old(disk), disk, live)
      ensures status == Ok || status == Err || status == Died
      ensures status == Ok ==> Alone() && PREV !in disk.Visible() && |disk.dirs| == 1
      ensures status == Ok ==> Holds(disk, live, Names) && Firm(disk, Full)
      ensures !faults ==> status == Ok
    {
      hide FirmDir, Solid, Disk.Valid;
      hide ShardOk, IsTemp, Always, Holds, Aside, Bound, Live, NamesGood, Firm, InBounds, Sum, Leads;
      var hit := Struck(faults);
      if hit {
        return Err;
      }
      HoldsSynced(disk, live, loss);
      SyncLasting(disk, live);
      disk := disk.SyncDir();
      hit := Struck(faults);
      if hit {
        return Died;
      }
      hit := Struck(faults);
      if hit {
        return Err;
      }
      UnlinkHolds(disk, live, Names, PREV);
      HoldsLess(disk.Enter(disk.Visible() - {PREV}), live, loss);
      disk := disk.Enter(disk.Visible() - {PREV});
      hit := Struck(faults);
      if hit {
        return Died;
      }
      hit := Struck(faults);
      if hit {
        return Err;
      }
      HoldsWeaker(disk, live, Names);
      HoldsSynced(disk, live, loss);
      SyncLasting(disk, live);
      OnlyData(disk, ino);
      disk := disk.SyncDir();
      OneDir(disk, ino);
      return Ok;
    }

    /** Write the new generation and link the backup; undo both on failure. */
    method Prepare(next: nat, tmp: string, faults: bool, ghost live: map<Text, bytes>, ghost loss: Loss)
      returns (status: Status, newIndex: Index, newTotal: nat, ghost copied: seq<bytes>)
      requires Valid() && Installed() && Holds(disk, live, loss)
      requires loss == Names ==> Always(disk, DATA, live)
      requires PREV !in disk.Visible() && next !in disk.inodes && IsTemp(tmp)
      modifies this`disk
      ensures Valid() && Installed() && Holds(disk, live, loss) && Lasting(old(disk), disk, live)
      ensures status == Ok || status == Err || status == Died
      ensures old(Clean()) ==> Clean()
      ensures status == Ok ==> Backed(disk, live, loss) && next in disk.inodes && Solid(disk.inodes[next], Full)
      ensures status == Ok ==>
                ShardOk(disk.inodes[next].data, copied, newIndex, 0, newTotal) && SameCells(chunks, index, copied, newIndex)
      ensures !faults ==> status != Died && (AllReadable(chunks, index) ==> status == Ok)
    {
      hide ShardOk, IsTemp, Always, Holds, Aside, Live, NamesGood, Good, Disk.Valid, SameCells, Firm, Solid;
      hide InBounds, Sum, Backed;
      hide AllReadable;
      newIndex, newTotal, copied := map[], 4, [];
      Stage(next, tmp, live, loss);
      var hit := Struck(faults);
      if hit {
        return Died, newIndex, newTotal, copied;
      }
      status, newIndex, newTotal, copied := CopyLive(next, tmp, faults, live, loss);
      if status == Ok {
        status := LinkBackup(next, tmp, faults, live, loss);
      }
      if status == Err {
        var _ := RemoveArtifacts(faults, live, loss);
      }
    }

    /** Rewrite the live records into a new generation. Wherever it stops, the
        directory is as safe as it was before, and no less is on stable storage;
        if the process goes on, the open file is the one at the canonical path
        and stands for the same map. */
    method Compact(next: nat, tmp: string, faults: bool, ghost live: map<Text, bytes>, ghost loss: Loss) returns (status: Status)
      requires Valid() && Installed() && next !in disk.inodes && IsTemp(tmp)
      requires Holds(disk, live, loss) && Among(live, Live(chunks, index))
      modifies this
      ensures status == Ok || status == Err || status == Died
      ensures Holds(disk, live, loss) && Lasting(old(disk), disk, live)
      ensures status != Died ==> Valid() && Installed() && View() == old(View()) && Live(chunks, index) == old(Live(chunks, index))
      ensures status != Died && old(Clean()) ==> Clean()
      ensures status == Ok ==> Alone() && Clean() && PREV !in disk.Visible() && deadBytes == 0 && IndexesAll(chunks, index)
      ensures status == Ok ==> Holds(disk, live, Names) && Firm(disk, Full) && |disk.dirs| == 1
      ensures !old(compactionSafe) ==> status == Err && disk == old(disk)
      ensures !faults ==> status != Died && (old(compactionSafe) && old(AllReadable(chunks, index)) ==> status == Ok)
    {
      hide ShardOk, IsTemp, Always, Holds, Bound, Live, CellsOf, NamesGood, Good, Disk.Valid, IndexesAll;
      hide SameCells, Firm, InBounds, Sum, Among;
      hide AllReadable;
      if !compactionSafe {
        return Err;
      }
      BackupIsArtifact();
      var ok := RemoveArtifacts(faults, live, loss);
      if !ok {
        return Err;
      }
      status := Rewrite(next, tmp, faults, live, loss);
    }

    /** The rest of compaction, with no leftovers around. */
    method Rewrite(next: nat, tmp: string, faults: bool, ghost live: map<Text, bytes>, ghost loss: Loss) returns (status: Status)
      requires Valid() && Installed() && PREV !in disk.Visible() && next !in disk.inodes && IsTemp(tmp)
      requires Among(live, Live(chunks, index)) && Holds(disk, live, loss) && (loss == Names ==> Always(disk, DATA, live))
      modifies this
      ensures status == Ok || status == Err || status == Died
      ensures Holds(disk, live, loss) && Lasting(old(disk), disk, live)
      ensures status != Died ==> Valid() && Installed() && View() == old(View()) && Live(chunks, index) == old(Live(chunks, index))
      ensures status != Died && old(Clean()) ==> Clean()
      ensures status == Ok ==> Alone() && Clean() && PREV !in disk.Visible() && deadBytes == 0 && IndexesAll(chunks, index)
      ensures status == Ok ==> Holds(disk, live, Names) && Firm(disk, Full) && |disk.dirs| == 1
      ensures !faults ==> status != Died && (old(AllReadable(chunks, index)) ==> status == Ok)
    {
      hide ShardOk, IsTemp, Always, Holds, Bound, Live, CellsOf, NamesGood, Good, Disk.Valid, IndexesAll, Firm;
      hide Solid, InBounds, Sum;
      hide AllReadable, Leads;
      var newIndex, newTotal;
      ghost var copied;
      status, newIndex, newTotal, copied := Prepare(next, tmp, faults, live, loss);
      if status != Ok {
        return;
      }
      ghost var data, level := disk.inodes[next].data, Level(loss);
      GoodGeneration(data, copied, newIndex, 0, newTotal);
      GoodLess(data, Live(copied, newIndex), live);
      ShardBounds(data, copied, newIndex, 0, newTotal);
      assert data[..|data|] == data;
      var died := Replace(next, tmp, faults, live, level);
      LevelHolds(disk, live, loss);
      if died {
        return Died;
      }
      ino, index, totalBytes, deadBytes, compactionSafe := next, newIndex, newTotal, 0, true;
      chunks := copied;
      status := Retire(faults, live, level);
      LevelHolds(disk, live, loss);
    }

    // ---- Startup -----------------------------------------------------------

    /** Write the header of an empty data file. */
    method Initialize(created: bool, faults: bool) returns (status: Status)
      requires disk.Valid() && Installed() && ino in disk.inodes
      modifies this
      ensures disk.Valid() && (status == Ok || status == Err)
      ensures status == Ok ==> Valid() && Clean() && Installed() && chunks == [] && index == map[]
      ensures status == Ok ==> |disk.dirs| == if created then 1 else |old(disk.dirs)|
      ensures !faults ==> status == Ok
    {
      hide ShardOk, Disk.Valid, CellsOf, Bound, Utf8, Sum;
      var written := Reached(faults, 4);
      WrittenValid(disk, ino, Inode(DATA_MAGIC[..written], 0));
      disk := disk.Write(ino, Inode(DATA_MAGIC[..written], 0));
      if written < 4 {
        return Err;
      }
      WrittenValid(disk, ino, Inode(DATA_MAGIC, 4));
      disk := disk.Write(ino, Inode(DATA_MAGIC, 4));
      if created {
        var hit := Struck(faults);
        if hit {
          return Err;
        }
        SyncedValid(disk);
        disk := disk.SyncDir();
      }
      Reset();
      return Ok;
    }

    /** Nothing is indexed yet. */
    method Reset()
      requires disk.Valid() && ino in disk.inodes && disk.inodes[ino].data == DATA_MAGIC
      modifies this`index, this`chunks, this`totalBytes, this`deadBytes, this`compactionSafe
      ensures Valid() && Clean() && chunks == [] && index == map[] && compactionSafe
    {
      hide ShardOk, Disk.Valid, Utf8;
      EmptyShard();
      assert DATA_MAGIC[..4] == DATA_MAGIC;
      index, chunks, totalBytes, deadBytes, compactionSafe := map[], [], 4, 0, true;
    }

    /** Rebuild the index of an existing data file. */
    method Load(backup: bool, now: int, faults: bool, ghost live: map<Text, bytes>, ghost loss: Loss) returns (status: Status)
      requires Holds(disk, live, loss) && Installed() && ino in disk.inodes
      modifies this
      ensures Holds(disk, live, loss) && status != Died
      ensures status == Ok ==> Valid() && Clean() && Installed() && IndexesAll(chunks, index)
      ensures status == Ok ==> chunks == Records(old(disk.inodes[disk.Visible()[DATA]].data))
      ensures loss != Unknown ==> status != Refused && status != Legacy && (status == Ok ==> Recovers(chunks, index, live))
      ensures old(disk.inodes[disk.Visible()[DATA]].data) != [] ==> Firmer(old(disk), disk)
      ensures status == Ok && |old(disk.dirs)| == 1 ==> |disk.dirs| == 1
      ensures status == Refused ==> disk == old(disk)
      ensures status == Refused <==> backup && Torn(old(disk.inodes[disk.Visible()[DATA]].data))
      ensures status == Legacy ==> IsLegacy(old(disk.inodes[disk.Visible()[DATA]].data))
      ensures !faults ==> status != Err
    {
      hide Holds, IsTemp, Disk.Valid, ShardOk, Describes, Split, LastOf, ColdFormat.Scanned, ReadRecord, IndexOk;
      hide Good, Firm, Sum, InBounds;
      hide Records, Whole, IsLegacy;
      var data := disk.inodes[ino].data;
      StableData(disk, live, loss);
      if loss != Unknown {
        GoodWhole(data, live);
      }
      FileKinds(data);
      if data == [] {
        if backup {
          return Refused;
        }
        NothingIndexed();
        status := Initialize(false, faults);
        UnknownHolds(disk, live);
        return;
      }
      if |data| < 4 || data[..4] != DATA_MAGIC {
        return Legacy;
      }
      var r := RebuildIndex(data, now);
      Described(data, r, now);
      if loss != Unknown {
        WholeScan(data, r, now, live);
      }
      TornOrWhole(data, r.total);
      status := Adopt(data, r, backup, faults, live, loss);
    }

    /** Take over the rebuilt index; cut off a torn record, unless there is a backup. */
    method Adopt(data: bytes, r: Rebuilt, backup: bool, faults: bool, ghost live: map<Text, bytes>, ghost loss: Loss)
      returns (status: Status)
      requires Installed() && ino in disk.inodes && disk.inodes[ino].data == data && 4 <= r.total <= |data|
      requires ShardOk(data[..r.total], Split(data[4..]), r.index, r.dead, r.total) && IndexesAll(Split(data[4..]), r.index)
      requires loss != Unknown ==> r.total == |data|
      requires Holds(disk, live, loss)
      modifies this
      ensures status == Ok || status == Err || status == Refused
      ensures status == Ok ==> Valid() && Clean() && Installed() && chunks == Split(data[4..]) && index == r.index
      ensures status == Refused ==> disk == old(disk)
      ensures status == Refused <==> backup && r.total != |data|
      ensures Holds(disk, live, loss) && Firmer(old(disk), disk)
      ensures !faults ==> status != Err
      ensures status == Ok && |old(disk.dirs)| == 1 ==> |disk.dirs| == 1
    {
      hide Holds, IsTemp, Disk.Valid, ShardOk, Split, LastOf, IndexOk, Good, Firm, Sum, InBounds, IndexesAll;
      if r.total != |data| {
        if backup {
          return Refused;
        }
        var hit := Struck(faults);
        if hit {
          return Err;
        }
        TrimmedValid(disk, ino, r.total);
        SolidWritten(disk, ino, Inode(data[..r.total], r.total));
        disk := disk.Write(ino, Inode(data[..r.total], r.total));
        UnknownHolds(disk, live);
      }
      assert data[..|data|] == data && data[..r.total][..r.total] == data[..r.total];
      ShardBounds(data[..r.total], Split(data[4..]), r.index, r.dead, r.total);
      index, chunks, totalBytes, deadBytes := r.index, Split(data[4..]), r.total, r.dead;
      compactionSafe := r.corrupted == [] && r.unparsable == [] && r.total == |data|;
      if compactionSafe {
        var ok := RemoveArtifacts(faults, live, loss);
        if !ok {
          return Err;
        }
      }
      return Ok;
    }

    /** Open or create the shard found on disk. A backup whose canonical file
        is gone gets its name back; that rename and the sync after it are two
        steps. */
    method Open(next: nat, now: int, faults: bool, ghost live: map<Text, bytes>, ghost loss: Loss) returns (status: Status)
      requires Holds(disk, live, loss) && next !in disk.inodes
      modifies this
      ensures disk.Valid()
      ensures Holds(disk, live, loss) ||
              (loss == Names && Holds(disk, live, States) && status != Ok && Interrupted(old(disk), disk))
      ensures status == Ok ==> Valid() && Clean() && Installed() && IndexesAll(chunks, index) && chunks == FirstRecords(old(disk))
      ensures loss != Unknown ==> status != Refused && status != Legacy && (status == Ok ==> Recovers(chunks, index, live))
      ensures Begun(old(disk)) ==> Firmer(old(disk), disk)
      ensures status == Ok && |old(disk.dirs)| == 1 ==> |disk.dirs| == 1
      ensures status == Refused ==> disk.inodes == old(disk.inodes) && disk.Visible().Values == old(disk.Visible().Values)
      ensures status != Err && status != Died ==> (status == Refused <==> Refuses(old(disk)))
      ensures status == Legacy ==> Start(old(disk).Visible()).Some? && IsLegacy(old(disk).inodes[Start(old(disk).Visible()).value].data)
      ensures !faults ==> status != Err && status != Died
    {
      hide Holds, IsTemp, Disk.Valid, ShardOk, LastOf, Firm, Records, Whole, IsLegacy, IndexesAll, Recovers;
      hide Leads, InBounds, Sum;
      hide LiveBytes;
      var visible := disk.Visible();
      if loss != Unknown {
        SafeMissing(disk, live, loss);
      }
      if DATA !in visible && PREV !in visible {
        if name :| name in visible && IsTemp(name) {
          return Refused;
        }
        status := Create(next, faults);
        UnknownHolds(disk, live);
        return;
      }
      VisibleFile(disk, if DATA in visible then DATA else PREV);
      status := OpenExisting(now, faults, live, loss);
    }

    /** Open the canonical generation, or the backup if that one is gone. */
    method OpenExisting(now: int, faults: bool, ghost live: map<Text, bytes>, ghost loss: Loss) returns (status: Status)
      requires |disk.dirs| > 0 && Start(disk.Visible()).Some? && Start(disk.Visible()).value in disk.inodes
      requires Holds(disk, live, loss)
      modifies this
      ensures Holds(disk, live, loss) ||
              (loss == Names && Holds(disk, live, States) && status != Ok && Interrupted(old(disk), disk))
      ensures status == Ok ==> Valid() && Clean() && Installed() && IndexesAll(chunks, index)
      ensures status == Ok ==> chunks == Records(old(disk.inodes[Start(disk.Visible()).value].data))
      ensures loss != Unknown ==> status != Refused && status != Legacy && (status == Ok ==> Recovers(chunks, index, live))
      ensures old(disk.inodes[Start(disk.Visible()).value].data) != [] ==> Firmer(old(disk), disk)
      ensures status == Ok && |old(disk.dirs)| == 1 ==> |disk.dirs| == 1
      ensures status == Refused ==>
                && disk.inodes == old(disk.inodes) && |disk.dirs| > 0 && disk.Visible().Values == old(disk.Visible().Values)
      ensures status == Legacy ==> IsLegacy(old(disk.inodes[Start(disk.Visible()).value].data))
      ensures !faults ==> status != Err && status != Died
      ensures status != Err && status != Died ==>
                (status == Refused <==>
                 PREV in old(disk.Visible()) && Torn(old(disk.inodes[Start(disk.Visible()).value].data)))
    {
      hide Torn;
      hide Holds, Disk.Valid, ShardOk, Firm, Records, Whole, IsLegacy, IndexesAll, Recovers, Leads, InBounds, Sum, LiveBytes;
      var backup := PREV in disk.Visible();
      if DATA !in disk.Visible() {
        status := Restore(faults, live, loss);
        if status != Ok {
          return;
        }
      }
      ino := disk.Visible()[DATA];
      status := Load(backup, now, faults, live, loss);
    }

    /** A new, empty shard. */
    method Create(next: nat, faults: bool) returns (status: Status)
      requires disk.Valid() && next !in disk.inodes
      modifies this
      ensures disk.Valid() && (status == Ok || status == Err) && (!faults ==> status == Ok)
      ensures status == Ok ==> Valid() && Clean() && Installed() && IndexesAll(chunks, index) && chunks == [] && |disk.dirs| == 1
    {
      hide Disk.Valid, ShardOk, IndexesAll, InBounds, Sum;
      CreatedValid(disk, next);
      NothingIndexed();
      disk := disk.Write(next, Inode([], 0)).Enter(disk.Visible()[DATA := next]);
      ino := next;
      status := Initialize(true, faults);
    }

    /** Give the backup the canonical name, durably. */
    method Restore(faults: bool, ghost live: map<Text, bytes>, ghost loss: Loss) returns (status: Status)
      requires Has(disk, PREV) && DATA !in disk.Visible() && Holds(disk, live, loss)
      modifies this`disk
      ensures disk.inodes == old(disk.inodes) && (status == Ok || status == Err || status == Died)
      ensures |disk.dirs| > 0 && disk.Visible().Values == old(disk.Visible().Values)
      ensures status == Ok ==> disk.dirs == [Restored(old(disk.Visible()))]
      ensures disk.Valid() && Firmer(old(disk), disk)
      ensures Holds(disk, live, loss) ||
              (loss == Names && Holds(disk, live, States) && status != Ok && Interrupted(old(disk), disk))
      ensures !faults ==> status == Ok
    {
      hide Holds, Disk.Valid, Firmer, Leads, Restored;
      Unchanged(disk);
      RestoredValues(disk.Visible());
      var hit := Struck(faults);
      if hit {
        return Err;
      }
      RestoreHolds(disk, live, loss);
      disk := disk.Enter(Restored(disk.Visible()));
      hit := Struck(faults);
      if hit {
        return Died;
      }
      hit := Struck(faults);
      if hit {
        return Err;
      }
      RestoreSynced(old(disk), live, loss);
      disk := disk.SyncDir();
      return Ok;
    }
  }

  /** Rebuilding the index of a shard gives back every entry with a fresh
      start time. Only keys dropped without a new record come back besides;
      after compaction there are none and the index is reproduced exactly. */
  lemma RebuildReproduces(data: bytes, cs: seq<bytes>, index: Index, dead: nat, total: nat, r: Rebuilt, now: int)
    requires ShardOk(data, cs, index, dead, total) && Describes(r, Split(data[4..]), now)
    ensures r.total == total
    ensures forall key <- index :: key in r.index && r.index[key] == index[key].(createdAt := now)
    ensures forall key <- r.index.Keys - index.Keys :: LastOf(cs, key).Some?
    ensures IndexesAll(cs, index) ==> r.index.Keys == index.Keys && r.dead == dead
  {
    hide Joined, Split, LastOf, Sum, Where, Offset, TtlOf, ColdFormat.Complete, Good, Live;
    GoodGeneration(data, cs, index, dead, total);
    forall key | key in index
      ensures key in r.index && r.index[key] == index[key].(createdAt := now)
    {
      assert Points(cs, key, index[key]);
      assert Points(cs, key, r.index[key]);
    }
    if IndexesAll(cs, index) {
      SumSame(r.index, index, LengthOf);
    }
  }

  // ---- Stores behind the end of the file ---------------------------------

  /** String entries of one byte or none. */
  function Tiny(text: bytes): Entry {
    Entry([], Str(text), 0)
  }

  lemma TinyFits(text: bytes)
    requires |text| <= 1
    ensures EntryFits(Tiny(text)) && NormalEntry(Tiny(text)).value == Str(text)
  {
  }

  lemma StrWritten(text: bytes)
    ensures WriteValue(Str(text)) == U32Bytes(|text|) + text
  {
    hide Le, U32Bytes;
  }

  lemma TinyLayout(text: bytes)
    ensures |WriteEntry(Tiny(text))| == 17 + |text| && WriteEntry(Tiny(text))[17..] == text
  {
    hide Le, I64Bytes, U32Bytes, WriteValue, Prefixed, TypeByte;
    StrWritten(text);
    var tag, key, ttl, length := [TypeByte(Str(text))], Prefixed([]), I64Bytes(-1), U32Bytes(|text|);
    assert WriteEntry(Tiny(text)) == tag + (key + (ttl + (length + text)));
    Regrouped(tag, key, ttl, length, text);
    assert |tag + (key + (ttl + length))| == 17;
  }

  lemma Regrouped(a: bytes, b: bytes, c: bytes, d: bytes, e: bytes)
    ensures a + (b + (c + (d + e))) == a + (b + (c + d)) + e
  {
  }

  lemma TinyRecord(text: bytes)
    requires |text| <= 1
    ensures Storable(Tiny(text)) && |Record(Tiny(text))| == 25 + |text|
    ensures Record(Tiny(text))[..4] == [17 + |text| as byte, 0, 0, 0] && Record(Tiny(text))[25..] == text
    ensures ReadIndexed(Record(Tiny(text)), []) == Some(Str(text))
  {
    hide ReadIndexed, WriteEntry, EntryFits, NormalEntry, U32Bytes, Complete, ReadRecord, Record;
    TinyFits(text);
    TinyLayout(text);
    var data := WriteEntry(Tiny(text));
    RecordRoundTrip(Tiny(text));
    var c := Record(Tiny(text));
    RecordParts(Tiny(text));
    assert c[25..] == c[8..][17..];
    SmallBytes(|data| as byte);
  }

  lemma RecordParts(e: Entry)
    requires Storable(e)
    ensures |Record(e)| == 8 + |WriteEntry(e)| && Record(e)[..4] == U32Bytes(|WriteEntry(e)|) && Record(e)[8..] == WriteEntry(e)
  {
    hide WriteEntry, Crc.Crc32, U32Bytes;
  }

  lemma SmallBytes(n: byte)
    ensures U32Bytes(n as nat) == [n, 0, 0, 0]
  {
    assert Le(n as nat, 4) == [n] + Le(0, 3);
    ZeroBytes();
  }

  lemma ZeroBytes()
    ensures Le(0, 3) == [0, 0, 0]
  {
    assert Le(0, 1) == [0] + Le(0, 0);
    assert Le(0, 2) == [0] + Le(0, 1);
    assert Le(0, 3) == [0] + Le(0, 2);
  }

  /** Junk of any length makes one of two stores unreadable. */
  lemma Misread(junk: bytes) returns (text: bytes)
    requires junk != []
    ensures |text| <= 1 && ReadIndexed(Shifted(junk, Record(Tiny(text))), []) == None
  {
    hide ReadIndexed, Record, LeValue, Storable;
    text := [];
    if |junk| >= 4 && LeValue(junk[..4]) == 17 {
      text := [0];
    }
    TinyRecord(text);
    var c := Record(Tiny(text));
    var found := Shifted(junk, c);
    if |junk| >= 4 {
      assert found[..4] == junk[..4];
    } else {
      ShortShift(junk, c);
      Shortened(junk, found[..4]);
    }
    WrongLength(found, []);
  }

  lemma ShortShift(junk: bytes, c: bytes)
    requires 0 < |junk| < 4 <= |c|
    ensures Shifted(junk, c)[..4] == junk + c[..4][..4 - |junk|]
  {
  }

  lemma WrongLength(c: bytes, key: Text)
    requires |c| >= 8 && LeValue(c[..4]) != |c| - 8
    ensures ReadIndexed(c, key) == None
  {
    hide LeValue;
  }

  lemma Shortened(junk: bytes, s: bytes)
    requires 0 < |junk| < 4 && s == junk + [17, 0, 0, 0][..4 - |junk|]
    ensures |s| == 4 && LeValue(s) != 17
  {
    assert LeValue(s) == s[0] as nat + 256 * LeValue(s[1..]);
    assert LeValue(s[1..]) == s[1] as nat + 256 * LeValue(s[2..]);
    assert LeValue(s[2..]) == s[2] as nat + 256 * LeValue(s[3..]);
    assert LeValue(s[3..]) == s[3] as nat + 256 * LeValue(s[4..]);
  }

  /** Exactly when a store that goes through can be looked up, whatever is
      stored: when no bytes of a failed store are in front of it, which is when
      the length of the file is the number of bytes the shard counts. */
  lemma StoredExactly(junk: bytes)
    ensures junk == [] <==>
            forall e: Entry | Storable(e) :: ReadIndexed(Shifted(junk, Record(e)), e.key) == ReadIndexed(Record(e), e.key)
  {
    hide ReadIndexed, Record, Storable;
    if junk == [] {
      forall e: Entry | Storable(e)
        ensures Shifted(junk, Record(e)) == Record(e)
      {
      }
    } else {
      var text := Misread(junk);
      TinyRecord(text);
      assert Storable(Tiny(text)) && ReadIndexed(Record(Tiny(text)), Tiny(text).key) != None;
    }
  }

  /** A lookup may even answer with the value of a store that failed: of that
      store all but the last byte went through and could not be cut off again,
      and the next store under the same key supplies the byte that was missing. */
  method FailedStoreAnswers(shard: DiskShard, now: int) returns (first: bool, second: bool, answer: Answer)
    requires shard.Valid() && shard.Clean()
    modifies shard
    ensures !first && second && answer == Hit(Str([18]), None)
    ensures Find(old(shard.View())[[] := Fresh(Tiny([0]), now)], [], now) == Hit(Str([0]), None)
  {
    hide ReadIndexed, Record, Storable, ShardOk, Sum, NormalEntry, WriteEntry, Looked, CellsOf, Disk.Valid, Firm;
    hide Kept, InBounds;
    hide Fresh, LiveBytes;
    var failed, stored := Tiny([18]), Tiny([0]);
    TinyRecord([18]);
    TinyRecord([0]);
    ghost var total, data := shard.totalBytes, shard.disk.inodes[shard.ino].data;
    first := shard.Put(failed, now, 25, false);
    second := shard.Put(stored, now, 26, true);
    assert shard.disk.inodes[shard.ino].data == data + Record(failed)[..25] + Record(stored);
    Completed(data, Record(failed), Record(stored), shard.index[[]]);
    BoundsMore(shard.index, shard.totalBytes, |shard.disk.inodes[shard.ino].data|);
    LookedUp(shard.disk.inodes[shard.ino].data, shard.index, now, [18]);
    Wanted(old(shard.View()), now, [0]);
    answer := shard.Get([], now);
  }

  lemma BoundsMore(index: Index, total: nat, more: nat)
    requires InBounds(index, total) && total <= more
    ensures InBounds(index, more)
  {
  }

  lemma Wanted(m: map<Text, Cell>, now: int, text: bytes)
    ensures Find(m[[] := Fresh(Tiny(text), now)], [], now) == Hit(Str(text), None)
  {
  }

  lemma LookedUp(data: bytes, index: Index, now: int, text: bytes)
    requires InBounds(index, |data|) && [] in index && index[[]].ttl == -1
    requires ReadIndexed(At(data, index[[]]), []) == Some(Str(text))
    ensures Looked(data, index, [], now) == Hit(Str(text), None)
  {
    hide ReadIndexed;
  }

  lemma Completed(data: bytes, failed: bytes, stored: bytes, d: DiskEntry)
    requires |failed| == |stored| == 26 && failed[25..] == [18] && stored[..4] == [18, 0, 0, 0]
    requires d.offset == |data| && d.length == 26
    ensures At(data + failed[..25] + stored, d) == failed
  {
    assert stored[0] == stored[..4][0] && failed[25] == failed[25..][0];
  }

  /** The process may die in the middle of a store: the records before it are
      found again, and the torn one is cut off. */
  lemma TornPut(disk: Disk, data: bytes, cs: seq<bytes>, index: Index, dead: nat, total: nat, c: bytes, k: nat)
    requires ShardOk(data, cs, index, dead, total) && Complete(c) && k < |c|
    requires disk.Valid() && DATA in disk.Visible() && PREV !in disk.Visible()
    requires disk.inodes[disk.Visible()[DATA]].data == data + c[..k]
    ensures FirstRecords(disk) == cs && !Refuses(disk)
  {
    hide Joined, Split, LastOf, RecordOf, IndexOk, Complete, ReadRecord, Sum;
    TornRecord(c, k);
    SplitJoined(cs, c[..k]);
    assert (data + c[..k])[4..] == Joined(cs) + c[..k];
  }

  // ---- Whole runs --------------------------------------------------------

  /** A store comes with how much of its write goes through and whether the
      rest can be cut off; a compaction with whether faults may strike. */
  datatype Request =
    | Store(e: Entry, reach: nat, cut: bool)
    | Fetch(key: Text)
    | Drop(key: Text)
    | Rewrite(next: nat, tmp: string, faults: bool)

  datatype Outcome = StoreDone(ok: bool) | Answered(answer: Answer) | DropDone | RewriteDone | Crashed

  /** One request against the plain map with expiry. */
  predicate Served(m: map<Text, Cell>, r: Request, now: int, o: Outcome, after: map<Text, Cell>) {
    match r
    case Store(e, reach, _) =>
      o == StoreDone(Storable(e) && reach >= |Record(e)|) && after == if o.ok then m[e.key := Fresh(e, now)] else m
    case Fetch(key) => o == Answered(Find(m, key, now)) && after == Touched(m, key, now)
    case Drop(key) => o == DropDone && after == m - {key}
    case Rewrite(_, _, faults) => (o == RewriteDone || (o == Crashed && faults)) && after == m
  }

  /** A run of requests, from map to map. */
  predicate AllServed(script: seq<(Request, int)>, outcomes: seq<Outcome>, maps: seq<map<Text, Cell>>) {
    && |outcomes| <= |script| && |maps| == |outcomes| + 1
    && forall i | 0 <= i < |outcomes| :: Served(maps[i], script[i].0, script[i].1, outcomes[i], maps[i + 1])
  }

  /** No truncation fails. */
  predicate AlwaysCut(script: seq<(Request, int)>) {
    forall i {:trigger script[i]} | 0 <= i < |script| :: script[i].0.Store? ==> script[i].0.cut
  }

  /** The records hold the values of the map. */
  ghost predicate Backs(live: map<Text, bytes>, m: map<Text, Cell>) {
    live.Keys == m.Keys && forall key <- m :: m[key].value == ReadIndexed(live[key], key)
  }

  lemma LiveBacks(cs: seq<bytes>, index: Index)
    ensures Backs(Live(cs, index), CellsOf(cs, index))
  {
    hide ReadIndexed, RecordOf;
  }

  /** A store that goes through. */
  predicate Completes(r: Request) {
    r.Store? && Storable(r.e) && r.reach >= |Record(r.e)|
  }

  /** The key stays in the map and is not stored anew. */
  ghost predicate Undisturbed(script: seq<(Request, int)>, maps: seq<map<Text, Cell>>, key: Text) {
    && (forall m <- maps :: key in m)
    && forall i | 0 <= i < |maps| - 1 && i < |script| :: !(Completes(script[i].0) && script[i].0.e.key == key)
  }

  /** What was there at first and undisturbed is kept. */
  ghost predicate Saved(script: seq<(Request, int)>, maps: seq<map<Text, Cell>>, first: map<Text, bytes>, kept: map<Text, bytes>) {
    forall key <- first :: Undisturbed(script, maps, key) ==> key in kept && kept[key] == first[key]
  }

  /** The records that this request leaves alone. */
  ghost function Spared(kept: map<Text, bytes>, r: Request, after: map<Text, Cell>): map<Text, bytes> {
    map key | key in kept && key in after && !(Completes(r) && r.e.key == key) :: kept[key]
  }

  /** The records are among those of the shard, and no crash of this kind takes them. */
  ghost predicate Guards(disk: Disk, ino: nat, total: nat, cs: seq<bytes>, index: Index, kept: map<Text, bytes>, loss: Loss) {
    && ino in disk.inodes && total == |disk.inodes[ino].data|
    && Among(kept, Live(cs, index)) && Holds(disk, kept, loss) && Firm(disk, Keeps(kept))
  }

  ghost predicate Guarded(shard: DiskShard, kept: map<Text, bytes>, loss: Loss)
    reads shard
  {
    Guards(shard.disk, shard.ino, shard.totalBytes, shard.chunks, shard.index, kept, loss)
  }

  /** Keys that leave the index are not kept any longer. */
  lemma GuardsLess(disk: Disk, ino: nat, total: nat, cs: seq<bytes>, index: Index, fewer: Index, kept: map<Text, bytes>,
                   less: map<Text, bytes>, loss: Loss)
    requires Guards(disk, ino, total, cs, index, kept, loss)
    requires less.Keys <= fewer.Keys && forall key <- less :: key in kept && kept[key] == less[key]
    ensures Guards(disk, ino, total, cs, fewer, less, loss)
  {
    hide RecordOf, Holds, Firm;
    KeepsLess(disk, kept, less, loss);
  }

  lemma GuardsStored(disk: Disk, ino: nat, total: nat, cs: seq<bytes>, index: Index, dead: nat, kept: map<Text, bytes>, e: Entry,
                     d: DiskEntry, loss: Loss)
    requires Guards(disk, ino, total, cs, index, kept, loss) && Storable(e)
    requires ShardOk(disk.inodes[ino].data, cs, index, dead, total)
    ensures Guards(Appended(disk, ino, Record(e)), ino, total + |Record(e)|, cs + [Record(e)], index[e.key := d],
                   kept - {e.key}, loss)
  {
    hide RecordOf, Holds, Firm, Record, Storable, KeyOf, Complete, Joined, IndexOk, Sum, ReadIndexed, TtlOf, NormalEntry;
    var c := Record(e);
    FoundRecord(e);
    AppendHolds(disk, ino, cs, c, e.key, kept, loss);
    forall key | key in kept - {e.key}
      ensures RecordOf(cs + [c], key) == RecordOf(cs, key)
    {
      RecordAdded(cs, c, e.key, key);
    }
  }

  /** Over every run of requests, with writes, truncations, directory syncs and
      whole compactions failing anywhere, the shard behaves as the plain map,
      until a store goes through behind the bytes of a failed one. As long as
      truncations succeed that never happens. A crash then leaves a directory
      from which a restart finds every value of the map, and one with a power
      loss every value that was durable at the beginning and was left alone. */
  method Serve(shard: DiskShard, script: seq<(Request, int)>, ghost loss: Loss)
    returns (outcomes: seq<Outcome>, ghost maps: seq<map<Text, Cell>>, ghost kept: map<Text, bytes>)
    requires shard.Valid() && shard.Installed()
    modifies shard
    ensures AllServed(script, outcomes, maps) && maps[0] == old(shard.View())
    ensures |outcomes| < |script| ==>
              (outcomes != [] && outcomes[|outcomes| - 1] == Crashed) || (Completes(script[|outcomes|].0) && !shard.Clean())
    ensures Crashed !in outcomes ==> shard.Valid() && shard.Installed() && shard.View() == maps[|maps| - 1]
    ensures old(shard.Clean()) && AlwaysCut(script) && Crashed !in outcomes ==> shard.Clean() && |outcomes| == |script|
    ensures old(shard.Clean()) && AlwaysCut(script) && loss == NoLoss ==>
              Holds(shard.disk, kept, NoLoss) && Backs(kept, maps[|maps| - 1])
    ensures loss != NoLoss && old(Guarded(shard, Live(shard.chunks, shard.index), loss)) && AlwaysCut(script) ==>
              Holds(shard.disk, kept, loss) && Firm(shard.disk, Keeps(kept))
    ensures loss != NoLoss ==> Saved(script, maps, old(Live(shard.chunks, shard.index)), kept)
  {
    hide ShardOk, CellsOf, Disk.Valid, IsTemp, Storable, Served, Record, InBounds, Sum, Live, Holds, Backs, Guards, Firm;
    hide Completes, Among, Spared, AlwaysCut, Saved;
    hide DiskShard.Valid, DiskShard.Clean, DiskShard.Installed, DiskShard.View, Guarded;
    outcomes, maps, kept := [], [shard.View()], Live(shard.chunks, shard.index);
    ghost var first, cuts := kept, AlwaysCut(script);
    NothingServed(script, maps, first);
    ghost var clean, guarded := shard.Clean() && cuts, Guarded(shard, kept, loss) && cuts && loss != NoLoss;
    var i := 0;
    while i < |script|
      invariant i == |outcomes| && AllServed(script, outcomes, maps) && maps[0] == old(shard.View())
      invariant Crashed !in outcomes && shard.Valid() && shard.Installed() && shard.View() == maps[i]
      invariant (clean ==> shard.Clean()) && (guarded ==> Guarded(shard, kept, loss))
      invariant if loss == NoLoss then kept == Live(shard.chunks, shard.index) else Saved(script, maps, first, kept)
    {
      var r := script[i].0;
      GuardsHolds(shard, kept, loss);
      var blocked := Blocked(shard, r);
      if blocked {
        return;
      }
      CutAlways(script, i);
      var o := Perform(shard, r, script[i].1, kept, loss);
      ghost var after := if o == Crashed then maps[i] else shard.View();
      if loss != NoLoss {
        SparedStill(script, maps, first, kept, i, after);
      }
      ServedMore(script, outcomes, maps, o, after);
      outcomes, maps := outcomes + [o], maps + [after];
      if o == Crashed {
        return;
      }
      kept := if loss == NoLoss then Live(shard.chunks, shard.index) else Spared(kept, r, after);
      i := i + 1;
    }
    GuardsHolds(shard, kept, loss);
  }

  lemma NothingServed(script: seq<(Request, int)>, maps: seq<map<Text, Cell>>, first: map<Text, bytes>)
    requires |maps| == 1
    ensures AllServed(script, [], maps) && Saved(script, maps, first, first)
  {
  }

  lemma ServedMore(script: seq<(Request, int)>, outcomes: seq<Outcome>, maps: seq<map<Text, Cell>>, o: Outcome,
                   after: map<Text, Cell>)
    requires AllServed(script, outcomes, maps) && |outcomes| < |script|
    requires Served(maps[|outcomes|], script[|outcomes|].0, script[|outcomes|].1, o, after)
    ensures AllServed(script, outcomes + [o], maps + [after]) && (maps + [after])[0] == maps[0]
    ensures (maps + [after])[|outcomes| + 1] == after
    ensures Crashed in outcomes + [o] <==> Crashed in outcomes || o == Crashed
  {
    hide Served;
  }

  lemma CutAlways(script: seq<(Request, int)>, i: nat)
    requires i < |script|
    ensures AlwaysCut(script) && script[i].0.Store? ==> script[i].0.cut
  {
  }

  /** The store would go behind the bytes of a failed one. */
  method Blocked(shard: DiskShard, r: Request) returns (blocked: bool)
    requires shard.Valid()
    ensures blocked == (Completes(r) && !shard.Clean())
  {
    hide ShardOk, Storable, Record;
    return r.Store? && Storable(r.e) && r.reach >= |Record(r.e)| &&
      shard.totalBytes != |shard.disk.inodes[shard.ino].data|;
  }

  lemma LiveKeys(cs: seq<bytes>, index: Index)
    ensures Live(cs, index).Keys == CellsOf(cs, index).Keys
  {
    hide RecordOf, ReadIndexed;
  }

  /** What a crash between two requests leaves. */
  lemma GuardsHolds(shard: DiskShard, kept: map<Text, bytes>, loss: Loss)
    requires shard.Valid() && shard.Installed()
    ensures Guarded(shard, kept, loss) ==> Holds(shard.disk, kept, loss) && Firm(shard.disk, Keeps(kept))
    ensures shard.Clean() ==> Holds(shard.disk, Live(shard.chunks, shard.index), NoLoss)
    ensures Backs(Live(shard.chunks, shard.index), shard.View())
  {
    hide ShardOk, Holds, Firm, Live, CellsOf, Backs;
    LiveBacks(shard.chunks, shard.index);
    if shard.Clean() {
      shard.Settled(NoLoss);
    }
  }

  /** An undisturbed record is spared by every request. */
  lemma SparedStill(script: seq<(Request, int)>, maps: seq<map<Text, Cell>>, first: map<Text, bytes>, kept: map<Text, bytes>,
                    i: nat, after: map<Text, Cell>)
    requires i < |script| && |maps| == i + 1 && Saved(script, maps, first, kept)
    ensures Saved(script, maps + [after], first, kept) && Saved(script, maps + [after], first, Spared(kept, script[i].0, after))
  {
    hide Storable, Record;
    var more := maps + [after];
    forall key | key in first && Undisturbed(script, more, key)
      ensures Undisturbed(script, maps, key) && key in after && !(Completes(script[i].0) && script[i].0.e.key == key)
    {
      assert more[i + 1] in more && forall m <- maps :: m in more;
    }
  }

  method Perform(shard: DiskShard, r: Request, now: int, ghost kept: map<Text, bytes>, ghost loss: Loss) returns (o: Outcome)
    requires shard.Valid() && shard.Installed() && (Completes(r) ==> shard.Clean())
    modifies shard
    ensures o != Crashed ==> shard.Valid() && shard.Installed() && Served(old(shard.View()), r, now, o, shard.View())
    ensures o == Crashed ==> Served(old(shard.View()), r, now, o, old(shard.View()))
    ensures o != Crashed && old(shard.Clean()) && (r.Store? ==> r.cut) ==> shard.Clean()
    ensures loss == NoLoss && o == Crashed && old(shard.Clean()) ==>
              Holds(shard.disk, old(Live(shard.chunks, shard.index)), NoLoss)
    ensures loss != NoLoss && old(Guarded(shard, kept, loss)) && (r.Store? ==> r.cut) ==>
              if o == Crashed then Holds(shard.disk, kept, loss) && Firm(shard.disk, Keeps(kept))
              else Guarded(shard, Spared(kept, r, shard.View()), loss)
  {
    hide ShardOk, CellsOf, Disk.Valid, IsTemp, Storable, Find, Touched, Fresh, Live, Holds, IndexesAll, Record;
    hide InBounds, Sum, Guards, Among;
    hide Kept, Firm, Looked, LiveBytes, Spared;
    ghost var guarded, index := Guarded(shard, kept, loss), shard.index;
    match r {
      case Store(e, reach, cut) => o := PerformStore(shard, r, now, kept, loss);
      case Fetch(key) =>
        var a := shard.Get(key, now);
        o := Answered(a);
        if guarded {
          SparedGuards(shard, index, kept, r, loss);
        }
      case Drop(key) =>
        shard.Remove(key);
        o := DropDone;
        if guarded {
          SparedGuards(shard, index, kept, r, loss);
        }
      case Rewrite(next, tmp, faults) => o := PerformRewrite(shard, r, kept, loss);
    }
  }

  /** What a lookup or a removal leaves in the index is still guarded. */
  lemma SparedGuards(shard: DiskShard, before: Index, kept: map<Text, bytes>, r: Request, loss: Loss)
    requires Guards(shard.disk, shard.ino, shard.totalBytes, shard.chunks, before, kept, loss)
    ensures Guarded(shard, Spared(kept, r, shard.View()), loss)
  {
    hide Holds, Firm, RecordOf, ReadIndexed, Completes, Guards;
    LiveKeys(shard.chunks, shard.index);
    GuardsLess(shard.disk, shard.ino, shard.totalBytes, shard.chunks, before, shard.index, kept,
               Spared(kept, r, shard.View()), loss);
  }

  method PerformStore(shard: DiskShard, r: Request, now: int, ghost kept: map<Text, bytes>, ghost loss: Loss) returns (o: Outcome)
    requires shard.Valid() && shard.Installed() && r.Store? && (Completes(r) ==> shard.Clean())
    modifies shard
    ensures shard.Valid() && shard.Installed() && Served(old(shard.View()), r, now, o, shard.View()) && o != Crashed
    ensures old(shard.Clean()) && r.cut ==> shard.Clean()
    ensures old(Guarded(shard, kept, loss)) && r.cut ==> Guarded(shard, Spared(kept, r, shard.View()), loss)
  {
    hide ShardOk, CellsOf, Disk.Valid, Storable, Fresh, Live, Holds, Record, InBounds, Sum, Guards, Among;
    hide Kept, Firm, LiveBytes, Spared;
    ghost var guarded, index := Guarded(shard, kept, loss), shard.index;
    if guarded {
      GuardsClean(shard, kept, loss);
    }
    if !Storable(r.e) {
      o := StoreDone(false);
      if guarded {
        SparedGuards(shard, index, kept, r, loss);
      }
      return;
    }
    if guarded && Completes(r) {
      assert shard.disk.inodes[shard.ino].data[..shard.totalBytes] == shard.disk.inodes[shard.ino].data;
      GuardsStored(shard.disk, shard.ino, shard.totalBytes, shard.chunks, shard.index, shard.deadBytes, kept, r.e,
                   DiskEntry(shard.totalBytes, |Record(r.e)|, if r.e.ttl > 0 then r.e.ttl else -1, now), loss);
    }
    var ok := shard.Put(r.e, now, r.reach, r.cut);
    o := StoreDone(ok);
    if guarded && r.cut {
      SparedGuards(shard, shard.index, if ok then kept - {r.e.key} else kept, r, loss);
      SparedAgain(kept, r, shard.View());
    }
  }

  lemma SparedAgain(kept: map<Text, bytes>, r: Request, after: map<Text, Cell>)
    ensures Completes(r) ==> Spared(kept - {r.e.key}, r, after) == Spared(kept, r, after)
  {
    hide Storable, Record;
  }

  lemma GuardsClean(shard: DiskShard, kept: map<Text, bytes>, loss: Loss)
    requires Guarded(shard, kept, loss)
    ensures shard.Clean() && Holds(shard.disk, kept, loss) && Firm(shard.disk, Keeps(kept))
    ensures Among(kept, Live(shard.chunks, shard.index))
  {
  }

  method PerformRewrite(shard: DiskShard, r: Request, ghost kept: map<Text, bytes>, ghost loss: Loss) returns (o: Outcome)
    requires shard.Valid() && shard.Installed() && r.Rewrite?
    modifies shard
    ensures o == RewriteDone || (o == Crashed && r.faults)
    ensures o == RewriteDone ==> shard.Valid() && shard.Installed() && shard.View() == old(shard.View())
    ensures o == RewriteDone && old(shard.Clean()) ==> shard.Clean()
    ensures loss == NoLoss && o == Crashed && old(shard.Clean()) ==>
              Holds(shard.disk, old(Live(shard.chunks, shard.index)), NoLoss)
    ensures loss != NoLoss && old(Guarded(shard, kept, loss)) ==>
              if o == Crashed then Holds(shard.disk, kept, loss) && Firm(shard.disk, Keeps(kept))
              else Guarded(shard, Spared(kept, r, shard.View()), loss)
  {
    hide ShardOk, CellsOf, Disk.Valid, IsTemp, Live, Holds, IndexesAll, InBounds, Sum, AllReadable, Firm, Among, Guards, Spared;
    ghost var guarded, index := Guarded(shard, kept, loss), shard.index;
    if guarded {
      GuardsClean(shard, kept, loss);
    }
    if r.next in shard.disk.inodes || !IsTemp(r.tmp) {
      if guarded {
        SparedGuards(shard, index, kept, r, loss);
      }
      return RewriteDone;
    }
    ghost var live, level := Live(shard.chunks, shard.index), if loss == NoLoss && shard.Clean() then NoLoss else Unknown;
    if guarded && loss != NoLoss {
      live, level := kept, loss;
    } else {
      shard.Settled(level);
      AmongItself(live);
    }
    var status := shard.Compact(r.next, r.tmp, r.faults, live, level);
    if guarded && loss != NoLoss && status != Died {
      KeptOn(shard, kept, loss);
      SparedGuards(shard, shard.index, kept, r, loss);
    }
    return if status == Died then Crashed else RewriteDone;
  }

  lemma AmongItself(live: map<Text, bytes>)
    ensures Among(live, live)
  {
  }

  lemma KeptOn(shard: DiskShard, kept: map<Text, bytes>, loss: Loss)
    requires shard.Clean() && Among(kept, Live(shard.chunks, shard.index)) && Holds(shard.disk, kept, loss)
    requires Firm(shard.disk, Keeps(kept))
    ensures Guarded(shard, kept, loss)
  {
  }

  // ---- Crashes and startup -----------------------------------------------

  /** Startup after any crash the shard was safe against, with or without power
      loss. It finds every record again if the process just ended or the
      generations were on stable storage. Otherwise it finds the records of a
      generation up to some point, at least every synced one, or refuses with
      both generations untouched. */
  method Restart(shard: DiskShard, after: Disk, next: nat, now: int, faults: bool, ghost live: map<Text, bytes>, ghost loss: Loss)
    returns (status: Status, ghost i: nat, ghost n: nat)
    requires Holds(shard.disk, live, loss) && loss != Unknown && next !in after.inodes
    requires after == shard.disk || (Loses(shard.disk, after, loss) && Firm(shard.disk, Header))
    modifies shard
    ensures status != Legacy && (!faults ==> status == Ok || status == Refused)
    ensures after == old(shard.disk) || Firm(old(shard.disk), Full) ==>
              status != Refused && (status == Ok ==> Recovers(shard.chunks, shard.index, live))
    ensures Firm(old(shard.disk), Keeps(live)) && status == Ok ==> Recovers(shard.chunks, shard.index, live)
    ensures status == Ok ==>
              && shard.Valid() && shard.Clean() && shard.Installed() && IndexesAll(shard.chunks, shard.index)
              && i in old(shard.disk).inodes && Good(old(shard.disk).inodes[i].data, live)
              && Trimmed(shard.chunks, old(shard.disk).inodes[i], n)
    ensures status == Ok && after != old(shard.disk) ==> shard.Alone() && Firm(shard.disk, Full)
    ensures status == Refused ==>
              && |after.dirs| > 0 && PREV in after.Visible() && shard.disk.inodes == after.inodes
              && |shard.disk.dirs| > 0 && shard.disk.Visible().Values == after.Visible().Values
  {
    hide Holds, PowerLoss, PowerLossWhole, ShardOk, Recovers, Disk.Valid, Firm, Trimmed, Whole, Good, Survives;
    hide InBounds, Sum, IndexesAll;
    hide Records, IsLegacy, Leads;
    ghost var level := Unknown;
    i, n := Remaining(shard.disk, after, live, loss);
    if after == shard.disk {
      level := loss;
    } else {
      PowerHolds(shard.disk, after, live, loss);
      UnknownHolds(after, live);
      level := if Firm(shard.disk, Full) then Names else Unknown;
    }
    ghost var kept := after != shard.disk && Firm(shard.disk, Keeps(live));
    shard.disk := after;
    status := shard.Open(next, now, faults, live, level);
    if kept && status == Ok {
      FoundRecovers(after, shard.chunks, shard.index, live);
    }
    if status == Ok && |after.dirs| == 1 {
      OneDir(shard.disk, shard.ino);
    }
  }

  lemma FoundRecovers(after: Disk, cs: seq<bytes>, index: Index, live: map<Text, bytes>)
    requires after.Valid() && StartFinds(after, live) && cs == FirstRecords(after) && IndexesAll(cs, index)
    ensures Recovers(cs, index, live)
  {
    hide Split, LastOf, RecordOf;
  }

  /** The records startup finds after a crash. */
  lemma Remaining(disk: Disk, after: Disk, live: map<Text, bytes>, loss: Loss) returns (i: nat, n: nat)
    requires Holds(disk, live, loss) && loss != Unknown
    requires after == disk || (Loses(disk, after, loss) && Firm(disk, Header))
    ensures after.Valid() && Start(after.Visible()) == Some(i) && i in disk.inodes && i in after.inodes
    ensures Good(disk.inodes[i].data, live)
    ensures Trimmed(FirstRecords(after), disk.inodes[i], n) && !IsLegacy(after.inodes[i].data) && Begun(after)
    ensures after != disk ==> |after.dirs| == 1 && Firm(after, Full)
  {
    hide Good, Survives, PowerLoss, PowerLossWhole, Firm, Split;
    HoldsWeaker(disk, live, loss);
    if after == disk {
      i := Start(disk.Visible()).value;
      GoodWhole(disk.inodes[i].data, live);
      n := |Split(disk.inodes[i].data[4..])|;
    } else {
      LosesValid(disk, after, loss);
      i := LostStart(disk, after, live, loss);
      assert Solid(disk.inodes[i], Header);
      n := TrimmedRecords(disk.inodes[i], after.inodes[i], live);
      LostFirm(disk, after);
    }
  }

  // ---- Power losses that end in a refusal --------------------------------

  /** A file that lost its last byte is torn. */
  lemma LastByteLost(data: bytes, live: map<Text, bytes>)
    requires Good(data, live) && |data| > 4
    ensures Torn(data[..|data| - 1])
  {
    hide Split, Joined, LastOf, RecordOf, ReadRecord;
    var cs, cut := Split(data[4..]), data[..|data| - 1];
    var n := TornFile(cs, |data| - 1);
    assert cut[..4] == DATA_MAGIC;
    ShorterByRecords(cs, n);
  }

  /** Whole records differ in length by more than a byte. */
  lemma ShorterByRecords(cs: seq<bytes>, n: nat)
    requires AllComplete(cs) && n <= |cs|
    ensures |Joined(cs[..n])| != |Joined(cs)| - 1
  {
    hide Joined;
    JoinedConcat(cs[..n], cs[n..]);
    assert cs == cs[..n] + cs[n..];
    if n < |cs| {
      JoinedCons(cs[n], cs[n + 1..]);
      assert cs[n..] == [cs[n]] + cs[n + 1..];
    } else {
      assert cs[n..] == [];
      EmptyJoined();
    }
  }

  lemma EmptyJoined()
    ensures Joined([]) == []
  {
  }

  /** A generation that startup may choose beside a backup and that is not
      entirely on stable storage. */
  predicate Exposed(disk: Disk, i: int, j: int, loss: Loss) {
    && 0 <= i < |disk.dirs| && 0 <= j < |disk.dirs| && (loss == States ==> i == j) && PREV in disk.dirs[j]
    && var start := Start(Blend(disk.dirs[i], disk.dirs[j]));
       start.Some? && start.value in disk.inodes && disk.inodes[start.value].synced < |disk.inodes[start.value].data|
  }

  /** Exactly when some power loss ends in a refusal: when a backup may be found
      beside a generation of which some bytes were not synced. */
  lemma RefusedExactly(disk: Disk, live: map<Text, bytes>, loss: Loss)
    requires Holds(disk, live, loss) && Firm(disk, Header) && (loss == States || loss == Names)
    ensures (exists after :: Loses(disk, after, loss) && after.Valid() && Refuses(after)) <==>
            exists i, j :: Exposed(disk, i, j, loss)
  {
    hide Good, Holds, Firm, Torn, Disk.Valid, PowerLoss, PowerLossWhole;
    forall after | Loses(disk, after, loss) && after.Valid() && Refuses(after)
      ensures exists i, j :: Exposed(disk, i, j, loss)
    {
      RefusedExposed(disk, after, live, loss);
    }
    forall i, j | Exposed(disk, i, j, loss)
      ensures exists after :: Loses(disk, after, loss) && after.Valid() && Refuses(after)
    {
      var after := ExposedRefused(disk, live, loss, i, j);
    }
  }

  lemma RefusedExposed(disk: Disk, after: Disk, live: map<Text, bytes>, loss: Loss)
    requires Holds(disk, live, loss) && (loss == States || loss == Names) && Loses(disk, after, loss)
    requires after.Valid() && Refuses(after)
    ensures exists i, j :: Exposed(disk, i, j, loss)
  {
    hide Good, Holds, Survives, Torn, PowerLoss, PowerLossWhole, Exposed, Disk.Valid, Firm, Solid;
    var s := LostStart(disk, after, live, loss);
    SurvivorTorn(disk.inodes[s], after.inodes[s], live);
    var i, j := BlendedFrom(disk, after, loss);
    assert Exposed(disk, i, j, loss) by {
      ExposedAt(disk, i, j, loss, s);
    }
  }

  lemma ExposedAt(disk: Disk, i: nat, j: nat, loss: Loss, s: nat)
    requires i < |disk.dirs| && j < |disk.dirs| && (loss == States ==> i == j) && PREV in disk.dirs[j]
    requires Start(Blend(disk.dirs[i], disk.dirs[j])) == Some(s) && s in disk.inodes
    requires disk.inodes[s].synced < |disk.inodes[s].data|
    ensures Exposed(disk, i, j, loss)
  {
  }

  lemma SurvivorTorn(node: Inode, after: Inode, live: map<Text, bytes>)
    requires Good(node.data, live) && Survives(node, after) && Torn(after.data)
    ensures node.synced < |node.data|
  {
    hide Split, Joined, LastOf, RecordOf;
    assert node.data[..|node.data|] == node.data;
  }

  lemma ExposedRefused(disk: Disk, live: map<Text, bytes>, loss: Loss, i: int, j: int) returns (after: Disk)
    requires Holds(disk, live, loss) && Firm(disk, Header) && (loss == States || loss == Names) && Exposed(disk, i, j, loss)
    ensures Loses(disk, after, loss) && after.Valid() && Refuses(after)
  {
    hide Good, Firm, Torn, PowerLoss, PowerLossWhole, Holds;
    var dir := Blend(disk.dirs[i], disk.dirs[j]);
    var s := Start(dir).value;
    BlendLost(disk, i, j, loss);
    CutPossible(disk, dir, s, |disk.inodes[s].data| - 1);
    after := CutAt(disk, dir, s, |disk.inodes[s].data| - 1);
    LosesValid(disk, after, loss);
    var start := LostStart(disk, after, live, loss);
    assert start == s && Solid(disk.inodes[s], Header);
    LastByteLost(disk.inodes[s].data, live);
  }

  /** Compaction is crash-safe: stop it anywhere, lose power with any outcome,
      start again. Every live record of a synced shard is found. With unsynced
      puts startup finds a part of a generation that had every live record, with
      all that was synced of it, or refuses. */
  method CompactAndLose(shard: DiskShard, next: nat, tmp: string, now: int, faults: bool, loss: Loss)
    returns (status: Status, ghost node: Inode, ghost n: nat)
    requires shard.Valid() && shard.Clean() && shard.Alone() && Firm(shard.disk, Header) && (loss == States || loss == Names)
    requires next !in shard.disk.inodes && IsTemp(tmp)
    modifies shard
    ensures status == Ok || status == Refused || (faults && (status == Err || status == Died))
    ensures status == Ok ==> shard.Valid() && shard.Installed()
    ensures status == Ok ==> Good(node.data, old(Live(shard.chunks, shard.index))) && Trimmed(shard.chunks, node, n)
    ensures old(Firm(shard.disk, Full)) ==>
              status != Refused &&
              (status == Ok ==> Recovers(shard.chunks, shard.index, old(Live(shard.chunks, shard.index))))
  {
    hide Holds, ShardOk, Recovers, Disk.Valid, Firm, Good, PowerLoss, PowerLossWhole, InBounds, Sum, IsTemp, CellsOf, Live;
    hide AllReadable, Trimmed;
    ghost var live := Live(shard.chunks, shard.index);
    shard.Settled(loss);
    var stopped := shard.Compact(next, tmp, true, live, loss);
    ghost var witness' := PowerLossPossible(shard.disk);
    assert Loses(shard.disk, witness', loss);
    var after: Disk :| Loses(shard.disk, after, loss);
    var other := Unused(after.inodes);
    ghost var stoppedDisk, i := shard.disk, 0;
    status, i, n := Restart(shard, after, other, now, faults, live, loss);
    node := if i in stoppedDisk.inodes then stoppedDisk.inodes[i] else Inode([], 0);
  }

  /** What a successful compaction leaves: one generation, on stable storage. */
  ghost predicate Settled(shard: DiskShard)
    reads shard
  {
    |shard.disk.dirs| == 1 && shard.Alone() && PREV !in shard.disk.dirs[0] && Firm(shard.disk, Full)
  }

  /** Serve any requests, lose power between them or inside a compaction, with
      any outcome, start again: every record that was on stable storage at the
      beginning and was left alone is found, or startup refuses. */
  method ServeAndLose(shard: DiskShard, script: seq<(Request, int)>, now: int, faults: bool, loss: Loss)
    returns (status: Status, outcomes: seq<Outcome>, ghost maps: seq<map<Text, Cell>>, ghost kept: map<Text, bytes>)
    requires shard.Valid() && shard.Clean() && Settled(shard) && (loss == States || loss == Names) && AlwaysCut(script)
    modifies shard
    ensures AllServed(script, outcomes, maps) && maps[0] == old(shard.View())
    ensures status == Ok || status == Refused || (faults && (status == Err || status == Died))
    ensures status == Ok ==> shard.Valid() && shard.Installed() && Recovers(shard.chunks, shard.index, kept)
    ensures Saved(script, maps, old(Live(shard.chunks, shard.index)), kept)
  {
    hide Holds, ShardOk, Recovers, Disk.Valid, Firm, Good, PowerLoss, PowerLossWhole, InBounds, Sum, CellsOf, Live, Saved;
    hide Trimmed, AlwaysCut, AllServed, Served;
    GuardsFirst(shard, loss);
    outcomes, maps, kept := Serve(shard, script, loss);
    FirmHeader(shard.disk, Keeps(kept));
    HoldsValid(shard.disk, kept, loss);
    ghost var witness' := PowerLossPossible(shard.disk);
    assert Loses(shard.disk, witness', loss);
    var after: Disk :| Loses(shard.disk, after, loss);
    var other := Unused(after.inodes);
    ghost var i, n;
    status, i, n := Restart(shard, after, other, now, faults, kept, loss);
  }

  lemma HoldsValid(disk: Disk, live: map<Text, bytes>, loss: Loss)
    requires Holds(disk, live, loss)
    ensures disk.Valid()
  {
  }

  lemma GuardsFirst(shard: DiskShard, loss: Loss)
    requires shard.Valid() && shard.Clean() && Settled(shard) && (loss == States || loss == Names)
    ensures shard.Installed() && Guarded(shard, Live(shard.chunks, shard.index), loss)
  {
    hide ShardOk, Holds, Good, Live;
    shard.Settled(loss);
    shard.GoodFile();
    AmongItself(Live(shard.chunks, shard.index));
    FullKeeps(shard.disk.inodes[shard.ino], Live(shard.chunks, shard.index));
  }

  /** Restoring the backup is one rename and one directory sync, and between
      the two the shard is safe exactly as far as the rename is one change: if
      directory states survive whole, the renamed directory is as safe as the
      one before; if names may fall back separately it never is, since both may
      be found missing. */
  lemma RestoreExactly(disk: Disk, live: map<Text, bytes>) returns (after: Disk)
    requires disk.Valid() && DATA !in disk.Visible() && PREV in disk.Visible()
    ensures var renamed := disk.Enter(Restored(disk.Visible()));
            && renamed.Valid() && (Holds(renamed, live, States) <==> Holds(disk, live, States))
            && !Holds(renamed, live, Names) && PowerLoss(renamed, after)
    ensures |after.dirs| == 1 && Start(after.dirs[0]) == None
  {
    hide Good, PowerLoss, Firmer, AsFirm, Firm;
    var renamed := disk.Enter(Restored(disk.Visible()));
    UnknownHolds(disk, live);
    RestoreHolds(disk, live, Unknown);
    if Holds(disk, live, States) {
      RestoreHolds(disk, live, States);
    }
    if Holds(renamed, live, States) {
      forall i | 0 <= i < |disk.dirs|
        ensures Leads(disk, disk.dirs[i], live)
      {
        assert renamed.dirs[i] == disk.dirs[i] && Leads(renamed, renamed.dirs[i], live);
      }
    }
    var k := |disk.dirs| - 1;
    var dir := Blend(disk.Visible(), Restored(disk.Visible()));
    assert renamed.dirs[k] == disk.Visible() && renamed.dirs[k + 1] == Restored(disk.Visible());
    assert !NamesGood(renamed, renamed.dirs[k], DATA, live) && !NamesGood(renamed, renamed.dirs[k + 1], PREV, live);
    BlendPossible(renamed, k, k + 1);
    after := Worst(renamed, dir);
  }

  /** A stored entry replaces whatever its key held. */
  lemma StoredEntry(data: bytes, cs: seq<bytes>, index: Index, dead: nat, total: nat, e: Entry, now: int, c: bytes, d: DiskEntry)
    requires Storable(e) && c == Record(e) && d == DiskEntry(total, |c|, if e.ttl > 0 then e.ttl else -1, now)
    requires ShardOk(data, cs, index, dead, total)
    ensures ShardOk(data + c, cs + [c], index[e.key := d], dead + Freed(index, e.key), total + |c|)
    ensures CellsOf(cs + [c], index[e.key := d]) == CellsOf(cs, index)[e.key := Fresh(e, now)]
  {
    hide ShardOk, CellsOf, KeyOf, TtlOf, ReadIndexed, Record, Storable, Complete, NormalEntry, ReadRecord;
    FoundRecord(e);
    Stored(data, cs, index, dead, total, Record(e), e.key, now);
    CellsAdded(cs, index, Record(e), e.key, total, now);
  }

  lemma FoundRecord(e: Entry)
    requires Storable(e)
    ensures KeyOf(Record(e)) == Some(e.key) && TtlOf(Record(e)) == NormalEntry(e).ttl == if e.ttl > 0 then e.ttl else -1
    ensures Complete(Record(e)) && ReadIndexed(Record(e), e.key) == Some(NormalEntry(e).value)
  {
    hide ReadRecord, Record, Storable, ReadIndexed, Complete, WriteEntry;
    RecordRoundTrip(e);
  }
}
