/** One shard of cold storage: an append-only file of records under an
    in-memory index, compacted into a new generation beside the old one. */
module ColdStore {
  import opened Bytes
  import opened EntryCodec
  import opened ColdFormat
  import opened FileSystem
  import opened Sets
  import Crc

  const DATA := "data.lux"
  const PREV := "data.prev"

  // ---- The specification: a map whose entries expire ---------------------

  /** A stored value (None if its record cannot be read) and its lifetime. */
  datatype Cell = Cell(value: Option<Value>, ttl: int, createdAt: int)

  function Elapsed(createdAt: int, now: int): nat {
    if now > createdAt then now - createdAt else 0
  }

  predicate Expired(ttl: int, createdAt: int, now: int) {
    ttl > 0 && Elapsed(createdAt, now) >= ttl
  }

  datatype Answer = Missing | Failed | Hit(value: Value, ttl: Option<nat>)

  /** What a lookup reports. */
  function Find(m: map<Text, Cell>, key: Text, now: int): Answer {
    if key !in m || Expired(m[key].ttl, m[key].createdAt, now) then Missing
    else match m[key].value
      case None => Failed
      case Some(v) =>
        Hit(v, if m[key].ttl > 0 then Some(m[key].ttl - Elapsed(m[key].createdAt, now)) else None)
  }

  /** What a lookup leaves: an expired entry is dropped when it is touched. */
  function Touched(m: map<Text, Cell>, key: Text, now: int): map<Text, Cell> {
    if key in m && Expired(m[key].ttl, m[key].createdAt, now) then m - {key} else m
  }

  function Fresh(e: Entry, now: int): Cell {
    Cell(Some(NormalEntry(e).value), NormalEntry(e).ttl, now)
  }

  // ---- The shard's file and index ----------------------------------------

  /** File, index and counters agree: the file is a sequence of complete
      records, the index names the last record of each of its keys, and every
      byte is header, live or dead. */
  ghost predicate ShardOk(data: bytes, cs: seq<bytes>, index: Index, dead: nat, total: nat) {
    && AllComplete(cs) && data == DATA_MAGIC + Joined(cs)
    && IndexOk(cs, index)
    && total == |data| && 4 + LiveBytes(index) + dead == total
  }

  /** The record a live key stands for. */
  function RecordOf(cs: seq<bytes>, key: Text): bytes {
    var i := LastOf(cs, key);
    if i.Some? then cs[i.value] else []
  }

  ghost function Live(cs: seq<bytes>, index: Index): map<Text, bytes> {
    map key | key in index :: RecordOf(cs, key)
  }

  ghost function CellsOf(cs: seq<bytes>, index: Index): map<Text, Cell> {
    map key | key in index :: Cell(ReadIndexed(RecordOf(cs, key), key), index[key].ttl, index[key].createdAt)
  }

  /** The bytes an index entry addresses are its key's record. */
  lemma IndexedBytes(data: bytes, cs: seq<bytes>, index: Index, dead: nat, total: nat, key: Text)
    requires ShardOk(data, cs, index, dead, total) && key in index
    ensures var d := index[key];
            d.offset + d.length <= |data| && LastOf(cs, key).Some? &&
            data[d.offset..d.offset + d.length] == RecordOf(cs, key) &&
            d.ttl == TtlOf(RecordOf(cs, key)) && KeyOf(RecordOf(cs, key)) == Some(key) &&
            Complete(RecordOf(cs, key))
  {
    hide Joined, Sum, KeyOf, TtlOf, LastOf, Complete, Offset;
    var i := LastOf(cs, key).value;
    assert Points(cs, key, index[key]);
    LastOfIsLast(cs, key);
    ChunkAt(cs, i, []);
    assert DATA_MAGIC + Joined(cs) + [] == data;
  }

  /** Dropping a key turns its bytes dead. */
  lemma Dropped(data: bytes, cs: seq<bytes>, index: Index, dead: nat, total: nat, key: Text)
    requires ShardOk(data, cs, index, dead, total) && key in index
    ensures ShardOk(data, cs, index - {key}, dead + index[key].length, total)
    ensures CellsOf(cs, index - {key}) == CellsOf(cs, index) - {key}
  {
    hide Joined, Sum, KeyOf, TtlOf, LastOf, Complete, Offset, Points, ReadIndexed, RecordOf;
    SumWithout(index, LengthOf, key);
  }

  function Added(index: Index, key: Text, total: nat, c: bytes, createdAt: int): Index {
    index[key := DiskEntry(total, |c|, TtlOf(c), createdAt)]
  }

  function Freed(index: Index, key: Text): nat {
    if key in index then index[key].length else 0
  }

  lemma RecordAdded(cs: seq<bytes>, c: bytes, key: Text, other: Text)
    requires KeyOf(c) == Some(key)
    ensures RecordOf(cs + [c], other) == if other == key then c else RecordOf(cs, other)
  {
    hide KeyOf, LastOf;
    LastOfAppended(cs, c, other);
  }

  lemma CellsAdded(cs: seq<bytes>, index: Index, c: bytes, key: Text, total: nat, now: int)
    requires KeyOf(c) == Some(key)
    ensures CellsOf(cs + [c], Added(index, key, total, c, now)) ==
            CellsOf(cs, index)[key := Cell(ReadIndexed(c, key), TtlOf(c), now)]
  {
    hide KeyOf, TtlOf, LastOf, ReadIndexed, RecordOf;
    forall other: Text
      ensures RecordOf(cs + [c], other) == if other == key then c else RecordOf(cs, other)
    {
      RecordAdded(cs, c, key, other);
    }
  }

  /** Appending a record of a key replaces whatever the key held. */
  lemma Stored(data: bytes, cs: seq<bytes>, index: Index, dead: nat, total: nat, c: bytes, key: Text, now: int)
    requires ShardOk(data, cs, index, dead, total) && Complete(c) && KeyOf(c) == Some(key)
    ensures ShardOk(data + c, cs + [c], Added(index, key, total, c, now), dead + Freed(index, key), total + |c|)
  {
    hide Joined, Sum, KeyOf, TtlOf, Complete, IndexOk;
    AppendChunk(cs, c);
    AppendIndexOk(cs, c, index, key, now);
    SumInsert(index, LengthOf, key, DiskEntry(total, |c|, TtlOf(c), now));
  }

  // ---- Generations under crashes -----------------------------------------

  /** A data file without a torn tail. */
  ghost predicate Whole(data: bytes) {
    |data| >= 4 && data == DATA_MAGIC + Joined(Split(data[4..]))
  }

  /** A generation from which every one of the given records is recovered. */
  ghost predicate Good(data: bytes, live: map<Text, bytes>) {
    Whole(data) && forall key <- live ::
        LastOf(Split(data[4..]), key).Some? && RecordOf(Split(data[4..]), key) == live[key]
  }

  ghost predicate NamesGood(disk: Disk, dir: Dir, name: string, live: map<Text, bytes>) {
    name in dir && dir[name] in disk.inodes && Good(disk.inodes[dir[name]].data, live)
  }

  /** Startup on this directory finds a good generation: under the canonical
      name, or under the backup's if the canonical one is gone. */
  ghost predicate Leads(disk: Disk, dir: Dir, live: map<Text, bytes>) {
    if DATA in dir then NamesGood(disk, dir, DATA, live) else NamesGood(disk, dir, PREV, live)
  }

  /** The name leads to a good generation in every directory state. */
  ghost predicate Always(disk: Disk, name: string, live: map<Text, bytes>) {
    forall i | 0 <= i < |disk.dirs| :: NamesGood(disk, disk.dirs[i], name, live)
  }

  /** The canonical name never leads to anything else. */
  ghost predicate NeverBad(disk: Disk, live: map<Text, bytes>) {
    forall i | 0 <= i < |disk.dirs| :: DATA in disk.dirs[i] ==> NamesGood(disk, disk.dirs[i], DATA, live)
  }

  /** What a crash may do to the directory: nothing, if only the process ends;
      bring back any one of its states since the last sync; or let every name
      fall back to any of its values separately. Of an `Unknown` directory
      nothing is said. */
  datatype Loss = Unknown | NoLoss | States | Names

  /** Whatever a crash of this kind leaves, startup finds a good generation. */
  ghost predicate Holds(disk: Disk, live: map<Text, bytes>, loss: Loss)
    ensures Holds(disk, live, loss) ==> disk.Valid()
  {
    disk.Valid() && match loss
      case Unknown => true
      case NoLoss => Leads(disk, disk.Visible(), live)
      case States => forall i | 0 <= i < |disk.dirs| :: Leads(disk, disk.dirs[i], live)
      case Names => NeverBad(disk, live) && (Always(disk, DATA, live) || Always(disk, PREV, live))
  }

  /** The weaker crashes are covered by the stronger. */
  lemma HoldsWeaker(disk: Disk, live: map<Text, bytes>, loss: Loss)
    requires Holds(disk, live, loss)
    ensures loss == Names ==> Holds(disk, live, States)
    ensures loss != Unknown ==> Holds(disk, live, NoLoss) && Leads(disk, disk.Visible(), live)
  {
    hide Good;
  }

  lemma GoodGeneration(data: bytes, cs: seq<bytes>, index: Index, dead: nat, total: nat)
    requires ShardOk(data, cs, index, dead, total)
    ensures Split(data[4..]) == cs && Good(data, Live(cs, index))
  {
    hide Joined, Sum, KeyOf, TtlOf, LastOf, Complete, ReadRecord, Split, RecordOf, Offset;
    NothingIncomplete();
    SplitJoined(cs, []);
    assert data[4..] == Joined(cs) + [];
    forall key | key in index
      ensures LastOf(cs, key).Some?
    {
      assert Points(cs, key, index[key]);
    }
  }

  lemma EnterAlways(disk: Disk, name: string, live: map<Text, bytes>, dir: Dir)
    requires Always(disk, name, live) && NamesGood(disk, dir, name, live)
    ensures Always(disk.Enter(dir), name, live)
  {
    hide Good;
  }

  /** A directory change is safe if the new state leads to a good generation
      and, where names may fall back separately, one of the two names stays
      good throughout. */
  lemma EnterHolds(disk: Disk, live: map<Text, bytes>, loss: Loss, dir: Dir)
    requires Holds(disk, live, loss) && dir.Values <= disk.inodes.Keys
    requires loss != Unknown ==> Leads(disk, dir, live)
    requires loss == Names ==> (Always(disk, DATA, live) && DATA in dir) || (Always(disk, PREV, live) && NamesGood(disk, dir, PREV, live))
    ensures Holds(disk.Enter(dir), live, loss)
  {
    hide Good, NamesGood, Always;
    EnterValid(disk, dir);
    if loss == Names {
      EnterNeverBad(disk, live, dir);
      if Always(disk, DATA, live) && DATA in dir {
        EnterAlways(disk, DATA, live, dir);
      } else {
        EnterAlways(disk, PREV, live, dir);
      }
    } else if loss == States {
      EnterLeads(disk, live, dir);
    } else if loss == NoLoss {
      EnteredLeads(disk, live, dir);
    }
  }

  lemma EnterLeads(disk: Disk, live: map<Text, bytes>, dir: Dir)
    requires forall i | 0 <= i < |disk.dirs| :: Leads(disk, disk.dirs[i], live)
    requires Leads(disk, dir, live)
    ensures var after := disk.Enter(dir); forall i | 0 <= i < |after.dirs| :: Leads(after, after.dirs[i], live)
  {
    hide Good;
    var after := disk.Enter(dir);
    forall i | 0 <= i < |after.dirs|
      ensures Leads(after, after.dirs[i], live)
    {
      assert i < |disk.dirs| ==> Leads(disk, disk.dirs[i], live);
    }
  }

  lemma EnteredLeads(disk: Disk, live: map<Text, bytes>, dir: Dir)
    requires Leads(disk, dir, live)
    ensures Leads(disk.Enter(dir), disk.Enter(dir).Visible(), live)
  {
    hide Good;
  }

  lemma EnterNeverBad(disk: Disk, live: map<Text, bytes>, dir: Dir)
    requires NeverBad(disk, live) && Leads(disk, dir, live)
    ensures NeverBad(disk.Enter(dir), live)
  {
    hide Good;
  }

  lemma EnterValid(disk: Disk, dir: Dir)
    requires disk.Valid() && dir.Values <= disk.inodes.Keys
    ensures disk.Enter(dir).Valid()
  {
    forall name | name in dir
      ensures dir[name] in disk.inodes
    {
      assert dir[name] in dir.Values;
    }
  }

  /** A synced directory is proof against every kind of crash. */
  lemma SyncHolds(disk: Disk, live: map<Text, bytes>)
    requires disk.Valid() && Leads(disk, disk.Visible(), live)
    ensures Holds(disk.SyncDir(), live, Names)
    ensures DATA in disk.Visible() ==> Always(disk.SyncDir(), DATA, live)
    ensures NamesGood(disk, disk.Visible(), PREV, live) ==> Always(disk.SyncDir(), PREV, live)
  {
    hide Good;
  }

  /** A file that is neither the data file nor its backup. */
  ghost predicate Aside(disk: Disk, i: nat) {
    forall k | 0 <= k < |disk.dirs| ::
      (DATA in disk.dirs[k] ==> disk.dirs[k][DATA] != i) && (PREV in disk.dirs[k] ==> disk.dirs[k][PREV] != i)
  }

  lemma WriteAside(disk: Disk, live: map<Text, bytes>, loss: Loss, i: nat, node: Inode)
    requires Holds(disk, live, loss) && Aside(disk, i) && node.synced <= |node.data|
    ensures Holds(disk.Write(i, node), live, loss) && Aside(disk.Write(i, node), i)
    ensures Always(disk, DATA, live) ==> Always(disk.Write(i, node), DATA, live)
    ensures Firmer(disk, disk.Write(i, node)) && AsFirm(disk, disk.Write(i, node), Keeps(live))
  {
    hide Good, AsFirm, Firmer, NamesGood, Disk.Valid, Disk.Write;
    WrittenValid(disk, i, node);
    NamedAside(disk, live, i, node);
    FirmAside(disk, i, node);
    assert disk.Write(i, node).dirs == disk.dirs;
  }

  lemma WrittenValid(disk: Disk, i: nat, node: Inode)
    requires disk.Valid() && node.synced <= |node.data|
    ensures disk.Write(i, node).Valid() && disk.Write(i, node).dirs == disk.dirs
  {
  }

  lemma NamedAside(disk: Disk, live: map<Text, bytes>, i: nat, node: Inode)
    requires Aside(disk, i)
    ensures var after := disk.Write(i, node);
            forall k | 0 <= k < |disk.dirs| ::
              && (NamesGood(disk, disk.dirs[k], DATA, live) ==> NamesGood(after, disk.dirs[k], DATA, live))
              && (NamesGood(disk, disk.dirs[k], PREV, live) ==> NamesGood(after, disk.dirs[k], PREV, live))
  {
    hide Good;
  }

  lemma FirmAside(disk: Disk, i: nat, node: Inode)
    requires Aside(disk, i)
    ensures Firmer(disk, disk.Write(i, node)) && forall f: Firmness :: AsFirm(disk, disk.Write(i, node), f)
  {
    hide Solid;
  }

  lemma UnusedAside(disk: Disk, i: nat)
    requires disk.Valid() && i !in disk.inodes
    ensures Aside(disk, i)
  {
  }

  // ---- What is on stable storage -----------------------------------------

  /** The records are found in what is there. */
  ghost predicate Finds(data: bytes, kept: map<Text, bytes>) {
    && |data| >= 4 && data[..4] == DATA_MAGIC
    && forall key <- kept :: LastOf(Split(data[4..]), key).Some? && RecordOf(Split(data[4..]), key) == kept[key]
  }

  /** They are found however much of the file survives. */
  ghost predicate Sure(node: Inode, kept: map<Text, bytes>) {
    node.synced <= |node.data| && forall k | node.synced <= k <= |node.data| :: Finds(node.data[..k], kept)
  }

  /** How much of a generation is on stable storage: the header, enough for some
      records, or all of it. */
  datatype Firmness = Header | Keeps(kept: map<Text, bytes>) | Full

  ghost predicate Solid(node: Inode, f: Firmness) {
    4 <= node.synced <= |node.data| && match f
    case Header => true
    case Keeps(kept) => Sure(node, kept)
    case Full => node.synced == |node.data|
  }

  lemma FullKeeps(node: Inode, live: map<Text, bytes>)
    requires Solid(node, Full) && Good(node.data, live)
    ensures Solid(node, Keeps(live))
  {
    hide Joined, Split, LastOf, RecordOf;
    assert node.data[..|node.data|] == node.data;
  }

  lemma GoodLess(data: bytes, live: map<Text, bytes>, kept: map<Text, bytes>)
    requires Good(data, live) && forall key <- kept :: key in live && live[key] == kept[key]
    ensures Good(data, kept)
  {
    hide Joined, Split, LastOf, RecordOf;
  }

  ghost predicate FirmDir(disk: Disk, dir: Dir, f: Firmness) {
    && (DATA in dir ==> dir[DATA] in disk.inodes && Solid(disk.inodes[dir[DATA]], f))
    && (PREV in dir ==> dir[PREV] in disk.inodes && Solid(disk.inodes[dir[PREV]], f))
  }

  /** Every generation a crash may bring back is on stable storage that far. */
  ghost predicate Firm(disk: Disk, f: Firmness) {
    forall i | 0 <= i < |disk.dirs| :: FirmDir(disk, disk.dirs[i], f)
  }

  ghost predicate AsFirm(before: Disk, after: Disk, f: Firmness) {
    Firm(before, f) ==> Firm(after, f)
  }

  /** Nothing is less durable than before. */
  ghost predicate Firmer(before: Disk, after: Disk) {
    AsFirm(before, after, Full) && AsFirm(before, after, Header)
  }

  lemma FirmHeader(disk: Disk, f: Firmness)
    requires Firm(disk, f)
    ensures Firm(disk, Header)
  {
    hide Sure;
    forall i | 0 <= i < |disk.dirs|
      ensures FirmDir(disk, disk.dirs[i], Header)
    {
      assert FirmDir(disk, disk.dirs[i], f);
    }
  }

  lemma EnterFirm(disk: Disk, dir: Dir)
    requires |disk.dirs| > 0
    requires forall f: Firmness :: FirmDir(disk, disk.Visible(), f) ==> FirmDir(disk, dir, f)
    ensures Firmer(disk, disk.Enter(dir)) && forall f: Firmness :: AsFirm(disk, disk.Enter(dir), f)
  {
    hide Solid;
    forall f: Firmness
      ensures AsFirm(disk, disk.Enter(dir), f)
    {
      EnterAsFirm(disk, dir, f);
    }
  }

  lemma EnterAsFirm(disk: Disk, dir: Dir, f: Firmness)
    requires |disk.dirs| > 0 && (FirmDir(disk, disk.Visible(), f) ==> FirmDir(disk, dir, f))
    ensures AsFirm(disk, disk.Enter(dir), f)
  {
    hide Solid;
    if Firm(disk, f) {
      assert FirmDir(disk, disk.Visible(), f);
      forall i | 0 <= i <= |disk.dirs|
        ensures FirmDir(disk.Enter(dir), disk.Enter(dir).dirs[i], f)
      {
        assert i < |disk.dirs| ==> FirmDir(disk, disk.dirs[i], f);
      }
    }
  }

  lemma SyncFirm(disk: Disk)
    requires |disk.dirs| > 0
    ensures Firmer(disk, disk.SyncDir()) && forall f: Firmness :: AsFirm(disk, disk.SyncDir(), f)
    ensures forall f: Firmness :: FirmDir(disk, disk.Visible(), f) ==> Firm(disk.SyncDir(), f)
  {
    hide Solid;
    forall f: Firmness
      ensures FirmDir(disk, disk.Visible(), f) ==> Firm(disk.SyncDir(), f)
      ensures Firm(disk, f) ==> FirmDir(disk, disk.Visible(), f)
    {
    }
  }

  // ---- Power loss --------------------------------------------------------

  /** A power loss after which names are found separately or as one state. */
  predicate Loses(disk: Disk, after: Disk, loss: Loss) {
    (loss == Names && PowerLoss(disk, after)) || (loss == States && PowerLossWhole(disk, after))
  }

  lemma LosesValid(disk: Disk, after: Disk, loss: Loss)
    requires disk.Valid() && Loses(disk, after, loss)
    ensures after.Valid() && PowerLoss(disk, after) && |after.dirs| == 1
  {
    if loss == States {
      WholeIsPowerLoss(disk, after);
    }
    PowerLossValid(disk, after);
  }

  /** The file startup uses, where there is one. */
  function Start(dir: Dir): Option<nat> {
    if DATA in dir then Some(dir[DATA]) else if PREV in dir then Some(dir[PREV]) else None
  }

  /** Startup after a power loss still finds a file of a good generation. */
  lemma LostStart(disk: Disk, after: Disk, live: map<Text, bytes>, loss: Loss) returns (i: nat)
    requires Holds(disk, live, loss) && Loses(disk, after, loss)
    ensures |after.dirs| == 1 && Start(after.dirs[0]) == Some(i)
    ensures i in disk.inodes && i in after.inodes && Good(disk.inodes[i].data, live) && Survives(disk.inodes[i], after.inodes[i])
    ensures forall f: Firmness :: Firm(disk, f) ==> Solid(disk.inodes[i], f)
  {
    hide Good, Survives, Solid, NameSurvives;
    LosesValid(disk, after, loss);
    var dir := after.dirs[0];
    var name := if DATA in dir then DATA else PREV;
    var k := LostName(disk, after, live, loss);
    i := dir[name];
    assert NamesGood(disk, disk.dirs[k], name, live);
    forall f: Firmness | Firm(disk, f)
      ensures Solid(disk.inodes[i], f)
    {
      assert FirmDir(disk, disk.dirs[k], f);
    }
  }

  lemma LostName(disk: Disk, after: Disk, live: map<Text, bytes>, loss: Loss) returns (k: nat)
    requires Holds(disk, live, loss) && Loses(disk, after, loss) && |after.dirs| == 1
    ensures var name := if DATA in after.dirs[0] then DATA else PREV;
            k < |disk.dirs| && name in after.dirs[0] && name in disk.dirs[k] && disk.dirs[k][name] == after.dirs[0][name] &&
            NamesGood(disk, disk.dirs[k], name, live)
  {
    hide Good, Survives;
    var dir := after.dirs[0];
    if loss == States {
      k :| k < |disk.dirs| && disk.dirs[k] == dir;
      assert Leads(disk, disk.dirs[k], live);
    } else if DATA in dir {
      assert NameSurvives(disk, DATA, dir);
      k :| k < |disk.dirs| && Lookup(disk.dirs[k], DATA) == Lookup(dir, DATA);
    } else {
      if Always(disk, DATA, live) {
        SurvivingName(disk, after, DATA);
      }
      SurvivingName(disk, after, PREV);
      k :| k < |disk.dirs| && disk.dirs[k][PREV] == dir[PREV];
    }
  }

  /** Startup after a power loss finds the records. */
  ghost predicate StartFinds(after: Disk, kept: map<Text, bytes>) {
    |after.dirs| == 1 &&
    var i := Start(after.dirs[0]);
    i.Some? && i.value in after.inodes && Finds(after.inodes[i.value].data, kept)
  }

  /** What a power loss leaves of a safe shard is on stable storage. Startup
      finds every record of which enough was synced, and a shard whose
      generations were synced entirely is as safe as before. */
  lemma PowerHolds(disk: Disk, after: Disk, live: map<Text, bytes>, loss: Loss)
    requires Holds(disk, live, loss) && Loses(disk, after, loss) && Firm(disk, Header)
    ensures Firm(after, Full)
    ensures Firm(disk, Keeps(live)) ==> StartFinds(after, live)
    ensures Firm(disk, Full) ==> Holds(after, live, Names)
  {
    hide Good, Firm, Finds;
    LosesValid(disk, after, loss);
    var i := LostStart(disk, after, live, loss);
    var data := disk.inodes[i].data;
    assert Firm(disk, Keeps(live)) ==> Solid(disk.inodes[i], Keeps(live));
    LostFirm(disk, after);
    if Firm(disk, Full) {
      assert Solid(disk.inodes[i], Full);
      assert data[..|data|] == data;
      assert Leads(after, after.dirs[0], live);
      SyncHolds(after, live);
      assert after.SyncDir() == after;
    }
  }

  /** What power loss leaves is on stable storage. */
  lemma LostFirm(disk: Disk, after: Disk)
    requires PowerLoss(disk, after) && Firm(disk, Header)
    ensures Firm(after, Full)
  {
    var dir := after.dirs[0];
    forall name | name in dir && (name == DATA || name == PREV)
      ensures dir[name] in after.inodes && Solid(after.inodes[dir[name]], Full)
    {
      assert NameSurvives(disk, name, dir);
      var k :| 0 <= k < |disk.dirs| && Lookup(disk.dirs[k], name) == Lookup(dir, name);
      assert FirmDir(disk, disk.dirs[k], Header);
      assert Survives(disk.inodes[dir[name]], after.inodes[dir[name]]);
    }
  }

  /** A directory without a good generation, if nothing but synced bytes is left of its files. */
  lemma WorstLeads(disk: Disk, dir: Dir, live: map<Text, bytes>)
    requires disk.Valid() && FirmDir(disk, dir, Full)
    ensures Leads(Worst(disk, dir), dir, live) <==> Leads(disk, dir, live)
  {
    hide Good;
    WorstFiles(disk, dir);
    forall name | name in dir && (name == DATA || name == PREV)
      ensures Worst(disk, dir).inodes[dir[name]].data == disk.inodes[dir[name]].data
    {
      var data := disk.inodes[dir[name]].data;
      assert data[..|data|] == data;
    }
  }

  /** For synced generations the invariant is exact: it holds if and only if
      startup finds every record after every power loss of its kind. */
  lemma HoldsExactly(disk: Disk, live: map<Text, bytes>, loss: Loss)
    requires disk.Valid() && Firm(disk, Full) && (loss == States || loss == Names)
    ensures Holds(disk, live, loss) <==> forall after | Loses(disk, after, loss) :: Holds(after, live, NoLoss)
  {
    hide Good, PowerLoss, PowerLossWhole, Disk.Valid, Leads, NamesGood;
    if Holds(disk, live, loss) {
      forall after | Loses(disk, after, loss)
        ensures Holds(after, live, NoLoss)
      {
        FirmHeader(disk, Full);
        PowerHolds(disk, after, live, loss);
        HoldsWeaker(after, live, Names);
      }
    }
    if forall after | Loses(disk, after, loss) :: Holds(after, live, NoLoss) {
      forall i | 0 <= i < |disk.dirs|
        ensures Leads(disk, disk.dirs[i], live)
      {
        WorstWhole(disk, i);
        assert FirmDir(disk, disk.dirs[i], Full);
        WorstFound(disk, disk.dirs[i], live, loss);
      }
      if loss == Names {
        NamesFound(disk, live);
      }
    }
  }

  lemma WorstFound(disk: Disk, dir: Dir, live: map<Text, bytes>, loss: Loss)
    requires disk.Valid() && FirmDir(disk, dir, Full) && Loses(disk, Worst(disk, dir), loss)
    requires forall after | Loses(disk, after, loss) :: Holds(after, live, NoLoss)
    ensures Leads(disk, dir, live)
  {
    hide Good, PowerLoss, PowerLossWhole, NamesGood;
    WorstFiles(disk, dir);
    assert Holds(Worst(disk, dir), live, NoLoss);
    WorstLeads(disk, dir, live);
  }

  /** If separate names always lead to a good generation, one name does by itself. */
  lemma NamesFound(disk: Disk, live: map<Text, bytes>)
    requires disk.Valid() && Firm(disk, Full)
    requires forall i | 0 <= i < |disk.dirs| :: Leads(disk, disk.dirs[i], live)
    requires forall after | Loses(disk, after, Names) :: Holds(after, live, NoLoss)
    ensures NeverBad(disk, live) && (Always(disk, DATA, live) || Always(disk, PREV, live))
  {
    hide Good, PowerLoss, PowerLossWhole, Disk.Valid;
    if !Always(disk, DATA, live) {
      var i :| 0 <= i < |disk.dirs| && !NamesGood(disk, disk.dirs[i], DATA, live);
      assert Leads(disk, disk.dirs[i], live);
      forall j | 0 <= j < |disk.dirs|
        ensures NamesGood(disk, disk.dirs[j], PREV, live)
      {
        var dir := Blend(disk.dirs[i], disk.dirs[j]);
        BlendPossible(disk, i, j);
        assert FirmDir(disk, disk.dirs[i], Full) && FirmDir(disk, disk.dirs[j], Full);
        WorstFound(disk, dir, live, Names);
      }
    }
  }

  /** One directory with the backup of another. */
  function Blend(dir: Dir, other: Dir): Dir {
    if PREV in other then dir[PREV := other[PREV]] else dir - {PREV}
  }

  lemma BlendPossible(disk: Disk, i: nat, j: nat)
    requires disk.Valid() && i < |disk.dirs| && j < |disk.dirs|
    ensures PowerLoss(disk, Worst(disk, Blend(disk.dirs[i], disk.dirs[j])))
  {
    hide PowerLoss, Disk.Valid;
    var dir := Blend(disk.dirs[i], disk.dirs[j]);
    forall name <- AllNames(disk) + dir.Keys
      ensures NameSurvives(disk, name, dir)
    {
      var k := if name == PREV then j else i;
      assert Lookup(disk.dirs[k], name) == Lookup(dir, name);
    }
    WorstPossible(disk, dir);
  }

  // ---- Generations that are not entirely synced ----------------------------

  /** Where the two names of a surviving directory come from. */
  lemma BlendedFrom(disk: Disk, after: Disk, loss: Loss) returns (i: nat, j: nat)
    requires Loses(disk, after, loss) && |disk.dirs| > 0 && |after.dirs| == 1
    ensures i < |disk.dirs| && j < |disk.dirs| && (loss == States ==> i == j)
    ensures Start(Blend(disk.dirs[i], disk.dirs[j])) == Start(after.dirs[0])
    ensures PREV in after.dirs[0] <==> PREV in disk.dirs[j]
  {
    hide Survives;
    if loss == States {
      i :| i < |disk.dirs| && disk.dirs[i] == after.dirs[0];
      j := i;
    } else {
      i := LookupSurvives(disk, after, DATA);
      j := LookupSurvives(disk, after, PREV);
    }
  }

  /** Startup on this directory finds the records however much of the file survives. */
  ghost predicate SureStart(disk: Disk, dir: Dir, kept: map<Text, bytes>) {
    var i := Start(dir);
    i.Some? && i.value in disk.inodes && Sure(disk.inodes[i.value], kept)
  }

  /** So it does on every directory that a crash of this kind may leave. */
  ghost predicate SureHolds(disk: Disk, kept: map<Text, bytes>, loss: Loss) {
    forall i, j | 0 <= i < |disk.dirs| && 0 <= j < |disk.dirs| && (loss == States ==> i == j) ::
      SureStart(disk, Blend(disk.dirs[i], disk.dirs[j]), kept)
  }

  lemma SureFound(disk: Disk, after: Disk, kept: map<Text, bytes>, loss: Loss)
    requires disk.Valid() && SureHolds(disk, kept, loss) && Loses(disk, after, loss)
    ensures StartFinds(after, kept)
  {
    hide Finds, NameSurvives;
    LosesValid(disk, after, loss);
    var i, j := BlendedFrom(disk, after, loss);
    assert SureStart(disk, Blend(disk.dirs[i], disk.dirs[j]), kept);
    var s := Start(after.dirs[0]).value;
    assert Survives(disk.inodes[s], after.inodes[s]);
  }

  lemma BlendLost(disk: Disk, i: nat, j: nat, loss: Loss)
    requires disk.Valid() && i < |disk.dirs| && j < |disk.dirs| && (loss == States || loss == Names) && (loss == States ==> i == j)
    ensures Loses(disk, Worst(disk, Blend(disk.dirs[i], disk.dirs[j])), loss)
  {
    hide PowerLoss, PowerLossWhole, Disk.Valid;
    BlendPossible(disk, i, j);
    if loss == States {
      assert Blend(disk.dirs[i], disk.dirs[j]) == disk.dirs[i];
      WorstWhole(disk, i);
    }
  }

  lemma FoundSure(disk: Disk, kept: map<Text, bytes>, loss: Loss, i: nat, j: nat)
    requires disk.Valid() && i < |disk.dirs| && j < |disk.dirs| && (loss == States || loss == Names) && (loss == States ==> i == j)
    requires forall after | Loses(disk, after, loss) :: StartFinds(after, kept)
    ensures SureStart(disk, Blend(disk.dirs[i], disk.dirs[j]), kept)
  {
    hide Finds, PowerLoss, PowerLossWhole;
    var dir := Blend(disk.dirs[i], disk.dirs[j]);
    BlendLost(disk, i, j, loss);
    assert StartFinds(Worst(disk, dir), kept);
    var s := Start(dir).value;
    forall k | disk.inodes[s].synced <= k <= |disk.inodes[s].data|
      ensures Finds(disk.inodes[s].data[..k], kept)
    {
      CutPossible(disk, dir, s, k);
      assert Loses(disk, CutAt(disk, dir, s, k), loss);
      assert StartFinds(CutAt(disk, dir, s, k), kept);
    }
  }

  /** Whatever is synced: startup finds the records after every power loss of a
      kind if and only if every directory it may leave leads to a generation
      that has them however much of it survives. */
  lemma FoundExactly(disk: Disk, kept: map<Text, bytes>, loss: Loss)
    requires disk.Valid() && (loss == States || loss == Names)
    ensures SureHolds(disk, kept, loss) <==> forall after | Loses(disk, after, loss) :: StartFinds(after, kept)
  {
    hide PowerLoss, PowerLossWhole, SureStart, StartFinds, Disk.Valid;
    if SureHolds(disk, kept, loss) {
      forall after | Loses(disk, after, loss)
        ensures StartFinds(after, kept)
      {
        SureFound(disk, after, kept, loss);
      }
    }
    if forall after | Loses(disk, after, loss) :: StartFinds(after, kept) {
      forall i, j | 0 <= i < |disk.dirs| && 0 <= j < |disk.dirs| && (loss == States ==> i == j)
        ensures SureStart(disk, Blend(disk.dirs[i], disk.dirs[j]), kept)
      {
        FoundSure(disk, kept, loss, i, j);
      }
    }
  }

  // ---- Appending to a generation -----------------------------------------

  /** Other keys keep their records when one is appended, in part or as a whole. */
  lemma AppendedRecords(cs: seq<bytes>, c: bytes, key: Text, m: nat)
    requires AllComplete(cs) && Complete(c) && KeyOf(c) == Some(key) && m <= |c|
    ensures var now := Split(Joined(cs) + c[..m]);
            forall other: Text | other != key ::
              LastOf(now, other).Some? == LastOf(cs, other).Some? && RecordOf(now, other) == RecordOf(cs, other)
    ensures m == |c| ==> Split(Joined(cs) + c[..m]) == cs + [c]
  {
    hide Joined, Split, LastOf, RecordOf, KeyOf, Complete, ReadRecord;
    if m < |c| {
      TornRecord(c, m);
      SplitJoined(cs, c[..m]);
    } else {
      assert c[..m] == c;
      AppendChunk(cs, c);
      NothingIncomplete();
      SplitJoined(cs + [c], []);
      assert Joined(cs + [c]) + [] == Joined(cs + [c]);
      forall other: Text | other != key
        ensures LastOf(cs + [c], other).Some? == LastOf(cs, other).Some? && RecordOf(cs + [c], other) == RecordOf(cs, other)
      {
        LastOfAppended(cs, c, other);
        RecordAdded(cs, c, key, other);
      }
    }
  }

  lemma AppendFinds(data: bytes, cs: seq<bytes>, c: bytes, key: Text, kept: map<Text, bytes>, m: nat)
    requires AllComplete(cs) && data == DATA_MAGIC + Joined(cs) && Complete(c) && KeyOf(c) == Some(key) && m <= |c|
    requires Finds(data, kept)
    ensures Finds(data + c[..m], kept - {key})
    ensures m == |c| ==> Whole(data + c)
  {
    hide Joined, Split, LastOf, RecordOf, KeyOf, Complete, ReadRecord;
    NothingIncomplete();
    SplitJoined(cs, []);
    assert data[4..] == Joined(cs) + [];
    AppendedRecords(cs, c, key, m);
    assert (data + c[..m])[4..] == Joined(cs) + c[..m];
    if m == |c| {
      AppendChunk(cs, c);
      assert c[..m] == c;
      assert data + c == DATA_MAGIC + Joined(cs + [c]);
    }
  }

  lemma AppendSure(node: Inode, cs: seq<bytes>, c: bytes, key: Text, kept: map<Text, bytes>)
    requires AllComplete(cs) && node.data == DATA_MAGIC + Joined(cs) && Complete(c) && KeyOf(c) == Some(key)
    requires Sure(node, kept)
    ensures Sure(node.(data := node.data + c), kept - {key})
  {
    hide Joined, KeyOf, Complete, AllComplete, Finds;
    var n := |node.data|;
    assert Finds(node.data[..n], kept) && node.data[..n] == node.data;
    forall k | node.synced <= k <= n + |c|
      ensures Finds((node.data + c)[..k], kept - {key})
    {
      if k <= n {
        assert (node.data + c)[..k] == node.data[..k];
        FindsLess(node.data[..k], kept, key);
      } else {
        AppendFinds(node.data, cs, c, key, kept, k - n);
        assert (node.data + c)[..k] == node.data + c[..k - n];
      }
    }
  }

  lemma FindsLess(data: bytes, kept: map<Text, bytes>, key: Text)
    requires Finds(data, kept)
    ensures Finds(data, kept - {key})
  {
    hide Split, LastOf, RecordOf;
  }

  lemma AppendGood(data: bytes, cs: seq<bytes>, c: bytes, key: Text, kept: map<Text, bytes>)
    requires AllComplete(cs) && data == DATA_MAGIC + Joined(cs) && Complete(c) && KeyOf(c) == Some(key)
    requires Good(data, kept)
    ensures Good(data + c, kept - {key})
  {
    hide Joined, Split, LastOf, RecordOf, KeyOf, Complete;
    AppendFinds(data, cs, c, key, kept, |c|);
    assert c[..|c|] == c;
  }

  /** Good files stay good, so safe directories stay safe. */
  lemma HoldsMapped(disk: Disk, after: Disk, kept: map<Text, bytes>, less: map<Text, bytes>, loss: Loss)
    requires Holds(disk, kept, loss) && after.Valid() && after.dirs == disk.dirs && disk.inodes.Keys <= after.inodes.Keys
    requires forall i <- disk.inodes :: Good(disk.inodes[i].data, kept) ==> Good(after.inodes[i].data, less)
    ensures Holds(after, less, loss)
  {
    hide Good, Disk.Valid;
    forall dir, name | NamesGood(disk, dir, name, kept)
      ensures NamesGood(after, dir, name, less)
    {
    }
  }

  lemma FirmMapped(disk: Disk, after: Disk, f: Firmness, g: Firmness)
    requires Firm(disk, f) && after.dirs == disk.dirs && disk.inodes.Keys <= after.inodes.Keys
    requires forall i <- disk.inodes :: Solid(disk.inodes[i], f) ==> Solid(after.inodes[i], g)
    ensures Firm(after, g)
  {
    hide Solid;
    forall i | 0 <= i < |after.dirs|
      ensures FirmDir(after, after.dirs[i], g)
    {
      assert FirmDir(disk, disk.dirs[i], f);
    }
  }

  /** A record appended to the open file endangers no other key. */
  lemma AppendHolds(disk: Disk, ino: nat, cs: seq<bytes>, c: bytes, key: Text, kept: map<Text, bytes>, loss: Loss)
    requires Holds(disk, kept, loss) && Firm(disk, Keeps(kept)) && ino in disk.inodes
    requires AllComplete(cs) && disk.inodes[ino].data == DATA_MAGIC + Joined(cs) && Complete(c) && KeyOf(c) == Some(key)
    ensures var after := disk.Write(ino, disk.inodes[ino].(data := disk.inodes[ino].data + c));
            Holds(after, kept - {key}, loss) && Firm(after, Keeps(kept - {key}))
  {
    hide Good, Holds, Firm, Joined, Complete, KeyOf, AllComplete, Sure;
    var node := disk.inodes[ino];
    var after := disk.Write(ino, node.(data := node.data + c));
    WrittenValid(disk, ino, node.(data := node.data + c));
    forall i | i in disk.inodes && Good(disk.inodes[i].data, kept)
      ensures Good(after.inodes[i].data, kept - {key})
    {
      if i == ino {
        AppendGood(node.data, cs, c, key, kept);
      } else {
        GoodLess(disk.inodes[i].data, kept, kept - {key});
      }
    }
    forall i | i in disk.inodes && Solid(disk.inodes[i], Keeps(kept))
      ensures Solid(after.inodes[i], Keeps(kept - {key}))
    {
      if i == ino {
        AppendSure(node, cs, c, key, kept);
      } else {
        SureLess(disk.inodes[i], kept, kept - {key});
      }
    }
    HoldsMapped(disk, after, kept, kept - {key}, loss);
    FirmMapped(disk, after, Keeps(kept), Keeps(kept - {key}));
  }

  lemma SureLess(node: Inode, kept: map<Text, bytes>, less: map<Text, bytes>)
    requires Sure(node, kept) && forall key <- less :: key in kept && kept[key] == less[key]
    ensures Sure(node, less)
  {
    hide Split, LastOf, RecordOf;
    forall k | node.synced <= k <= |node.data|
      ensures Finds(node.data[..k], less)
    {
      assert Finds(node.data[..k], kept);
    }
  }

  /** Fewer records are kept as well. */
  lemma KeepsLess(disk: Disk, kept: map<Text, bytes>, less: map<Text, bytes>, loss: Loss)
    requires Holds(disk, kept, loss) && Firm(disk, Keeps(kept)) && forall key <- less :: key in kept && kept[key] == less[key]
    ensures Holds(disk, less, loss) && Firm(disk, Keeps(less))
  {
    hide Good, Holds, Firm, Sure;
    forall i | i in disk.inodes && Good(disk.inodes[i].data, kept)
      ensures Good(disk.inodes[i].data, less)
    {
      GoodLess(disk.inodes[i].data, kept, less);
    }
    forall i | i in disk.inodes && Solid(disk.inodes[i], Keeps(kept))
      ensures Solid(disk.inodes[i], Keeps(less))
    {
      SureLess(disk.inodes[i], kept, less);
    }
    HoldsMapped(disk, disk, kept, less, loss);
    FirmMapped(disk, disk, Keeps(kept), Keeps(less));
  }

  /** Part of a generation's records: as many as were on stable storage, or more. */
  ghost predicate Trimmed(cs: seq<bytes>, node: Inode, n: nat) {
    |node.data| >= 4 &&
    var all := Split(node.data[4..]);
    n <= |all| && cs == all[..n] && (n < |all| ==> node.synced < 4 + |Joined(all[..n + 1])|)
  }

  /** What a generation has left after power loss: whole records up to some
      point, and every record that was synced. */
  lemma TrimmedRecords(node: Inode, after: Inode, live: map<Text, bytes>) returns (n: nat)
    requires Good(node.data, live) && Survives(node, after) && Solid(node, Header)
    ensures |after.data| >= 4 && after.data[..4] == DATA_MAGIC && Trimmed(Split(after.data[4..]), node, n)
  {
    hide Joined, Split, LastOf, RecordOf;
    var all := Split(node.data[4..]);
    assert node.data == DATA_MAGIC + Joined(all);
    n := TornFile(all, |after.data|);
  }
}
