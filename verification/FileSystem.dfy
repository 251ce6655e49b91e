/** A directory of files under crashes: which bytes and which names survive. */
module FileSystem {
  import opened Bytes

  /** File contents and the length of the prefix known to be on stable storage. */
  datatype Inode = Inode(data: bytes, synced: nat)

  type Dir = map<string, nat>

  /** `dirs` is every state of the directory since it was last synced; the last one is visible. */
  datatype Disk = Disk(inodes: map<nat, Inode>, dirs: seq<Dir>) {

    predicate Valid()
      ensures Valid() ==> |dirs| > 0
    {
      && |dirs| > 0
      && (forall i, name :: 0 <= i < |dirs| && name in dirs[i] ==> dirs[i][name] in inodes)
      && (forall i :: i in inodes ==> inodes[i].synced <= |inodes[i].data|)
    }

    function Visible(): Dir
      requires |dirs| > 0
    {
      dirs[|dirs| - 1]
    }

    function Write(i: nat, node: Inode): Disk {
      this.(inodes := inodes[i := node])
    }

    /** A directory change that is not synced yet. */
    function Enter(dir: Dir): Disk {
      this.(dirs := dirs + [dir])
    }

    function SyncDir(): Disk
      requires |dirs| > 0
    {
      this.(dirs := [Visible()])
    }
  }

  function Lookup(dir: Dir, name: string): Option<nat> {
    if name in dir then Some(dir[name]) else None
  }

  // ---- Faults ------------------------------------------------------------

  /** Whether something happens here: a file operation fails, or the process
      dies. Never without faults. */
  method Struck(faults: bool) returns (r: bool)
    ensures r ==> faults
  {
    if * {
      return faults;
    }
    return false;
  }

  /** How much of a write of `n` bytes goes through: all of it, without faults. */
  method Reached(faults: bool, n: nat) returns (k: nat)
    ensures k <= n && (!faults ==> k == n)
  {
    k :| k <= n && (!faults ==> k == n);
  }

  /** A number for a new file. */
  method Unused(inodes: map<nat, Inode>) returns (i: nat)
    ensures i !in inodes
  {
    i := 0;
    var todo := inodes.Keys;
    while todo != {}
      invariant todo <= inodes.Keys && forall n <- inodes :: n in todo || n < i
      decreases todo
    {
      var k :| k in todo;
      i := if k < i then i else k + 1;
      todo := todo - {k};
    }
  }

  // ---- Power loss --------------------------------------------------------

  /** After power loss every file keeps a prefix that includes its synced part,
      and every name independently keeps one of its values since the last
      directory sync. */
  predicate PowerLoss(d: Disk, c: Disk) {
    && |c.dirs| == 1
    && c.inodes.Keys == d.inodes.Keys
    && (forall i <- d.inodes :: Survives(d.inodes[i], c.inodes[i]))
    && (forall name <- AllNames(d) + c.dirs[0].Keys :: NameSurvives(d, name, c.dirs[0]))
  }

  /** Every name the directory held since it was last synced. */
  function AllNames(d: Disk): set<string> {
    set i, name | 0 <= i < |d.dirs| && name in d.dirs[i] :: name
  }

  predicate Survives(before: Inode, after: Inode) {
    && before.synced <= |after.data| <= |before.data|
    && after.data == before.data[..|after.data|]
    && after.synced == |after.data|
  }

  predicate NameSurvives(d: Disk, name: string, dir: Dir) {
    exists i | 0 <= i < |d.dirs| :: Lookup(d.dirs[i], name) == Lookup(dir, name)
  }

  /** A name that always existed still exists, as one of the files it named. */
  lemma SurvivingName(d: Disk, c: Disk, name: string)
    requires d.Valid() && PowerLoss(d, c)
    requires forall i :: 0 <= i < |d.dirs| ==> name in d.dirs[i]
    ensures name in c.dirs[0] && c.dirs[0][name] in d.inodes
    ensures exists i :: 0 <= i < |d.dirs| && d.dirs[i][name] == c.dirs[0][name]
  {
    assert |d.dirs| > 0 && name in d.dirs[0];
    assert name in AllNames(d);
    assert NameSurvives(d, name, c.dirs[0]);
  }

  lemma PowerLossValid(d: Disk, c: Disk)
    requires d.Valid() && PowerLoss(d, c)
    ensures c.Valid()
  {
    forall name | name in c.dirs[0]
      ensures c.dirs[0][name] in c.inodes
    {
      assert NameSurvives(d, name, c.dirs[0]);
    }
    forall i | i in c.inodes
      ensures c.inodes[i].synced <= |c.inodes[i].data|
    {
      assert Survives(d.inodes[i], c.inodes[i]);
    }
  }

  /** Power loss where directory changes survive as a whole: the directory is
      one of its states since the last sync. */
  predicate PowerLossWhole(d: Disk, c: Disk) {
    && |c.dirs| == 1 && c.dirs[0] in d.dirs
    && c.inodes.Keys == d.inodes.Keys
    && (forall i <- d.inodes :: Survives(d.inodes[i], c.inodes[i]))
  }

  lemma WholeIsPowerLoss(d: Disk, c: Disk)
    requires PowerLossWhole(d, c)
    ensures PowerLoss(d, c)
  {
    var i :| 0 <= i < |d.dirs| && d.dirs[i] == c.dirs[0];
    forall name <- AllNames(d) + c.dirs[0].Keys
      ensures NameSurvives(d, name, c.dirs[0])
    {
      assert Lookup(d.dirs[i], name) == Lookup(c.dirs[0], name);
    }
  }

  /** The disk on which this directory survived and nothing that was not synced. */
  function Worst(d: Disk, dir: Dir): Disk
    requires d.Valid()
  {
    Disk(map i | i in d.inodes :: Inode(d.inodes[i].data[..d.inodes[i].synced], d.inodes[i].synced), [dir])
  }

  lemma WorstFiles(d: Disk, dir: Dir)
    requires d.Valid()
    ensures Worst(d, dir).inodes.Keys == d.inodes.Keys && Worst(d, dir).dirs == [dir]
    ensures forall i <- d.inodes :: d.inodes[i].synced <= |d.inodes[i].data| && Survives(d.inodes[i], Worst(d, dir).inodes[i]) &&
                                    Worst(d, dir).inodes[i].data == d.inodes[i].data[..d.inodes[i].synced]
  {
  }

  lemma WorstPossible(d: Disk, dir: Dir)
    requires d.Valid() && forall name <- AllNames(d) + dir.Keys :: NameSurvives(d, name, dir)
    ensures PowerLoss(d, Worst(d, dir))
  {
    WorstFiles(d, dir);
  }

  lemma WorstWhole(d: Disk, i: nat)
    requires d.Valid() && i < |d.dirs|
    ensures PowerLossWhole(d, Worst(d, d.dirs[i])) && PowerLoss(d, Worst(d, d.dirs[i]))
  {
    WorstFiles(d, d.dirs[i]);
    WholeIsPowerLoss(d, Worst(d, d.dirs[i]));
  }

  /** The same, with the first `k` bytes of file `i`. */
  function CutAt(d: Disk, dir: Dir, i: nat, k: nat): Disk
    requires d.Valid() && i in d.inodes && k <= |d.inodes[i].data|
  {
    Worst(d, dir).Write(i, Inode(d.inodes[i].data[..k], k))
  }

  lemma CutPossible(d: Disk, dir: Dir, i: nat, k: nat)
    requires d.Valid() && i in d.inodes && d.inodes[i].synced <= k <= |d.inodes[i].data|
    ensures PowerLoss(d, Worst(d, dir)) ==> PowerLoss(d, CutAt(d, dir, i, k))
    ensures PowerLossWhole(d, Worst(d, dir)) ==> PowerLossWhole(d, CutAt(d, dir, i, k))
  {
    hide NameSurvives;
    WorstFiles(d, dir);
  }

  /** What a power loss leaves under a name it had, or did not have, before. */
  lemma LookupSurvives(d: Disk, c: Disk, name: string) returns (k: nat)
    requires PowerLoss(d, c) && |d.dirs| > 0
    ensures k < |d.dirs| && Lookup(d.dirs[k], name) == Lookup(c.dirs[0], name)
  {
    if name in AllNames(d) + c.dirs[0].Keys {
      assert NameSurvives(d, name, c.dirs[0]);
      k :| k < |d.dirs| && Lookup(d.dirs[k], name) == Lookup(c.dirs[0], name);
    } else {
      k := 0;
      assert name !in d.dirs[0];
    }
  }

  /** Power loss always leaves some disk: at worst the synced prefixes under the last synced directory. */
  lemma PowerLossPossible(d: Disk) returns (c: Disk)
    requires d.Valid()
    ensures PowerLoss(d, c) && PowerLossWhole(d, c) && c.Valid()
  {
    c := Worst(d, d.dirs[0]);
    WorstWhole(d, 0);
    PowerLossValid(d, c);
  }
}
