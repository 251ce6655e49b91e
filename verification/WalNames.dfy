/** What the journal's name and the snapshot's may lead to after a crash. */
module WalNames {
  import opened Bytes
  import opened WalFormat
  import opened WalScan
  import opened FileSystem
  import opened Journal
  import opened WalReplay

  const WAL: string := "wal.lux"

  /** What a journal holds: its records, and how many of them are acknowledged. */
  datatype Held = Held(log: seq<Record>, durable: nat)

  /** A snapshot, the checkpoint in it, and how many records it covers. */
  datatype Snap<S> = Snap(state: S, checkpoint: Option<Checkpoint>, ghost covered: nat)

  ghost function RunOf<S>(h: Held, s: Snap<S>): Run {
    Run(h.log, h.durable, s.covered, s.checkpoint)
  }

  function Holding(run: Run): Held {
    Held(run.log, run.durable)
  }

  /** The files of the journal and of the snapshot, and what they stand for. */
  datatype Books<S> = Books(
    disk: Disk,
    /** What the journal under its visible name stands for. */
    run: Run,
    /** Every snapshot that may be installed after a power loss; the last one is visible. */
    snapshots: seq<Snap<S>>,
    origins: map<nat, Origin>,
    /** Other journals that the name may fall back to. */
    held: map<nat, Held>,
    /** A snapshot was installed while there were such journals. */
    stale: bool)

  /** The acknowledged records are accepted, and all are unless the last one is
      a checked command yet to be taken out. */
  ghost predicate Accepted<S>(apply: (S, Command) -> Option<S>, initial: S, h: Held) {
    h.durable <= |h.log| && ApplyLog(apply, initial, h.log[..h.durable]).Some? && Settles(apply, initial, h.log)
  }

  /** Startup with this journal and this snapshot reaches what the journal holds. */
  ghost predicate Starts<S>(apply: (S, Command) -> Option<S>, initial: S, node: Inode, o: Origin, h: Held, s: Snap<S>) {
    FileOk(node, o, RunOf(h, s)) && ApplyLog(apply, initial, h.log[..s.covered]) == Some(s.state)
  }

  /** The snapshot does not accept a journal of this generation. */
  predicate Refuses<S>(s: Snap<S>, o: Origin) {
    && s.checkpoint.Some? && s.checkpoint.value.successor.Some?
    && o.generation != s.checkpoint.value.generation && o.generation != s.checkpoint.value.successor.value
  }

  /** The header is on stable storage. */
  predicate Headed(node: Inode, o: Origin) {
    HEADER_LEN <= node.synced <= |node.data| && node.data[..HEADER_LEN] == Header(o.generation)
  }

  /** A journal the name may fall back to: with every snapshot it starts or,
      once stale, is refused. */
  ghost predicate Elsewhere<S>(apply: (S, Command) -> Option<S>, initial: S, node: Inode, o: Origin, h: Held,
                               snapshots: seq<Snap<S>>, stale: bool) {
    && Accepted(apply, initial, h) && Headed(node, o)
    && forall s <- snapshots :: Starts(apply, initial, node, o, h, s) || (stale && Refuses(s, o))
  }

  /** The visible journal starts with every snapshot. */
  ghost predicate Current<S>(apply: (S, Command) -> Option<S>, initial: S, node: Inode, o: Origin, run: Run,
                             snapshots: seq<Snap<S>>) {
    && Accepted(apply, initial, Holding(run))
    && |snapshots| > 0 && run == RunOf(Holding(run), snapshots[|snapshots| - 1])
    && forall s <- snapshots :: Starts(apply, initial, node, o, Holding(run), s)
  }

  /** Every directory state names a journal; all but the visible one are among the held. */
  predicate Named(disk: Disk, origins: map<nat, Origin>, held: map<nat, Held>) {
    && disk.Valid() && origins.Keys <= disk.inodes.Keys && held.Keys <= origins.Keys
    && WAL in disk.Visible() && disk.Visible()[WAL] in origins && disk.Visible()[WAL] !in held
    && forall i | 0 <= i < |disk.dirs| ::
        WAL in disk.dirs[i] && (disk.dirs[i][WAL] == disk.Visible()[WAL] || disk.dirs[i][WAL] in held)
  }

  /** Generations are random and never drawn twice. */
  predicate Apart(generation: Generation, checkpoint: Option<Checkpoint>, origins: map<nat, Origin>, held: map<nat, Held>) {
    forall k <- held :: k in origins && origins[k].generation != generation &&
                        (checkpoint.Some? && checkpoint.value.generation == generation ==>
                           checkpoint.value.successor != Some(origins[k].generation))
  }

  /** No journal the name may fall back to has this generation. */
  ghost predicate Unclaimed(held: map<nat, Held>, origins: map<nat, Origin>, g: Generation) {
    forall k <- held :: k in origins && origins[k].generation != g
  }

  /** Whatever a power loss leaves here: startup reaches `run`, or what another
      journal held when the name moved on from it, or, once stale, is refused. */
  ghost predicate Sound<S>(apply: (S, Command) -> Option<S>, initial: S, b: Books<S>) {
    && Named(b.disk, b.origins, b.held)
    && (forall k <- b.held :: Elsewhere(apply, initial, b.disk.inodes[k], b.origins[k], b.held[k], b.snapshots, b.stale))
    && var k := b.disk.Visible()[WAL];
       Current(apply, initial, b.disk.inodes[k], b.origins[k], b.run, b.snapshots) &&
       Apart(b.origins[k].generation, b.run.checkpoint, b.origins, b.held)
  }

  // ---- What is known of a journal ----------------------------------------

  lemma Located<S>(apply: (S, Command) -> Option<S>, initial: S, b: Books<S>)
    requires Sound(apply, initial, b)
    ensures b.disk.Valid() && WAL in b.disk.Visible()
    ensures var k := b.disk.Visible()[WAL];
            k in b.disk.inodes && k in b.origins && k !in b.held && FileOk(b.disk.inodes[k], b.origins[k], b.run) &&
            Apart(b.origins[k].generation, b.run.checkpoint, b.origins, b.held)
    ensures b.run.Valid() && Accepted(apply, initial, Holding(b.run))
    ensures |b.snapshots| > 0 && b.run == RunOf(Holding(b.run), b.snapshots[|b.snapshots| - 1])
    ensures ApplyLog(apply, initial, b.run.log[..b.run.covered]) == Some(b.snapshots[|b.snapshots| - 1].state)
    ensures b.held.Keys <= b.origins.Keys <= b.disk.inodes.Keys
  {
    hide FileOk, ApplyLog, Settles, Disk.Valid, Elsewhere;
    var s := b.snapshots[|b.snapshots| - 1];
    assert s in b.snapshots;
    var k := b.disk.Visible()[WAL];
    assert Starts(apply, initial, b.disk.inodes[k], b.origins[k], Holding(b.run), s);
    IsValid(b.disk.inodes[k], b.origins[k], b.run);
  }

  lemma IsValid(node: Inode, o: Origin, run: Run)
    requires FileOk(node, o, run)
    ensures run.Valid() && Headed(node, o)
  {
    hide Frames, AllStorable;
  }

  /** A journal that goes on starts with every snapshot it started with before. */
  lemma StartsStill<S>(apply: (S, Command) -> Option<S>, initial: S, node: Inode, after: Inode, o: Origin, h: Held, g: Held,
                       s: Snap<S>, t: Snap<S>)
    requires Starts(apply, initial, node, o, h, s) && FileOk(after, o, RunOf(g, t))
    requires h.durable <= g.durable && h.durable <= |g.log| && h.durable <= |h.log| && g.log[..h.durable] == h.log[..h.durable]
    ensures Starts(apply, initial, after, o, g, s)
  {
    hide Frames, AllStorable, ApplyLog, Header;
    assert g.log[..s.covered] == g.log[..h.durable][..s.covered] == h.log[..s.covered];
    if o.base <= s.covered {
      assert g.log[o.base..s.covered] == g.log[..s.covered][o.base..] == h.log[o.base..s.covered];
    }
  }

  /** The visible file goes on: written to, cut back or synced. */
  lemma Rewritten<S>(apply: (S, Command) -> Option<S>, initial: S, b: Books<S>, node: Inode, run: Run)
    requires Sound(apply, initial, b) && run == b.run.(log := run.log, durable := run.durable)
    requires WAL in b.disk.Visible() && b.disk.Visible()[WAL] in b.origins
    requires FileOk(node, b.origins[b.disk.Visible()[WAL]], run) && Accepted(apply, initial, Holding(run))
    requires b.run.durable <= run.durable && b.run.durable <= |b.run.log| && b.run.durable <= |run.log|
    requires run.log[..b.run.durable] == b.run.log[..b.run.durable]
    ensures Sound(apply, initial, b.(disk := b.disk.Write(b.disk.Visible()[WAL], node), run := run))
  {
    hide FileOk, ApplyLog, Settles, Elsewhere, Accepted, Apart, Headed, Starts, Disk.Valid;
    var k := b.disk.Visible()[WAL];
    var last := b.snapshots[|b.snapshots| - 1];
    forall s | s in b.snapshots
      ensures Starts(apply, initial, node, b.origins[k], Holding(run), s)
    {
      StartsStill(apply, initial, b.disk.inodes[k], node, b.origins[k], Holding(b.run), Holding(run), s, last);
    }
    IsValid(node, b.origins[k], run);
    WrittenValid(b.disk, k, node, b.origins[k]);
  }

  lemma WrittenValid(disk: Disk, k: nat, node: Inode, o: Origin)
    requires disk.Valid() && k in disk.inodes && Headed(node, o)
    ensures disk.Write(k, node).Valid()
  {
  }

  /** Another file is written to. */
  lemma SideWritten<S>(apply: (S, Command) -> Option<S>, initial: S, b: Books<S>, next: nat, node: Inode)
    requires Sound(apply, initial, b) && WAL in b.disk.Visible() && next !in b.origins
    requires node.synced <= |node.data|
    ensures Sound(apply, initial, b.(disk := b.disk.Write(next, node)))
  {
    hide Elsewhere, Current, Apart;
  }

  /** The directory changes, but not under the journal's name. */
  lemma Entered<S>(apply: (S, Command) -> Option<S>, initial: S, b: Books<S>, dir: Dir)
    requires Sound(apply, initial, b) && WAL in dir && WAL in b.disk.Visible() && dir[WAL] == b.disk.Visible()[WAL]
    requires forall name <- dir :: dir[name] in b.disk.inodes
    ensures Sound(apply, initial, b.(disk := b.disk.Enter(dir)))
  {
    hide Elsewhere, Current, Apart;
  }

  /** The name moves on to a journal that holds the same. */
  lemma Moved<S>(apply: (S, Command) -> Option<S>, initial: S, b: Books<S>, dir: Dir, generation: Generation)
    requires Sound(apply, initial, b) && WAL in dir && dir[WAL] !in b.origins && WAL in b.disk.Visible()
    requires forall name <- dir :: dir[name] in b.disk.inodes
    requires |b.snapshots| == 1 && b.run.checkpoint.Some?
    requires FileOk(b.disk.inodes[dir[WAL]], Origin(generation, b.run.covered), b.run)
    requires b.disk.Visible()[WAL] in b.origins
    requires b.run.checkpoint.value.generation == b.origins[b.disk.Visible()[WAL]].generation != generation
    requires b.run.checkpoint.value.successor == Some(generation)
    ensures Sound(apply, initial, b.(disk := b.disk.Enter(dir),
                                    origins := b.origins[dir[WAL] := Origin(generation, b.run.covered)],
                                    held := b.held[b.disk.Visible()[WAL] := Holding(b.run)]))
  {
    hide FileOk, ApplyLog, Settles, Accepted, Current, Elsewhere, Starts, Disk.Valid;
    var k := b.disk.Visible()[WAL];
    MovedStarts(apply, initial, b.disk.inodes[k], b.disk.inodes[dir[WAL]], b.origins[k], Origin(generation, b.run.covered),
                b.run, b.snapshots, b.stale);
    assert b.disk.Enter(dir).Valid() by {
      MovedValid(b.disk, dir);
    }
  }

  lemma MovedStarts<S>(apply: (S, Command) -> Option<S>, initial: S, node: Inode, next: Inode, o: Origin, p: Origin, run: Run,
                       snapshots: seq<Snap<S>>, stale: bool)
    requires Current(apply, initial, node, o, run, snapshots) && |snapshots| == 1 && FileOk(next, p, run)
    ensures Current(apply, initial, next, p, run, snapshots)
    ensures Elsewhere(apply, initial, node, o, Holding(run), snapshots, stale)
  {
    hide FileOk, ApplyLog, Settles, Accepted;
    assert snapshots[0] in snapshots && forall s <- snapshots :: s == snapshots[0];
    IsValid(node, o, run);
  }

  lemma MovedValid(disk: Disk, dir: Dir)
    requires disk.Valid() && forall name <- dir :: dir[name] in disk.inodes
    ensures disk.Enter(dir).Valid()
  {
  }

  /** A directory sync settles the name. */
  lemma DirSynced<S>(apply: (S, Command) -> Option<S>, initial: S, b: Books<S>)
    requires Sound(apply, initial, b)
    ensures |b.disk.dirs| > 0 && Sound(apply, initial, b.(disk := b.disk.SyncDir(), held := map[], stale := false))
  {
    hide Elsewhere, Current;
  }

  /** A new snapshot becomes visible. Only journals of the visible generation
      and of the successor it authorizes are accepted with it. */
  lemma Renewed<S>(apply: (S, Command) -> Option<S>, initial: S, b: Books<S>, s: Snap<S>)
    requires Sound(apply, initial, b) && WAL in b.disk.Visible() && b.disk.Visible()[WAL] in b.origins
    requires var k := b.disk.Visible()[WAL];
             && k in b.disk.inodes && Starts(apply, initial, b.disk.inodes[k], b.origins[k], Holding(b.run), s)
             && s.checkpoint.Some? && s.checkpoint.value.successor.Some?
             && s.checkpoint.value.generation == b.origins[k].generation
    requires Unclaimed(b.held, b.origins, s.checkpoint.value.successor.value)
    ensures Sound(apply, initial, b.(snapshots := b.snapshots + [s], run := RunOf(Holding(b.run), s),
                                    stale := b.stale || b.held != map[]))
  {
    hide FileOk, ApplyLog, Settles, Accepted, Starts, Headed;
  }

  /** The snapshot's directory is synced. */
  lemma SnapSynced<S>(apply: (S, Command) -> Option<S>, initial: S, b: Books<S>)
    requires Sound(apply, initial, b)
    ensures |b.snapshots| > 0 && Sound(apply, initial, b.(snapshots := [b.snapshots[|b.snapshots| - 1]]))
  {
    hide FileOk, ApplyLog, Settles, Accepted, Starts, Headed, Apart;
    var s := b.snapshots[|b.snapshots| - 1];
    assert s in b.snapshots;
  }

  // ---- Power loss --------------------------------------------------------

  lemma HeadSurvives(node: Inode, after: Inode, o: Origin)
    requires Headed(node, o) && Survives(node, after)
    ensures Headed(after, o)
  {
  }

  lemma StartsAfter<S>(apply: (S, Command) -> Option<S>, initial: S, node: Inode, after: Inode, o: Origin, h: Held, s: Snap<S>)
    requires Starts(apply, initial, node, o, h, s) && Survives(node, after)
    ensures Starts(apply, initial, after, o, h, s)
  {
    hide FileOk, ApplyLog;
    Lost(node, o, RunOf(h, s), after);
  }

  /** What startup finds after a power loss that left `after` and the snapshot
      `s`: the visible journal, one it may fall back to, or a refused one. */
  lemma Fallen<S>(apply: (S, Command) -> Option<S>, initial: S, b: Books<S>, after: Disk, s: Snap<S>)
    requires Sound(apply, initial, b) && PowerLoss(b.disk, after) && s in b.snapshots
    ensures |after.dirs| == 1 && WAL in after.dirs[0] && WAL in b.disk.Visible() && after.Valid()
    ensures var k := after.dirs[0][WAL];
            && k in after.inodes && k in b.origins && (k == b.disk.Visible()[WAL] || k in b.held)
            && var h := if k in b.held then b.held[k] else Holding(b.run);
               Sound(apply, initial, Books(after, RunOf(h, s), [s], b.origins, map[], false)) ||
               (k in b.held && b.stale && Refuses(s, b.origins[k]) && Headed(after.inodes[k], b.origins[k]))
  {
    hide FileOk, ApplyLog, Settles, Accepted, Starts, Headed;
    SurvivingName(b.disk, after, WAL);
    PowerLossValid(b.disk, after);
    var k := after.dirs[0][WAL];
    assert Survives(b.disk.inodes[k], after.inodes[k]);
    var h := if k in b.held then b.held[k] else Holding(b.run);
    if Starts(apply, initial, b.disk.inodes[k], b.origins[k], h, s) {
      StartsAfter(apply, initial, b.disk.inodes[k], after.inodes[k], b.origins[k], h, s);
      assert Holding(RunOf(h, s)) == h;
      assert Current(apply, initial, after.inodes[k], b.origins[k], RunOf(h, s), [s]);
    } else {
      assert Elsewhere(apply, initial, b.disk.inodes[k], b.origins[k], b.held[k], b.snapshots, b.stale);
      HeadSurvives(b.disk.inodes[k], after.inodes[k], b.origins[k]);
    }
  }

  /** A refused journal is not replayed. */
  lemma NotReplayed<S>(node: Inode, o: Origin, s: Snap<S>)
    requires Headed(node, o) && Refuses(s, o)
    ensures ParseHeader(node.data) == Guarded(o.generation) && Replay(node.data, o.generation, s.checkpoint) == Failed
  {
    hide ParseHeader, Header;
    assert node.data == node.data[..HEADER_LEN] + node.data[HEADER_LEN..];
    HeaderRoundTrip(o.generation, node.data[HEADER_LEN..]);
  }

  /** Startup from this disk and this snapshot fails because the journal is refused. */
  predicate Fails<S>(after: Disk, s: Snap<S>) {
    && |after.dirs| == 1 && WAL in after.dirs[0] && after.dirs[0][WAL] in after.inodes
    && var data := after.inodes[after.dirs[0][WAL]].data;
       |data| >= HEADER_LEN && ParseHeader(data).Guarded? && Replay(data, ParseHeader(data).generation, s.checkpoint) == Failed
  }

  ghost predicate FallsOn<S>(b: Books<S>, i: int, s: Snap<S>) {
    && 0 <= i < |b.disk.dirs| && s in b.snapshots && WAL in b.disk.dirs[i] && b.disk.dirs[i][WAL] in b.origins
    && Refuses(s, b.origins[b.disk.dirs[i][WAL]])
  }

  /** Some power loss leaves a disk that startup refuses exactly if a directory
      state that may survive names a journal that a snapshot that may survive
      does not accept. */
  lemma StrandedExactly<S(!new)>(apply: (S, Command) -> Option<S>, initial: S, b: Books<S>)
    requires Sound(apply, initial, b)
    ensures (exists after, s :: PowerLoss(b.disk, after) && s in b.snapshots && Fails(after, s)) <==>
            exists i, s :: FallsOn(b, i, s)
  {
    hide PowerLoss, Fails, Sound, FallsOn;
    forall after, s | PowerLoss(b.disk, after) && s in b.snapshots && Fails(after, s)
      ensures exists i, s :: FallsOn(b, i, s)
    {
      var i := FallenWhere(apply, initial, b, after, s);
    }
    forall i, s | FallsOn(b, i, s)
      ensures exists after, s :: PowerLoss(b.disk, after) && s in b.snapshots && Fails(after, s)
    {
      FallsFor(apply, initial, b, i, s);
    }
  }

  lemma FallenWhere<S>(apply: (S, Command) -> Option<S>, initial: S, b: Books<S>, after: Disk, s: Snap<S>) returns (i: nat)
    requires Sound(apply, initial, b) && PowerLoss(b.disk, after) && s in b.snapshots && Fails(after, s)
    ensures FallsOn(b, i, s)
  {
    hide FileOk, ApplyLog, Settles, Accepted, Refuses, Headed, Replay, ParseHeader, Elsewhere, Apart;
    Fallen(apply, initial, b, after, s);
    var k := after.dirs[0][WAL];
    SurvivingName(b.disk, after, WAL);
    i :| 0 <= i < |b.disk.dirs| && b.disk.dirs[i][WAL] == k;
    var h := if k in b.held then b.held[k] else Holding(b.run);
    var found := Books(after, RunOf(h, s), [s], b.origins, map[], false);
    if Sound(apply, initial, found) {
      Located(apply, initial, found);
      Recovered(after.inodes[k], b.origins[k], RunOf(h, s));
      assert false;
    }
  }

  lemma FallsFor<S>(apply: (S, Command) -> Option<S>, initial: S, b: Books<S>, i: int, s: Snap<S>)
    requires Sound(apply, initial, b) && FallsOn(b, i, s)
    ensures s in b.snapshots && PowerLoss(b.disk, Worst(b.disk, b.disk.dirs[i])) && Fails(Worst(b.disk, b.disk.dirs[i]), s)
  {
    hide ApplyLog, Settles, Accepted, Replay, ParseHeader, PowerLoss, FileOk, Refuses;
    WorstWhole(b.disk, i);
    WorstFiles(b.disk, b.disk.dirs[i]);
    var k, after := b.disk.dirs[i][WAL], Worst(b.disk, b.disk.dirs[i]);
    Located(apply, initial, b);
    IsValid(b.disk.inodes[b.disk.Visible()[WAL]], b.origins[b.disk.Visible()[WAL]], b.run);
    HeadSurvives(b.disk.inodes[k], after.inodes[k], b.origins[k]);
    NotReplayed(after.inodes[k], b.origins[k], s);
  }

  /** How startup can be refused. A snapshot installed while a directory state
      that may survive still names an older journal leaves a power loss after
      which neither it nor its successor is found. */
  lemma InstallStrands<S>(apply: (S, Command) -> Option<S>, initial: S, b: Books<S>, s: Snap<S>, i: nat) returns (after: Disk)
    requires Sound(apply, initial, b) && i < |b.disk.dirs| && WAL in b.disk.dirs[i] && b.disk.dirs[i][WAL] in b.held
    requires WAL in b.disk.Visible() && b.disk.Visible()[WAL] in b.origins
    requires var k := b.disk.Visible()[WAL];
             && k in b.disk.inodes && Starts(apply, initial, b.disk.inodes[k], b.origins[k], Holding(b.run), s)
             && s.checkpoint.Some? && s.checkpoint.value.successor.Some?
             && s.checkpoint.value.generation == b.origins[k].generation
    requires Unclaimed(b.held, b.origins, s.checkpoint.value.successor.value)
    ensures PowerLoss(b.disk, after) && Fails(after, s)
  {
    hide Fails, PowerLoss, Elsewhere, Current, Disk.Valid, Starts;
    Renewed(apply, initial, b, s);
    var renewed := b.(snapshots := b.snapshots + [s], run := RunOf(Holding(b.run), s), stale := b.stale || b.held != map[]);
    assert FallsOn(renewed, i, s);
    FallsFor(apply, initial, renewed, i, s);
    after := Worst(b.disk, b.disk.dirs[i]);
  }

  // ---- When every acknowledged record survives ---------------------------

  /** Every directory state that may survive names a journal of this run. */
  ghost predicate AllLead(disk: Disk, origins: map<nat, Origin>, run: Run) {
    && disk.Valid() && origins.Keys <= disk.inodes.Keys
    && forall i | 0 <= i < |disk.dirs| :: Leads(disk, disk.dirs[i], origins, run)
  }

  ghost predicate Leads(disk: Disk, dir: Dir, origins: map<nat, Origin>, run: Run) {
    WAL in dir && dir[WAL] in disk.inodes && dir[WAL] in origins &&
    FileOk(disk.inodes[dir[WAL]], origins[dir[WAL]], run)
  }

  /** Recovery from this file replays the run from its snapshot to some record
      at or after the last acknowledged one. */
  ghost predicate Answers(file: bytes, o: Origin, run: Run)
    requires run.covered <= run.durable
  {
    && |file| >= HEADER_LEN && ParseHeader(file) == Guarded(o.generation)
    && var r := Replay(file, o.generation, run.checkpoint);
       r.Scanned? && exists n: nat :: run.durable <= n <= |run.log| && Reaches(r, o, run, n)
  }

  ghost predicate Reaches(r: Scanned, o: Origin, run: Run, n: nat)
    requires r.Scanned? && run.covered <= n <= |run.log|
  {
    o.base <= n && r.commands == Commands(run.log[run.covered..n]) && r.end == HEADER_LEN + |Frames(run.log[o.base..n])|
  }

  /** Whatever a power loss leaves, recovery answers for every acknowledged record. */
  ghost predicate AlwaysAnswers(disk: Disk, origins: map<nat, Origin>, run: Run)
    requires run.covered <= run.durable
  {
    forall after | PowerLoss(disk, after) :: JournalAnswers(after, origins, run)
  }

  ghost predicate JournalAnswers(after: Disk, origins: map<nat, Origin>, run: Run)
    requires run.covered <= run.durable
  {
    && |after.dirs| == 1 && WAL in after.dirs[0] && after.dirs[0][WAL] in after.inodes && after.dirs[0][WAL] in origins
    && Answers(after.inodes[after.dirs[0][WAL]].data, origins[after.dirs[0][WAL]], run)
  }

  /** A file that holds the run as far as its snapshot, but not every
      acknowledged record on stable storage, loses some of them. */
  lemma ShortFile(node: Inode, o: Origin, run: Run)
    requires FileOk(node, o, run.(durable := run.covered)) && run.Valid() && !FileOk(node, o, run)
    ensures !Answers(node.data[..node.synced], o, run)
  {
    hide Frames, Replay, ParseHeader, Recoverable, Commands, Header, Complete;
    var owed := run.(durable := run.covered);
    var after := Inode(node.data[..node.synced], node.synced);
    Lost(node, o, owed, after);
    Recovered(after, o, owed);
    var n, rs := Recoverable(after, o, owed), run.log[o.base..];
    SliceFrames(run.log, o.base, run.durable);
    assert rs[..run.durable - o.base] == run.log[o.base..run.durable];
    ShortCount(after, o, owed, run.durable);
    forall m: nat | run.durable <= m <= |run.log|
      ensures |Frames(run.log[o.base..m])| != |Frames(run.log[o.base..n])|
    {
      SliceWithin(run.log, o.base, n, m);
      FramesEmpty(run.log[n..m]);
    }
  }

  lemma ShortCount(node: Inode, o: Origin, run: Run, d: nat)
    requires FileOk(node, o, run) && o.base <= d <= |run.log|
    requires |node.data| < HEADER_LEN + |Frames(run.log[o.base..d])|
    ensures Recoverable(node, o, run) < d
  {
    hide Frames, Complete, JournalBytes, Authorized, AllStorable;
    var rs := run.log[o.base..];
    assert rs[..d - o.base] == run.log[o.base..d];
    CompleteIsLargest(rs, |node.data| - HEADER_LEN, d - o.base);
  }

  lemma LongFile(node: Inode, o: Origin, run: Run, after: Inode)
    requires FileOk(node, o, run) && Survives(node, after)
    ensures run.covered <= run.durable && Answers(after.data, o, run)
  {
    hide FileOk, Frames, Replay, ParseHeader, Recoverable, Commands;
    Lost(node, o, run, after);
    Recovered(after, o, run);
    var r := Replay(after.data, o.generation, run.checkpoint);
    assert Reaches(r, o, run, Recoverable(after, o, run));
  }

  /** Exactly when no acknowledged record can be lost: every directory state
      that may survive names a journal holding all of them on stable storage. */
  lemma RecoveredExactly(disk: Disk, origins: map<nat, Origin>, run: Run)
    requires run.Valid() && AllLead(disk, origins, run.(durable := run.covered))
    ensures AlwaysAnswers(disk, origins, run) <==> AllLead(disk, origins, run)
  {
    hide FileOk, Answers, PowerLoss, Disk.Valid;
    var owed := run.(durable := run.covered);
    forall i | 0 <= i < |disk.dirs| && !Leads(disk, disk.dirs[i], origins, run)
      ensures !AlwaysAnswers(disk, origins, run)
    {
      assert Leads(disk, disk.dirs[i], origins, owed);
      var k := disk.dirs[i][WAL];
      WorstWhole(disk, i);
      WorstFiles(disk, disk.dirs[i]);
      ShortFile(disk.inodes[k], origins[k], run);
      assert !JournalAnswers(Worst(disk, disk.dirs[i]), origins, run);
    }
    if AllLead(disk, origins, run) {
      forall after | PowerLoss(disk, after)
        ensures JournalAnswers(after, origins, run)
      {
        AnswersAfter(disk, origins, run, after);
      }
    }
  }

  lemma AnswersAfter(disk: Disk, origins: map<nat, Origin>, run: Run, after: Disk)
    requires run.Valid() && AllLead(disk, origins, run) && PowerLoss(disk, after)
    ensures JournalAnswers(after, origins, run)
  {
    hide FileOk, Answers, Disk.Valid, Survives;
    SurvivingName(disk, after, WAL);
    var k := after.dirs[0][WAL];
    var i :| 0 <= i < |disk.dirs| && disk.dirs[i][WAL] == k;
    assert Leads(disk, disk.dirs[i], origins, run) && Survives(disk.inodes[k], after.inodes[k]);
    LongFile(disk.inodes[k], origins[k], run, after.inodes[k]);
  }

  /** How an acknowledged record can be lost. If the process restarts
      after the rename of a rotation but before the directory sync, goes on
      appending to the new file `b` and acknowledges a record there, a power
      loss may still bring back the old file `a`, and that record is gone. */
  lemma UnsyncedRenameLosesAppends(disk: Disk, a: nat, b: nat, origins: map<nat, Origin>, run: Run, longer: Run)
    returns (after: Disk)
    requires disk.Valid() && |disk.dirs| == 2 && a in disk.inodes && b in disk.inodes && origins.Keys == {a, b}
    requires Lookup(disk.dirs[0], WAL) == Some(a) && Lookup(disk.dirs[1], WAL) == Some(b)
    requires Intact(disk.inodes[a], origins[a], run) && Intact(disk.inodes[b], origins[b], longer)
    requires longer == run.(log := longer.log, durable := longer.durable) && |run.log| < longer.durable
    requires longer.log[..|run.log|] == run.log
    ensures PowerLoss(disk, after) && Lookup(after.dirs[0], WAL) == Some(a)
    ensures !Answers(after.inodes[a].data, origins[a], longer)
  {
    hide FileOk, Answers, Disk.Valid, PowerLoss, Frames;
    after := Worst(disk, disk.dirs[0]);
    WorstWhole(disk, 0);
    WorstFiles(disk, disk.dirs[0]);
    IntactIsOk(disk.inodes[b], origins[b], longer);
    OlderFile(disk.inodes[a], origins[a], run, longer);
    ShortFile(disk.inodes[a], origins[a], longer);
  }

  lemma OlderFile(node: Inode, o: Origin, run: Run, longer: Run)
    requires Intact(node, o, run) && longer.Valid()
    requires longer == run.(log := longer.log, durable := longer.durable) && |run.log| < longer.durable
    requires longer.log[..|run.log|] == run.log
    ensures FileOk(node, o, longer.(durable := longer.covered)) && !FileOk(node, o, longer)
  {
    hide Frames, Header, Storable;
    var n := |run.log|;
    SliceFrames(longer.log, o.base, n);
    PrefixSlice(longer.log, n, o.base, n);
    PrefixSlice(longer.log, n, o.base, run.covered);
    assert longer.log[o.base..n] == run.log[o.base..];
    SliceWithin(run.log, o.base, run.covered, run.durable);
    var frames := Frames(run.log[o.base..]);
    assert (frames + Frames(longer.log[n..]))[..|frames|] == frames[..|frames|];
    SliceWithin(longer.log, o.base, n, longer.durable);
    FramesEmpty(longer.log[n..longer.durable]);
  }
}
