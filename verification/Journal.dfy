/** The journal over a whole run: appends, syncs, checkpoints, snapshot
    installs, rotations and power loss, with every crash point in between. */
module Journal {
  import opened Bytes
  import opened WalFormat
  import opened WalScan
  import WalCodec
  import opened FileSystem

  /** What one run owes its clients: every record logged so far, how many of
      them were acknowledged after a sync, how many the installed snapshot
      covers, and that snapshot's checkpoint. */
  datatype Run = Run(log: seq<Record>, durable: nat, covered: nat, checkpoint: Option<Checkpoint>) {
    ghost predicate Valid() {
      covered <= durable <= |log| && AllStorable(log) && (checkpoint.None? ==> covered == 0)
    }
  }

  /** The generation a journal file carries and the position in the run it starts at. */
  datatype Origin = Origin(generation: Generation, base: nat)

  ghost predicate Authorized(o: Origin, run: Run) {
    match run.checkpoint
    case None => o.base == 0
    case Some(c) => Names(c, run.covered, o.generation, run.log, o.base)
  }

  /** A file that may be found under the journal's name after a crash. */
  ghost predicate FileOk(node: Inode, o: Origin, run: Run) {
    && run.Valid() && o.base <= run.covered && Authorized(o, run)
    && HEADER_LEN <= |node.data| <= HEADER_LEN + |Frames(run.log[o.base..])|
    && node.data == JournalBytes(o.generation, run.log, o.base, |node.data| - HEADER_LEN)
    && HEADER_LEN + |Frames(run.log[o.base..run.durable])| <= node.synced <= |node.data|
  }

  /** The file holds every record of the run from its base on. */
  ghost predicate Intact(node: Inode, o: Origin, run: Run) {
    FileOk(node, o, run) && |node.data| == HEADER_LEN + |Frames(run.log[o.base..])|
  }

  lemma IntactIsOk(node: Inode, o: Origin, run: Run)
    requires Intact(node, o, run)
    ensures FileOk(node, o, run) && run.Valid()
  {
  }

  // ---- What each step does to a file -------------------------------------

  lemma Extend(log: seq<Record>, r: Record, base: nat)
    requires base <= |log|
    ensures (log + [r])[base..] == log[base..] + [r]
    ensures Frames((log + [r])[base..]) == Frames(log[base..]) + RecordFrame(r)
  {
    hide RecordFrame;
    FramesConcat(log[base..], [r]);
    FramesCons(r, []);
    assert [r] + [] == [r];
  }

  lemma Created(g: Generation)
    ensures Intact(Inode(Header(g), HEADER_LEN), Origin(g, 0), Run([], 0, 0, None))
  {
    hide Header;
    var none: seq<Record> := [];
    assert none[0..] == none && none[0..0] == none;
    assert Header(g) + Frames(none)[..0] == Header(g);
  }

  /** Any part of a frame may have reached the file. */
  lemma Appended(node: Inode, o: Origin, run: Run, r: Record, k: nat)
    requires Intact(node, o, run) && Storable(r) && k <= |RecordFrame(r)|
    ensures var node' := node.(data := node.data + RecordFrame(r)[..k]);
            var run' := run.(log := run.log + [r]);
            FileOk(node', o, run') && (k == |RecordFrame(r)| ==> Intact(node', o, run'))
  {
    hide RecordFrame, Frames, Storable, Header;
    Extend(run.log, r, o.base);
    var run' := run.(log := run.log + [r]);
    var rest := Frames(run.log[o.base..]);
    assert run'.log[o.base..run.durable] == run.log[o.base..run.durable];
    assert run'.log[o.base..run.covered] == run.log[o.base..run.covered];
    assert rest[..|rest|] == rest;
    assert (rest + RecordFrame(r))[..|rest| + k] == rest + RecordFrame(r)[..k];
    assert Header(o.generation) + rest + RecordFrame(r)[..k] == Header(o.generation) + (rest + RecordFrame(r)[..k]);
  }

  lemma Synced(node: Inode, o: Origin, run: Run)
    requires Intact(node, o, run)
    ensures Intact(node.(synced := |node.data|), o, run)
    ensures Intact(node.(synced := |node.data|), o, run.(durable := |run.log|))
  {
    hide Frames, Storable, Header;
    assert run.log[o.base..|run.log|] == run.log[o.base..];
  }

  /** A power loss keeps the file readable as part of the same run. */
  lemma Lost(node: Inode, o: Origin, run: Run, after: Inode)
    requires FileOk(node, o, run) && Survives(node, after)
    ensures FileOk(after, o, run)
  {
    hide Frames, Storable, Header;
    var frames := Frames(run.log[o.base..]);
    var k, k' := |node.data| - HEADER_LEN, |after.data| - HEADER_LEN;
    assert frames[..k][..k'] == frames[..k'];
    assert after.data == Header(o.generation) + frames[..k'];
  }

  /** A checkpoint taken on a whole, synced file names it. */
  lemma Installed(node: Inode, o: Origin, run: Run, n: nat, successor: Generation)
    requires FileOk(node, o, run) && run.covered <= n <= run.durable && successor != o.generation
    ensures var c := Checkpoint(o.generation, HEADER_LEN + |Frames(run.log[o.base..n])|, Some(successor));
            FileOk(node, o, run.(covered := n, checkpoint := Some(c)))
  {
  }

  lemma InstalledIntact(node: Inode, o: Origin, run: Run, n: nat, successor: Generation)
    requires Intact(node, o, run) && run.covered <= n <= run.durable && successor != o.generation
    ensures var c := Checkpoint(o.generation, HEADER_LEN + |Frames(run.log[o.base..n])|, Some(successor));
            Intact(node, o, run.(covered := n, checkpoint := Some(c)))
  {
    hide Frames, Header;
    Installed(node, o, run, n, successor);
  }

  lemma IntactBase(node: Inode, o: Origin, run: Run)
    requires Intact(node, o, run)
    ensures o.base <= run.covered
  {
  }

  /** The replacement file of a rotation: a new header and the frames after the checkpoint. */
  function Replacement(data: bytes, offset: nat, successor: Generation): bytes
    requires offset <= |data|
  {
    Header(successor) + data[offset..]
  }

  lemma OffsetInside(node: Inode, o: Origin, run: Run, c: Checkpoint)
    requires Intact(node, o, run) && run.checkpoint == Some(c) && c.generation == o.generation
    ensures HEADER_LEN <= c.offset <= |node.data|
  {
    hide Frames, Header;
    SliceWithin(run.log, o.base, run.covered, run.durable);
  }

  lemma Rotated(node: Inode, o: Origin, run: Run, c: Checkpoint, successor: Generation)
    requires Intact(node, o, run) && run.checkpoint == Some(c)
    requires c.generation == o.generation != successor && c.successor == Some(successor)
    requires c.offset <= |node.data|
    ensures var data := Replacement(node.data, c.offset, successor);
            Intact(Inode(data, |data|), Origin(successor, run.covered), run)
    ensures node.data[c.offset..] == Frames(run.log[run.covered..])
  {
    hide Frames, Storable, Header;
    SliceFrames(run.log, o.base, run.covered);
    var before, after := Frames(run.log[o.base..run.covered]), Frames(run.log[run.covered..]);
    assert (before + after)[..|before + after|] == before + after;
    assert node.data == Header(o.generation) + (before + after);
    assert node.data[c.offset..] == after;
    assert after[..|after|] == after;
    assert run.log[run.covered..run.covered] == [];
    FramesEmpty(run.log[run.covered..run.covered]);
    SliceFrames(run.log[run.covered..], 0, run.durable - run.covered);
    assert run.log[run.covered..][0..run.durable - run.covered] == run.log[run.covered..run.durable];
    assert run.log[run.covered..][0..] == run.log[run.covered..];
  }

  /** Dropping records that no snapshot covers. */
  lemma RolledBack(node: Inode, o: Origin, run: Run, n: nat)
    requires Intact(node, o, run) && run.covered <= n <= |run.log|
    ensures var size := HEADER_LEN + |Frames(run.log[o.base..n])|;
            var run' := run.(log := run.log[..n], durable := n);
            size <= |node.data| && Intact(Inode(node.data[..size], size), o, run')
  {
    hide Frames, Storable, Header;
    SliceFrames(run.log, o.base, n);
    var kept, dropped := Frames(run.log[o.base..n]), Frames(run.log[n..]);
    PrefixSlice(run.log, n, o.base, n);
    PrefixSlice(run.log, n, o.base, run.covered);
    assert (kept + dropped)[..|kept + dropped|] == kept + dropped;
    assert node.data == Header(o.generation) + (kept + dropped);
    assert kept[..|kept|] == kept;
  }

  /** The same cut, when the sync after it failed. */
  lemma CutButNotSynced(node: Inode, o: Origin, run: Run, n: nat)
    requires Intact(node, o, run) && run.durable <= n <= |run.log|
    ensures var size := HEADER_LEN + |Frames(run.log[o.base..n])|;
            size <= |node.data| &&
            FileOk(Inode(node.data[..size], if node.synced <= size then node.synced else size), o,
                   run.(log := run.log[..n]))
  {
    hide Frames, Storable, Header;
    RolledBack(node, o, run, n);
    PrefixSlice(run.log, n, o.base, run.durable);
    PrefixSlice(run.log, n, o.base, n);
    SliceFrames(run.log[..n], o.base, run.durable);
  }

  /** How many records of the run a surviving file recovers. */
  ghost function Recoverable(node: Inode, o: Origin, run: Run): (n: nat)
    requires FileOk(node, o, run)
  {
    o.base + Complete(run.log[o.base..], |node.data| - HEADER_LEN)
  }

  /** Where the last replayed record starts, if it is a checked one with nothing after it. */
  ghost function CheckedTail(o: Origin, run: Run, n: nat, clean: bool): Option<nat>
    requires o.base <= run.covered <= n <= |run.log|
  {
    if clean && run.covered < n && run.log[n - 1].Checked?
    then Some(HEADER_LEN + |Frames(run.log[o.base..n - 1])|) else None
  }

  lemma TailPosition(o: Origin, run: Run, n: nat)
    requires o.base <= run.covered <= n <= |run.log|
    ensures TailOf(run.log[run.covered..n], HEADER_LEN + |Frames(run.log[o.base..run.covered])|)
         == CheckedTail(o, run, n, true)
  {
    hide Frames;
    var kept := run.log[run.covered..n];
    if run.covered < n {
      assert kept[..|kept| - 1] == run.log[run.covered..n - 1];
      SliceWithin(run.log, o.base, run.covered, n - 1);
    }
  }

  /** Recovery from any file a crash may leave: it opens under its own
      generation and replays exactly the records after the snapshot up to `n`,
      which is at least every acknowledged record. */
  lemma Recovered(node: Inode, o: Origin, run: Run)
    requires FileOk(node, o, run)
    ensures var n := Recoverable(node, o, run);
            var r := Replay(node.data, o.generation, run.checkpoint);
            && o.base <= run.covered <= run.durable <= n <= |run.log| && node.synced <= |node.data|
            && ParseHeader(node.data) == Guarded(o.generation)
            && r.Scanned? && r.commands == Commands(run.log[run.covered..n])
            && r.end == HEADER_LEN + |Frames(run.log[o.base..n])| <= |node.data|
            && r.checkedTail == CheckedTail(o, run, n, r.end == |node.data|)
  {
    hide Frames, Storable, Header, Scan, ParseHeader, Complete, TailOf, CheckedTail;
    var rs, k := run.log[o.base..], |node.data| - HEADER_LEN;
    var n, m := Recoverable(node, o, run), Complete(rs, k);
    HeaderRoundTrip(o.generation, Frames(rs)[..k]);
    assert rs[..run.durable - o.base] == run.log[o.base..run.durable];
    CompleteIsLargest(rs, k, run.durable - o.base);
    assert rs[..m] == run.log[o.base..n];
    CompleteIsLargest(rs, k, m);
    RecoveredCommands(node, o, run, n);
  }

  /** Once the torn bytes are cut off, the file is whole again for the run that ends at `n`. */
  lemma RecoveredFile(node: Inode, o: Origin, run: Run, n: nat, synced: nat)
    requires FileOk(node, o, run) && run.durable <= n <= |run.log|
    requires |Frames(run.log[o.base..n])| <= |node.data| - HEADER_LEN
    requires node.synced <= synced <= HEADER_LEN + |Frames(run.log[o.base..n])| ||
             synced == HEADER_LEN + |Frames(run.log[o.base..n])|
    ensures var size := HEADER_LEN + |Frames(run.log[o.base..n])|;
            Intact(Inode(node.data[..size], synced), o, run.(log := run.log[..n]))
  {
    hide Frames, Storable, Header;
    SliceFrames(run.log, o.base, n);
    var kept, k := Frames(run.log[o.base..n]), |node.data| - HEADER_LEN;
    PrefixSlice(run.log, n, o.base, n);
    PrefixSlice(run.log, n, o.base, run.durable);
    PrefixSlice(run.log, n, o.base, run.covered);
    assert Frames(run.log[o.base..])[..k][..|kept|] == kept;
    assert kept[..|kept|] == kept;
    assert node.data[..HEADER_LEN + |kept|] == Header(o.generation) + kept;
    SliceFrames(run.log[..n], o.base, run.durable);
  }

  /** If every record is recovered there are no torn bytes. */
  lemma CleanIfComplete(node: Inode, o: Origin, run: Run, n: nat)
    requires FileOk(node, o, run) && n <= |run.log| && o.base <= n
    requires HEADER_LEN + |Frames(run.log[o.base..n])| <= |node.data|
    ensures n == |run.log| ==> HEADER_LEN + |Frames(run.log[o.base..n])| == |node.data|
  {
    hide Frames;
    if n == |run.log| {
      assert run.log[o.base..n] == run.log[o.base..];
    }
  }

  lemma RecoveredCommands(node: Inode, o: Origin, run: Run, n: nat)
    requires FileOk(node, o, run) && n == Recoverable(node, o, run) && run.durable <= n <= |run.log|
    ensures var r := Replay(node.data, o.generation, run.checkpoint);
            r.Scanned? && r.commands == Commands(run.log[run.covered..n])
            && r.end == HEADER_LEN + |Frames(run.log[o.base..n])|
            && r.checkedTail == CheckedTail(o, run, n, r.end == |node.data|)
  {
    hide Frames, Storable, Header, Scan, Complete, TailOf, Replay, CheckedTail, Commands;
    TailPosition(o, run, n);
    TornTail(o, run, n);
    if run.checkpoint.None? {
      FromScratch(node, o, run, n);
    } else {
      var k := |node.data| - HEADER_LEN;
      SliceWithin(run.log, o.base, run.covered, run.durable);
      ReplayAfterCheckpoint(run.checkpoint.value, run.covered, o.generation, run.log, o.base, k);
      OwedAfter(run.log, o.base, run.covered, k);
    }
  }

  lemma TornTail(o: Origin, run: Run, n: nat)
    requires o.base <= run.covered <= n <= |run.log|
    ensures CheckedTail(o, run, n, false) == None
  {
  }

  lemma FromScratch(node: Inode, o: Origin, run: Run, n: nat)
    requires FileOk(node, o, run) && n == Recoverable(node, o, run) && run.durable <= n <= |run.log|
    requires run.checkpoint.None?
    ensures Replay(node.data, o.generation, None)
         == Scanned(Commands(run.log[run.covered..n]),
                    if |node.data| == HEADER_LEN + |Frames(run.log[o.base..n])|
                    then TailOf(run.log[run.covered..n], HEADER_LEN + |Frames(run.log[o.base..run.covered])|) else None,
                    HEADER_LEN + |Frames(run.log[o.base..n])|)
  {
    hide Frames, Storable, Header, Scan, Complete, TailOf, Replay, Commands;
    var k := |node.data| - HEADER_LEN;
    FramesEmpty(run.log[o.base..run.covered]);
    assert run.log[o.base..] == run.log;
    ReplayFromScratch(o.generation, run.log, k);
    assert run.log[..n] == run.log[run.covered..n] == run.log[o.base..n];
  }

  /** What is owed after the covered records, in terms of the file as a whole. */
  lemma OwedAfter(log: seq<Record>, base: nat, covered: nat, k: nat)
    requires base <= covered <= |log| && |Frames(log[base..covered])| <= k
    ensures var n := base + Complete(log[base..], k);
            var skip := |Frames(log[base..covered])|;
            covered <= n <= |log| &&
            Owed(log[covered..], k - skip, HEADER_LEN + skip)
            == Scanned(Commands(log[covered..n]),
                       if HEADER_LEN + k == HEADER_LEN + |Frames(log[base..n])|
                       then TailOf(log[covered..n], HEADER_LEN + skip) else None,
                       HEADER_LEN + |Frames(log[base..n])|)
  {
    hide Frames, Complete, TailOf, Commands;
    var rs := log[base..];
    assert rs[..covered - base] == log[base..covered];
    CompleteShift(rs, covered - base, k);
    assert rs[covered - base..] == log[covered..];
    var n := base + Complete(rs, k);
    assert log[covered..][..n - covered] == log[covered..n];
    SliceFrames(log[..n], base, covered);
    PrefixSlice(log, n, base, n);
    PrefixSlice(log, n, base, covered);
    PrefixSlice(log, n, covered, n);
  }
}
