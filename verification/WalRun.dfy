/** The write-ahead log as the store drives it. The process may stop between
    any two file operations; `OnDisk` is what holds at every such instant. */
module WalRun {
  import opened Bytes
  import opened WalFormat
  import opened WalScan
  import WalCodec
  import opened FileSystem
  import opened Journal
  import opened WalReplay
  import opened WalNames

  datatype Status = Ok | Err | Died

  datatype Pending<S> = Pending(checkpoint: Checkpoint, state: S)

  /** Every generation in use was drawn. */
  ghost predicate AllDrawn<S>(origins: map<nat, Origin>, snapshots: seq<Snap<S>>, drawn: set<Generation>) {
    && (forall k <- origins :: origins[k].generation in drawn)
    && (forall s <- snapshots :: s.checkpoint.Some? && s.checkpoint.value.successor.Some? ==>
                                   s.checkpoint.value.successor.value in drawn)
  }

  lemma NewlyDrawn<S>(origins: map<nat, Origin>, snapshots: seq<Snap<S>>, drawn: set<Generation>, held: map<nat, Held>,
                      g: Generation)
    requires AllDrawn(origins, snapshots, drawn) && held.Keys <= origins.Keys && g !in drawn
    ensures AllDrawn(origins, snapshots, drawn + {g}) && Unclaimed(held, origins, g)
    ensures forall k <- origins :: origins[k].generation != g
  {
  }

  lemma DrawnSnap<S>(origins: map<nat, Origin>, snapshots: seq<Snap<S>>, drawn: set<Generation>, s: Snap<S>)
    requires AllDrawn(origins, snapshots, drawn)
    requires s in snapshots || (s.checkpoint.Some? && s.checkpoint.value.successor.Some? ==>
                                  s.checkpoint.value.successor.value in drawn)
    ensures AllDrawn(origins, snapshots + [s], drawn) && AllDrawn(origins, [s], drawn)
  {
  }

  lemma DrawnOrigin<S>(origins: map<nat, Origin>, snapshots: seq<Snap<S>>, drawn: set<Generation>, k: nat, o: Origin)
    requires AllDrawn(origins, snapshots, drawn) && |snapshots| > 0
    requires var c := snapshots[|snapshots| - 1].checkpoint; c.Some? && c.value.successor == Some(o.generation)
    ensures AllDrawn(origins[k := o], snapshots, drawn)
  {
    assert snapshots[|snapshots| - 1] in snapshots;
  }

  class Wal<S(!new)> {
    const initial: S
    const apply: (S, Command) -> Option<S>

    var disk: Disk
    /** The open handle: an inode and a cursor. */
    var ino: nat
    var cursor: nat
    var generation: Generation
    var poisoned: bool
    /** The store's memory. */
    var live: S
    /** The installed snapshots since their directory was last synced; the last
        one is visible. The initial state and no checkpoint at first. */
    var snapshots: seq<Snap<S>>
    /** A snapshot captured but not installed yet. */
    var pending: Option<Pending<S>>
    /** Every generation drawn so far; they are random. */
    var drawn: set<Generation>

    ghost var run: Run
    ghost var marked: nat
    ghost var origins: map<nat, Origin>
    /** What older journals hold that an unsynced rename may bring back. */
    ghost var held: map<nat, Held>
    /** A snapshot was installed while there were such journals. */
    ghost var stale: bool

    ghost function Ledger(): Books<S>
      reads this
    {
      Books(disk, run, snapshots, origins, held, stale)
    }

    /** Whatever a power loss leaves here, startup finds what `Sound` says. */
    ghost predicate OnDisk()
      reads this
    {
      Sound(apply, initial, Ledger()) && AllDrawn(origins, snapshots, drawn)
    }

    /** The journal under its name does not belong to the snapshot. */
    ghost predicate Refusing()
      reads this
    {
      && disk.Valid() && |disk.dirs| == 1 && |snapshots| == 1
      && WAL in disk.dirs[0] && disk.dirs[0][WAL] in origins
      && Headed(disk.inodes[disk.dirs[0][WAL]], origins[disk.dirs[0][WAL]])
      && Refuses(snapshots[0], origins[disk.dirs[0][WAL]])
    }

    /** The installed snapshot lets a successor replace the journal. */
    predicate Ready()
      reads this`snapshots, this`generation
    {
      && |snapshots| == 1 && snapshots[0].checkpoint.Some? && snapshots[0].checkpoint.value.generation == generation
      && snapshots[0].checkpoint.value.successor.Some? && snapshots[0].checkpoint.value.successor.value != generation
    }

    ghost predicate CapturedOk()
      reads this`pending, this`ino, this`origins, this`run, this`marked, this`drawn, this`generation, this`held
    {
      pending.Some? ==>
        && ino in origins
        && run.covered <= marked <= run.durable <= |run.log|
        && origins[ino].base <= run.covered
        && pending.value.checkpoint.successor.Some?
        && pending.value.checkpoint.successor.value in drawn
        && pending.value.checkpoint.successor.value != generation
        && Unclaimed(held, origins, pending.value.checkpoint.successor.value)
        && pending.value.checkpoint.generation == generation
        && pending.value.checkpoint.offset == HEADER_LEN + |Frames(run.log[origins[ino].base..marked])|
        && ApplyLog(apply, initial, run.log[..marked]) == Some(pending.value.state)
    }

    /** The open file is the one under the journal's name. */
    ghost predicate Attached()
      reads this
    {
      |disk.dirs| > 0 && WAL in disk.Visible() && disk.Visible()[WAL] == ino && ino in disk.inodes && ino in origins
    }

    /** The handle is the journal, whole and with the cursor at its end. */
    ghost predicate Writable()
      reads this
    {
      && OnDisk() && Attached() && !poisoned
      && Intact(disk.inodes[ino], origins[ino], run)
      && origins[ino].generation == generation
      && cursor == |disk.inodes[ino].data|
      && CapturedOk()
    }

    /** Memory holds the effect of every logged record. */
    ghost predicate Healthy()
      reads this
    {
      Writable() && ApplyLog(apply, initial, run.log) == Some(live)
    }

    /** Memory holds the effect of every record but the last, which is unacknowledged. */
    ghost predicate Appending()
      reads this
    {
      Writable() && run.log != [] && run.durable < |run.log| &&
      ApplyLog(apply, initial, run.log[..|run.log| - 1]) == Some(live)
    }

    /** A new journal: header written and synced, then its directory. */
    constructor (initial: S, apply: (S, Command) -> Option<S>, generation: Generation)
      ensures Healthy() && run == Run([], 0, 0, None) && live == initial && held == map[] && !stale
      ensures this.initial == initial && this.apply == apply && pending.None? && !Ready() && drawn == {generation}
    {
      hide Intact, FileOk, Header, Frames, ApplyLog, Settles, AllStorable;
      this.initial, this.apply, this.generation := initial, apply, generation;
      ino, cursor, poisoned := 0, HEADER_LEN, false;
      disk := Disk(map[0 := Inode(Header(generation), HEADER_LEN)], [map[WAL := 0]]);
      live, snapshots, pending, drawn := initial, [Snap(initial, None, 0)], None, {generation};
      run, marked, origins := Run([], 0, 0, None), 0, map[0 := Origin(generation, 0)];
      held, stale := map[], false;
      new;
      Created(generation);
      IntactIsOk(disk.inodes[0], origins[0], run);
      NothingLogged(apply, initial);
      assert run.log[..0] == [];
      assert Starts(apply, initial, disk.inodes[0], origins[0], Holding(run), snapshots[0]);
    }

    /** `append_encoded_frames` and the poisoning of a journal whose partial
        frame could not be cut off again. */
    method Append(r: Record, faults: bool) returns (status: Status)
      requires Healthy() && Storable(r)
      requires Settles(apply, initial, run.log + [r])
      modifies this`disk, this`cursor, this`run, this`poisoned
      ensures OnDisk()
      ensures run == old(run) || run == old(run).(log := old(run).log + [r])
      ensures status == Ok ==> Appending() && run.log == old(run.log) + [r]
      ensures status == Err ==> poisoned || (Healthy() && run == old(run))
      ensures !faults ==> status == Ok
    {
      hide Sound, AllDrawn, Unclaimed, Intact, FileOk, RecordFrame, Frames, ApplyLog, Settles, Storable, AllStorable;
      hide Disk.Valid;
      var encoded := WalCodec.EncodeRecord(r);
      var frame := encoded.value;
      var written := Reached(faults, |frame|);
      var died := Struck(faults);
      if written == |frame| || died {
        Grow(r, frame, written);
        return if died then Died else Ok;
      }
      status := Withdraw(r, frame, written, faults);
    }

    /** The journal's file becomes `node`, of the run `next`. */
    method Write(node: Inode, ghost next: Run)
      requires OnDisk() && Attached() && next == run.(log := next.log, durable := next.durable)
      requires FileOk(node, origins[ino], next) && Accepted(apply, initial, Holding(next))
      requires run.durable <= next.durable && run.durable <= |run.log| && run.durable <= |next.log|
      requires next.log[..run.durable] == run.log[..run.durable]
      modifies this`disk, this`run
      ensures OnDisk() && Attached() && disk == old(disk).Write(ino, node) && run == next
    {
      hide Sound, AllDrawn, Unclaimed, FileOk, Accepted, Frames, Disk.Valid;
      Rewritten(apply, initial, Ledger(), node, next);
      disk := disk.Write(ino, node);
      run := next;
    }

    lemma Owes()
      requires OnDisk()
      ensures run.Valid() && Accepted(apply, initial, Holding(run))
    {
      hide Sound, FileOk, ApplyLog, Settles, Frames;
      Located(apply, initial, Ledger());
    }

    /** Part of a frame, or all of it, reaches the file. */
    method Grow(ghost r: Record, frame: bytes, written: nat)
      requires Healthy() && Storable(r) && Settles(apply, initial, run.log + [r])
      requires frame == RecordFrame(r) && written <= |frame|
      modifies this`disk, this`cursor, this`run
      ensures OnDisk() && run == old(run).(log := old(run).log + [r])
      ensures written == |frame| ==> Appending()
    {
      hide Sound, AllDrawn, Unclaimed, Intact, FileOk, RecordFrame, Frames, ApplyLog, Settles, Storable, AllStorable;
      hide Disk.Valid;
      var node := disk.inodes[ino];
      var longer := node.(data := node.data + frame[..written]);
      Owes();
      Unchanged(r);
      Appended(node, origins[ino], run, r, written);
      Write(longer, run.(log := run.log + [r]));
      cursor := |longer.data|;
    }

    /** Take a partial frame back: cut the file and sync it. If either fails the
        journal is poisoned, with the partial frame in it or without. */
    method Withdraw(ghost r: Record, frame: bytes, written: nat, faults: bool) returns (status: Status)
      requires Healthy() && Storable(r) && Settles(apply, initial, run.log + [r])
      requires frame == RecordFrame(r) && written < |frame|
      modifies this`disk, this`cursor, this`run, this`poisoned
      ensures OnDisk() && status == Err
      ensures run == old(run) || run == old(run).(log := old(run).log + [r])
      ensures poisoned || (Healthy() && run == old(run))
    {
      hide Sound, AllDrawn, Unclaimed, Intact, FileOk, RecordFrame, Frames, ApplyLog, Settles, Storable, AllStorable;
      hide Disk.Valid;
      var stuck := Struck(faults);
      if stuck {
        Grow(r, frame, written);
        poisoned := true;
        return Err;
      }
      var node := disk.inodes[ino];
      var unsynced := Struck(faults);
      var cut := node.(synced := if unsynced then node.synced else |node.data|);
      Owes();
      Synced(node, origins[ino], run);
      IntactIsOk(cut, origins[ino], run);
      Write(cut, run);
      poisoned := unsynced;
      return Err;
    }

    /** A longer log has the same covered and captured part. */
    lemma Unchanged(r: Record)
      requires run.Valid() && CapturedOk()
      ensures run.(log := run.log + [r]).Valid() <==> Storable(r)
      ensures (run.log + [r])[..run.covered] == run.log[..run.covered]
      ensures (run.log + [r])[..run.durable] == run.log[..run.durable]
      ensures (run.log + [r])[..|run.log|] == run.log
      ensures pending.Some? ==>
                && (run.log + [r])[..marked] == run.log[..marked]
                && (run.log + [r])[origins[ino].base..marked] == run.log[origins[ino].base..marked]
    {
      hide Storable, Frames, ApplyLog;
      assert (run.log + [r])[|run.log|] == r;
    }

    /** `sync_all` on the journal. */
    method Fsync(faults: bool) returns (ok: bool)
      requires Writable()
      modifies this`disk, this`run
      ensures Writable() && run == old(run)
      ensures ok ==> disk.inodes[ino].synced == |disk.inodes[ino].data|
      ensures !faults ==> ok
    {
      hide Sound, AllDrawn, Unclaimed, Intact, FileOk, Frames, ApplyLog, Settles;
      var hit := Struck(faults);
      if hit {
        return false;
      }
      var node := disk.inodes[ino];
      var stable := node.(synced := |node.data|);
      Owes();
      Synced(node, origins[ino], run);
      IntactIsOk(stable, origins[ino], run);
      Write(stable, run);
      return true;
    }

    /** Every record of a synced journal may be acknowledged. */
    ghost method Acknowledge()
      requires Writable() && disk.inodes[ino].synced == |disk.inodes[ino].data|
      requires ApplyLog(apply, initial, run.log).Some?
      modifies this`run
      ensures Writable() && run == old(run).(durable := |old(run).log|)
    {
      hide Sound, AllDrawn, Unclaimed, Intact, FileOk, Frames, ApplyLog, Settles;
      var acked := run.(durable := |run.log|);
      Synced(disk.inodes[ino], origins[ino], run);
      IntactIsOk(disk.inodes[ino], origins[ino], acked);
      Owes();
      assert run.log[..|run.log|] == run.log;
      Rewritten(apply, initial, Ledger(), disk.inodes[ino], acked);
      assert disk.Write(ino, disk.inodes[ino]) == disk;
      run := acked;
    }

    /** `rollback_to`: cut the journal back to the end of record `n` and sync. */
    method RollbackTo(offset: nat, ghost n: nat, faults: bool) returns (ok: bool)
      requires Writable() && run.durable <= n <= |run.log|
      requires pending.Some? ==> marked <= n
      requires offset == HEADER_LEN + |Frames(run.log[origins[ino].base..n])|
      requires ApplyLog(apply, initial, run.log[..n]).Some?
      modifies this`disk, this`run, this`cursor, this`poisoned
      ensures OnDisk()
      ensures ok ==> Writable() && run == old(run).(log := old(run).log[..n], durable := n)
      ensures !ok ==> poisoned && (run == old(run) || run == old(run).(log := old(run).log[..n]))
      ensures !faults ==> ok
    {
      hide Sound, AllDrawn, Unclaimed, Intact, FileOk, Frames, ApplyLog;
      var node := disk.inodes[ino];
      var hit := Struck(faults);
      if hit {
        poisoned := true;
        return false;
      }
      Owes();
      Shortened(n);
      cursor := offset;
      hit := Struck(faults);
      if hit {
        CutButNotSynced(node, origins[ino], run, n);
        var cut := Inode(node.data[..offset], if node.synced <= offset then node.synced else offset);
        Write(cut, run.(log := run.log[..n]));
        poisoned := true;
        return false;
      }
      RolledBack(node, origins[ino], run, n);
      var cut := Inode(node.data[..offset], offset);
      ghost var kept := run.(log := run.log[..n], durable := n);
      IntactIsOk(cut, origins[ino], kept);
      Write(cut, kept);
      return true;
    }

    /** A shorter log that keeps the covered and captured part. */
    lemma Shortened(n: nat)
      requires run.Valid() && CapturedOk() && run.durable <= n <= |run.log|
      ensures run.(log := run.log[..n]).Valid() && run.(log := run.log[..n], durable := n).Valid()
      ensures run.log[..n][..run.covered] == run.log[..run.covered]
      ensures run.log[..n][..run.durable] == run.log[..run.durable] && run.log[..n][..n] == run.log[..n]
      ensures pending.Some? ==>
                && run.log[..n][..marked] == run.log[..marked]
                && run.log[..n][origins[ino].base..marked] == run.log[origins[ino].base..marked]
    {
      hide Storable, Frames, ApplyLog;
    }

    /** The end of the journal is the position of record `|run.log|`. */
    lemma EndOffset(r: Record)
      requires Writable()
      ensures var o := origins[ino];
              o.base <= |run.log| && cursor == HEADER_LEN + |Frames((run.log + [r])[o.base..|run.log|])|
    {
      hide Frames, Header;
      assert (run.log + [r])[origins[ino].base..|run.log|] == run.log[origins[ino].base..];
    }

    /** `commit_journaled`: append the commands as one record, sync it if asked,
        and only then change memory. */
    method Commit(commands: seq<Command>, sync: bool, faults: bool) returns (status: Status)
      requires Healthy() && commands != [] && Storable(AsRecord(commands))
      requires ApplyAll(apply, live, commands).Some?
      modifies this`disk, this`cursor, this`run, this`poisoned, this`live
      ensures OnDisk() && Follows(old(run), run, AsRecord(commands))
      ensures status == Ok ==>
                && Healthy() && run.log == old(run.log) + [AsRecord(commands)]
                && ApplyAll(apply, old(live), commands) == Some(live)
                && (sync ==> run.durable == |run.log|)
      ensures status == Err ==> poisoned || (Healthy() && run.log == old(run.log) && live == old(live))
      ensures !faults ==> status == Ok
    {
      hide Sound, AllDrawn, Unclaimed, Intact, FileOk, Frames, Storable, ApplyAll, ApplyLog;
      var r := AsRecord(commands);
      assert CommandsOf(r) == commands;
      ApplyNext(apply, initial, run.log, live, r);
      EndOffset(r);
      var offset := cursor;
      status := Append(r, faults);
      if status != Ok {
        return;
      }
      assert run.log[..|run.log| - 1] == old(run.log);
      if sync {
        var ok := Fsync(faults);
        if !ok {
          var undone := RollbackTo(offset, |run.log| - 1, faults);
          return Err;
        }
        Acknowledge();
      }
      live := ApplyAll(apply, live, commands).value;
    }

    /** `commit_journaled_checked`: the handler may still reject the command
        after it is in the journal; then the record is taken out again. */
    method CommitChecked(command: Command, sync: bool, faults: bool) returns (status: Status, accepted: bool)
      requires Healthy() && Storable(Checked(command))
      modifies this`disk, this`cursor, this`run, this`poisoned, this`live
      ensures OnDisk() && Follows(old(run), run, Checked(command))
      ensures status == Ok ==> Healthy() && accepted == apply(old(live), command).Some?
      ensures status == Ok && accepted ==>
                && run.log == old(run.log) + [Checked(command)]
                && apply(old(live), command) == Some(live)
                && (sync ==> run.durable == |run.log|)
      ensures status == Ok && !accepted ==> run.log == old(run.log) && live == old(live)
      ensures status == Err ==> poisoned || (Healthy() && run.log == old(run.log) && live == old(live))
      ensures !faults ==> status == Ok
    {
      hide Sound, AllDrawn, Unclaimed, Intact, FileOk, Frames, Storable, ApplyLog;
      var r := Checked(command);
      accepted := false;
      ApplyNext(apply, initial, run.log, live, r);
      EndOffset(r);
      assert (run.log + [r])[..|run.log|] == run.log;
      hide ApplyAll;
      var offset := cursor;
      status := Append(r, faults);
      if status != Ok {
        return;
      }
      assert run.log[..|run.log| - 1] == old(run.log);
      var next := apply(live, command);
      if sync {
        var ok := Fsync(faults);
        if !ok {
          var undone := RollbackTo(offset, |run.log| - 1, faults);
          return Err, false;
        }
      }
      if next.None? {
        var undone := RollbackTo(offset, |run.log| - 1, faults);
        return if undone then Ok else Err, false;
      }
      if sync {
        Acknowledge();
      }
      live := next.value;
      return Ok, true;
    }

    /** `checkpoint`, under the store's write barrier: sync, then name the end of
        this generation and the only generation that may replace it. */
    method CaptureSnapshot(successor: Generation, faults: bool) returns (ok: bool)
      requires Healthy() && successor !in drawn
      modifies this`disk, this`run, this`pending, this`marked, this`drawn
      ensures Healthy() && run == old(run).(durable := run.durable) && old(run.durable) <= run.durable
      ensures !ok ==> run == old(run) && pending == old(pending) && drawn == old(drawn)
      ensures ok ==> drawn == old(drawn) + {successor}
      ensures ok ==> run.durable == |run.log| && marked == |run.log| &&
                     pending == Some(Pending(Checkpoint(generation, cursor, Some(successor)), live))
      ensures !faults ==> ok
    {
      hide Sound, AllDrawn, Unclaimed, Intact, FileOk, Frames, ApplyLog, Settles;
      Owes();
      ok := Fsync(faults);
      if ok {
        Acknowledge();
        Checkpointed(successor);
        pending := Some(Pending(Checkpoint(generation, cursor, Some(successor)), live));
        marked, drawn := |run.log|, drawn + {successor};
      }
    }

    /** The end of a synced journal is where a checkpoint may be. */
    lemma Checkpointed(successor: Generation)
      requires Writable() && successor !in drawn
      ensures origins[ino].base <= run.covered <= |run.log| && run.log[..|run.log|] == run.log
      ensures cursor == HEADER_LEN + |Frames(run.log[origins[ino].base..|run.log|])|
      ensures AllDrawn(origins, snapshots, drawn + {successor}) && Unclaimed(held, origins, successor)
      ensures successor != generation
    {
      hide Sound, AllDrawn, Unclaimed, Intact, FileOk, Frames, ApplyLog, Settles;
      Located(apply, initial, Ledger());
      EndOffset(Plain([]));
      assert (run.log + [Plain([])])[origins[ino].base..|run.log|] == run.log[origins[ino].base..|run.log|];
      IntactBase(disk.inodes[ino], origins[ino], run);
      NewlyDrawn(origins, snapshots, drawn, held, successor);
    }

    /** `save_entries_observed`: rename the captured snapshot over the installed
        one and sync its directory. If the sync fails the process goes on, with
        either snapshot left by a power loss. */
    method InstallSnapshot(faults: bool) returns (status: Status)
      requires Healthy() && pending.Some?
      modifies this`snapshots, this`pending, this`run, this`stale
      ensures Healthy() && pending.None? && Holding(run) == old(Holding(run))
      ensures var s := Snap(old(pending).value.state, Some(old(pending).value.checkpoint), old(marked));
              if status == Ok then snapshots == [s] && run.covered == old(marked)
              else snapshots == old(snapshots) || snapshots == old(snapshots) + [s]
      ensures old(stale) ==> stale
      ensures stale ==> old(stale) || held != map[]
      ensures status == Ok ==> Ready()
      ensures !faults ==> status == Ok
    {
      hide Sound, AllDrawn, Unclaimed, Intact, FileOk, Frames, ApplyLog, Settles;
      var captured := pending.value;
      var hit := Struck(faults);
      if hit {
        pending := None;
        return Err;
      }
      Publicize();
      hit := Struck(faults);
      if hit {
        return Died;
      }
      hit := Struck(faults);
      if hit {
        return Err;
      }
      SnapSynced(apply, initial, Ledger());
      DrawnSnap(origins, snapshots, drawn, snapshots[|snapshots| - 1]);
      snapshots := [snapshots[|snapshots| - 1]];
      return Ok;
    }

    /** The captured snapshot becomes the visible one. */
    method Publicize()
      requires Healthy() && pending.Some?
      modifies this`snapshots, this`pending, this`run, this`stale
      ensures Healthy() && pending.None? && Holding(run) == old(Holding(run)) && run.covered == old(marked)
      ensures snapshots == old(snapshots) + [Snap(old(pending).value.state, Some(old(pending).value.checkpoint), old(marked))]
      ensures stale == (old(stale) || held != map[])
    {
      hide Sound, AllDrawn, Unclaimed, Intact, FileOk, Frames, ApplyLog, Settles;
      var node, c := disk.inodes[ino], pending.value.checkpoint;
      var s := Snap(pending.value.state, Some(c), marked);
      Located(apply, initial, Ledger());
      InstalledIntact(node, origins[ino], run, marked, c.successor.value);
      ghost var renewed := RunOf(Holding(run), s);
      IntactIsOk(node, origins[ino], renewed);
      Renewed(apply, initial, Ledger(), s);
      DrawnSnap(origins, snapshots, drawn, s);
      snapshots, pending := snapshots + [s], None;
      run, stale := renewed, stale || held != map[];
    }

    /** The replacement file is being written under a name of its own; the journal is untouched. */
    ghost predicate Staging(next: nat, tmp: string)
      reads this
    {
      Healthy() && tmp != WAL && next != ino && next in disk.inodes && next !in origins &&
      disk.inodes[next].synced <= |disk.inodes[next].data|
    }

    /** One write to the replacement; a failure may leave part of it. */
    method WriteReplacement(next: nat, tmp: string, data: bytes, faults: bool) returns (ok: bool)
      requires Staging(next, tmp)
      modifies this`disk
      ensures Staging(next, tmp)
      ensures disk.inodes[ino] == old(disk).inodes[ino]
      ensures ok ==> disk.inodes[next].data == old(disk).inodes[next].data + data
      ensures !faults ==> ok
    {
      hide Wal.CapturedOk;
      hide Sound, AllDrawn, Unclaimed, Intact, FileOk, Frames, ApplyLog, Settles;
      var written := Reached(faults, |data|);
      var node := disk.inodes[next];
      var longer := node.(data := node.data + data[..written]);
      SideWritten(apply, initial, Ledger(), next, longer);
      disk := disk.Write(next, longer);
      ok := written == |data|;
      if ok {
        assert data[..written] == data;
      }
    }

    /** Copy the frames from `offset` to the end of the journal, one by one. */
    method CopyFrames(next: nat, tmp: string, offset: nat, faults: bool, ghost rs: seq<Record>) returns (status: Status)
      requires Staging(next, tmp) && offset <= |disk.inodes[ino].data|
      modifies this`disk
      ensures Staging(next, tmp)
      ensures disk.inodes[ino] == old(disk).inodes[ino]
      ensures status == Ok ==>
                disk.inodes[next].data == old(disk).inodes[next].data + disk.inodes[ino].data[offset..]
      ensures !faults && AllStorable(rs) && disk.inodes[ino].data[offset..] == Frames(rs) ==> status == Ok
    {
      hide Wal.CapturedOk;
      hide Sound, AllDrawn, Unclaimed, Intact, FileOk, Frames, ApplyLog, Settles, ReadFrame, Frame, AllStorable;
      hide Disk.Valid, Payload;
      var file := disk.inodes[ino].data;
      var pos := offset;
      ghost var good, left := AllStorable(rs) && file[offset..] == Frames(rs), rs;
      assert file[offset..offset] == [];
      assert disk.inodes[next].data + [] == disk.inodes[next].data;
      while pos < |file|
        invariant offset <= pos <= |file|
        invariant Staging(next, tmp) && disk.inodes[ino] == old(disk).inodes[ino]
        invariant disk.inodes[next].data == old(disk).inodes[next].data + file[offset..pos]
        invariant good ==> AllStorable(left) && file[pos..] == Frames(left)
      {
        if good {
          FirstFrame(left);
          assert file[pos..][|RecordFrame(left[0])|..] == file[pos + |RecordFrame(left[0])|..];
          left := left[1..];
        }
        var frame := WalCodec.ReadNextFrame(file, pos);
        if !frame.Whole? {
          return Err;
        }
        FrameInverse(file[pos..]);
        var encoded := WalCodec.EncodeGuardedPayload(frame.payload);
        var ok := WriteReplacement(next, tmp, encoded, faults);
        if !ok {
          return Err;
        }
        assert file[pos..][..frame.size] == file[pos..pos + frame.size];
        assert file[offset..pos] + file[pos..pos + frame.size] == file[offset..pos + frame.size];
        pos := pos + frame.size;
        var hit := Struck(faults);
        if hit {
          return Died;
        }
      }
      assert file[offset..pos] == file[offset..];
      return Ok;
    }

    /** `rotate_after` and `replace_with`: replace the journal by its successor
        generation, which holds the records after the installed snapshot. The
        process may stop, and a power loss may follow, after any operation. A
        failure poisons the journal. */
    method RotateAfter(c: Checkpoint, next: nat, tmp: string, faults: bool) returns (status: Status)
      requires Healthy() && pending.None? && |snapshots| == 1 && snapshots[0].checkpoint == Some(c)
      requires next !in disk.inodes && tmp != WAL
      modifies this`disk, this`ino, this`cursor, this`generation, this`poisoned, this`origins, this`held, this`stale
      ensures OnDisk()
      ensures status == Ok ==> Healthy() && c.successor == Some(generation) && |disk.dirs| == 1 && held == map[] && !stale
      ensures status == Ok ==> c.generation != generation
      ensures status != Ok ==> stale == old(stale) && (held == old(held) || (faults && Outrun(old(held))))
      ensures status == Err ==> poisoned
      ensures c.generation != old(generation) ==> status == Err && disk == old(disk)
      ensures !faults && c.generation == old(generation) && c.successor.Some? && c.successor.value != old(generation) ==>
                status == Ok
    {
      hide Sound, AllDrawn, Unclaimed, Intact, FileOk, Frames, ApplyLog, Settles, Header, Names;
      if c.generation != generation || c.successor.None? {
        poisoned := true;
        return Err;
      }
      var successor, node := c.successor.value, disk.inodes[ino];
      Located(apply, initial, Ledger());
      OffsetInside(node, origins[ino], run, c);
      if c.offset < HEADER_LEN || c.offset > |node.data| || successor == generation {
        poisoned := true;
        return Err;
      }
      var hit := Struck(faults);
      if hit {
        poisoned := true;
        return Err;
      }
      CreateReplacement(next, tmp);
      Rotated(node, origins[ino], run, c, successor);
      status := Fill(c.offset, successor, next, tmp, faults, run.log[run.covered..]);
      if status == Err {
        Abandon(tmp);
      } else if status == Ok {
        status := Publish(successor, next, tmp, faults);
      }
    }

    method CreateReplacement(next: nat, tmp: string)
      requires Healthy() && tmp != WAL && next !in disk.inodes
      modifies this`disk
      ensures Staging(next, tmp) && disk.inodes[next] == Inode([], 0)
      ensures disk.inodes[ino] == old(disk).inodes[ino]
    {
      hide Sound, AllDrawn, Unclaimed, Intact, FileOk, Frames, ApplyLog, Settles;
      var empty := Inode([], 0);
      var dir := disk.Visible()[tmp := next];
      Located(apply, initial, Ledger());
      SideWritten(apply, initial, Ledger(), next, empty);
      disk := disk.Write(next, empty);
      Entered(apply, initial, Ledger(), dir);
      disk := disk.Enter(dir);
    }

    /** Remove the unfinished replacement. */
    method Abandon(tmp: string)
      requires Healthy() && tmp != WAL
      modifies this`disk, this`poisoned
      ensures OnDisk() && poisoned
    {
      hide Sound, AllDrawn, Unclaimed, Intact, FileOk, Frames, ApplyLog, Settles;
      Located(apply, initial, Ledger());
      Entered(apply, initial, Ledger(), disk.Visible() - {tmp});
      disk := disk.Enter(disk.Visible() - {tmp});
      poisoned := true;
    }

    /** The journal the name moved on from is held, in addition to `before`. */
    ghost predicate Outrun(before: map<nat, Held>)
      reads this
    {
      held.Values == before.Values + {Holding(run)}
    }

    /** The installed snapshot lets `successor` replace the journal. */
    ghost predicate Replaceable(successor: Generation)
      reads this
    {
      && |snapshots| == 1 && snapshots[0].checkpoint.Some? && pending.None?
      && snapshots[0].checkpoint.value.generation == generation != successor
      && snapshots[0].checkpoint.value.successor == Some(successor)
    }

    /** Rename the finished, synced replacement over the journal, switch the
        handle to it, and sync the directory. */
    method Publish(successor: Generation, next: nat, tmp: string, faults: bool) returns (status: Status)
      requires Staging(next, tmp) && Replaceable(successor)
      requires Intact(disk.inodes[next], Origin(successor, run.covered), run)
      modifies this`disk, this`ino, this`cursor, this`generation, this`poisoned, this`origins, this`held, this`stale
      ensures OnDisk()
      ensures status == Ok ==> Healthy() && generation == successor && |disk.dirs| == 1 && held == map[] && !stale
      ensures status != Ok ==> stale == old(stale) && faults && Outrun(old(held))
      ensures status == Err ==> poisoned
      ensures !faults ==> status == Ok
    {
      hide Wal.CapturedOk;
      hide Sound, AllDrawn, Unclaimed, Intact, FileOk, Frames, ApplyLog, Settles, AllStorable, Disk.Valid, Storable, Accepted;
      Rename(successor, next, tmp);
      var hit := Struck(faults);
      if hit {
        return Died;
      }
      ino, cursor, generation := next, |disk.inodes[next].data|, successor;
      hit := Struck(faults);
      if hit {
        poisoned := true;
        return Err;
      }
      SettleName();
      return Ok;
    }

    /** Sync the directory under the journal's name. */
    method SettleName()
      requires OnDisk() && !poisoned && pending.None? && ApplyLog(apply, initial, run.log) == Some(live)
      requires Attached() && Intact(disk.inodes[ino], origins[ino], run) && origins[ino].generation == generation
      requires cursor == |disk.inodes[ino].data|
      modifies this`disk, this`held, this`stale
      ensures Healthy() && |disk.dirs| == 1 && held == map[] && !stale
    {
      hide Sound, AllDrawn, Unclaimed, Intact, FileOk, Frames, ApplyLog, Settles, AllStorable, Disk.Valid;
      DirSynced(apply, initial, Ledger());
      disk := disk.SyncDir();
      held, stale := map[], false;
    }

    method Rename(successor: Generation, next: nat, tmp: string)
      requires Staging(next, tmp) && Replaceable(successor)
      requires Intact(disk.inodes[next], Origin(successor, run.covered), run)
      modifies this`disk, this`origins, this`held
      ensures OnDisk() && disk.inodes == old(disk).inodes && next in disk.inodes
      ensures origins == old(origins)[next := Origin(successor, run.covered)]
      ensures |disk.dirs| > 0 && WAL in disk.Visible() && disk.Visible()[WAL] == next
      ensures Outrun(old(held))
    {
      hide Sound, AllDrawn, Unclaimed, Intact, FileOk, Frames, ApplyLog, Settles;
      var dir := (disk.Visible() - {tmp})[WAL := next];
      Located(apply, initial, Ledger());
      assert snapshots[0] in snapshots;
      IntactIsOk(disk.inodes[next], Origin(successor, run.covered), run);
      Moved(apply, initial, Ledger(), dir, successor);
      AddedValue(held, ino, Holding(run));
      DrawnOrigin(origins, snapshots, drawn, next, Origin(successor, run.covered));
      origins := origins[next := Origin(successor, run.covered)];
      held := held[ino := Holding(run)];
      disk := disk.Enter(dir);
    }

    /** Header, retained frames, sync. */
    method Fill(offset: nat, successor: Generation, next: nat, tmp: string, faults: bool, ghost rs: seq<Record>)
      returns (status: Status)
      requires Staging(next, tmp) && offset <= |disk.inodes[ino].data| && disk.inodes[next] == Inode([], 0)
      modifies this`disk
      ensures Staging(next, tmp) && disk.inodes[ino] == old(disk).inodes[ino]
      ensures status == Ok ==>
                var data := Replacement(disk.inodes[ino].data, offset, successor);
                disk.inodes[next] == Inode(data, |data|)
      ensures !faults && AllStorable(rs) && disk.inodes[ino].data[offset..] == Frames(rs) ==> status == Ok
    {
      hide Wal.CapturedOk;
      hide Sound, AllDrawn, Unclaimed, Intact, FileOk, Frames, ApplyLog, Settles, Header;
      var hit := Struck(faults);
      if hit {
        return Died;
      }
      var ok := WriteReplacement(next, tmp, Header(successor), faults);
      if !ok {
        return Err;
      }
      assert [] + Header(successor) == Header(successor);
      hit := Struck(faults);
      if hit {
        return Died;
      }
      status := CopyFrames(next, tmp, offset, faults, rs);
      if status != Ok {
        return;
      }
      hit := Struck(faults);
      if hit {
        return Err;
      }
      var data := disk.inodes[next].data;
      SideWritten(apply, initial, Ledger(), next, Inode(data, |data|));
      disk := disk.Write(next, Inode(data, |data|));
      hit := Struck(faults);
      if hit {
        return Died;
      }
      return Ok;
    }

    /** Power is lost; memory and the handle are gone. The disk is `after` and
        the snapshot the one at `j`. */
    method LosePower(after: Disk, j: nat)
      requires (OnDisk() || Refusing()) && PowerLoss(disk, after) && j < |snapshots|
      modifies this`disk, this`run, this`snapshots, this`held, this`stale
      ensures disk == after && held == map[] && !stale
      ensures OnDisk() || Refusing()
      ensures old(OnDisk()) && OnDisk() ==> Holding(run) in {old(Holding(run))} + old(held).Values
      ensures old(OnDisk()) && !OnDisk() ==> old(stale) && old(held) != map[]
      ensures !old(OnDisk()) ==> Refusing()
    {
      hide Sound, AllDrawn, Unclaimed, Headed, FileOk, ApplyLog, Settles, Survives;
      var s := snapshots[j];
      if OnDisk() {
        Fallen(apply, initial, Ledger(), after, s);
        DrawnSnap(origins, snapshots, drawn, s);
        ghost var k := after.dirs[0][WAL];
        run := RunOf(if k in held then held[k] else Holding(run), s);
      } else {
        StillRefused(disk, after, origins);
      }
      disk, snapshots, held, stale := after, [s], map[], false;
    }

    /** Open the file under the journal's name and scan it from the checkpoint. */
    method Survey() returns (r: Scanned)
      requires OnDisk() || Refusing()
      modifies this`ino, this`generation, this`poisoned, this`pending
      ensures old(OnDisk()) ==> OnDisk() && Surveyed(r)
      ensures !old(OnDisk()) ==> Refusing() && r.Failed?
      ensures pending.None?
    {
      hide Sound, AllDrawn, Unclaimed, Headed, FileOk, Frames, ApplyLog, Settles, Replay, ParseHeader, Refuses, Disk.Valid;
      pending, poisoned := None, false;
      if OnDisk() {
        Located(apply, initial, Ledger());
        Recovered(disk.inodes[disk.Visible()[WAL]], origins[disk.Visible()[WAL]], run);
      } else {
        RefusedFile();
      }
      ino := disk.Visible()[WAL];
      generation := ParseHeader(disk.inodes[ino].data).generation;
      r := WalCodec.ReplayFrom(disk.inodes[ino].data, generation, snapshots[|snapshots| - 1].checkpoint);
    }

    /** A journal that is refused is not one that starts. */
    lemma NotBoth()
      ensures !(OnDisk() && Refusing())
    {
      hide Sound, AllDrawn, Unclaimed, Frames, ApplyLog, Settles, Headed, AllStorable, Header;
      if OnDisk() && Refusing() {
        Located(apply, initial, Ledger());
        assert false;
      }
    }

    lemma RefusedFile()
      requires Refusing()
      ensures |disk.dirs| > 0 && |snapshots| > 0 && WAL in disk.Visible() && disk.Visible()[WAL] in disk.inodes
      ensures var node := disk.inodes[disk.Visible()[WAL]];
              && |node.data| >= HEADER_LEN && ParseHeader(node.data).Guarded?
              && Replay(node.data, ParseHeader(node.data).generation, snapshots[|snapshots| - 1].checkpoint) == Failed
    {
      hide Replay, ParseHeader, Header;
      var k := disk.Visible()[WAL];
      NotReplayed(disk.inodes[k], origins[k], snapshots[0]);
    }

    /** `r` is the scan of the journal the handle was just opened on. */
    ghost predicate Surveyed(r: Scanned)
      reads this
    {
      && Attached() && pending.None? && !poisoned && generation == origins[ino].generation
      && FileOk(disk.inodes[ino], origins[ino], run) && |disk.inodes[ino].data| >= HEADER_LEN
      && r.Scanned? && r == Replay(disk.inodes[ino].data, generation, run.checkpoint)
    }

    /** Cut off what is torn. */
    method Reopen(r: Scanned, faults: bool) returns (status: Status)
      requires OnDisk() && Surveyed(r)
      modifies this`disk, this`cursor, this`run
      ensures OnDisk() && run == old(run).(log := run.log)
      ensures run.durable <= |run.log| <= |old(run.log)| && run.log == old(run.log)[..|run.log|]
      ensures status == Ok ==> Writable() && r.commands == Commands(run.log[run.covered..])
      ensures |run.log| < |old(run.log)| ==> ApplyLog(apply, initial, run.log).Some?
      ensures status == Ok && |run.log| == |old(run.log)| && run.covered < |run.log| && run.log[|run.log| - 1].Checked? ==>
                r.checkedTail == Some(HEADER_LEN + |Frames(run.log[origins[ino].base..|run.log| - 1])|)
      ensures !faults ==> status == Ok
    {
      hide Sound, AllDrawn, Unclaimed, Intact, FileOk, Frames, ApplyLog, Settles, Replay, ParseHeader, Recoverable;
      hide Commands, AllStorable;
      var node := disk.inodes[ino];
      Located(apply, initial, Ledger());
      ReopenFacts(apply, initial, node, origins[ino], run);
      if r.end < |node.data| {
        var hit := Struck(faults);
        if hit {
          assert run.log[..|run.log|] == run.log;
          return Err;
        }
      }
      var whole := Inode(node.data[..r.end], if r.end < |node.data| then r.end else node.synced);
      ghost var kept := run.(log := run.log[..Recoverable(node, origins[ino], run)]);
      Adopt(whole, kept);
      var hit := Struck(faults);
      if hit {
        return Died;
      }
      return Ok;
    }

    /** Go on with `whole` as the journal of the run `kept`. */
    method Adopt(whole: Inode, ghost kept: Run)
      requires OnDisk() && Attached() && pending.None? && !poisoned && run.Valid() && kept.Valid()
      requires Intact(whole, origins[ino], kept) && origins[ino].generation == generation
      requires kept == run.(log := kept.log) && kept.log[..run.durable] == run.log[..run.durable]
      requires Accepted(apply, initial, Holding(kept))
      modifies this`disk, this`cursor, this`run
      ensures Writable() && run == kept && disk.inodes[ino] == whole
    {
      hide Sound, AllDrawn, Unclaimed, Intact, FileOk, Frames, ApplyLog, Settles;
      IntactIsOk(whole, origins[ino], kept);
      Write(whole, kept);
      cursor := |whole.data|;
    }

    /** Replay the journal over the snapshot, and take out a last checked command
        that is rejected. */
    method Restore(r: Scanned, faults: bool) returns (status: Status)
      requires OnDisk() && Surveyed(r)
      modifies this`disk, this`cursor, this`poisoned, this`live, this`run
      ensures OnDisk() && Curtailed(old(Holding(run)), Holding(run)) && run.covered == old(run.covered)
      ensures status == Ok ==> Healthy() && pending.None?
      ensures !faults ==> status == Ok
    {
      hide Sound, AllDrawn, Unclaimed, Intact, FileOk, Frames, ApplyLog, ApplyAll, Settles, Commands, AllStorable, Replay;
      hide Disk.Valid, Apart;
      status := Reopen(r, faults);
      if status != Ok {
        return;
      }
      Located(apply, initial, Ledger());
      var snapshot := snapshots[|snapshots| - 1].state;
      var state, done := Execute(apply, snapshot, r.commands);
      ghost var log := run.log;
      ReplayOutcome(apply, initial, snapshot, log, run.covered, state, done);
      if done < |r.commands| {
        assert log[..|log|] == log;
        assert |log| == |old(run.log)| && run.durable < |log|;
        var ok := RollbackTo(r.checkedTail.value, |log| - 1, faults);
        if !ok {
          return Err;
        }
      }
      live := state;
      return Ok;
    }

    /** Recovery succeeds unless a file operation fails or the snapshot refuses
        the journal. Memory is then the effect of the recovered log. */
    method Recover(faults: bool) returns (status: Status)
      requires OnDisk() || Refusing()
      modifies this`disk, this`ino, this`cursor, this`generation, this`poisoned, this`live, this`pending, this`run
      ensures !old(OnDisk()) ==> Refusing() && status == Err
      ensures old(OnDisk()) ==> OnDisk() && Curtailed(old(Holding(run)), Holding(run)) && run.covered == old(run.covered)
      ensures status == Ok ==> Healthy()
      ensures pending.None? && (old(OnDisk()) && !faults ==> status == Ok)
    {
      hide Sound, AllDrawn, Unclaimed, Headed, Intact, FileOk, Frames, ApplyLog, Settles, Refuses, Disk.Valid, Replay;
      var r := Survey();
      if r.Failed? {
        return Err;
      }
      status := Restore(r, faults);
    }
  }

  /** What recovery may leave of a journal: all that was acknowledged, and some
      of the rest. */
  predicate Curtailed(before: Held, after: Held) {
    && before.durable <= after.durable <= |after.log| <= |before.log|
    && after.log == before.log[..|after.log|]
  }

  lemma AddedValue<K, V>(m: map<K, V>, k: K, v: V)
    requires k !in m
    ensures m[k := v].Values == m.Values + {v}
  {
    var n := m[k := v];
    assert n[k] == v;
    forall x | x in m.Values
      ensures x in n.Values
    {
      var j :| j in m && m[j] == x;
      assert n[j] == x;
    }
  }

  lemma StillRefused(disk: Disk, after: Disk, origins: map<nat, Origin>)
    requires disk.Valid() && |disk.dirs| == 1 && WAL in disk.dirs[0] && disk.dirs[0][WAL] in origins
    requires Headed(disk.inodes[disk.dirs[0][WAL]], origins[disk.dirs[0][WAL]]) && PowerLoss(disk, after)
    ensures after.Valid() && |after.dirs| == 1 && WAL in after.dirs[0] && after.dirs[0][WAL] == disk.dirs[0][WAL]
    ensures Headed(after.inodes[after.dirs[0][WAL]], origins[after.dirs[0][WAL]])
  {
    hide Headed;
    SurvivingName(disk, after, WAL);
    PowerLossValid(disk, after);
    var k := after.dirs[0][WAL];
    HeadSurvives(disk.inodes[k], after.inodes[k], origins[k]);
  }

  /** `append_commands`: one command is a plain record, several are a batch. */
  function AsRecord(commands: seq<Command>): Record
    requires commands != []
  {
    if |commands| == 1 then Plain(commands[0]) else Batch(commands)
  }

  /** The run after an attempt to log `r`: the snapshot and every synced record are as they were. */
  ghost predicate Follows(before: Run, after: Run, r: Record) {
    && after.covered == before.covered && after.checkpoint == before.checkpoint
    && before.durable <= after.durable
    && (after.log == before.log || after.log == before.log + [r])
  }
}
