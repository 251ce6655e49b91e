/** Replaying a log over a snapshot of its first records. */
module WalReplay {
  import opened Bytes
  import opened WalFormat
  import opened WalScan
  import opened FileSystem
  import opened Journal

  // ---- Executing commands ------------------------------------------------

  /** Execute commands in order; None as soon as one is rejected. */
  function ApplyAll<S>(apply: (S, Command) -> Option<S>, s: S, commands: seq<Command>): Option<S> {
    if commands == [] then Some(s)
    else match apply(s, commands[0])
      case None => None
      case Some(t) => ApplyAll(apply, t, commands[1..])
  }

  lemma {:induction false} ApplyConcat<S>(apply: (S, Command) -> Option<S>, s: S, a: seq<Command>, b: seq<Command>)
    ensures ApplyAll(apply, s, a + b) ==
            match ApplyAll(apply, s, a) { case None => None case Some(t) => ApplyAll(apply, t, b) }
    decreases |a|
  {
    if a == [] {
      assert a + b == b;
    } else {
      assert (a + b)[1..] == a[1..] + b;
      match apply(s, a[0]) {
        case None =>
        case Some(t) => ApplyConcat(apply, t, a[1..], b);
      }
    }
  }

  function ApplyLog<S>(apply: (S, Command) -> Option<S>, s: S, log: seq<Record>): Option<S> {
    ApplyAll(apply, s, Commands(log))
  }

  lemma ApplyLogConcat<S>(apply: (S, Command) -> Option<S>, s: S, a: seq<Record>, b: seq<Record>)
    ensures ApplyLog(apply, s, a + b) ==
            match ApplyLog(apply, s, a) { case None => None case Some(t) => ApplyLog(apply, t, b) }
  {
    CommandsConcat(a, b);
    ApplyConcat(apply, s, Commands(a), Commands(b));
  }

  /** One more record takes the state on by its commands. */
  lemma ApplyNext<S>(apply: (S, Command) -> Option<S>, s: S, log: seq<Record>, t: S, r: Record)
    requires ApplyLog(apply, s, log) == Some(t)
    ensures ApplyLog(apply, s, log + [r]) == ApplyAll(apply, t, CommandsOf(r))
    ensures r.Checked? ==> ApplyAll(apply, t, CommandsOf(r)) == apply(t, r.command)
  {
    ApplyLogConcat(apply, s, log, [r]);
    FramesCons(r, []);
    assert [r] + [] == [r] && CommandsOf(r) + [] == CommandsOf(r);
    if r.Checked? {
      assert CommandsOf(r)[1..] == [];
    }
  }

  /** Every record is accepted, except that the last one may be a checked
      command whose rejection was not rolled back yet. */
  ghost predicate Settles<S>(apply: (S, Command) -> Option<S>, s: S, log: seq<Record>) {
    ApplyLog(apply, s, log).Some? ||
    (log != [] && log[|log| - 1].Checked? && ApplyLog(apply, s, log[..|log| - 1]).Some?)
  }

  lemma NothingLogged<S>(apply: (S, Command) -> Option<S>, s: S)
    ensures ApplyLog(apply, s, []) == Some(s) && Settles(apply, s, []) && AllStorable([])
  {
  }

  /** A prefix of an accepted log is accepted. */
  lemma PrefixAccepted<S>(apply: (S, Command) -> Option<S>, s: S, log: seq<Record>, n: nat)
    requires n <= |log| && ApplyLog(apply, s, log).Some?
    ensures ApplyLog(apply, s, log[..n]).Some?
  {
    assert log == log[..n] + log[n..];
    ApplyLogConcat(apply, s, log[..n], log[n..]);
  }

  lemma SettlesPrefix<S>(apply: (S, Command) -> Option<S>, s: S, log: seq<Record>, n: nat)
    requires n <= |log| && Settles(apply, s, log)
    ensures Settles(apply, s, log[..n])
    ensures n < |log| ==> ApplyLog(apply, s, log[..n]).Some?
  {
    if n < |log| {
      if ApplyLog(apply, s, log).Some? {
        PrefixAccepted(apply, s, log, n);
      } else {
        PrefixAccepted(apply, s, log[..|log| - 1], n);
        assert log[..|log| - 1][..n] == log[..n];
      }
    } else {
      assert log[..n] == log;
    }
  }

  /** What opening a surviving file establishes, for the run cut to what survived. */
  lemma ReopenFacts<S>(apply: (S, Command) -> Option<S>, initial: S, node: Inode, o: Origin, run: Run)
    requires FileOk(node, o, run) && run.Valid() && Settles(apply, initial, run.log)
    ensures var n := Recoverable(node, o, run);
            var r := Replay(node.data, o.generation, run.checkpoint);
            && run.durable <= n <= |run.log| && HEADER_LEN <= |node.data|
            && ParseHeader(node.data) == Guarded(o.generation)
            && r.Scanned? && r.end <= |node.data|
    ensures var n := Recoverable(node, o, run);
            var r := Replay(node.data, o.generation, run.checkpoint);
            var kept := run.(log := run.log[..n]);
            && kept.Valid() && r.commands == Commands(kept.log[run.covered..])
            && Intact(Inode(node.data[..r.end], if r.end < |node.data| then r.end else node.synced), o, kept)
            && kept.log[..run.covered] == run.log[..run.covered]
            && kept.log[..run.durable] == run.log[..run.durable]
            && Settles(apply, initial, kept.log)
            && (n < |run.log| ==> ApplyLog(apply, initial, kept.log).Some?)
    ensures var n := Recoverable(node, o, run);
            var r := Replay(node.data, o.generation, run.checkpoint);
            n == |run.log| && run.covered < n && run.log[n - 1].Checked? ==>
            r.checkedTail == Some(HEADER_LEN + |Frames(run.log[..n][o.base..n - 1])|)
  {
    hide FileOk, Intact, Frames, ApplyLog, Settles, Replay, ParseHeader, Recoverable, Commands, Storable;
    var n := Recoverable(node, o, run);
    Recovered(node, o, run);
    CleanIfComplete(node, o, run, n);
    SettlesPrefix(apply, initial, run.log, n);
    PrefixSlice(run.log, n, 0, run.covered);
    PrefixSlice(run.log, n, 0, run.durable);
    PrefixSlice(run.log, n, run.covered, n);
    var r := Replay(node.data, o.generation, run.checkpoint);
    RecoveredFile(node, o, run, n, if r.end < |node.data| then r.end else node.synced);
    if n > o.base {
      PrefixSlice(run.log, n, o.base, n - 1);
    }
  }

  /** Execute until the end or the first rejection. */
  method Execute<S>(apply: (S, Command) -> Option<S>, s: S, commands: seq<Command>) returns (state: S, done: nat)
    ensures done <= |commands| && ApplyAll(apply, s, commands[..done]) == Some(state)
    ensures done < |commands| ==> apply(state, commands[done]).None?
  {
    state, done := s, 0;
    while done < |commands|
      invariant done <= |commands| && ApplyAll(apply, s, commands[..done]) == Some(state)
    {
      var next := apply(state, commands[done]);
      if next.None? {
        return;
      }
      Advance(apply, s, commands, done);
      state, done := next.value, done + 1;
    }
  }

  lemma Advance<S>(apply: (S, Command) -> Option<S>, s: S, commands: seq<Command>, i: nat)
    requires i < |commands| && ApplyAll(apply, s, commands[..i]).Some?
    ensures ApplyAll(apply, s, commands[..i + 1]) == apply(ApplyAll(apply, s, commands[..i]).value, commands[i])
  {
    assert commands[..i + 1] == commands[..i] + [commands[i]];
    ApplyConcat(apply, s, commands[..i], [commands[i]]);
    assert [commands[i]][1..] == [];
  }

  /** Execution stops at the one place where a command is rejected. */
  lemma StopsAt<S>(apply: (S, Command) -> Option<S>, s: S, commands: seq<Command>, done: nat, state: S)
    requires done < |commands| && ApplyAll(apply, s, commands[..done]) == Some(state)
    requires apply(state, commands[done]).None?
    ensures forall k :: done < k <= |commands| ==> ApplyAll(apply, s, commands[..k]).None?
  {
    Advance(apply, s, commands, done);
    forall k | done < k <= |commands|
      ensures ApplyAll(apply, s, commands[..k]).None?
    {
      assert commands[..k] == commands[..done + 1] + commands[done + 1..k];
      ApplyConcat(apply, s, commands[..done + 1], commands[done + 1..k]);
    }
  }

  /** Replaying a settled log over a snapshot of its first `covered` records
      either reaches its end, or stops at a rejected last checked command. */
  lemma ReplayOutcome<S>(apply: (S, Command) -> Option<S>, initial: S, snapshot: S, log: seq<Record>, covered: nat,
                         state: S, done: nat)
    requires covered <= |log| && ApplyLog(apply, initial, log[..covered]) == Some(snapshot)
    requires Settles(apply, initial, log)
    requires var cs := Commands(log[covered..]);
             && done <= |cs| && ApplyAll(apply, snapshot, cs[..done]) == Some(state)
             && (done < |cs| ==> apply(state, cs[done]).None?)
    ensures var cs := Commands(log[covered..]);
            if done == |cs| then ApplyLog(apply, initial, log) == Some(state)
            else covered < |log| && log[|log| - 1].Checked? && ApplyLog(apply, initial, log).None?
                 && ApplyLog(apply, initial, log[..|log| - 1]) == Some(state)
  {
    hide ApplyAll, ApplyLog, Commands, Settles;
    var cs := Commands(log[covered..]);
    AfterCovered(apply, initial, snapshot, log, covered);
    if done == |cs| {
      assert cs[..done] == cs;
    } else {
      StopsAt(apply, snapshot, cs, done, state);
      assert cs[..|cs|] == cs;
      SettledLast(apply, initial, log);
      WithoutLast(apply, initial, snapshot, log, covered);
    }
  }

  /** The effect of the whole log is that of the commands after the snapshot. */
  lemma AfterCovered<S>(apply: (S, Command) -> Option<S>, initial: S, snapshot: S, log: seq<Record>, covered: nat)
    requires covered <= |log| && ApplyLog(apply, initial, log[..covered]) == Some(snapshot)
    ensures ApplyLog(apply, initial, log) == ApplyAll(apply, snapshot, Commands(log[covered..]))
    ensures covered == |log| ==> Commands(log[covered..]) == []
  {
    hide ApplyAll;
    assert covered == |log| ==> log[covered..] == [];
    assert log == log[..covered] + log[covered..];
    ApplyLogConcat(apply, initial, log[..covered], log[covered..]);
  }

  lemma SettledLast<S>(apply: (S, Command) -> Option<S>, initial: S, log: seq<Record>)
    requires Settles(apply, initial, log) && ApplyLog(apply, initial, log).None?
    ensures log != [] && log[|log| - 1].Checked? && ApplyLog(apply, initial, log[..|log| - 1]).Some?
  {
    hide ApplyLog;
  }

  /** The state before the last record, in terms of the commands replayed. */
  lemma WithoutLast<S>(apply: (S, Command) -> Option<S>, initial: S, snapshot: S, log: seq<Record>, covered: nat)
    requires covered < |log| && ApplyLog(apply, initial, log[..covered]) == Some(snapshot)
    ensures var cs := Commands(log[covered..]);
            log[|log| - 1].Checked? ==>
              cs != [] && ApplyLog(apply, initial, log[..|log| - 1]) == ApplyAll(apply, snapshot, cs[..|cs| - 1])
  {
    hide ApplyAll;
    LastCommand(log, covered);
    assert log[..|log| - 1] == log[..covered] + log[covered..|log| - 1];
    ApplyLogConcat(apply, initial, log[..covered], log[covered..|log| - 1]);
  }

  /** The commands after `covered` end with the single command of a checked last record. */
  lemma LastCommand(log: seq<Record>, covered: nat)
    requires covered < |log|
    ensures var cs := Commands(log[covered..]);
            log[|log| - 1].Checked? ==> |cs| > 0 && cs[..|cs| - 1] == Commands(log[covered..|log| - 1])
  {
    var r := log[|log| - 1];
    assert log[covered..] == log[covered..|log| - 1] + [r];
    CommandsConcat(log[covered..|log| - 1], [r]);
    assert Commands([r]) == CommandsOf(r) + Commands([]);
    if r.Checked? {
      assert CommandsOf(r) + [] == CommandsOf(r);
    }
  }

  lemma FirstFrame(rs: seq<Record>)
    requires AllStorable(rs) && Frames(rs) != []
    ensures rs != [] && ReadFrame(Frames(rs)) == Whole(Payload(rs[0]), |RecordFrame(rs[0])|)
    ensures |RecordFrame(rs[0])| <= |Frames(rs)| && Frames(rs)[|RecordFrame(rs[0])|..] == Frames(rs[1..])
    ensures AllStorable(rs[1..])
  {
    hide ReadFrame, Payload, RecordFrame;
    FrameReads(rs[0], Frames(rs[1..]));
  }
}
