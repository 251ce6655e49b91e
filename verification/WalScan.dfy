/** Recovery by scanning: the header, replay from a checkpoint, and what a
    crash, damage or a foreign generation does to it. */
module WalScan {
  import opened Bytes
  import opened WalFormat
  import Crc

  const HEADER_LEN: int := 24

  type Generation = g: bytes | |g| == 16 witness seq(16, _ => 0 as byte)

  // ---- Header ------------------------------------------------------------

  function Header(g: Generation): (h: bytes)
    ensures |h| == HEADER_LEN
  {
    WAL_MAGIC + g + U32Bytes(Crc.Crc32(WAL_MAGIC + g))
  }

  datatype Opened = Refused | OlderFormat | Guarded(generation: Generation)

  /** The format decision of `open_in` on a non-empty file. */
  function ParseHeader(file: bytes): Opened {
    hide Crc.Crc32, LeValue;
    if |file| < 4 then Refused
    else if file[..4] != WAL_MAGIC then OlderFormat
    else if |file| < HEADER_LEN then Refused
    else if LeValue(file[20..24]) != Crc.Crc32(WAL_MAGIC + file[4..20]) then Refused
    else Guarded(file[4..20])
  }

  lemma HeaderRoundTrip(g: Generation, rest: bytes)
    ensures ParseHeader(Header(g) + rest) == Guarded(g)
  {
    hide Crc.Crc32, LeValue;
    var file := Header(g) + rest;
    assert file[..4] == WAL_MAGIC;
    assert file[4..20] == g;
    assert file[20..24] == U32Bytes(Crc.Crc32(WAL_MAGIC + g));
    U32Value(Crc.Crc32(WAL_MAGIC + g));
  }

  /** Damage to at most four adjacent bytes of the generation, or to its
      checksum, makes the journal unopenable. */
  lemma HeaderDamageDetected(g: Generation, damaged: bytes, i: nat, rest: bytes)
    requires DiffersWithin(Header(g), damaged, i)
    requires 4 <= i && (i + 4 <= 20 || 20 <= i)
    ensures ParseHeader(damaged + rest) == Refused
  {
    hide Crc.Crc32, LeValue;
    var h, file := Header(g), damaged + rest;
    assert file[..4] == h[..4] == WAL_MAGIC;
    assert h[4..20] == g && h[20..24] == U32Bytes(Crc.Crc32(WAL_MAGIC + g));
    U32Value(Crc.Crc32(WAL_MAGIC + g));
    if i + 4 <= 20 {
      assert file[20..24] == h[20..24];
      var j :| 0 <= j < |h| && h[j] != file[j];
      assert file[4..20][j - 4] != g[j - 4];
      assert forall k :: 0 <= k < 16 && !(i - 4 <= k < i) ==> file[4..20][k] == g[k];
      assert DiffersWithin(g, file[4..20], i - 4);
      var pre, a, b, post := Window(g, file[4..20], i - 4);
      Regroup(WAL_MAGIC, pre, a, post);
      Regroup(WAL_MAGIC, pre, b, post);
      Crc.BurstDetected(WAL_MAGIC + pre, a, b, post);
    } else {
      assert file[4..20] == h[4..20];
      var j :| 0 <= j < |h| && h[j] != file[j];
      assert file[20..24][j - 20] != h[20..24][j - 20];
      FieldChanged(file[20..24], h[20..24]);
    }
  }

  // ---- Scanning ----------------------------------------------------------

  datatype Scanned =
    | Failed
    | Scanned(commands: seq<Command>, checkedTail: Option<nat>, end: nat)

  /** Read every frame of `s`, which starts at file offset `at`. A torn last
      frame ends the scan where that frame started. */
  function Scan(s: bytes, at: nat): (r: Scanned)
    ensures r.Scanned? ==> at <= r.end <= at + |s|
    decreases |s|
  {
    if s == [] then Scanned([], None, at)
    else match ReadFrame(s)
      case Corrupt => Failed
      case Torn => Scanned([], None, at)
      case Whole(payload, size) =>
        match DecodePayload(payload)
        case Malformed => Failed
        case Decoded(commands, checked) =>
          Then(commands, if checked then Some(at) else None, s[size..] == [], Scan(s[size..], at + size))
  }

  /** The result for a frame, given the result for what follows it. */
  function Then(commands: seq<Command>, tail: Option<nat>, last: bool, rest: Scanned): Scanned {
    match rest
    case Failed => Failed
    case Scanned(more, restTail, end) => Scanned(commands + more, if last then tail else restTail, end)
  }

  /** Whether offset `k` of `s` is reached by whole frames. */
  predicate OnBoundary(s: bytes, k: nat)
    decreases |s|
  {
    k == 0 ||
    match ReadFrame(s) {
      case Whole(_, size) => size <= k && OnBoundary(s[size..], k - size)
      case _ => false
    }
  }

  // ---- Logs as sequences of records --------------------------------------

  function RecordFrame(r: Record): (f: bytes)
    ensures |f| >= FRAME_OVERHEAD
  {
    Frame(Payload(r))
  }

  function Frames(rs: seq<Record>): bytes {
    if rs == [] then [] else RecordFrame(rs[0]) + Frames(rs[1..])
  }

  function Commands(rs: seq<Record>): seq<Command> {
    if rs == [] then [] else CommandsOf(rs[0]) + Commands(rs[1..])
  }

  /** The records a journal can hold and give back. */
  predicate Storable(r: Record) {
    Replayable(r) && |Payload(r)| <= MAX_FRAME_BYTES
  }

  predicate AllStorable(rs: seq<Record>) {
    forall i :: 0 <= i < |rs| ==> Storable(rs[i])
  }

  lemma {:induction false} FramesConcat(a: seq<Record>, b: seq<Record>)
    ensures Frames(a + b) == Frames(a) + Frames(b)
  {
    hide RecordFrame;
    if a == [] {
      assert a + b == b;
    } else {
      assert (a + b)[1..] == a[1..] + b;
      FramesConcat(a[1..], b);
    }
  }

  lemma {:induction false} CommandsConcat(a: seq<Record>, b: seq<Record>)
    ensures Commands(a + b) == Commands(a) + Commands(b)
  {
    if a == [] {
      assert a + b == b;
    } else {
      assert (a + b)[1..] == a[1..] + b;
      CommandsConcat(a[1..], b);
    }
  }

  lemma FrameReads(r: Record, rest: bytes)
    requires Storable(r)
    ensures ReadFrame(RecordFrame(r) + rest) == Whole(Payload(r), |RecordFrame(r)|)
    ensures DecodePayload(Payload(r)) == Decoded(CommandsOf(r), r.Checked?)
    ensures (RecordFrame(r) + rest)[|RecordFrame(r)|..] == rest
  {
    hide ReadFrame, Payload, DecodePayload;
    FrameRoundTrip(Payload(r), rest);
    RecordRoundTrip(r);
  }

  /** Scanning one record and then the rest. */
  lemma ScanRecord(r: Record, rest: bytes, at: nat)
    requires Storable(r)
    ensures Scan(RecordFrame(r) + rest, at)
         == Then(CommandsOf(r), if r.Checked? then Some(at) else None, rest == [],
                 Scan(rest, at + |RecordFrame(r)|))
  {
    hide ReadFrame, DecodePayload, Payload, Then, RecordFrame, CommandsOf, Storable;
    FrameReads(r, rest);
    assert RecordFrame(r) + rest != [];
  }

  /** How many whole frames lie within the first `k` bytes. */
  function Complete(rs: seq<Record>, k: nat): (m: nat)
    ensures m <= |rs|
  {
    if rs == [] || k < |RecordFrame(rs[0])| then 0
    else 1 + Complete(rs[1..], k - |RecordFrame(rs[0])|)
  }

  /** `Complete` is the largest number of records that fit. */
  lemma {:induction false} CompleteIsLargest(rs: seq<Record>, k: nat, j: nat)
    requires j <= |rs|
    ensures |Frames(rs[..j])| <= k <==> j <= Complete(rs, k)
  {
    hide RecordFrame;
    if j > 0 {
      assert rs[..j][1..] == rs[1..][..j - 1];
      if k >= |RecordFrame(rs[0])| {
        CompleteIsLargest(rs[1..], k - |RecordFrame(rs[0])|, j - 1);
      }
    }
  }

  function TailOf(rs: seq<Record>, at: nat): Option<nat> {
    if rs != [] && rs[|rs| - 1].Checked? then Some(at + |Frames(rs[..|rs| - 1])|) else None
  }

  /** The result when the records `kept` survived whole, followed by `torn` or by nothing. */
  function Kept(kept: seq<Record>, torn: bool, at: nat): Scanned {
    Scanned(Commands(kept), if torn then None else TailOf(kept, at), at + |Frames(kept)|)
  }

  /** What recovery owes for a log cut after `k` bytes: the commands of exactly
      the records that survived whole, the offset where the last of them ends,
      and a checked tail only for a last record that is checked and has nothing
      after it. */
  function Owed(rs: seq<Record>, k: nat, at: nat): Scanned {
    var kept := rs[..Complete(rs, k)];
    Kept(kept, k != |Frames(kept)|, at)
  }

  /** Durable-prefix recovery, for every crash length. */
  lemma {:induction false} PrefixRecovered(rs: seq<Record>, k: nat, at: nat)
    requires AllStorable(rs) && k <= |Frames(rs)|
    ensures Scan(Frames(rs)[..k], at) == Owed(rs, k, at)
    decreases |rs|
  {
    hide RecordFrame, CommandsOf, Storable, Scan, Owed;
    if rs == [] || k < |RecordFrame(rs[0])| {
      OwedNothing(rs, k, at);
      if k == 0 {
        ScanEmpty(at);
      } else {
        assert Frames(rs)[..k] == RecordFrame(rs[0])[..k];
        TornRecord(rs[0], k);
        ScanTorn(RecordFrame(rs[0])[..k], at);
      }
    } else {
      var f, rest := RecordFrame(rs[0]), Frames(rs[1..])[..k - |RecordFrame(rs[0])|];
      PrefixRecovered(rs[1..], k - |f|, at + |f|);
      assert Frames(rs)[..k] == f + rest;
      ScanRecord(rs[0], rest, at);
      OwedStep(rs, k, at);
    }
  }

  lemma ScanEmpty(at: nat)
    ensures Scan([], at) == Scanned([], None, at)
  {
  }

  lemma ScanTorn(s: bytes, at: nat)
    requires ReadFrame(s) == Torn
    ensures Scan(s, at) == Scanned([], None, at)
  {
    hide ReadFrame;
  }

  lemma TornRecord(r: Record, k: nat)
    requires Storable(r) && 0 < k < |RecordFrame(r)|
    ensures ReadFrame(RecordFrame(r)[..k]) == Torn
  {
    hide ReadFrame, Payload;
    TornFrame(Payload(r), k);
  }

  lemma OwedNothing(rs: seq<Record>, k: nat, at: nat)
    requires rs == [] || k < |RecordFrame(rs[0])|
    ensures Owed(rs, k, at) == Scanned([], None, at)
  {
    hide RecordFrame;
    assert rs[..Complete(rs, k)] == [];
  }

  lemma OwedStep(rs: seq<Record>, k: nat, at: nat)
    requires rs != [] && |RecordFrame(rs[0])| <= k <= |Frames(rs)|
    ensures var n := |RecordFrame(rs[0])|;
            Owed(rs, k, at) ==
            Then(CommandsOf(rs[0]), if rs[0].Checked? then Some(at) else None,
                 Frames(rs[1..])[..k - n] == [], Owed(rs[1..], k - n, at + n))
  {
    hide RecordFrame, CommandsOf, Then, Kept, Complete, Frames;
    var r, more, n := rs[0], rs[1..], |RecordFrame(rs[0])|;
    var m := Complete(more, k - n);
    CompleteStep(rs, k);
    var kept := more[..m];
    assert rs[..1 + m] == [r] + kept;
    CompleteIsLargest(more, k - n, m);
    FramesCons(r, kept);
    assert Frames(more)[..k - n] == [] <==> k - n == 0;
    KeptStep(r, kept, k - n, at);
    assert Owed(more, k - n, at + n) == Kept(kept, k - n != |Frames(kept)|, at + n);
    assert Owed(rs, k, at) == Kept([r] + kept, k - n != |Frames(kept)|, at);
  }

  lemma CompleteStep(rs: seq<Record>, k: nat)
    requires rs != [] && |RecordFrame(rs[0])| <= k
    ensures Complete(rs, k) == 1 + Complete(rs[1..], k - |RecordFrame(rs[0])|)
    ensures |Frames(rs)| == |RecordFrame(rs[0])| + |Frames(rs[1..])|
  {
    hide RecordFrame;
  }

  lemma FramesCons(r: Record, rs: seq<Record>)
    ensures Frames([r] + rs) == RecordFrame(r) + Frames(rs)
    ensures Commands([r] + rs) == CommandsOf(r) + Commands(rs)
  {
    hide RecordFrame, CommandsOf;
    assert ([r] + rs)[1..] == rs;
  }

  lemma KeptStep(r: Record, kept: seq<Record>, d: nat, at: nat)
    requires |Frames(kept)| <= d
    ensures var n := |RecordFrame(r)|;
            Kept([r] + kept, d != |Frames(kept)|, at) ==
            Then(CommandsOf(r), if r.Checked? then Some(at) else None, d == 0, Kept(kept, d != |Frames(kept)|, at + n))
  {
    hide RecordFrame, CommandsOf, TailOf, Frames, Commands;
    FramesCons(r, kept);
    TailStep(r, kept, at);
    FramesEmpty(kept);
  }

  lemma FramesEmpty(rs: seq<Record>)
    ensures Frames(rs) == [] <==> rs == []
  {
    hide RecordFrame;
  }

  lemma TailStep(r: Record, rs: seq<Record>, at: nat)
    ensures TailOf([r] + rs, at)
         == if rs == [] then (if r.Checked? then Some(at) else None) else TailOf(rs, at + |RecordFrame(r)|)
  {
    hide RecordFrame;
    var all := [r] + rs;
    if rs != [] {
      assert all[..|all| - 1] == [r] + rs[..|rs| - 1];
      assert ([r] + rs[..|rs| - 1])[1..] == rs[..|rs| - 1];
    }
  }

  lemma ScanCorrupt(s: bytes, at: nat)
    requires ReadFrame(s) == Corrupt
    ensures Scan(s, at) == Failed
  {
    hide ReadFrame;
    assert s != [] by {
      EmptyIsTorn();
    }
  }

  lemma EmptyIsTorn()
    ensures ReadFrame([]) == Torn
  {
  }

  /** Damage inside any complete frame fails the whole scan. */
  lemma {:induction false} DamageFailsScan(before: seq<Record>, r: Record, damaged: bytes, i: nat, rest: bytes, at: nat)
    requires AllStorable(before) && Storable(r)
    requires DiffersWithin(RecordFrame(r), damaged, i)
    requires i + 4 <= FRAME_OVERHEAD || FRAME_OVERHEAD <= i
    ensures Scan(Frames(before) + damaged + rest, at) == Failed
    decreases |before|
  {
    hide ReadFrame, Frame, Payload, DecodePayload, CommandsOf, DiffersWithin, Scan;
    if before == [] {
      assert [] + damaged + rest == damaged + rest;
      FrameDamageDetected(Payload(r), damaged, i, rest);
      ScanCorrupt(damaged + rest, at);
    } else {
      var tail := Frames(before[1..]) + damaged + rest;
      assert Frames(before) + damaged + rest == RecordFrame(before[0]) + tail;
      DamageFailsScan(before[1..], r, damaged, i, rest, at + |RecordFrame(before[0])|);
      ScanRecord(before[0], tail, at);
    }
  }

  // ---- Replay from a checkpoint ------------------------------------------

  datatype Checkpoint = Checkpoint(generation: Generation, offset: nat, successor: Option<Generation>)

  /** Where replay starts, or None if the journal does not belong to the snapshot. */
  function ReplayStart(file: bytes, generation: Generation, checkpoint: Option<Checkpoint>): (r: Option<nat>)
    requires |file| >= HEADER_LEN
    ensures r.Some? ==> HEADER_LEN <= r.value <= |file|
  {
    match checkpoint
    case None => Some(HEADER_LEN)
    case Some(c) =>
      if c.generation == generation then
        if HEADER_LEN <= c.offset <= |file| && OnBoundary(file[HEADER_LEN..], c.offset - HEADER_LEN)
        then Some(c.offset) else None
      else if c.successor.None? || c.successor.value == generation then Some(HEADER_LEN)
      else None
  }

  function Replay(file: bytes, generation: Generation, checkpoint: Option<Checkpoint>): Scanned
    requires |file| >= HEADER_LEN
  {
    match ReplayStart(file, generation, checkpoint)
    case None => Failed
    case Some(start) => Scan(file[start..], start)
  }

  lemma {:induction false} BoundaryOfRecords(rs: seq<Record>, n: nat, rest: bytes)
    requires AllStorable(rs) && n <= |rs|
    ensures OnBoundary(Frames(rs[..n]) + rest, |Frames(rs[..n])|)
    decreases n
  {
    hide ReadFrame, RecordFrame, Payload, DecodePayload, CommandsOf;
    if n > 0 {
      var kept := rs[..n];
      assert kept[1..] == rs[1..][..n - 1];
      BoundaryOfRecords(rs[1..], n - 1, rest);
      var tail := Frames(kept[1..]) + rest;
      assert Frames(kept) + rest == RecordFrame(kept[0]) + tail;
      FrameReads(kept[0], tail);
    }
  }

  /** The offset walk accepts nothing in or behind a frame it cannot read:
      only the ends of the records in front of it. */
  lemma {:induction false} BoundaryInFront(rs: seq<Record>, bad: bytes, k: nat) returns (j: nat)
    requires AllStorable(rs) && !ReadFrame(bad).Whole? && OnBoundary(Frames(rs) + bad, k)
    ensures j <= |rs| && k == |Frames(rs[..j])|
    decreases |rs|
  {
    hide ReadFrame, RecordFrame, Payload, DecodePayload, CommandsOf;
    assert [] + bad == bad;
    j := 0;
    if k > 0 {
      var tail := Frames(rs[1..]) + bad;
      assert Frames(rs) + bad == RecordFrame(rs[0]) + tail;
      FrameReads(rs[0], tail);
      j := BoundaryInFront(rs[1..], bad, k - |RecordFrame(rs[0])|);
      j := j + 1;
      assert rs[..j][1..] == rs[1..][..j - 1];
    }
  }

  /** Damage inside any complete frame fails recovery, whichever checkpoint it
      starts from: an offset behind the damage is no boundary any more, and a
      scan from an offset in front of it runs into the damage. */
  lemma DamageFailsReplay(g: Generation, c: Option<Checkpoint>, before: seq<Record>, r: Record, damaged: bytes, i: nat,
                          rest: bytes)
    requires AllStorable(before) && Storable(r)
    requires DiffersWithin(RecordFrame(r), damaged, i)
    requires i + 4 <= FRAME_OVERHEAD || FRAME_OVERHEAD <= i
    ensures Replay(Header(g) + (Frames(before) + damaged + rest), g, c) == Failed
  {
    hide ReadFrame, Frame, Payload, DiffersWithin, Scan, OnBoundary, Header, Frames;
    var body := Frames(before) + damaged + rest;
    var file := Header(g) + body;
    assert file[HEADER_LEN..] == body;
    var start := ReplayStart(file, g, c);
    if start.Some? {
      var j := 0;
      if start.value != HEADER_LEN {
        FrameDamageDetected(Payload(r), damaged, i, rest);
        assert body == Frames(before) + (damaged + rest);
        j := BoundaryInFront(before, damaged + rest, start.value - HEADER_LEN);
      } else {
        FramesEmpty(before[..0]);
      }
      SkipFrames(before, j, damaged, rest);
      assert file[start.value..] == body[|Frames(before[..j])|..];
      DamageFailsScan(before[j..], r, damaged, i, rest, start.value);
    }
  }

  lemma SkipFrames(before: seq<Record>, j: nat, damaged: bytes, rest: bytes)
    requires j <= |before|
    ensures var skip := |Frames(before[..j])|;
            skip <= |Frames(before)| &&
            (Frames(before) + damaged + rest)[skip..] == Frames(before[j..]) + damaged + rest
  {
    hide Frames;
    assert before == before[..j] + before[j..];
    FramesConcat(before[..j], before[j..]);
  }

  /** The offset walk over a log cut anywhere accepts exactly the ends of the
      records that survived whole. */
  lemma BoundaryExactly(rs: seq<Record>, k: nat, m: nat)
    requires AllStorable(rs) && k <= |Frames(rs)|
    ensures OnBoundary(Frames(rs)[..k], m) <==> exists j: nat :: j <= Complete(rs, k) && m == |Frames(rs[..j])|
  {
    hide ReadFrame, RecordFrame, OnBoundary, Frames, Complete, Storable;
    var n := Complete(rs, k);
    SurvivingFrames(rs, k);
    if OnBoundary(Frames(rs)[..k], m) {
      var j := BoundaryInFront(rs[..n], Frames(rs)[|Frames(rs[..n])|..k], m);
      assert rs[..n][..j] == rs[..j];
    }
    forall j: nat | j <= n && m == |Frames(rs[..j])|
      ensures OnBoundary(Frames(rs)[..k], m)
    {
      SurvivorBoundary(rs, k, j);
    }
  }

  lemma SurvivorBoundary(rs: seq<Record>, k: nat, j: nat)
    requires AllStorable(rs) && k <= |Frames(rs)| && j <= Complete(rs, k)
    ensures OnBoundary(Frames(rs)[..k], |Frames(rs[..j])|)
  {
    hide ReadFrame, RecordFrame, OnBoundary, Frames, Complete, Storable;
    CompleteIsLargest(rs, k, j);
    SliceFrames(rs, 0, j);
    assert rs[0..] == rs && rs[0..j] == rs[..j];
    var rest := Frames(rs)[|Frames(rs[..j])|..k];
    assert Frames(rs)[..k] == Frames(rs[..j]) + rest;
    BoundaryOfRecords(rs, j, rest);
  }

  /** A cut log is its whole records and then nothing readable. */
  lemma SurvivingFrames(rs: seq<Record>, k: nat)
    requires AllStorable(rs) && k <= |Frames(rs)|
    ensures var n := Complete(rs, k); var skip := |Frames(rs[..n])|;
            skip <= k && Frames(rs)[..k] == Frames(rs[..n]) + Frames(rs)[skip..k] && !ReadFrame(Frames(rs)[skip..k]).Whole?
  {
    hide ReadFrame, RecordFrame, Complete, Frames;
    var n := Complete(rs, k);
    CompleteIsLargest(rs, k, n);
    SliceFrames(rs, 0, n);
    assert rs[0..] == rs && rs[0..n] == rs[..n];
    var skip := |Frames(rs[..n])|;
    EmptyIsTorn();
    if skip < k {
      CompleteIsLargest(rs, k, |rs|);
      assert rs[..|rs|] == rs;
      CompleteIsLargest(rs, k, n + 1);
      SliceFrames(rs, n, n + 1);
      NextFrame(rs, n);
      assert Frames(rs)[skip..k] == RecordFrame(rs[n])[..k - skip];
      TornRecord(rs[n], k - skip);
    } else {
      assert Frames(rs)[skip..k] == [];
    }
  }

  lemma NextFrame(rs: seq<Record>, n: nat)
    requires n < |rs|
    ensures Frames(rs[..n + 1]) == Frames(rs[..n]) + RecordFrame(rs[n])
    ensures Frames(rs) == Frames(rs[..n]) + RecordFrame(rs[n]) + Frames(rs[n + 1..])
  {
    hide RecordFrame, Frames;
    assert rs[..n + 1] == rs[..n] + [rs[n]];
    FramesConcat(rs[..n], [rs[n]]);
    FramesCons(rs[n], []);
    assert [rs[n]] + [] == [rs[n]];
    FramesEmpty([]);
    assert rs == rs[..n + 1] + rs[n + 1..];
    FramesConcat(rs[..n + 1], rs[n + 1..]);
  }

  /** Which journals a snapshot accepts: the checkpoint's own generation if its
      offset is the end of a record that survived, and otherwise only the
      generation the checkpoint authorized, or any if it authorized none. */
  lemma AcceptedExactly(g: Generation, log: seq<Record>, base: nat, k: nat, c: Checkpoint)
    requires AllStorable(log) && base <= |log| && k <= |Frames(log[base..])|
    ensures Replay(JournalBytes(g, log, base, k), g, Some(c)).Scanned? <==>
            if c.generation == g
            then exists j: nat :: j <= Complete(log[base..], k) && c.offset == HEADER_LEN + |Frames(log[base..][..j])|
            else c.successor.None? || c.successor.value == g
  {
    hide Scan, OnBoundary, Header, Frames, Storable, Complete;
    var rs := log[base..];
    var file := JournalBytes(g, log, base, k);
    assert file[HEADER_LEN..] == Frames(rs)[..k];
    if c.generation == g {
      if c.offset >= HEADER_LEN {
        BoundaryExactly(rs, k, c.offset - HEADER_LEN);
      }
      forall j: nat | j <= Complete(rs, k) && c.offset == HEADER_LEN + |Frames(rs[..j])|
        ensures Replay(file, g, Some(c)).Scanned?
      {
        CompleteIsLargest(rs, k, j);
        SuffixScans(rs, k, j, HEADER_LEN + |Frames(rs[..j])|);
        assert file[c.offset..] == Frames(rs)[..k][|Frames(rs[..j])|..];
      }
    } else {
      PrefixRecovered(rs, k, HEADER_LEN);
    }
  }

  lemma SuffixScans(rs: seq<Record>, k: nat, j: nat, at: nat)
    requires AllStorable(rs) && j <= |rs| && |Frames(rs[..j])| <= k <= |Frames(rs)|
    ensures Scan(Frames(rs)[..k][|Frames(rs[..j])|..], at).Scanned?
  {
    hide Scan, Frames, Storable;
    SliceFrames(rs, 0, j);
    assert rs[0..] == rs && rs[0..j] == rs[..j];
    var skip := |Frames(rs[..j])|;
    assert Frames(rs)[..k][skip..] == Frames(rs[j..])[..k - skip];
    PrefixRecovered(rs[j..], k - skip, at);
  }

  /** How a journal file relates to the log of the whole run: it carries
      generation `g` and the records from position `base` on, of which the first
      `k` bytes survived. */
  function JournalBytes(g: Generation, log: seq<Record>, base: nat, k: nat): (file: bytes)
    requires base <= |log| && k <= |Frames(log[base..])|
    ensures |file| == HEADER_LEN + k
  {
    Header(g) + Frames(log[base..])[..k]
  }

  /** A checkpoint taken after `covered` records of the run, seen from a journal
      of generation `g` that starts at `base`: either it names this journal and
      the matching offset, or it authorizes this journal as its successor. */
  predicate Names(c: Checkpoint, covered: nat, g: Generation, log: seq<Record>, base: nat) {
    && base <= covered <= |log|
    && (if c.generation == g then c.offset == HEADER_LEN + |Frames(log[base..covered])|
        else c.successor == Some(g) && base == covered)
  }

  /** The offset in a journal starting at `base` of the end of the first `n` records of the run. */
  lemma SliceFrames(log: seq<Record>, base: nat, n: nat)
    requires base <= n <= |log|
    ensures log[base..] == log[base..n] + log[n..]
    ensures Frames(log[base..]) == Frames(log[base..n]) + Frames(log[n..])
  {
    hide Frames;
    assert log[base..] == log[base..n] + log[n..];
    FramesConcat(log[base..n], log[n..]);
  }

  lemma PrefixSlice(log: seq<Record>, n: nat, from: nat, end: nat)
    requires from <= end <= n <= |log|
    ensures log[..n][from..end] == log[from..end]
  {
  }

  /** The same within a part of the run. */
  lemma SliceWithin(log: seq<Record>, base: nat, n: nat, end: nat)
    requires base <= n <= end <= |log|
    ensures Frames(log[base..end]) == Frames(log[base..n]) + Frames(log[n..end])
  {
    hide Frames;
    assert log[base..end] == log[base..n] + log[n..end];
    FramesConcat(log[base..n], log[n..end]);
  }

  /** Exactly-once recovery. With a checkpoint taken after `covered` records,
      replaying the surviving file of the old generation or of its successor
      yields the records after `covered`, once and in order, up to the last
      one that survived whole. */
  lemma ReplayAfterCheckpoint(c: Checkpoint, covered: nat, g: Generation, log: seq<Record>, base: nat, k: nat)
    requires AllStorable(log) && Names(c, covered, g, log, base)
    requires |Frames(log[base..covered])| <= k <= |Frames(log[base..])|
    ensures var skip := |Frames(log[base..covered])|;
            Replay(JournalBytes(g, log, base, k), g, Some(c)) == Owed(log[covered..], k - skip, HEADER_LEN + skip)
  {
    hide Scan, OnBoundary, Owed, Header, Frames, Storable;
    var before, after := log[base..covered], log[covered..];
    var skip := |Frames(before)|;
    var file := JournalBytes(g, log, base, k);
    SliceFrames(log, base, covered);
    var rest := Frames(after)[..k - skip];
    assert file[HEADER_LEN..] == Frames(before) + rest;
    assert file[HEADER_LEN + skip..] == rest;
    PrefixRecovered(after, k - skip, HEADER_LEN + skip);
    if c.generation == g {
      assert before[..|before|] == before;
      BoundaryOfRecords(before, |before|, rest);
    } else {
      assert before == [];
      FramesEmpty(before);
    }
  }

  /** Without a snapshot the whole surviving log is replayed. */
  lemma ReplayFromScratch(g: Generation, log: seq<Record>, k: nat)
    requires AllStorable(log) && k <= |Frames(log)|
    ensures Replay(Header(g) + Frames(log)[..k], g, None) == Owed(log, k, HEADER_LEN)
  {
    hide Scan, Owed, Header;
    var file := Header(g) + Frames(log)[..k];
    assert file[HEADER_LEN..] == Frames(log)[..k];
    PrefixRecovered(log, k, HEADER_LEN);
  }

  lemma {:induction false} CompleteShift(rs: seq<Record>, j: nat, k: nat)
    requires j <= |rs| && |Frames(rs[..j])| <= k
    ensures Complete(rs, k) == j + Complete(rs[j..], k - |Frames(rs[..j])|)
    decreases j
  {
    hide RecordFrame;
    if j == 0 {
      assert rs[0..] == rs;
    } else {
      assert rs[..j][1..] == rs[1..][..j - 1];
      assert rs[j..] == rs[1..][j - 1..];
      CompleteShift(rs[1..], j - 1, k - |RecordFrame(rs[0])|);
    }
  }
}
