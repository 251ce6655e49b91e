/** The write-ahead log on the byte level: commands, guarded frames, the scan
    that recovers them, and how torn and damaged bytes are told apart. */
module WalFormat {
  import opened Bytes
  import Crc

  type Command = seq<bytes>

  // "LXW3", "LXF1"
  const WAL_MAGIC: bytes := [0x4C, 0x58, 0x57, 0x33]
  const FRAME_MAGIC: bytes := [0x4C, 0x58, 0x46, 0x31]

  // "\0LUX:BATCH", "\0LUX:CHECKED"
  const BATCH_MARKER: bytes := [0, 0x4C, 0x55, 0x58, 0x3A, 0x42, 0x41, 0x54, 0x43, 0x48]
  const CHECKED_MARKER: bytes := [0, 0x4C, 0x55, 0x58, 0x3A, 0x43, 0x48, 0x45, 0x43, 0x4B, 0x45, 0x44]

  const MAX_FRAME_BYTES: int := 512 * 1024 * 1024
  const FRAME_OVERHEAD: int := 16

  // ---- Commands and batches ----------------------------------------------

  function EncodeArgs(args: seq<bytes>): bytes {
    if args == [] then [] else Prefixed(args[0]) + EncodeArgs(args[1..])
  }

  /** Argument count, then every argument with its length. */
  function CommandBytes(args: Command): bytes {
    U32Bytes(|args|) + EncodeArgs(args)
  }

  function EncodeCommands(commands: seq<Command>): bytes {
    if commands == [] then [] else CommandBytes(commands[0]) + EncodeCommands(commands[1..])
  }

  function BatchBytes(commands: seq<Command>): bytes {
    U32Bytes(|commands|) + EncodeCommands(commands)
  }

  function ReadArgs(s: bytes, n: nat): (r: Parsed<seq<bytes>>)
    ensures r.Read? ==> |r.value| == n && |r.rest| <= |s|
    decreases n
  {
    if n == 0 then Read([], s)
    else match ReadPrefixed(s)
      case Read(arg, rest) =>
        (match ReadArgs(rest, n - 1)
         case Read(args, rest') => Read([arg] + args, rest')
         case bad => bad)
      case Short => Short
      case Invalid => Invalid
  }

  /** One command; an empty one is rejected. */
  function ReadCommand(s: bytes): (r: Parsed<Command>)
    ensures r.Read? ==> |r.value| > 0 && |r.rest| <= |s|
  {
    match ReadU32(s)
    case Read(argc, rest) => if argc == 0 then Invalid else ReadArgs(rest, argc)
    case Short => Short
    case Invalid => Invalid
  }

  function ReadCommands(s: bytes, n: nat): (r: Parsed<seq<Command>>)
    ensures r.Read? ==> |r.value| == n
    decreases n
  {
    if n == 0 then Read([], s)
    else match ReadCommand(s)
      case Read(command, rest) =>
        (match ReadCommands(rest, n - 1)
         case Read(commands, rest') => Read([command] + commands, rest')
         case bad => bad)
      case Short => Short
      case Invalid => Invalid
  }

  /** The whole input is one batch, with nothing after it. */
  function DecodeBatch(s: bytes): Option<seq<Command>> {
    match ReadU32(s)
    case Read(n, rest) =>
      (match ReadCommands(rest, n)
       case Read(commands, rest') => if rest' == [] then Some(commands) else None
       case _ => None)
    case _ => None
  }

  predicate ShortArgs(args: Command) {
    forall i :: 0 <= i < |args| ==> |args[i]| < U32
  }

  /** What `encode_command_batch` accepts: every count fits in 32 bits. */
  predicate Countable(commands: seq<Command>) {
    |commands| < U32 &&
    forall i :: 0 <= i < |commands| ==> |commands[i]| < U32 && ShortArgs(commands[i])
  }

  predicate NoEmpty(commands: seq<Command>) {
    forall i :: 0 <= i < |commands| ==> |commands[i]| > 0
  }

  lemma {:induction false} ReadArgsOf(args: seq<bytes>, rest: bytes)
    requires ShortArgs(args)
    ensures ReadArgs(EncodeArgs(args) + rest, |args|) == Read(args, rest)
  {
    if args == [] {
      assert [] + rest == rest;
    } else {
      var tail := EncodeArgs(args[1..]) + rest;
      assert EncodeArgs(args) + rest == Prefixed(args[0]) + tail;
      ReadPrefixedOf(args[0], tail);
      ReadArgsOf(args[1..], rest);
      assert args == [args[0]] + args[1..];
    }
  }

  lemma ReadCommandOf(args: Command, rest: bytes)
    requires |args| < U32 && ShortArgs(args)
    ensures ReadCommand(CommandBytes(args) + rest) == if args == [] then Invalid else Read(args, rest)
  {
    assert CommandBytes(args) + rest == U32Bytes(|args|) + (EncodeArgs(args) + rest);
    ReadU32Of(|args|, EncodeArgs(args) + rest);
    ReadArgsOf(args, rest);
  }

  lemma {:induction false} ReadCommandsOf(commands: seq<Command>, rest: bytes)
    requires Countable(commands)
    ensures ReadCommands(EncodeCommands(commands) + rest, |commands|)
         == if NoEmpty(commands) then Read(commands, rest) else Invalid
  {
    hide ReadCommand, CommandBytes, ShortArgs;
    if commands == [] {
      assert [] + rest == rest;
    } else {
      var tail := EncodeCommands(commands[1..]) + rest;
      assert EncodeCommands(commands) + rest == CommandBytes(commands[0]) + tail;
      ReadCommandOf(commands[0], tail);
      ReadCommandsOf(commands[1..], rest);
      assert commands == [commands[0]] + commands[1..];
      assert NoEmpty(commands) <==> commands[0] != [] && NoEmpty(commands[1..]) by {
        assert forall i :: 1 <= i < |commands| ==> commands[i] == commands[1..][i - 1];
      }
    }
  }

  /** A batch is read back whole, unless it holds an empty command. */
  lemma BatchRoundTrip(commands: seq<Command>)
    requires Countable(commands)
    ensures DecodeBatch(BatchBytes(commands)) == if NoEmpty(commands) then Some(commands) else None
  {
    ReadU32Of(|commands|, EncodeCommands(commands));
    ReadCommandsOf(commands, []);
    assert EncodeCommands(commands) + [] == EncodeCommands(commands);
  }

  lemma {:induction false} ReadArgsInverse(s: bytes, n: nat)
    requires ReadArgs(s, n).Read?
    ensures s == EncodeArgs(ReadArgs(s, n).value) + ReadArgs(s, n).rest
    decreases n
  {
    hide ReadPrefixed, Prefixed;
    if n > 0 {
      ReadPrefixedInverse(s);
      var r := ReadPrefixed(s);
      ReadArgsInverse(r.rest, n - 1);
      var more := ReadArgs(r.rest, n - 1);
      var all := ReadArgs(s, n);
      assert all.value == [r.value] + more.value && all.rest == more.rest;
      assert all.value[1..] == more.value;
      assert Prefixed(r.value) + (EncodeArgs(more.value) + more.rest) == Prefixed(r.value) + EncodeArgs(more.value) + more.rest;
    }
  }

  lemma ReadCommandInverse(s: bytes)
    requires ReadCommand(s).Read?
    ensures s == CommandBytes(ReadCommand(s).value) + ReadCommand(s).rest
  {
    LeValueRoundTrip(s[..4]);
    assert s == s[..4] + s[4..];
    ReadArgsInverse(s[4..], ReadU32(s).value);
  }

  lemma {:induction false} ReadCommandsInverse(s: bytes, n: nat)
    requires ReadCommands(s, n).Read?
    ensures s == EncodeCommands(ReadCommands(s, n).value) + ReadCommands(s, n).rest
    decreases n
  {
    if n > 0 {
      ReadCommandInverse(s);
      var r := ReadCommand(s);
      ReadCommandsInverse(r.rest, n - 1);
      assert ReadCommands(s, n).value[1..] == ReadCommands(r.rest, n - 1).value;
    }
  }

  /** An accepted batch is the encoding of what was read. */
  lemma BatchInverse(s: bytes)
    requires DecodeBatch(s).Some?
    ensures BatchBytes(DecodeBatch(s).value) == s
  {
    LeValueRoundTrip(s[..4]);
    assert s == s[..4] + s[4..];
    ReadCommandsInverse(s[4..], ReadU32(s).value);
    var commands := DecodeBatch(s).value;
    assert EncodeCommands(commands) + [] == EncodeCommands(commands);
  }

  // ---- Records: what one append writes -----------------------------------

  datatype Record =
    | Plain(command: Command)
    | Batch(commands: seq<Command>)
    | Checked(command: Command)

  function Payload(r: Record): bytes {
    match r
    case Plain(command) => CommandBytes(command)
    case Batch(commands) => CommandBytes([BATCH_MARKER, BatchBytes(commands)])
    case Checked(command) => CommandBytes([CHECKED_MARKER, BatchBytes([command])])
  }

  function CommandsOf(r: Record): seq<Command> {
    match r
    case Plain(command) => [command]
    case Batch(commands) => commands
    case Checked(command) => [command]
  }

  datatype Decoded = Malformed | Decoded(commands: seq<Command>, checked: bool)

  function DecodePayload(payload: bytes): Decoded {
    match ReadCommand(payload)
    case Read(args, rest) =>
      if rest != [] then Malformed
      else if |args| == 2 && args[0] == BATCH_MARKER then
        (match DecodeBatch(args[1])
         case Some(commands) => Decoded(commands, false)
         case None => Malformed)
      else if |args| == 2 && args[0] == CHECKED_MARKER then
        (match DecodeBatch(args[1])
         case Some(commands) => if |commands| == 1 then Decoded(commands, true) else Malformed
         case None => Malformed)
      else Decoded([args], false)
    case _ => Malformed
  }

  /** Two arguments of which the first is a reserved marker. */
  predicate LooksReserved(command: Command) {
    |command| == 2 && (command[0] == BATCH_MARKER || command[0] == CHECKED_MARKER)
  }

  /** The records whose payload is read back as it was written. */
  predicate Replayable(r: Record) {
    match r
    case Plain(command) => command != [] && !LooksReserved(command)
    case Batch(commands) => NoEmpty(commands)
    case Checked(command) => command != []
  }

  lemma {:induction false} ArgsBounded(args: seq<bytes>)
    ensures 4 * |args| <= |EncodeArgs(args)|
    ensures forall i :: 0 <= i < |args| ==> |args[i]| < |EncodeArgs(args)|
  {
    if args != [] {
      ArgsBounded(args[1..]);
      assert forall i :: 1 <= i < |args| ==> args[i] == args[1..][i - 1];
    }
  }

  lemma {:induction false} CommandsBounded(commands: seq<Command>)
    ensures 4 * |commands| <= |EncodeCommands(commands)|
    ensures forall i :: 0 <= i < |commands| ==> |CommandBytes(commands[i])| <= |EncodeCommands(commands)|
  {
    if commands != [] {
      CommandsBounded(commands[1..]);
      assert forall i :: 1 <= i < |commands| ==> commands[i] == commands[1..][i - 1];
    }
  }

  /** A batch that fits in a frame has no count that overflows. */
  lemma BatchBounded(commands: seq<Command>)
    requires |BatchBytes(commands)| < U32
    ensures Countable(commands)
  {
    CommandsBounded(commands);
    forall i | 0 <= i < |commands|
      ensures |commands[i]| < U32 && ShortArgs(commands[i])
    {
      ArgsBounded(commands[i]);
    }
  }

  lemma DecodeCommandBytes(args: Command)
    requires |CommandBytes(args)| < U32
    ensures ReadCommand(CommandBytes(args)) == if args == [] then Invalid else Read(args, [])
    ensures ShortArgs(args)
  {
    ArgsBounded(args);
    ReadCommandOf(args, []);
    assert CommandBytes(args) + [] == CommandBytes(args);
  }

  lemma WrappedSize(marker: bytes, inner: bytes)
    ensures |CommandBytes([marker, inner])| == 12 + |marker| + |inner|
  {
    var args := [marker, inner];
    assert args[1..] == [inner];
    assert [inner][1..] == [];
    assert EncodeArgs([inner]) == Prefixed(inner) + [];
  }

  lemma WrappedDecodes(marker: bytes, commands: seq<Command>)
    requires |CommandBytes([marker, BatchBytes(commands)])| < U32
    ensures ReadCommand(CommandBytes([marker, BatchBytes(commands)])) == Read([marker, BatchBytes(commands)], [])
    ensures DecodeBatch(BatchBytes(commands)) == if NoEmpty(commands) then Some(commands) else None
  {
    WrappedSize(marker, BatchBytes(commands));
    DecodeCommandBytes([marker, BatchBytes(commands)]);
    BatchBounded(commands);
    BatchRoundTrip(commands);
  }

  /** A payload decodes to the record's commands and kind exactly when the
      record has no empty command and does not imitate a marker. */
  lemma RecordRoundTrip(r: Record)
    requires |Payload(r)| < U32
    ensures DecodePayload(Payload(r)) == Decoded(CommandsOf(r), r.Checked?) <==> Replayable(r)
  {
    hide ReadCommand, CommandBytes, DecodeBatch, BatchBytes;
    match r
    case Plain(command) =>
      DecodeCommandBytes(command);
      if LooksReserved(command) && command[0] == BATCH_MARKER {
        MarkerNotSelfEncoding(command);
      }
    case Batch(commands) =>
      WrappedDecodes(BATCH_MARKER, commands);
    case Checked(command) =>
      WrappedDecodes(CHECKED_MARKER, [command]);
      assert [command][0] == command;
  }

  /** No byte string is a batch that contains that same byte string. */
  lemma MarkerNotSelfEncoding(command: Command)
    requires |command| == 2
    ensures DecodeBatch(command[1]) != Some([command])
  {
    if DecodeBatch(command[1]) == Some([command]) {
      BatchInverse(command[1]);
      CommandsBounded([command]);
      assert [command][0] == command;
      ArgsBounded(command);
    }
  }

  // ---- Guarded frames ----------------------------------------------------

  /** Marker, length, complemented length, checksum of length and payload, payload. */
  function Frame(payload: bytes): (f: bytes)
    ensures |f| == FRAME_OVERHEAD + |payload|
  {
    FRAME_MAGIC + U32Bytes(|payload|) + U32Bytes(U32 - 1 - |payload| % U32)
    + U32Bytes(Crc.Crc32(U32Bytes(|payload|) + payload)) + payload
  }

  datatype FrameRead = Torn | Corrupt | Whole(payload: bytes, size: nat)

  /** Read one frame from the front of the unread bytes. Too few bytes is a
      torn append; anything inconsistent is corruption. */
  function ReadFrame(s: bytes): (r: FrameRead)
    ensures r.Whole? ==> FRAME_OVERHEAD <= r.size <= |s| && r.size == FRAME_OVERHEAD + |r.payload|
  {
    if |s| < 4 then Torn
    else if s[..4] != FRAME_MAGIC then Corrupt
    else if |s| < 16 then Torn
    else
      var length := LeValue(s[4..8]);
      if LeValue(s[8..12]) != U32 - 1 - length then Corrupt
      else if length > MAX_FRAME_BYTES then Corrupt
      else if 16 + length > |s| then Torn
      else
        var payload := s[16..16 + length];
        if LeValue(s[12..16]) != Crc.Crc32(U32Bytes(length) + payload) then Corrupt
        else Whole(payload, 16 + length)
  }

  /** The four fields in front of a payload, as they lie in a frame. */
  lemma FrameFields(payload: bytes, rest: bytes)
    requires |payload| < U32
    ensures var s := Frame(payload) + rest;
            s[..4] == FRAME_MAGIC && s[4..8] == U32Bytes(|payload|) &&
            s[8..12] == U32Bytes(U32 - 1 - |payload|) &&
            s[12..16] == U32Bytes(Crc.Crc32(U32Bytes(|payload|) + payload)) &&
            s[16..16 + |payload|] == payload && s[16 + |payload|..] == rest
  {
    hide Crc.Crc32, U32Bytes;
    var length := U32Bytes(|payload|);
    FieldsAt(FRAME_MAGIC, length, U32Bytes(U32 - 1 - |payload|), U32Bytes(Crc.Crc32(length + payload)), payload, rest);
  }

  lemma FieldsAt(a: bytes, b: bytes, c: bytes, d: bytes, payload: bytes, rest: bytes)
    requires |a| == |b| == |c| == |d| == 4
    ensures var s := a + b + c + d + payload + rest;
            s[..4] == a && s[4..8] == b && s[8..12] == c && s[12..16] == d &&
            s[16..16 + |payload|] == payload && s[16 + |payload|..] == rest
  {
  }

  /** A frame is read back if and only if its payload is within the limit that only the reader checks. */
  lemma FrameRoundTrip(payload: bytes, rest: bytes)
    requires |payload| < U32
    ensures ReadFrame(Frame(payload) + rest)
         == if |payload| <= MAX_FRAME_BYTES then Whole(payload, |Frame(payload)|) else Corrupt
  {
    FrameFields(payload, rest);
    U32Value(|payload|);
    U32Value(U32 - 1 - |payload|);
    U32Value(Crc.Crc32(U32Bytes(|payload|) + payload));
  }

  /** Every proper prefix of a frame reads as torn. */
  lemma TornFrame(payload: bytes, k: nat)
    requires |payload| <= MAX_FRAME_BYTES
    requires k < |Frame(payload)|
    ensures ReadFrame(Frame(payload)[..k]) == Torn
  {
    hide Crc.Crc32;
    var f := Frame(payload);
    var s := f[..k];
    FrameFields(payload, []);
    assert f + [] == f;
    if k >= 4 {
      assert s[..4] == f[..4];
    }
    if k >= 16 {
      assert s[4..8] == f[4..8];
      assert s[8..12] == f[8..12];
      U32Value(|payload|);
      U32Value(U32 - 1 - |payload|);
    }
  }

  /** Whatever reads as a frame is the encoding of its payload. */
  lemma FrameInverse(s: bytes)
    requires ReadFrame(s).Whole?
    ensures var r := ReadFrame(s);
            |r.payload| <= MAX_FRAME_BYTES && s[..r.size] == Frame(r.payload)
  {
    hide Crc.Crc32, LeValue, Le;
    var payload := ReadFrame(s).payload;
    LeValueRoundTrip(s[4..8]);
    LeValueRoundTrip(s[8..12]);
    LeValueRoundTrip(s[12..16]);
    assert s[..16 + |payload|] == s[..4] + s[4..8] + s[8..12] + s[12..16] + s[16..16 + |payload|];
  }

  /** `t` differs from `s`, but only inside the four bytes starting at `i`. */
  predicate DiffersWithin(s: bytes, t: bytes, i: nat) {
    && |s| == |t| && s != t
    && forall j :: 0 <= j < |s| && !(i <= j < i + 4) ==> s[j] == t[j]
  }

  /** Damage to at most four adjacent bytes of a frame, in front of the payload
      or inside it, always reads as corruption: never as another payload and
      never as a torn tail. */
  lemma FrameDamageDetected(payload: bytes, damaged: bytes, i: nat, rest: bytes)
    requires |payload| <= MAX_FRAME_BYTES
    requires DiffersWithin(Frame(payload), damaged, i)
    requires i + 4 <= FRAME_OVERHEAD || FRAME_OVERHEAD <= i
    ensures ReadFrame(damaged + rest) == Corrupt
  {
    hide Crc.Crc32;
    var f, s := Frame(payload), damaged + rest;
    FrameFields(payload, []);
    assert f + [] == f;
    assert |f| == |damaged| == 16 + |payload|;
    if i + 4 <= FRAME_OVERHEAD {
      HeadDamage(payload, damaged, i, rest);
    } else {
      assert s[..4] == f[..4] && s[4..8] == f[4..8] && s[8..12] == f[8..12] && s[12..16] == f[12..16];
      U32Value(|payload|);
      U32Value(Crc.Crc32(U32Bytes(|payload|) + payload));
      assert f[16..] == payload;
      PayloadDamage(payload, damaged[16..], i - 16);
      assert s[16..16 + |payload|] == damaged[16..];
    }
  }

  lemma HeadDamage(payload: bytes, damaged: bytes, i: nat, rest: bytes)
    requires |payload| <= MAX_FRAME_BYTES
    requires DiffersWithin(Frame(payload), damaged, i)
    requires i + 4 <= FRAME_OVERHEAD
    ensures ReadFrame(damaged + rest) == Corrupt
  {
    hide Crc.Crc32, LeValue;
    var f, s := Frame(payload), damaged + rest;
    FrameFields(payload, []);
    assert f + [] == f;
    var j :| 0 <= j < |f| && f[j] != s[j];
    if s[..4] == f[..4] {
      SliceAgrees(s, f, 0, 4);
      U32Value(|payload|);
      U32Value(U32 - 1 - |payload|);
      if s[4..8] == f[4..8] && s[8..12] == f[8..12] {
        SliceAgrees(s, f, 4, 8);
        SliceAgrees(s, f, 8, 12);
        assert s[12..16][j - 12] != f[12..16][j - 12];
        FieldChanged(s[12..16], f[12..16]);
        U32Value(Crc.Crc32(U32Bytes(|payload|) + payload));
        assert s[16..16 + |payload|] == f[16..16 + |payload|];
      } else {
        LengthGuard(s[4..8], s[8..12], f[4..8], f[8..12], i);
      }
    }
  }

  lemma SliceAgrees(s: bytes, t: bytes, lo: nat, hi: nat)
    requires lo <= hi <= |s| && hi <= |t|
    requires s[lo..hi] == t[lo..hi]
    ensures forall k :: lo <= k < hi ==> s[k] == t[k]
  {
    forall k | lo <= k < hi
      ensures s[k] == t[k]
    {
      assert s[lo..hi][k - lo] == t[lo..hi][k - lo];
    }
  }

  lemma FieldChanged(a: bytes, b: bytes)
    requires |a| == |b| == 4 && a != b
    ensures LeValue(a) != LeValue(b)
  {
    if LeValue(a) == LeValue(b) {
      LeValueInjective(a, b);
    }
  }

  /** Complementary values are complementary byte by byte. */
  lemma {:induction false} Complementary(a: bytes, b: bytes)
    requires |a| == |b| && LeValue(a) + LeValue(b) == Pow256(|a|) - 1
    ensures forall j :: 0 <= j < |a| ==> a[j] as int + b[j] as int == 255
  {
    if a != [] {
      var high := LeValue(a[1..]) + LeValue(b[1..]) - Pow256(|a| - 1);
      assert a[0] as int + b[0] as int + 256 * high == -1;
      Complementary(a[1..], b[1..]);
      forall j | 0 <= j < |a|
        ensures a[j] as int + b[j] as int == 255
      {
        if j > 0 {
          assert a[j] == a[1..][j - 1] && b[j] == b[1..][j - 1];
        }
      }
    }
  }

  /** A change confined to four adjacent bytes cannot alter a length and its complement consistently. */
  lemma LengthGuard(length: bytes, guard: bytes, length0: bytes, guard0: bytes, i: nat)
    requires |length| == |guard| == |length0| == |guard0| == 4
    requires LeValue(guard0) == U32 - 1 - LeValue(length0)
    requires length != length0 || guard != guard0
    requires forall j :: 0 <= j < 4 && !(i <= 4 + j < i + 4) ==> length[j] == length0[j]
    requires forall j :: 0 <= j < 4 && !(i <= 8 + j < i + 4) ==> guard[j] == guard0[j]
    ensures LeValue(guard) != U32 - 1 - LeValue(length)
  {
    hide LeValue, Pow256;
    if LeValue(guard) == U32 - 1 - LeValue(length) {
      Widths();
      Complementary(length, guard);
      Complementary(length0, guard0);
      GuardUnchanged(length, guard, length0, guard0, i);
    }
  }

  lemma GuardUnchanged(length: bytes, guard: bytes, length0: bytes, guard0: bytes, i: nat)
    requires |length| == |guard| == |length0| == |guard0| == 4
    requires forall j :: 0 <= j < 4 ==> length[j] as int + guard[j] as int == 255
    requires forall j :: 0 <= j < 4 ==> length0[j] as int + guard0[j] as int == 255
    requires forall j :: 0 <= j < 4 && !(i <= 4 + j < i + 4) ==> length[j] == length0[j]
    requires forall j :: 0 <= j < 4 && !(i <= 8 + j < i + 4) ==> guard[j] == guard0[j]
    ensures length == length0 && guard == guard0
  {
    forall j | 0 <= j < 4
      ensures length[j] == length0[j] && guard[j] == guard0[j]
    {
    }
  }

  lemma PayloadDamage(payload: bytes, damaged: bytes, i: nat)
    requires DiffersWithin(payload, damaged, i)
    ensures Crc.Crc32(U32Bytes(|payload|) + payload) != Crc.Crc32(U32Bytes(|payload|) + damaged)
  {
    hide Crc.Crc32;
    var pre, a, b, post := Window(payload, damaged, i);
    var head := U32Bytes(|payload|);
    Regroup(head, pre, a, post);
    Regroup(head, pre, b, post);
    Crc.BurstDetected(head + pre, a, b, post);
  }

  lemma Window(s: bytes, t: bytes, i: nat) returns (pre: bytes, a: bytes, b: bytes, post: bytes)
    requires DiffersWithin(s, t, i)
    ensures |a| == |b| <= 4 && a != b
    ensures s == pre + a + post && t == pre + b + post
  {
    var j :| 0 <= j < |s| && s[j] != t[j];
    var n := if i + 4 <= |s| then i + 4 else |s|;
    pre, a, b, post := s[..i], s[i..n], t[i..n], s[n..];
    assert a[j - i] != b[j - i];
    assert t[..i] == pre && t[n..] == post;
    Cut(s, i, n);
    Cut(t, i, n);
  }

  lemma Cut(s: bytes, i: nat, n: nat)
    requires i <= n <= |s|
    ensures s == s[..i] + s[i..n] + s[n..]
  {
  }

  lemma Regroup(a: bytes, b: bytes, c: bytes, d: bytes)
    ensures a + (b + c + d) == a + b + c + d
  {
  }
}
