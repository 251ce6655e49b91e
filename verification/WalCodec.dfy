/** The encoding and decoding loops of the journal, each computing the
    function that specifies it. */
module WalCodec {
  import opened Bytes
  import opened WalFormat
  import opened WalScan
  import Crc

  method EncodeArgsInto(args: seq<bytes>, out: bytes) returns (r: bytes)
    ensures r == out + EncodeArgs(args)
  {
    r := out;
    for i := 0 to |args|
      invariant r + EncodeArgs(args[i..]) == out + EncodeArgs(args)
    {
      ghost var before := r;
      r := r + U32Bytes(|args[i]|);
      r := r + args[i];
      assert args[i..][1..] == args[i + 1..];
      assert r == before + Prefixed(args[i]);
      assert before + EncodeArgs(args[i..]) == r + EncodeArgs(args[i + 1..]);
    }
    assert r + [] == r;
  }

  method EncodeGuardedPayload(payload: bytes) returns (frame: bytes)
    ensures frame == Frame(payload)
  {
    hide Crc.Crc32, Le;
    var length := U32Bytes(|payload|);
    var checksum := Crc.ComputeCrc32(length + payload);
    frame := FRAME_MAGIC;
    frame := frame + length;
    frame := frame + U32Bytes(U32 - 1 - |payload| % U32);
    frame := frame + U32Bytes(checksum);
    frame := frame + payload;
  }

  method EncodeCommandFrame(args: Command) returns (frame: bytes)
    ensures frame == Frame(CommandBytes(args))
  {
    var payload := EncodeArgsInto(args, U32Bytes(|args|));
    frame := EncodeGuardedPayload(payload);
  }

  method LengthsFit(args: Command) returns (ok: bool)
    ensures ok <==> ShortArgs(args)
  {
    for i := 0 to |args|
      invariant forall j :: 0 <= j < i ==> |args[j]| < U32
    {
      if |args[i]| >= U32 {
        return false;
      }
    }
    ok := true;
  }

  /** Fails when a count or a length does not fit in 32 bits. */
  method EncodeCommandBatch(commands: seq<Command>) returns (r: Option<bytes>)
    ensures r == if Countable(commands) then Some(BatchBytes(commands)) else None
  {
    if |commands| >= U32 {
      return None;
    }
    var out := U32Bytes(|commands|);
    for i := 0 to |commands|
      invariant forall j :: 0 <= j < i ==> |commands[j]| < U32 && ShortArgs(commands[j])
      invariant out + EncodeCommands(commands[i..]) == BatchBytes(commands)
    {
      hide EncodeArgs, U32Bytes, ShortArgs;
      var command := commands[i];
      if |command| >= U32 {
        return None;
      }
      var short := LengthsFit(command);
      if !short {
        return None;
      }
      CommandNext(out, commands, i);
      out := EncodeArgsInto(command, out + U32Bytes(|command|));
    }
    assert out + [] == out;
    r := Some(out);
  }

  lemma CommandNext(out: bytes, commands: seq<Command>, i: nat)
    requires i < |commands|
    ensures out + EncodeCommands(commands[i..]) ==
            out + U32Bytes(|commands[i]|) + EncodeArgs(commands[i]) + EncodeCommands(commands[i + 1..])
  {
    hide EncodeArgs, U32Bytes;
    assert commands[i..][1..] == commands[i + 1..];
  }

  /** `append_commands`: nothing, a plain frame, or one batch frame. */
  method EncodeAppend(commands: seq<Command>) returns (frame: Option<bytes>)
    ensures commands == [] ==> frame == Some([])
    ensures |commands| == 1 ==> frame == Some(RecordFrame(Plain(commands[0])))
    ensures |commands| > 1 ==>
              frame == if Countable(commands) then Some(RecordFrame(Batch(commands))) else None
  {
    if commands == [] {
      return Some([]);
    }
    if |commands| == 1 {
      var f := EncodeCommandFrame(commands[0]);
      return Some(f);
    }
    var payload := EncodeCommandBatch(commands);
    if payload.None? {
      return None;
    }
    var f := EncodeCommandFrame([BATCH_MARKER, payload.value]);
    frame := Some(f);
  }

  method EncodeChecked(command: Command) returns (frame: Option<bytes>)
    ensures frame == if Countable([command]) then Some(RecordFrame(Checked(command))) else None
  {
    var payload := EncodeCommandBatch([command]);
    if payload.None? {
      return None;
    }
    var f := EncodeCommandFrame([CHECKED_MARKER, payload.value]);
    frame := Some(f);
  }

  /** A record that fits in a frame is always encoded. */
  method EncodeRecord(r: Record) returns (frame: Option<bytes>)
    ensures frame.Some? ==> frame.value == RecordFrame(r)
    ensures Storable(r) ==> frame.Some?
  {
    hide Frame, CommandBytes, BatchBytes, Countable, Replayable;
    match r {
      case Plain(command) =>
        var f := EncodeCommandFrame(command);
        return Some(f);
      case Checked(command) =>
        CountableIfStorable(CHECKED_MARKER, [command]);
        frame := EncodeChecked(command);
      case Batch(commands) =>
        CountableIfStorable(BATCH_MARKER, commands);
        var payload := EncodeCommandBatch(commands);
        if payload.None? {
          return None;
        }
        var f := EncodeCommandFrame([BATCH_MARKER, payload.value]);
        return Some(f);
    }
  }

  lemma CountableIfStorable(marker: bytes, commands: seq<Command>)
    ensures |CommandBytes([marker, BatchBytes(commands)])| <= MAX_FRAME_BYTES ==> Countable(commands)
  {
    hide CommandBytes, BatchBytes, Countable;
    WrappedSize(marker, BatchBytes(commands));
    if |BatchBytes(commands)| < U32 {
      BatchBounded(commands);
    }
  }

  // ---- Decoding ----------------------------------------------------------

  method ParseArgs(input: bytes, argc: nat) returns (r: Parsed<seq<bytes>>)
    ensures r == ReadArgs(input, argc)
  {
    var args: seq<bytes>, cursor := [], input;
    PrependNothing(ReadArgs(input, argc));
    for i := 0 to argc
      invariant Prepend(args, ReadArgs(cursor, argc - i)) == ReadArgs(input, argc)
    {
      match ReadPrefixed(cursor) {
        case Read(arg, rest) =>
          PrependOne(args, arg, ReadArgs(rest, argc - i - 1));
          args, cursor := args + [arg], rest;
        case Short => return Short;
        case Invalid => return Invalid;
      }
    }
    assert args + [] == args;
    r := Read(args, cursor);
  }

  method ParseCommand(input: bytes) returns (r: Parsed<Command>)
    ensures r == ReadCommand(input)
  {
    match ReadU32(input)
    case Read(argc, rest) =>
      if argc == 0 {
        return Invalid;
      }
      r := ParseArgs(rest, argc);
    case Short => r := Short;
    case Invalid => r := Invalid;
  }

  method ParseBatch(input: bytes) returns (r: Option<seq<Command>>)
    ensures r == DecodeBatch(input)
  {
    hide ReadCommand;
    match ReadU32(input)
    case Short => return None;
    case Invalid => return None;
    case Read(count, start) =>
      var commands: seq<Command>, cursor := [], start;
      PrependNothing(ReadCommands(start, count));
      for i := 0 to count
        invariant Prepend(commands, ReadCommands(cursor, count - i)) == ReadCommands(start, count)
      {
        var one := ParseCommand(cursor);
        if !one.Read? {
          return None;
        }
        PrependOne(commands, one.value, ReadCommands(one.rest, count - i - 1));
        commands, cursor := commands + [one.value], one.rest;
      }
      assert commands + [] == commands;
      r := if cursor == [] then Some(commands) else None;
  }

  method DecodeWalPayload(payload: bytes) returns (r: Decoded)
    ensures r == DecodePayload(payload)
  {
    hide ReadCommand, DecodeBatch;
    var parsed := ParseCommand(payload);
    if !parsed.Read? || parsed.rest != [] {
      return Malformed;
    }
    var args := parsed.value;
    if |args| == 2 && args[0] == BATCH_MARKER {
      var inner := ParseBatch(args[1]);
      r := if inner.Some? then Decoded(inner.value, false) else Malformed;
    } else if |args| == 2 && args[0] == CHECKED_MARKER {
      var inner := ParseBatch(args[1]);
      r := if inner.Some? && |inner.value| == 1 then Decoded(inner.value, true) else Malformed;
    } else {
      r := Decoded([args], false);
    }
  }

  /** Read the frame at `pos` of a file. */
  method ReadNextFrame(file: bytes, pos: nat) returns (r: FrameRead)
    requires pos <= |file|
    ensures r == ReadFrame(file[pos..])
  {
    hide Crc.Crc32, LeValue;
    ghost var s := file[pos..];
    if |file| - pos < 4 {
      return Torn;
    }
    assert file[pos..pos + 4] == s[..4];
    if file[pos..pos + 4] != FRAME_MAGIC {
      return Corrupt;
    }
    if |file| - pos < 16 {
      return Torn;
    }
    assert file[pos + 4..pos + 8] == s[4..8] && file[pos + 8..pos + 12] == s[8..12];
    assert file[pos + 12..pos + 16] == s[12..16];
    var frameLen := LeValue(file[pos + 4..pos + 8]);
    var complement := LeValue(file[pos + 8..pos + 12]);
    var storedCrc := LeValue(file[pos + 12..pos + 16]);
    if complement != U32 - 1 - frameLen {
      return Corrupt;
    }
    if frameLen > MAX_FRAME_BYTES {
      return Corrupt;
    }
    if pos + 16 + frameLen > |file| {
      return Torn;
    }
    var payload := file[pos + 16..pos + 16 + frameLen];
    assert payload == s[16..16 + frameLen];
    var computed := Crc.ComputeCrc32(U32Bytes(frameLen) + payload);
    if storedCrc != computed {
      return Corrupt;
    }
    r := Whole(payload, 16 + frameLen);
  }

  /** Walk whole frames from the header until `offset` is reached. */
  method ValidateCheckpointOffset(file: bytes, offset: nat) returns (ok: bool)
    requires |file| >= HEADER_LEN
    ensures ok <==> HEADER_LEN <= offset <= |file| && OnBoundary(file[HEADER_LEN..], offset - HEADER_LEN)
  {
    hide ReadFrame;
    if offset < HEADER_LEN || offset > |file| {
      return false;
    }
    var position: nat := HEADER_LEN;
    while position < offset
      invariant HEADER_LEN <= position <= offset
      invariant OnBoundary(file[position..], offset - position)
           <==> OnBoundary(file[HEADER_LEN..], offset - HEADER_LEN)
    {
      var frame := ReadNextFrame(file, position);
      if !frame.Whole? {
        return false;
      }
      assert file[position..][frame.size..] == file[position + frame.size..];
      position := position + frame.size;
      if position > offset {
        return false;
      }
    }
    ok := true;
  }

  /** The replay loop over the file from `start`. */
  method ScanLoop(file: bytes, start: nat) returns (r: Scanned)
    requires start <= |file|
    ensures r == Scan(file[start..], start)
  {
    hide ReadFrame, DecodePayload;
    var commands: seq<Command>, tail: Option<nat>, pos := [], None, start;
    assert file[|file|..] == [];
    while pos < |file|
      invariant start <= pos <= |file|
      invariant Scan(file[start..], start) == Then(commands, tail, file[pos..] == [], Scan(file[pos..], pos))
    {
      var frame := ReadNextFrame(file, pos);
      if frame.Corrupt? {
        return Failed;
      }
      if frame.Torn? {
        assert commands + [] == commands;
        return Scanned(commands, None, pos);
      }
      var decoded := DecodeWalPayload(frame.payload);
      if decoded.Malformed? {
        return Failed;
      }
      var next := pos + frame.size;
      assert file[pos..][frame.size..] == file[next..];
      ThenAssociates(commands, decoded.commands, if decoded.checked then Some(pos) else None,
                     tail, file[next..] == [], Scan(file[next..], next));
      commands := commands + decoded.commands;
      tail := if decoded.checked then Some(pos) else None;
      pos := next;
    }
    assert commands + [] == commands;
    r := Scanned(commands, tail, pos);
  }

  /** `replay_from`: find the starting offset, then scan. */
  method ReplayFrom(file: bytes, generation: Generation, checkpoint: Option<Checkpoint>) returns (r: Scanned)
    requires |file| >= HEADER_LEN
    ensures r == Replay(file, generation, checkpoint)
  {
    hide Scan, OnBoundary;
    var start: nat := HEADER_LEN;
    if checkpoint.Some? {
      var c := checkpoint.value;
      if c.generation == generation {
        var ok := ValidateCheckpointOffset(file, c.offset);
        if !ok {
          return Failed;
        }
        start := c.offset;
      } else if c.successor.Some? && c.successor.value != generation {
        return Failed;
      }
    }
    r := ScanLoop(file, start);
  }

  lemma ThenAssociates(a: seq<Command>, b: seq<Command>, tail: Option<nat>, any: Option<nat>, last: bool, rest: Scanned)
    ensures Then(a, any, false, Then(b, tail, last, rest)) == Then(a + b, tail, last, rest)
  {
    if rest.Scanned? {
      assert a + (b + rest.commands) == a + b + rest.commands;
    }
  }
}
