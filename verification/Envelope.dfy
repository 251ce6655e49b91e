/** The envelope of an encrypted value: who wrote it, the data key wrapped for
    every key of the ring, and the ciphertext. */
module Envelope {
  import opened Bytes
  import opened EntryCodec

  // "LUXENC2"
  const MAGIC: bytes := [0x4C, 0x55, 0x58, 0x45, 0x4E, 0x43, 0x32]
  const NONCE_LEN := 12
  const WRAPPED_LEN := 48

  datatype Wrap = Wrap(id: Text, nonce: bytes, wrapped: bytes)

  datatype Sealed = Sealed(writer: Text, wraps: seq<Wrap>, nonce: bytes, ciphertext: bytes)

  predicate WrapFits(w: Wrap) {
    |w.id| < 0x100 && |w.nonce| == NONCE_LEN && |w.wrapped| == WRAPPED_LEN
  }

  /** The sizes the one-byte counts and fixed-width fields can hold. */
  predicate Sized(e: Sealed) {
    |e.writer| < 0x100 && |e.wraps| < 0x100 && |e.nonce| == NONCE_LEN &&
    forall i :: 0 <= i < |e.wraps| ==> WrapFits(e.wraps[i])
  }

  function PrintId(t: Text): bytes
    requires |t| < 0x100
  {
    [|t| as byte] + t
  }

  function PrintWrap(w: Wrap): bytes
    requires WrapFits(w)
  {
    PrintId(w.id) + w.nonce + w.wrapped
  }

  function PrintWraps(ws: seq<Wrap>): bytes
    requires forall i :: 0 <= i < |ws| ==> WrapFits(ws[i])
  {
    if ws == [] then [] else PrintWrap(ws[0]) + PrintWraps(ws[1..])
  }

  function Print(e: Sealed): bytes
    requires Sized(e)
  {
    MAGIC + PrintId(e.writer) + [|e.wraps| as byte] + PrintWraps(e.wraps) + e.nonce + e.ciphertext
  }

  // ---- Parsing -----------------------------------------------------------

  datatype Why = NotEncrypted | Truncated | InvalidId

  datatype Outcome<+T> = Rejected(why: Why) | Accepted(value: T, rest: bytes) {
    predicate IsFailure() { Rejected? }
    function PropagateFailure<U>(): Outcome<U>
      requires Rejected?
    {
      Rejected(why)
    }
    function Extract(): (T, bytes)
      requires Accepted?
    {
      (value, rest)
    }
  }

  /** A length byte and that many bytes of text, with `after` more bytes behind them. */
  function ReadId(s: bytes, after: nat): Outcome<Text> {
    if |s| == 0 then Rejected(Truncated)
    else
      var n := s[0] as nat;
      if |s| < 1 + n + after then Rejected(Truncated)
      else if !Utf8(s[1..1 + n]) then Rejected(InvalidId)
      else Accepted(s[1..1 + n], s[1 + n..])
  }

  function ReadWrap(s: bytes): (r: Outcome<Wrap>)
    ensures r.Accepted? ==> |r.rest| < |s|
  {
    var (id, rest) :- ReadId(s, NONCE_LEN + WRAPPED_LEN);
    Accepted(Wrap(id, rest[..NONCE_LEN], rest[NONCE_LEN..NONCE_LEN + WRAPPED_LEN]), rest[NONCE_LEN + WRAPPED_LEN..])
  }

  function ReadWraps(s: bytes, n: nat): Outcome<seq<Wrap>> {
    if n == 0 then Accepted([], s)
    else
      var (w, rest) :- ReadWrap(s);
      var (ws, tail) :- ReadWraps(rest, n - 1);
      Accepted([w] + ws, tail)
  }

  function ReadTail(writer: Text, ws: seq<Wrap>, s: bytes): Outcome<Sealed> {
    if |s| < NONCE_LEN then Rejected(Truncated)
    else Accepted(Sealed(writer, ws, s[..NONCE_LEN], s[NONCE_LEN..]), [])
  }

  function Parse(s: bytes): Outcome<Sealed> {
    if !(MAGIC <= s) then Rejected(NotEncrypted)
    else
      var (writer, rest) :- ReadId(s[|MAGIC|..], 1);
      var (ws, tail) :- ReadWraps(rest[1..], rest[0] as nat);
      ReadTail(writer, ws, tail)
  }

  // ---- Printing, then parsing --------------------------------------------

  lemma IdRoundTrip(t: Text, rest: bytes, after: nat)
    requires |t| < 0x100 && after <= |rest|
    ensures ReadId(PrintId(t) + rest, after) == Accepted(t, rest)
  {
    hide Utf8;
    var s := PrintId(t) + rest;
    assert s[1..1 + |t|] == t && s[1 + |t|..] == rest;
  }

  lemma WrapRoundTrip(w: Wrap, rest: bytes)
    requires WrapFits(w)
    ensures ReadWrap(PrintWrap(w) + rest) == Accepted(w, rest)
  {
    hide ReadId, PrintId;
    var body := w.nonce + w.wrapped + rest;
    IdRoundTrip(w.id, body, NONCE_LEN + WRAPPED_LEN);
    assert PrintWrap(w) + rest == PrintId(w.id) + body;
    assert body[..NONCE_LEN] == w.nonce && body[NONCE_LEN..NONCE_LEN + WRAPPED_LEN] == w.wrapped;
    assert body[NONCE_LEN + WRAPPED_LEN..] == rest;
  }

  lemma {:induction false} WrapsRoundTrip(ws: seq<Wrap>, rest: bytes)
    requires forall i :: 0 <= i < |ws| ==> WrapFits(ws[i])
    ensures ReadWraps(PrintWraps(ws) + rest, |ws|) == Accepted(ws, rest)
  {
    hide ReadWrap, PrintWrap, WrapFits, Utf8;
    if ws == [] {
      assert PrintWraps(ws) + rest == rest;
    } else {
      var tail := PrintWraps(ws[1..]) + rest;
      assert PrintWraps(ws) + rest == PrintWrap(ws[0]) + tail;
      WrapRoundTrip(ws[0], tail);
      WrapsRoundTrip(ws[1..], rest);
      assert ws == [ws[0]] + ws[1..];
    }
  }

  /** Every envelope is recovered from its bytes. */
  lemma RoundTrip(e: Sealed)
    requires Sized(e)
    ensures Parse(Print(e)) == Accepted(e, [])
  {
    hide ReadId, PrintId, ReadWraps, PrintWraps;
    var tail := e.nonce + e.ciphertext;
    var body := [|e.wraps| as byte] + (PrintWraps(e.wraps) + tail);
    assert Print(e) == MAGIC + (PrintId(e.writer) + body);
    IdRoundTrip(e.writer, body, 1);
    WrapsRoundTrip(e.wraps, tail);
    assert body[1..] == PrintWraps(e.wraps) + tail;
    assert tail[..NONCE_LEN] == e.nonce && tail[NONCE_LEN..] == e.ciphertext;
  }

  // ---- Parsing, then printing --------------------------------------------

  lemma IdInverse(s: bytes, after: nat)
    requires ReadId(s, after).Accepted?
    ensures var r := ReadId(s, after); |r.value| < 0x100 && |r.rest| >= after && s == PrintId(r.value) + r.rest
  {
    hide Utf8;
  }

  lemma WrapInverse(s: bytes)
    requires ReadWrap(s).Accepted?
    ensures var r := ReadWrap(s); WrapFits(r.value) && s == PrintWrap(r.value) + r.rest
  {
    hide ReadId, PrintId;
    IdInverse(s, NONCE_LEN + WRAPPED_LEN);
    var rest := ReadId(s, NONCE_LEN + WRAPPED_LEN).rest;
    assert rest == rest[..NONCE_LEN] + rest[NONCE_LEN..NONCE_LEN + WRAPPED_LEN] + rest[NONCE_LEN + WRAPPED_LEN..];
  }

  lemma {:induction false} WrapsInverse(s: bytes, n: nat)
    requires ReadWraps(s, n).Accepted?
    ensures var r := ReadWraps(s, n);
            && |r.value| == n && (forall i :: 0 <= i < n ==> WrapFits(r.value[i]))
            && s == PrintWraps(r.value) + r.rest
    decreases n
  {
    hide ReadWrap, PrintWrap, WrapFits;
    if n != 0 {
      WrapInverse(s);
      var first := ReadWrap(s);
      WrapsInverse(first.rest, n - 1);
      var r := ReadWraps(s, n);
      assert r.value[1..] == ReadWraps(first.rest, n - 1).value;
    }
  }

  /** Whatever the parser accepts prints back to the same bytes. */
  lemma Inverse(s: bytes)
    requires Parse(s).Accepted?
    ensures var e := Parse(s).value; Sized(e) && Print(e) == s
  {
    hide ReadId, PrintId, ReadWraps, PrintWraps, WrapFits;
    var head := ReadId(s[|MAGIC|..], 1);
    IdInverse(s[|MAGIC|..], 1);
    WrapsInverse(head.rest[1..], head.rest[0] as nat);
    var body := ReadWraps(head.rest[1..], head.rest[0] as nat);
    var e := Parse(s).value;
    assert s == MAGIC + s[|MAGIC|..];
    assert head.rest == [head.rest[0]] + head.rest[1..];
    assert body.rest == e.nonce + e.ciphertext;
  }

  // ---- The loops of the program ------------------------------------------

  /** `parse_envelope`: one position moving over the bytes. */
  method ParseEnvelope(s: bytes) returns (r: Outcome<Sealed>)
    ensures r == Parse(s)
  {
    hide Utf8, ReadWrap;
    if |s| < |MAGIC| || s[..|MAGIC|] != MAGIC {
      return Rejected(NotEncrypted);
    }
    var pos := |MAGIC|;
    if pos >= |s| {
      return Rejected(Truncated);
    }
    var writerEnd := pos + 1 + s[pos] as nat;
    if |s| < writerEnd + 1 {
      return Rejected(Truncated);
    }
    var head := s[|MAGIC|..];
    assert head[1..1 + head[0] as nat] == s[pos + 1..writerEnd] && head[1 + head[0] as nat..] == s[writerEnd..];
    if !Utf8(s[pos + 1..writerEnd]) {
      return Rejected(InvalidId);
    }
    var writer: Text := s[pos + 1..writerEnd];
    pos := writerEnd + 1;
    assert s[writerEnd..][1..] == s[pos..];
    var wraps, pos', why := ParseWraps(s, pos, s[writerEnd] as nat);
    if why.Some? {
      return Rejected(why.value);
    }
    pos := pos';
    if |s| < pos + NONCE_LEN {
      return Rejected(Truncated);
    }
    assert s[pos..][..NONCE_LEN] == s[pos..pos + NONCE_LEN] && s[pos..][NONCE_LEN..] == s[pos + NONCE_LEN..];
    return Accepted(Sealed(writer, wraps, s[pos..pos + NONCE_LEN], s[pos + NONCE_LEN..]), []);
  }

  method ParseWraps(s: bytes, start: nat, count: nat) returns (wraps: seq<Wrap>, pos: nat, why: Option<Why>)
    requires start <= |s|
    ensures why.Some? ==> ReadWraps(s[start..], count) == Rejected(why.value)
    ensures why.None? ==> pos <= |s| && ReadWraps(s[start..], count) == Accepted(wraps, s[pos..])
  {
    hide Utf8, ReadWrap;
    wraps, pos, why := [], start, None;
    BeforeNothing(ReadWraps(s[start..], count));
    var i := 0;
    while i < count
      invariant i <= count && pos <= |s|
      invariant ReadWraps(s[start..], count) == Before(wraps, ReadWraps(s[pos..], count - i))
    {
      var w, next := ParseWrap(s, pos);
      if w.Rejected? {
        return [], pos, Some(w.why);
      }
      BeforeMore(wraps, w.value, ReadWraps(s[next..], count - i - 1));
      wraps, pos, i := wraps + [w.value], next, i + 1;
    }
    assert wraps + [] == wraps;
  }

  /** Prepend already parsed wraps. */
  function Before(ws: seq<Wrap>, r: Outcome<seq<Wrap>>): Outcome<seq<Wrap>> {
    match r
    case Rejected(why) => Rejected(why)
    case Accepted(more, rest) => Accepted(ws + more, rest)
  }

  lemma BeforeNothing(r: Outcome<seq<Wrap>>)
    ensures Before([], r) == r
  {
    if r.Accepted? {
      assert [] + r.value == r.value;
    }
  }

  lemma BeforeMore(ws: seq<Wrap>, w: Wrap, r: Outcome<seq<Wrap>>)
    ensures Before(ws, Before([w], r)) == Before(ws + [w], r)
  {
    if r.Accepted? {
      assert ws + ([w] + r.value) == ws + [w] + r.value;
    }
  }

  method ParseWrap(s: bytes, pos: nat) returns (r: Outcome<Wrap>, next: nat)
    requires pos <= |s|
    ensures r == ReadWrap(s[pos..])
    ensures r.Accepted? ==> next <= |s| && r.rest == s[next..]
  {
    hide Utf8;
    next := pos;
    if pos >= |s| {
      return Rejected(Truncated), next;
    }
    var idEnd := pos + 1 + s[pos] as nat;
    next := idEnd + NONCE_LEN + WRAPPED_LEN;
    if |s| < next {
      return Rejected(Truncated), next;
    }
    var rest := s[pos..];
    assert rest[1..1 + rest[0] as nat] == s[pos + 1..idEnd] && rest[1 + rest[0] as nat..] == s[idEnd..];
    if !Utf8(s[pos + 1..idEnd]) {
      return Rejected(InvalidId), next;
    }
    var w := Wrap(s[pos + 1..idEnd], s[idEnd..idEnd + NONCE_LEN], s[idEnd + NONCE_LEN..next]);
    assert s[idEnd..][..NONCE_LEN] == w.nonce;
    assert s[idEnd..][NONCE_LEN..NONCE_LEN + WRAPPED_LEN] == w.wrapped;
    assert s[idEnd..][NONCE_LEN + WRAPPED_LEN..] == s[next..];
    r := Accepted(w, s[next..]);
  }
}
