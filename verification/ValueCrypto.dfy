/** Encrypting and decrypting one value under a ring of keys. The AEAD cipher
    and the key derivation are parameters. */
module ValueCrypto {
  import opened Bytes
  import opened EntryCodec
  import opened Envelope

  const DATA_KEY_LEN := 32

  datatype Cipher = Cipher(seal: (bytes, bytes, bytes, bytes) -> bytes,
                           open: (bytes, bytes, bytes, bytes) -> Option<bytes>,
                           derive: bytes -> bytes)

  /** Opening with the same key, nonce and associated data gives the plaintext
      back; the tag adds 16 bytes. */
  ghost predicate CipherOk(c: Cipher) {
    forall key: bytes, nonce: bytes, aad: bytes, plain: bytes ::
      var sealed := c.seal(key, nonce, aad, plain);
      |sealed| == |plain| + 16 && c.open(key, nonce, aad, sealed) == Some(plain)
  }

  // ---- Associated data ---------------------------------------------------

  /** Where a value is stored. */
  datatype Location = Location(table: bytes, field: bytes, pk: bytes)

  // "lux-dek-wrap-aad-v1"
  const WRAP_LABEL: bytes := [0x6C, 0x75, 0x78, 0x2D, 0x64, 0x65, 0x6B, 0x2D, 0x77, 0x72, 0x61, 0x70, 0x2D, 0x61, 0x61,
                              0x64, 0x2D, 0x76, 0x31]
  // "lux-value-aad-v1"
  const VALUE_LABEL: bytes := [0x6C, 0x75, 0x78, 0x2D, 0x76, 0x61, 0x6C, 0x75, 0x65, 0x2D, 0x61, 0x61, 0x64, 0x2D, 0x76,
                               0x31]

  function Aad(tag: bytes, l: Location, writer: bytes): bytes {
    tag + [0] + (l.table + [0] + (l.field + [0] + (l.pk + [0] + writer)))
  }

  function WrapAad(l: Location, writer: bytes): bytes {
    Aad(WRAP_LABEL, l, writer)
  }

  function ValueAad(l: Location, writer: bytes): bytes {
    Aad(VALUE_LABEL, l, writer)
  }

  predicate NulFree(s: bytes) {
    forall i :: 0 <= i < |s| ==> s[i] != 0
  }

  /** The first NUL of `a + [0] + x`. */
  lemma FirstNul(a: bytes, x: bytes, s: bytes)
    requires NulFree(a) && s == a + [0] + x
    ensures s[|a|] == 0 && (forall k :: 0 <= k < |a| ==> s[k] != 0) && s[..|a|] == a && s[|a| + 1..] == x
  {
  }

  /** The last NUL of `x + [0] + a`. */
  lemma LastNul(x: bytes, a: bytes, s: bytes)
    requires NulFree(a) && s == x + [0] + a
    ensures s[|x|] == 0 && (forall k :: |x| < k < |s| ==> s[k] != 0) && s[..|x|] == x && s[|x| + 1..] == a
  {
  }

  lemma FirstSeparator(a: bytes, x: bytes, b: bytes, y: bytes)
    requires NulFree(a) && NulFree(b) && a + [0] + x == b + [0] + y
    ensures a == b && x == y
  {
    var s := a + [0] + x;
    FirstNul(a, x, s);
    FirstNul(b, y, s);
  }

  lemma LastSeparator(x: bytes, a: bytes, y: bytes, b: bytes)
    requires NulFree(a) && NulFree(b) && x + [0] + a == y + [0] + b
    ensures x == y && a == b
  {
    var s := x + [0] + a;
    LastNul(x, a, s);
    LastNul(y, b, s);
  }

  /** Where tables, fields and key ids are free of NUL bytes, different
      locations and writers have different associated data. The primary key
      may hold anything. */
  lemma AadInjective(tag: bytes, l: Location, v: bytes, m: Location, w: bytes)
    requires NulFree(l.table) && NulFree(l.field) && NulFree(m.table) && NulFree(m.field) && NulFree(v) && NulFree(w)
    requires Aad(tag, l, v) == Aad(tag, m, w)
    ensures l == m && v == w
  {
    var x := l.table + [0] + (l.field + [0] + (l.pk + [0] + v));
    var y := m.table + [0] + (m.field + [0] + (m.pk + [0] + w));
    assert Aad(tag, l, v)[|tag| + 1..] == x && Aad(tag, m, w)[|tag| + 1..] == y;
    FirstSeparator(l.table, l.field + [0] + (l.pk + [0] + v), m.table, m.field + [0] + (m.pk + [0] + w));
    FirstSeparator(l.field, l.pk + [0] + v, m.field, m.pk + [0] + w);
    LastSeparator(l.pk, v, m.pk, w);
  }

  /** Another location with the same associated data. */
  predicate Twins(tag: bytes, l: Location, m: Location, writer: bytes) {
    l != m && Aad(tag, l, writer) == Aad(tag, m, writer)
  }

  /** A separator can be read in three places around a NUL. */
  lemma Recut(tag: bytes, a: bytes, b: bytes, x: bytes, y: bytes, writer: bytes)
    ensures Aad(tag, Location(a + [0] + b, x, y), writer) == Aad(tag, Location(a, b, x + [0] + y), writer)
    ensures Aad(tag, Location(x, a + [0] + b, y), writer) == Aad(tag, Location(x, a, b + [0] + y), writer)
  {
    var rest := y + [0] + writer;
    assert a + [0] + b + [0] + (x + [0] + rest) == a + [0] + (b + [0] + (x + [0] + y + [0] + writer));
    assert a + [0] + b + [0] + rest == a + [0] + (b + [0] + y + [0] + writer);
  }

  lemma SplitAtNul(s: bytes) returns (a: bytes, b: bytes)
    requires !NulFree(s)
    ensures s == a + [0] + b && |a| < |s|
  {
    var i :| 0 <= i < |s| && s[i] == 0;
    a, b := s[..i], s[i + 1..];
  }

  /** A NUL in a part can be taken for a separator: the parts are cut in
      another place and the associated data is the same. */
  lemma CutElsewhere(tag: bytes, l: Location, writer: bytes) returns (m: Location)
    requires !NulFree(l.table) || !NulFree(l.field) || !NulFree(l.pk)
    ensures Twins(tag, l, m, writer)
  {
    hide Aad, NulFree;
    if !NulFree(l.table) {
      var a, b := SplitAtNul(l.table);
      m := Location(a, b, l.field + [0] + l.pk);
      Recut(tag, a, b, l.field, l.pk, writer);
    } else if !NulFree(l.field) {
      var a, b := SplitAtNul(l.field);
      m := Location(l.table, a, b + [0] + l.pk);
      Recut(tag, a, b, l.table, l.pk, writer);
    } else {
      var a, b := SplitAtNul(l.pk);
      m := Location(l.table, l.field + [0] + a, b);
      Recut(tag, l.field, a, l.table, b, writer);
      assert |m.field| > |l.field|;
    }
  }

  lemma NulCount(s: bytes)
    ensures NulFree(s) <==> multiset(s)[0] == 0
  {
    assert NulFree(s) <==> 0 !in s;
  }

  /** The separators are the only NULs that need not be in a part. */
  lemma NulsOf(tag: bytes, l: Location, writer: bytes)
    ensures multiset(Aad(tag, l, writer))[0] ==
            multiset(tag)[0] + multiset(l.table)[0] + multiset(l.field)[0] + multiset(l.pk)[0] + multiset(writer)[0] + 4
  {
    var pk := l.pk + [0] + writer;
    assert multiset(pk)[0] == multiset(l.pk)[0] + 1 + multiset(writer)[0];
    var field := l.field + [0] + pk;
    assert multiset(field)[0] == multiset(l.field)[0] + 1 + multiset(pk)[0];
    var table := l.table + [0] + field;
    assert multiset(table)[0] == multiset(l.table)[0] + 1 + multiset(field)[0];
  }

  /** A location shares its associated data with another one exactly if one of
      its parts holds a NUL. By `AadInjective` one of the two then has it in
      its table or field. */
  lemma TwinExactly(tag: bytes, l: Location, writer: bytes)
    requires NulFree(writer)
    ensures (exists m :: Twins(tag, l, m, writer)) <==> !NulFree(l.table) || !NulFree(l.field) || !NulFree(l.pk)
  {
    hide Aad, NulFree;
    if !NulFree(l.table) || !NulFree(l.field) || !NulFree(l.pk) {
      var m := CutElsewhere(tag, l, writer);
    }
    forall m | Twins(tag, l, m, writer)
      ensures !NulFree(l.table) || !NulFree(l.field) || !NulFree(l.pk)
    {
      NulsOf(tag, l, writer);
      NulsOf(tag, m, writer);
      NulCount(l.table);
      NulCount(l.field);
      NulCount(l.pk);
      NulCount(m.table);
      NulCount(m.field);
      if NulFree(l.table) && NulFree(l.field) && NulFree(m.table) && NulFree(m.field) {
        AadInjective(tag, l, writer, m, writer);
      }
    }
  }

  // ---- Keys --------------------------------------------------------------

  datatype NetworkKey = NetworkKey(secret: bytes, decryptOnly: bool)

  datatype State = State(active: Option<Text>, keys: map<Text, NetworkKey>)

  /** Letters, digits, `_` and `-`, between 1 and 255 of them. */
  predicate KeyIdOk(id: bytes) {
    0 < |id| < 0x100 && forall i :: 0 <= i < |id| ==> IdByte(id[i])
  }

  predicate IdByte(b: byte) {
    0x30 <= b <= 0x39 || 0x41 <= b <= 0x5A || 0x61 <= b <= 0x7A || b == 0x5F || b == 0x2D
  }

  /** The active key, if there is one, is present and may encrypt. */
  predicate StateOk(s: State) {
    && (forall id <- s.keys :: KeyIdOk(id))
    && (s.active.Some? ==> s.active.value in s.keys && !s.keys[s.active.value].decryptOnly)
  }

  // ---- Decryption --------------------------------------------------------

  datatype Opened = Plain(value: bytes) | BadEnvelope(why: Why) | NoKey | Tampered

  function OpenWrap(c: Cipher, keys: map<Text, NetworkKey>, aad: bytes, w: Wrap): Option<bytes> {
    if w.id !in keys then None
    else match c.open(c.derive(keys[w.id].secret), w.nonce, aad, w.wrapped)
      case Some(dk) => if |dk| == DATA_KEY_LEN then Some(dk) else None
      case None => None
  }

  /** The data key from the first wrap that opens. */
  function Unwrap(c: Cipher, keys: map<Text, NetworkKey>, aad: bytes, wraps: seq<Wrap>): Option<bytes> {
    if wraps == [] then None
    else
      var dk := OpenWrap(c, keys, aad, wraps[0]);
      if dk.Some? then dk else Unwrap(c, keys, aad, wraps[1..])
  }

  function Decrypted(c: Cipher, keys: map<Text, NetworkKey>, l: Location, envelope: bytes): Opened {
    match Parse(envelope)
    case Rejected(why) => BadEnvelope(why)
    case Accepted(e, _) =>
      match Unwrap(c, keys, WrapAad(l, e.writer), e.wraps)
      case None => NoKey
      case Some(dk) =>
        match c.open(dk, e.nonce, ValueAad(l, e.writer), e.ciphertext)
        case None => Tampered
        case Some(plain) => Plain(plain)
  }

  method Decrypt(c: Cipher, s: State, l: Location, envelope: bytes) returns (r: Opened)
    ensures r == Decrypted(c, s.keys, l, envelope)
  {
    hide Parse, WrapAad, ValueAad, OpenWrap;
    var parsed := ParseEnvelope(envelope);
    if parsed.Rejected? {
      return BadEnvelope(parsed.why);
    }
    var e := parsed.value;
    var aad, i := WrapAad(l, e.writer), 0;
    assert e.wraps[0..] == e.wraps;
    while i < |e.wraps|
      invariant i <= |e.wraps|
      invariant Unwrap(c, s.keys, aad, e.wraps) == Unwrap(c, s.keys, aad, e.wraps[i..])
    {
      var dk := OpenWrap(c, s.keys, aad, e.wraps[i]);
      if dk.Some? {
        var plain := c.open(dk.value, e.nonce, ValueAad(l, e.writer), e.ciphertext);
        return if plain.Some? then Plain(plain.value) else Tampered;
      }
      assert e.wraps[i..][1..] == e.wraps[i + 1..];
      i := i + 1;
    }
    return NoKey;
  }

  // ---- What keeps a value readable ---------------------------------------

  /** The envelope was made for this value at this location under data key
      `dk`, and the wraps for keys the ring still has were made with them. */
  predicate MadeFor(c: Cipher, keys: map<Text, NetworkKey>, l: Location, plain: bytes, e: Sealed, dk: bytes) {
    && |dk| == DATA_KEY_LEN
    && e.ciphertext == c.seal(dk, e.nonce, ValueAad(l, e.writer), plain)
    && forall i | 0 <= i < |e.wraps| && e.wraps[i].id in keys :: WrappedFor(c, keys[e.wraps[i].id], l, e, dk, e.wraps[i])
  }

  predicate WrappedFor(c: Cipher, key: NetworkKey, l: Location, e: Sealed, dk: bytes, w: Wrap) {
    w.wrapped == c.seal(c.derive(key.secret), w.nonce, WrapAad(l, e.writer), dk)
  }

  /** Some key of the ring has a wrap. */
  predicate Reachable(keys: map<Text, NetworkKey>, wraps: seq<Wrap>) {
    exists i | 0 <= i < |wraps| :: wraps[i].id in keys
  }

  lemma {:induction false} UnwrapFinds(c: Cipher, keys: map<Text, NetworkKey>, l: Location, e: Sealed, dk: bytes,
                                       wraps: seq<Wrap>)
    requires CipherOk(c) && |dk| == DATA_KEY_LEN && Reachable(keys, wraps)
    requires forall i | 0 <= i < |wraps| && wraps[i].id in keys :: WrappedFor(c, keys[wraps[i].id], l, e, dk, wraps[i])
    ensures Unwrap(c, keys, WrapAad(l, e.writer), wraps) == Some(dk)
    decreases |wraps|
  {
    hide WrapAad;
    if wraps[0].id in keys {
      assert WrappedFor(c, keys[wraps[0].id], l, e, dk, wraps[0]);
    } else {
      var i :| 0 <= i < |wraps| && wraps[i].id in keys;
      assert wraps[1..][i - 1] == wraps[i];
      UnwrapFinds(c, keys, l, e, dk, wraps[1..]);
    }
  }

  /** A value the ring can reach decrypts to its plaintext. */
  lemma Readable(c: Cipher, keys: map<Text, NetworkKey>, l: Location, plain: bytes, e: Sealed, dk: bytes)
    requires CipherOk(c) && Sized(e) && MadeFor(c, keys, l, plain, e, dk) && Reachable(keys, e.wraps)
    ensures Decrypted(c, keys, l, Print(e)) == Plain(plain)
  {
    hide Parse, Print, WrapAad, ValueAad, Unwrap;
    RoundTrip(e);
    UnwrapFinds(c, keys, l, e, dk, e.wraps);
  }

  lemma {:induction false} Unreachable(c: Cipher, keys: map<Text, NetworkKey>, aad: bytes, wraps: seq<Wrap>)
    requires !Reachable(keys, wraps)
    ensures Unwrap(c, keys, aad, wraps) == None
    decreases |wraps|
  {
    if wraps != [] {
      assert wraps[0].id !in keys;
      forall i | 0 <= i < |wraps[1..]|
        ensures wraps[1..][i].id !in keys
      {
        assert wraps[1..][i] == wraps[i + 1];
      }
      Unreachable(c, keys, aad, wraps[1..]);
    }
  }

  /** An envelope made for a value is readable exactly when the ring still has
      one of the keys it was wrapped for. */
  lemma ReadableIff(c: Cipher, keys: map<Text, NetworkKey>, l: Location, plain: bytes, e: Sealed, dk: bytes)
    requires CipherOk(c) && Sized(e) && MadeFor(c, keys, l, plain, e, dk)
    ensures Decrypted(c, keys, l, Print(e)) == Plain(plain) <==> Reachable(keys, e.wraps)
  {
    hide Parse, Print, WrapAad, ValueAad, Unwrap, MadeFor;
    RoundTrip(e);
    if Reachable(keys, e.wraps) {
      Readable(c, keys, l, plain, e, dk);
    } else {
      Unreachable(c, keys, WrapAad(l, e.writer), e.wraps);
    }
  }

  lemma {:induction false} UnwrapOpened(c: Cipher, keys: map<Text, NetworkKey>, aad: bytes, wraps: seq<Wrap>) returns (i: nat)
    requires Unwrap(c, keys, aad, wraps).Some?
    ensures i < |wraps| && wraps[i].id in keys
    ensures c.open(c.derive(keys[wraps[i].id].secret), wraps[i].nonce, aad, wraps[i].wrapped).Some?
    decreases |wraps|
  {
    if OpenWrap(c, keys, aad, wraps[0]).Some? {
      i := 0;
    } else {
      i := UnwrapOpened(c, keys, aad, wraps[1..]);
      i := i + 1;
    }
  }

  /** The cipher accepts, under other associated data, what was sealed for `l`. */
  predicate Forged(c: Cipher, key: NetworkKey, l: Location, m: Location, e: Sealed, dk: bytes, w: Wrap) {
    && WrappedFor(c, key, l, e, dk, w)
    && WrapAad(l, e.writer) != WrapAad(m, e.writer)
    && c.open(c.derive(key.secret), w.nonce, WrapAad(m, e.writer), w.wrapped).Some?
  }

  predicate ForgedAny(c: Cipher, keys: map<Text, NetworkKey>, l: Location, m: Location, e: Sealed, dk: bytes) {
    exists i | 0 <= i < |e.wraps| :: e.wraps[i].id in keys && Forged(c, keys[e.wraps[i].id], l, m, e, dk, e.wraps[i])
  }

  /** Reading an envelope at another location succeeds only if the cipher
      itself is forged. */
  lemma OnlyAtHome(c: Cipher, keys: map<Text, NetworkKey>, l: Location, m: Location, plain: bytes, e: Sealed, dk: bytes)
    requires Sized(e) && MadeFor(c, keys, l, plain, e, dk) && Decrypted(c, keys, m, Print(e)).Plain?
    requires NulFree(l.table) && NulFree(l.field) && NulFree(m.table) && NulFree(m.field) && NulFree(e.writer)
    ensures l == m || ForgedAny(c, keys, l, m, e, dk)
  {
    hide Parse, Print, ValueAad, Unwrap, Aad;
    RoundTrip(e);
    var i := UnwrapOpened(c, keys, WrapAad(m, e.writer), e.wraps);
    assert WrappedFor(c, keys[e.wraps[i].id], l, e, dk, e.wraps[i]);
    if WrapAad(l, e.writer) == WrapAad(m, e.writer) {
      AadInjective(WRAP_LABEL, l, e.writer, m, e.writer);
    }
  }

  // ---- Encryption --------------------------------------------------------

  /** Every key of the ring got a wrap of the data key. */
  predicate WrapsAll(keys: map<Text, NetworkKey>, wraps: seq<Wrap>) {
    forall id <- keys :: exists i | 0 <= i < |wraps| :: wraps[i].id == id
  }

  /** Encrypt under a fresh data key, wrapped for every key of the ring. */
  method Encrypt(c: Cipher, s: State, l: Location, plain: bytes) returns (r: Option<bytes>, ghost e: Sealed, ghost dk: bytes)
    requires CipherOk(c) && StateOk(s)
    ensures r.None? <==> s.active.None? || |s.keys| > 0xFF
    ensures r.Some? ==>
              && Sized(e) && r.value == Print(e) && e.writer == s.active.value
              && MadeFor(c, s.keys, l, plain, e, dk) && WrapsAll(s.keys, e.wraps) && NulFree(e.writer)
              && forall i | 0 <= i < |e.wraps| :: e.wraps[i].id in s.keys
  {
    hide Print, WrapAad, ValueAad, Utf8;
    if s.active.None? {
      e, dk := Sealed(ANY_TEXT, [], [], []), [];
      return None, e, dk;
    }
    var writer := s.active.value;
    var dataKey := Random(DATA_KEY_LEN);
    var nonce := Random(NONCE_LEN);
    dk := dataKey;
    var ciphertext := c.seal(dataKey, nonce, ValueAad(l, writer), plain);
    var wraps := WrapEach(c, s.keys, l, writer, dataKey);
    e := Sealed(writer, wraps, nonce, ciphertext);
    if |wraps| > 0xFF {
      return None, e, dk;
    }
    assert KeyIdOk(writer);
    var out := PrintEnvelope(Sealed(writer, wraps, nonce, ciphertext));
    return Some(out), e, dk;
  }

  const ANY_TEXT: Text := []

  /** Bytes from the random source. */
  method Random(n: nat) returns (b: bytes)
    ensures |b| == n
  {
    var zeros: bytes := seq(n, _ => 0);
    assert |zeros| == n;
    b :| |b| == n;
  }

  /** Wrap the data key for every key of the ring, in some order. */
  method WrapEach(c: Cipher, keys: map<Text, NetworkKey>, l: Location, writer: Text, dk: bytes) returns (wraps: seq<Wrap>)
    requires CipherOk(c) && |dk| == DATA_KEY_LEN && forall id <- keys :: KeyIdOk(id)
    ensures |wraps| == |keys| && WrapsAll(keys, wraps)
    ensures forall i | 0 <= i < |wraps| :: wraps[i].id in keys && WrapFits(wraps[i]) &&
                                           wraps[i].wrapped == c.seal(c.derive(keys[wraps[i].id].secret), wraps[i].nonce,
                                                                      WrapAad(l, writer), dk)
  {
    hide WrapAad, Utf8;
    wraps := [];
    var todo := keys.Keys;
    while todo != {}
      invariant todo <= keys.Keys && |wraps| + |todo| == |keys|
      invariant forall id <- keys :: id in todo || exists i | 0 <= i < |wraps| :: wraps[i].id == id
      invariant forall i | 0 <= i < |wraps| :: wraps[i].id in keys && WrapFits(wraps[i]) &&
                                               wraps[i].wrapped == c.seal(c.derive(keys[wraps[i].id].secret), wraps[i].nonce,
                                                                          WrapAad(l, writer), dk)
      decreases todo
    {
      var id :| id in todo;
      var nonce := Random(NONCE_LEN);
      var w := Wrap(id, nonce, c.seal(c.derive(keys[id].secret), nonce, WrapAad(l, writer), dk));
      var before := wraps;
      wraps := wraps + [w];
      assert wraps[|before|].id == id;
      forall other | other in keys
        ensures other in todo - {id} || exists i | 0 <= i < |wraps| :: wraps[i].id == other
      {
        if other !in todo {
          var i :| 0 <= i < |before| && before[i].id == other;
          assert wraps[i].id == other;
        }
      }
      todo := todo - {id};
    }
  }

  /** Append the parts of an envelope to a buffer. */
  method PrintEnvelope(e: Sealed) returns (out: bytes)
    requires Sized(e)
    ensures out == Print(e)
  {
    hide PrintWrap, WrapFits, Utf8;
    out := MAGIC + PrintId(e.writer) + [|e.wraps| as byte];
    ghost var head := out;
    var i := 0;
    assert e.wraps[..0] == [];
    while i < |e.wraps|
      invariant i <= |e.wraps| && out == head + PrintWraps(e.wraps[..i])
    {
      PrintWrapsAppend(e.wraps[..i], e.wraps[i]);
      assert e.wraps[..i + 1] == e.wraps[..i] + [e.wraps[i]];
      out := out + PrintWrap(e.wraps[i]);
      i := i + 1;
    }
    assert e.wraps[..i] == e.wraps;
    out := out + e.nonce + e.ciphertext;
  }

  lemma {:induction false} PrintWrapsAppend(ws: seq<Wrap>, w: Wrap)
    requires WrapFits(w) && forall i :: 0 <= i < |ws| ==> WrapFits(ws[i])
    ensures PrintWraps(ws + [w]) == PrintWraps(ws) + PrintWrap(w)
  {
    hide PrintWrap, WrapFits;
    if ws == [] {
      assert ws + [w] == [w];
      assert [w][1..] == [];
    } else {
      assert (ws + [w])[1..] == ws[1..] + [w];
      PrintWrapsAppend(ws[1..], w);
    }
  }
}
