/** Values encrypted under the ring through its whole life. */
module Vault {
  import opened Bytes
  import opened EntryCodec
  import opened Envelope
  import opened ValueCrypto
  import opened KeyFiles
  import opened Keyring

  /** How a stored envelope came about. */
  datatype Made = Made(e: Sealed, dk: bytes, plain: bytes)

  type Keys = map<Text, NetworkKey>

  /** The ring's keys are keys that were issued, with their secrets. */
  predicate SameSecrets(keys: Keys, issued: Keys) {
    forall id <- keys :: id in issued && issued[id].secret == keys[id].secret
  }

  predicate MadeOk(c: Cipher, issued: Keys, l: Location, envelope: bytes, m: Made) {
    && Sized(m.e) && envelope == Print(m.e) && NulFree(m.e.writer)
    && MadeFor(c, issued, l, m.plain, m.e, m.dk)
    && forall i | 0 <= i < |m.e.wraps| :: m.e.wraps[i].id in issued
  }

  /** Every stored value can be read with the keys of `s`. */
  ghost predicate Kept(c: Cipher, issued: Keys, s: State, stored: map<Location, bytes>, made: map<Location, Made>) {
    && SameSecrets(s.keys, issued) && (s.active.None? ==> s.keys == map[])
    && stored.Keys == made.Keys
    && forall l <- stored :: MadeOk(c, issued, l, stored[l], made[l]) && Reachable(s.keys, made[l].e.wraps)
  }

  /** `envelope_decryptable_by_any`. */
  predicate DecryptableByAny(envelope: bytes, ids: set<Text>) {
    var p := Parse(envelope);
    p.Accepted? && exists i | 0 <= i < |p.value.wraps| :: p.value.wraps[i].id in ids
  }

  // ---- What each transition keeps ----------------------------------------

  lemma MadeForLess(c: Cipher, issued: Keys, keys: Keys, l: Location, m: Made)
    requires MadeFor(c, issued, l, m.plain, m.e, m.dk) && SameSecrets(keys, issued)
    ensures MadeFor(c, keys, l, m.plain, m.e, m.dk)
  {
    hide ValueAad, WrapAad;
    forall i | 0 <= i < |m.e.wraps| && m.e.wraps[i].id in keys
      ensures WrappedFor(c, keys[m.e.wraps[i].id], l, m.e, m.dk, m.e.wraps[i])
    {
      assert WrappedFor(c, issued[m.e.wraps[i].id], l, m.e, m.dk, m.e.wraps[i]);
    }
  }

  lemma KeptReads(c: Cipher, issued: Keys, s: State, stored: map<Location, bytes>, made: map<Location, Made>, l: Location)
    requires CipherOk(c) && Kept(c, issued, s, stored, made) && l in stored
    ensures Decrypted(c, s.keys, l, stored[l]) == Plain(made[l].plain)
  {
    hide MadeFor, Reachable, Decrypted, Print;
    MadeForLess(c, issued, s.keys, l, made[l]);
    Readable(c, s.keys, l, made[l].plain, made[l].e, made[l].dk);
  }

  /** Table and field names as the schema allows them. */
  predicate Named(l: Location) {
    NulFree(l.table) && NulFree(l.field)
  }

  /** The envelope opens at no other location, unless the cipher is forged. */
  ghost predicate AtHome(c: Cipher, keys: Keys, l: Location, envelope: bytes, made: Made) {
    forall m: Location | m != l && Named(l) && Named(m) ::
      Decrypted(c, keys, m, envelope).Plain? ==> ForgedAny(c, keys, l, m, made.e, made.dk)
  }

  lemma KeptAtHome(c: Cipher, issued: Keys, s: State, stored: map<Location, bytes>, made: map<Location, Made>, l: Location)
    requires Kept(c, issued, s, stored, made) && l in stored
    ensures AtHome(c, s.keys, l, stored[l], made[l])
  {
    hide MadeFor, Reachable, Decrypted, Print, NulFree, ForgedAny;
    MadeForLess(c, issued, s.keys, l, made[l]);
    forall m: Location | m != l && Named(l) && Named(m) && Decrypted(c, s.keys, m, stored[l]).Plain?
      ensures ForgedAny(c, s.keys, l, m, made[l].e, made[l].dk)
    {
      OnlyAtHome(c, s.keys, l, m, made[l].plain, made[l].e, made[l].dk);
    }
  }

  /** A secret for an id that was never used disturbs no envelope. */
  lemma MadeOkIssued(c: Cipher, issued: Keys, l: Location, envelope: bytes, m: Made, id: Text, key: NetworkKey)
    requires MadeOk(c, issued, l, envelope, m) && id !in issued
    ensures MadeOk(c, issued[id := key], l, envelope, m)
  {
    hide Print, ValueAad, WrapAad;
    var more := issued[id := key];
    forall i | 0 <= i < |m.e.wraps| && m.e.wraps[i].id in more
      ensures WrappedFor(c, more[m.e.wraps[i].id], l, m.e, m.dk, m.e.wraps[i])
    {
      assert m.e.wraps[i].id in issued;
      assert WrappedFor(c, issued[m.e.wraps[i].id], l, m.e, m.dk, m.e.wraps[i]);
    }
  }

  lemma KeptIssued(c: Cipher, issued: Keys, s: State, stored: map<Location, bytes>, made: map<Location, Made>,
                   id: Text, key: NetworkKey)
    requires Kept(c, issued, s, stored, made) && id !in issued
    ensures Kept(c, issued[id := key], s, stored, made)
  {
    hide MadeOk, Reachable;
    forall l | l in stored
      ensures MadeOk(c, issued[id := key], l, stored[l], made[l])
    {
      MadeOkIssued(c, issued, l, stored[l], made[l], id, key);
    }
  }

  lemma KeptRotated(c: Cipher, issued: Keys, s: State, stored: map<Location, bytes>, made: map<Location, Made>,
                    id: Text, secret: bytes)
    requires Kept(c, issued, s, stored, made) && id !in issued
    ensures Kept(c, issued[id := NetworkKey(secret, false)], Rotated(s, id, secret), stored, made)
  {
    hide MadeOk;
    KeptIssued(c, issued, s, stored, made, id, NetworkKey(secret, false));
    forall l | l in stored
      ensures Reachable(Rotated(s, id, secret).keys, made[l].e.wraps)
    {
      var i :| 0 <= i < |made[l].e.wraps| && made[l].e.wraps[i].id in s.keys;
      assert made[l].e.wraps[i].id in Rotated(s, id, secret).keys;
    }
  }

  /** Without keys there are no values, so a first key endangers none. */
  lemma KeptInitialized(c: Cipher, issued: Keys, s: State, stored: map<Location, bytes>, made: map<Location, Made>,
                        id: Text, secret: bytes)
    requires Kept(c, issued, s, stored, made) && id !in issued && s.active.None?
    ensures Kept(c, issued[id := NetworkKey(secret, false)], Initialized(id, secret), stored, made)
  {
    hide MadeOk;
    KeptRotated(c, issued, s, stored, made, id, secret);
    EmptyRotation(s, id, secret);
  }

  lemma KeptRetired(c: Cipher, issued: Keys, s: State, stored: map<Location, bytes>, made: map<Location, Made>, id: Text)
    requires Kept(c, issued, s, stored, made) && s.active != Some(id) && id in s.keys
    requires forall l <- stored :: DecryptableByAny(stored[l], s.keys.Keys - {id})
    ensures Kept(c, issued, Retired(s, id), stored, made)
  {
    hide Parse, Print, MadeFor;
    forall l | l in stored
      ensures Reachable(Retired(s, id).keys, made[l].e.wraps)
    {
      RoundTrip(made[l].e);
      assert DecryptableByAny(stored[l], s.keys.Keys - {id});
    }
  }

  lemma KeptStored(c: Cipher, issued: Keys, s: State, stored: map<Location, bytes>, made: map<Location, Made>,
                   l: Location, envelope: bytes, m: Made)
    requires Kept(c, issued, s, stored, made) && StateOk(s) && s.active.Some?
    requires Sized(m.e) && envelope == Print(m.e) && MadeFor(c, s.keys, l, m.plain, m.e, m.dk)
    requires WrapsAll(s.keys, m.e.wraps) && NulFree(m.e.writer) && forall i | 0 <= i < |m.e.wraps| :: m.e.wraps[i].id in s.keys
    ensures Kept(c, issued, s, stored[l := envelope], made[l := m])
  {
    hide Print, ValueAad, WrapAad, KeyIdOk;
    forall i | 0 <= i < |m.e.wraps| && m.e.wraps[i].id in issued
      ensures WrappedFor(c, issued[m.e.wraps[i].id], l, m.e, m.dk, m.e.wraps[i])
    {
      assert WrappedFor(c, s.keys[m.e.wraps[i].id], l, m.e, m.dk, m.e.wraps[i]);
    }
    assert s.active.value in s.keys;
  }

  /** `init` puts its new key in place of whatever keys a ring without an
      active key holds: a value it could read stays readable only if its
      envelope already names the new id. */
  lemma InitReplacesKeys(c: Cipher, s: State, l: Location, plain: bytes, e: Sealed, dk: bytes, id: Text, secret: bytes)
    requires CipherOk(c) && Sized(e) && MadeFor(c, s.keys, l, plain, e, dk) && Reachable(s.keys, e.wraps)
    requires forall i | 0 <= i < |e.wraps| :: e.wraps[i].id != id
    ensures Decrypted(c, s.keys, l, Print(e)) == Plain(plain)
    ensures Decrypted(c, Initialized(id, secret).keys, l, Print(e)) == NoKey
    ensures Decrypted(c, Rotated(s, id, secret).keys, l, Print(e)) == Plain(plain)
  {
    hide Parse, Print, WrapAad, ValueAad, Unwrap;
    Readable(c, s.keys, l, plain, e, dk);
    RoundTrip(e);
    Unreachable(c, Initialized(id, secret).keys, WrapAad(l, e.writer), e.wraps);
    var after := Rotated(s, id, secret).keys;
    forall i | 0 <= i < |e.wraps| && e.wraps[i].id in after
      ensures WrappedFor(c, after[e.wraps[i].id], l, e, dk, e.wraps[i])
    {
      assert WrappedFor(c, s.keys[e.wraps[i].id], l, e, dk, e.wraps[i]);
    }
    var i :| 0 <= i < |e.wraps| && e.wraps[i].id in s.keys;
    assert e.wraps[i].id in after;
    Readable(c, after, l, plain, e, dk);
  }

  /** The cipher opens, with one key, a wrap made with another. */
  predicate Crossed(c: Cipher, keys: Keys, issued: Keys, l: Location, e: Sealed, dk: bytes) {
    exists i | 0 <= i < |e.wraps| :: CrossedAt(c, keys, issued, l, e, dk, e.wraps[i])
  }

  predicate CrossedAt(c: Cipher, keys: Keys, issued: Keys, l: Location, e: Sealed, dk: bytes, w: Wrap) {
    && w.id in keys && w.id in issued && keys[w.id].secret != issued[w.id].secret
    && WrappedFor(c, issued[w.id], l, e, dk, w)
    && c.open(c.derive(keys[w.id].secret), w.nonce, WrapAad(l, e.writer), w.wrapped).Some?
  }

  /** The ring has one of the very keys the value was wrapped for. */
  predicate KeepsKey(keys: Keys, issued: Keys, wraps: seq<Wrap>) {
    exists i | 0 <= i < |wraps| :: wraps[i].id in keys && wraps[i].id in issued && keys[wraps[i].id].secret == issued[wraps[i].id].secret
  }

  /** The keys of a ring whose secrets are the issued ones. */
  function Unchanged(keys: Keys, issued: Keys): Keys {
    map id | id in keys && id in issued && keys[id].secret == issued[id].secret :: keys[id]
  }

  /** Only keys with their issued secrets open anything. */
  lemma {:induction false} UnwrapUnchanged(c: Cipher, keys: Keys, issued: Keys, l: Location, e: Sealed, dk: bytes, wraps: seq<Wrap>)
    requires forall i | 0 <= i < |wraps| :: wraps[i].id in issued && WrappedFor(c, issued[wraps[i].id], l, e, dk, wraps[i])
    requires forall i | 0 <= i < |wraps| :: !CrossedAt(c, keys, issued, l, e, dk, wraps[i])
    ensures Unwrap(c, keys, WrapAad(l, e.writer), wraps) == Unwrap(c, Unchanged(keys, issued), WrapAad(l, e.writer), wraps)
    decreases |wraps|
  {
    hide WrapAad;
    if wraps != [] {
      assert wraps[0].id in issued && !CrossedAt(c, keys, issued, l, e, dk, wraps[0]);
      forall i | 0 <= i < |wraps[1..]|
        ensures wraps[1..][i] == wraps[i + 1]
      {
      }
      UnwrapUnchanged(c, keys, issued, l, e, dk, wraps[1..]);
    }
  }

  /** Whatever ring reads a value: it is readable exactly when the ring has one
      of the keys it was wrapped for, id and secret. The check in front of
      `retire` looks at the ids alone. */
  lemma ReadableExactly(c: Cipher, keys: Keys, issued: Keys, l: Location, plain: bytes, e: Sealed, dk: bytes)
    requires CipherOk(c) && Sized(e) && MadeFor(c, issued, l, plain, e, dk)
    requires forall i | 0 <= i < |e.wraps| :: e.wraps[i].id in issued
    ensures Crossed(c, keys, issued, l, e, dk) ||
            Decrypted(c, keys, l, Print(e)) == if KeepsKey(keys, issued, e.wraps) then Plain(plain) else NoKey
    ensures DecryptableByAny(Print(e), keys.Keys) <==> Reachable(keys, e.wraps)
  {
    hide Parse, Print, WrapAad, ValueAad, Unwrap, WrappedFor;
    RoundTrip(e);
    if !Crossed(c, keys, issued, l, e, dk) {
      var same := Unchanged(keys, issued);
      UnwrapUnchanged(c, keys, issued, l, e, dk, e.wraps);
      MadeForLess(c, issued, same, l, Made(e, dk, plain));
      if KeepsKey(keys, issued, e.wraps) {
        var i :| 0 <= i < |e.wraps| && e.wraps[i].id in keys && e.wraps[i].id in issued &&
                 keys[e.wraps[i].id].secret == issued[e.wraps[i].id].secret;
        assert e.wraps[i].id in same;
        Readable(c, same, l, plain, e, dk);
      } else {
        assert !Reachable(same, e.wraps);
        Unreachable(c, same, WrapAad(l, e.writer), e.wraps);
      }
    }
  }

  /** Retire key `a`, rotate to a new key under the same id, retire key `b`:
      every check passes, and a value wrapped for the old `a` and for `b` is
      lost. */
  lemma ReusedIdStrands(c: Cipher, s: State, a: Text, b: Text, secret: bytes, l: Location, plain: bytes, e: Sealed, dk: bytes)
    returns (one: State, two: State, three: State)
    requires CipherOk(c) && s.keys.Keys == {a, b} && a != b && s.active == Some(b) && secret != s.keys[a].secret
    requires Sized(e) && MadeFor(c, s.keys, l, plain, e, dk) && WrapsAll(s.keys, e.wraps)
    requires forall i | 0 <= i < |e.wraps| :: e.wraps[i].id in s.keys
    ensures one == Retired(s, a) && s.active != Some(a) && DecryptableByAny(Print(e), one.keys.Keys)
    ensures two == Rotated(one, a, secret) && a !in one.keys
    ensures three == Retired(two, b) && two.active != Some(b) && DecryptableByAny(Print(e), three.keys.Keys)
    ensures Decrypted(c, one.keys, l, Print(e)) == Plain(plain)
    ensures Crossed(c, three.keys, s.keys, l, e, dk) || Decrypted(c, three.keys, l, Print(e)) == NoKey
  {
    hide Parse, Print, Decrypted, MadeFor, CipherOk, Crossed;
    one := Retired(s, a);
    two := Rotated(one, a, secret);
    three := Retired(two, b);
    var i :| 0 <= i < |e.wraps| && e.wraps[i].id == a;
    var j :| 0 <= j < |e.wraps| && e.wraps[j].id == b;
    MadeForLess(c, s.keys, one.keys, l, Made(e, dk, plain));
    assert e.wraps[j].id in one.keys && e.wraps[i].id in three.keys;
    Readable(c, one.keys, l, plain, e, dk);
    ReadableExactly(c, one.keys, s.keys, l, plain, e, dk);
    ReadableExactly(c, three.keys, s.keys, l, plain, e, dk);
    assert three.keys.Keys == {a} && three.keys[a].secret == secret;
  }

  // ---- Key changes undone by power loss ----------------------------------

  /** A value written under ring `t` is readable under ring `s`, which a power
      loss brings back, exactly when the rings share a key. */
  lemma ReadableAcross(c: Cipher, s: State, t: State, l: Location, plain: bytes, e: Sealed, dk: bytes)
    requires CipherOk(c) && Sized(e) && MadeFor(c, t.keys, l, plain, e, dk) && WrapsAll(t.keys, e.wraps)
    requires forall i | 0 <= i < |e.wraps| :: e.wraps[i].id in t.keys
    requires forall id | id in s.keys && id in t.keys :: s.keys[id].secret == t.keys[id].secret
    ensures Decrypted(c, s.keys, l, Print(e)) == Plain(plain) <==> s.keys.Keys * t.keys.Keys != {}
  {
    hide Print, Decrypted, ValueAad, WrapAad;
    forall i | 0 <= i < |e.wraps| && e.wraps[i].id in s.keys
      ensures WrappedFor(c, s.keys[e.wraps[i].id], l, e, dk, e.wraps[i])
    {
      assert WrappedFor(c, t.keys[e.wraps[i].id], l, e, dk, e.wraps[i]);
    }
    ReadableIff(c, s.keys, l, plain, e, dk);
    if Reachable(s.keys, e.wraps) {
      var i :| 0 <= i < |e.wraps| && e.wraps[i].id in s.keys;
      assert e.wraps[i].id in s.keys.Keys * t.keys.Keys;
    }
    forall id | id in s.keys.Keys * t.keys.Keys
      ensures Reachable(s.keys, e.wraps)
    {
      var i :| 0 <= i < |e.wraps| && e.wraps[i].id == id;
    }
  }

  /** Which key changes a power loss may undo after values were written: a
      rotation and a retirement, but not a first key. */
  lemma UndoneChanges(s: State, id: Text, secret: bytes)
    ensures s.keys.Keys * Rotated(s, id, secret).keys.Keys == s.keys.Keys
    ensures s.keys.Keys * Retired(s, id).keys.Keys == Retired(s, id).keys.Keys
    ensures id !in s.keys ==> s.keys.Keys * Initialized(id, secret).keys.Keys == {}
  {
  }

  // ---- The store ---------------------------------------------------------

  /** A stored value and the ids of the keys it is wrapped for. */
  datatype Secured = Secured(plain: bytes, ids: set<Text>)

  function Ids(wraps: seq<Wrap>): set<Text> {
    set w <- wraps :: w.id
  }

  /** Encryption needs an active key, and room for every key in the envelope. */
  predicate CanEncrypt(s: State) {
    s.active.Some? && |s.keys| <= 0xFF
  }

  /** Every value would still have a key: what `enc_retire_key` checks. */
  predicate Droppable(entries: map<Location, Secured>, s: State, id: Text) {
    s.keys.Keys - {id} != {} && forall l <- entries :: entries[l].ids * (s.keys.Keys - {id}) != {}
  }

  lemma WrappedIds(keys: Keys, wraps: seq<Wrap>)
    requires WrapsAll(keys, wraps) && forall i | 0 <= i < |wraps| :: wraps[i].id in keys
    ensures Ids(wraps) == keys.Keys
  {
  }

  lemma DecryptableIds(e: Sealed, ids: set<Text>)
    requires Sized(e)
    ensures DecryptableByAny(Print(e), ids) <==> Ids(e.wraps) * ids != {}
  {
    hide Parse, Print;
    RoundTrip(e);
    forall w | w in e.wraps && w.id in ids
      ensures w.id in Ids(e.wraps) * ids
    {
    }
    if Ids(e.wraps) * ids != {} {
      var id :| id in Ids(e.wraps) * ids;
      var w :| w in e.wraps && w.id == id;
    }
  }

  class EncryptedStore {
    const cipher: Cipher
    const ring: EncryptionKeyring
    var stored: map<Location, bytes>

    ghost var made: map<Location, Made>

    /** Every key ever given out. */
    ghost var issued: Keys

    /** What a restart would load reads every value. */
    ghost predicate OnDisk()
      reads this, ring
    {
      CipherOk(cipher) && ring.Openable() && Kept(cipher, issued, Loaded(ring.config, ring.Visible()), stored, made)
    }

    ghost predicate Up()
      reads this, ring
    {
      OnDisk() && ring.Aligned()
    }

    /** What is stored, as a caller knows it. */
    ghost function Entries(): map<Location, Secured>
      reads this`made
    {
      map l | l in made :: Secured(made[l].plain, Ids(made[l].e.wraps))
    }

    /** A store over a ring that was just opened. */
    constructor (cipher: Cipher, ring: EncryptionKeyring)
      requires CipherOk(cipher) && ring.Openable() && ring.Aligned()
      requires ring.inner.active.None? ==> ring.inner.keys == map[]
      ensures Up() && this.cipher == cipher && this.ring == ring && Entries() == map[] && issued == ring.inner.keys
    {
      this.cipher, this.ring := cipher, ring;
      stored, made, issued := map[], map[], ring.inner.keys;
    }

    method Put(l: Location, plain: bytes) returns (ok: bool)
      requires Up()
      modifies this`stored, this`made
      ensures Up() && (ok <==> CanEncrypt(ring.inner))
      ensures Entries() == if ok then old(Entries())[l := Secured(plain, ring.inner.keys.Keys)] else old(Entries())
    {
      hide Kept, CipherOk, MadeFor, WrapsAll, Print, Sized, StateOk, Safe;
      var envelope;
      ghost var e, dk;
      envelope, e, dk := Encrypt(cipher, ring.inner, l, plain);
      if envelope.None? {
        return false;
      }
      KeptStored(cipher, issued, ring.inner, stored, made, l, envelope.value, Made(e, dk, plain));
      WrappedIds(ring.inner.keys, e.wraps);
      stored := stored[l := envelope.value];
      made := made[l := Made(e, dk, plain)];
      return true;
    }

    method Get(l: Location) returns (r: Option<Opened>)
      requires Up()
      ensures r == if l in Entries() then Some(Plain(Entries()[l].plain)) else None
    {
      hide CipherOk, MadeOk, Decrypted, StateOk, Safe;
      if l !in stored {
        return None;
      }
      KeptReads(cipher, issued, ring.inner, stored, made, l);
      var answer := Decrypt(cipher, ring.inner, l, stored[l]);
      return Some(answer);
    }

    /** Encrypt a value anew, for the keys of today. */
    method Rewrap(l: Location) returns (ok: bool)
      requires Up()
      modifies this`stored, this`made
      ensures Up() && (ok <==> l in old(Entries()) && CanEncrypt(ring.inner))
      ensures Entries() ==
              if ok then old(Entries())[l := Secured(old(Entries())[l].plain, ring.inner.keys.Keys)] else old(Entries())
    {
      hide Kept, CipherOk, MadeFor, WrapsAll, Print, Sized, StateOk, Safe;
      var answer := Get(l);
      if answer.None? || !answer.value.Plain? {
        return false;
      }
      var envelope;
      ghost var e, dk;
      envelope, e, dk := Encrypt(cipher, ring.inner, l, answer.value.value);
      if envelope.None? {
        return false;
      }
      KeptStored(cipher, issued, ring.inner, stored, made, l, envelope.value, Made(e, dk, answer.value.value));
      stored := stored[l := envelope.value];
      made := made[l := Made(e, dk, answer.value.value)];
      WrappedIds(ring.inner.keys, e.wraps);
      return true;
    }

    /** A new active key. Ids that were retired must not be used again. */
    method Rotate(id: Text, secret: bytes) returns (status: Status)
      requires Up() && (id in issued ==> id in ring.inner.keys)
      modifies ring, this`issued
      ensures OnDisk() && issued.Keys <= old(issued).Keys + {id}
      ensures status != Crashed ==> Up()
      ensures Outcome(ring.world, ring.inner, status) ==
              RotateRun(ring.config, ring.oracle, old(ring.world), old(ring.inner), id, secret)
    {
      hide Kept, CipherOk, StateOk, Safe, KeyIdOk;
      ghost var s := ring.inner;
      hide RotateRun, Converged, World.OneSealFile;
      status := ring.Rotate(id, secret);
      if id !in s.keys {
        KeptRotated(cipher, issued, s, stored, made, id, secret);
        KeptIssued(cipher, issued, s, stored, made, id, NetworkKey(secret, false));
        issued := issued[id := NetworkKey(secret, false)];
      }
    }

    method Init(id: Text, secret: bytes) returns (status: Status)
      requires Up() && (id in issued ==> id in ring.inner.keys)
      modifies ring, this`issued
      ensures OnDisk() && issued.Keys <= old(issued).Keys + {id}
      ensures status != Crashed ==> Up()
      ensures Outcome(ring.world, ring.inner, status) ==
              InitRun(ring.config, ring.oracle, old(ring.world), old(ring.inner), id, secret)
    {
      hide Kept, CipherOk, StateOk, Safe, KeyIdOk;
      ghost var s := ring.inner;
      hide InitRun, Converged, World.OneSealFile;
      status := ring.Init(id, secret);
      if s.active.None? {
        KeptKeys(cipher, issued, s, stored, made);
        KeptInitialized(cipher, issued, s, stored, made, id, secret);
        KeptIssued(cipher, issued, s, stored, made, id, NetworkKey(secret, false));
        issued := issued[id := NetworkKey(secret, false)];
      }
    }

    /** `enc_retire_key`: refuse while any value would be left without a key. */
    method Retire(id: Text) returns (status: Status)
      requires Up()
      modifies ring
      ensures OnDisk()
      ensures status != Crashed ==> Up()
      ensures Outcome(ring.world, ring.inner, status) ==
              if Droppable(Entries(), old(ring.inner), id)
              then RetireRun(ring.config, ring.oracle, old(ring.world), old(ring.inner), id)
              else Outcome(old(ring.world), old(ring.inner), Failed)
    {
      hide Kept, CipherOk, StateOk, Safe, KeyIdOk, DecryptableByAny;
      var remaining := ring.inner.keys.Keys - {id};
      if remaining == {} {
        return Failed;
      }
      var todo := stored.Keys;
      while todo != {}
        invariant todo <= stored.Keys
        invariant forall l <- stored :: l in todo || DecryptableByAny(stored[l], remaining)
        decreases todo
      {
        var l :| l in todo;
        if !DecryptableByAny(stored[l], remaining) {
          Checked(l, remaining);
          return Failed;
        }
        todo := todo - {l};
      }
      forall l | l in Entries()
        ensures Entries()[l].ids * remaining != {}
      {
        Checked(l, remaining);
      }
      ghost var s := ring.inner;
      hide RetireRun, Converged, World.OneSealFile;
      status := ring.Retire(id);
      if s.active != Some(id) && id in s.keys {
        KeptRetired(cipher, issued, s, stored, made, id);
      }
    }

    /** What the check finds out about one value. */
    lemma Checked(l: Location, ids: set<Text>)
      requires OnDisk()
      ensures l in stored <==> l in Entries()
      ensures l in stored ==> (DecryptableByAny(stored[l], ids) <==> Entries()[l].ids * ids != {})
    {
      hide CipherOk, MadeFor, Print, DecryptableByAny, StateOk, Safe, Sized;
      if l in stored {
        DecryptableIds(made[l].e, ids);
      }
    }

    /** The process ends and starts again. */
    method Restart(id: Text, secret: bytes) returns (status: Status)
      requires OnDisk() && id !in issued
      modifies ring, this`issued
      ensures OnDisk() && issued.Keys <= old(issued).Keys + {id}
      ensures status == Ok ==> Up()
      ensures Outcome(ring.world, ring.inner, status) ==
              OpenRun(ring.config, ring.oracle, old(ring.world), old(ring.inner), id, secret)
    {
      hide Kept, CipherOk, StateOk, Safe, KeyIdOk;
      ghost var s := Loaded(ring.config, ring.Visible());
      hide OpenRun, Converged, World.OneSealFile;
      status := ring.Open(id, secret);
      KeptIssued(cipher, issued, s, stored, made, id, NetworkKey(secret, false));
      if s.active.None? {
        KeptInitialized(cipher, issued, s, stored, made, id, secret);
      }
      issued := issued[id := NetworkKey(secret, false)];
    }
  }

  lemma KeptKeys(c: Cipher, issued: Keys, s: State, stored: map<Location, bytes>, made: map<Location, Made>)
    requires Kept(c, issued, s, stored, made)
    ensures stored.Keys == made.Keys && SameSecrets(s.keys, issued) && (s.active.None? ==> s.keys == map[])
  {
  }

  // ---- Whole runs --------------------------------------------------------

  datatype Event =
    | Write(l: Location, plain: bytes)
    | Renew(l: Location)
    | FirstKey(id: Text, secret: bytes)
    | NewKey(id: Text, secret: bytes)
    | DropKey(id: Text)
    | Reboot(id: Text, secret: bytes)

  predicate Issues(e: Event) {
    e.FirstKey? || e.NewKey? || e.Reboot?
  }

  /** No id is given out twice. */
  predicate FreshIds(script: seq<Event>, from: nat, issued: set<Text>) {
    && (forall i | from <= i < |script| && Issues(script[i]) :: script[i].id !in issued)
    && (forall i, j | from <= i < j < |script| && Issues(script[i]) && Issues(script[j]) :: script[i].id != script[j].id)
  }

  /** The ring's phase and what is stored. */
  datatype Moment = Moment(ring: Phase, entries: map<Location, Secured>)

  /** What one event does. */
  function VaultStep(c: Config, o: Oracle, loss: Loss, m: Moment, e: Event): Moment
    requires |m.ring.w.folders| > 0
  {
    match e
    case Write(l, plain) =>
      if Taken(m, e) then m.(entries := m.entries[l := Secured(plain, m.ring.inner.keys.Keys)]) else m
    case Renew(l) =>
      if m.ring.up && l in m.entries && CanEncrypt(m.ring.inner)
      then m.(entries := m.entries[l := Secured(m.entries[l].plain, m.ring.inner.keys.Keys)]) else m
    case FirstKey(id, secret) => m.(ring := LifeStep(c, o, loss, m.ring, InitKey(id, secret)))
    case NewKey(id, secret) => m.(ring := LifeStep(c, o, loss, m.ring, RotateKey(id, secret)))
    case DropKey(id) =>
      if Droppable(m.entries, m.ring.inner, id) then m.(ring := LifeStep(c, o, loss, m.ring, RetireKey(id))) else m
    case Reboot(id, secret) => m.(ring := LifeStep(c, o, loss, m.ring, Startup(id, secret)))
  }

  /** The event is a write, and it is acknowledged. */
  predicate Taken(m: Moment, e: Event) {
    e.Write? && m.ring.up && CanEncrypt(m.ring.inner)
  }

  function Lived(c: Config, o: Oracle, loss: Loss, m: Moment, script: seq<Event>): (n: Moment)
    requires PhaseOk(c, m.ring)
    ensures PhaseOk(c, n.ring)
  {
    if script == [] then m
    else
      var before := Lived(c, o, loss, m, script[..|script| - 1]);
      VaultStepOk(c, o, loss, before, script[|script| - 1]);
      VaultStep(c, o, loss, before, script[|script| - 1])
  }

  /** Without faults a store that is up stays up. */
  lemma VaultStepOk(c: Config, o: Oracle, loss: Loss, m: Moment, e: Event)
    requires PhaseOk(c, m.ring)
    ensures PhaseOk(c, VaultStep(c, o, loss, m, e).ring)
    ensures m.ring.up && Faultless(o, m.ring.w) && !e.Reboot? ==> VaultStep(c, o, loss, m, e).ring.up
  {
    hide LifeStep, PhaseOk, Faultless, Droppable, CanEncrypt;
    match e
    case FirstKey(id, secret) => LifeStepOk(c, o, loss, m.ring, InitKey(id, secret));
    case NewKey(id, secret) => LifeStepOk(c, o, loss, m.ring, RotateKey(id, secret));
    case DropKey(id) => LifeStepOk(c, o, loss, m.ring, RetireKey(id));
    case Reboot(id, secret) => LifeStepOk(c, o, loss, m.ring, Startup(id, secret));
    case _ =>
  }

  /** The last acknowledged write of each location. */
  function Latest(values: map<Location, bytes>, written: seq<(Location, bytes)>): map<Location, bytes> {
    if written == [] then values
    else
      var last := written[|written| - 1];
      Latest(values, written[..|written| - 1])[last.0 := last.1]
  }

  function Plains(entries: map<Location, Secured>): map<Location, bytes> {
    map l | l in entries :: entries[l].plain
  }

  /** The writes of a script that are acknowledged. */
  function Written(c: Config, o: Oracle, loss: Loss, m: Moment, script: seq<Event>): seq<(Location, bytes)>
    requires PhaseOk(c, m.ring)
  {
    if script == [] then []
    else
      var n := |script| - 1;
      Written(c, o, loss, m, script[..n]) +
      if Taken(Lived(c, o, loss, m, script[..n]), script[n]) then [(script[n].l, script[n].plain)] else []
  }

  /** Only an acknowledged write changes a plaintext. */
  lemma StepPlains(c: Config, o: Oracle, loss: Loss, m: Moment, e: Event)
    requires |m.ring.w.folders| > 0
    ensures Plains(VaultStep(c, o, loss, m, e).entries) ==
            if Taken(m, e) then Plains(m.entries)[e.l := e.plain] else Plains(m.entries)
  {
    hide LifeStep, Droppable, CanEncrypt;
  }

  /** Whatever the events and the faults, every location holds its last acknowledged write. */
  lemma {:induction false} LastWrites(c: Config, o: Oracle, loss: Loss, m: Moment, script: seq<Event>)
    requires PhaseOk(c, m.ring)
    ensures Plains(Lived(c, o, loss, m, script).entries) == Latest(Plains(m.entries), Written(c, o, loss, m, script))
  {
    hide VaultStep, Plains, CanEncrypt, World.OneSealFile;
    if script != [] {
      var n := |script| - 1;
      LastWrites(c, o, loss, m, script[..n]);
      StepPlains(c, o, loss, Lived(c, o, loss, m, script[..n]), script[n]);
      var written := Written(c, o, loss, m, script[..n]);
      if Taken(Lived(c, o, loss, m, script[..n]), script[n]) {
        assert (written + [(script[n].l, script[n].plain)])[..|written|] == written;
      } else {
        assert written + [] == written;
      }
    }
  }

  ghost function MomentOf(store: EncryptedStore, up: bool): Moment
    reads store, store.ring
  {
    Moment(Phase(store.ring.world, store.ring.inner, up), store.Entries())
  }

  lemma FreshNext(script: seq<Event>, i: nat, issued: set<Text>, more: set<Text>)
    requires i < |script| && FreshIds(script, i, issued)
    requires more <= issued + if Issues(script[i]) then {script[i].id} else {}
    ensures FreshIds(script, i + 1, more) && (Issues(script[i]) ==> script[i].id !in issued)
  {
  }

  lemma KeptAll(c: Cipher, issued: Keys, s: State, stored: map<Location, bytes>, made: map<Location, Made>)
    requires CipherOk(c) && Kept(c, issued, s, stored, made)
    ensures forall l <- stored :: l in made && Decrypted(c, s.keys, l, stored[l]) == Plain(made[l].plain)
    ensures forall l <- stored :: l in made && AtHome(c, s.keys, l, stored[l], made[l])
  {
    hide MadeOk, Decrypted, AtHome, CipherOk;
    forall l | l in stored
      ensures Decrypted(c, s.keys, l, stored[l]) == Plain(made[l].plain) && AtHome(c, s.keys, l, stored[l], made[l])
    {
      KeptAtHome(c, issued, s, stored, made, l);
      KeptReads(c, issued, s, stored, made, l);
    }
  }

  /** Through every run of writes, renewals, key changes with a fault at any
      step, and restarts, the store does what `Lived` says; every acknowledged
      value stays readable, and readable only where it was stored. */
  method Run(store: EncryptedStore, script: seq<Event>) returns (up: bool, oks: seq<bool>)
    requires store.Up() && FreshIds(script, 0, store.issued.Keys)
    modifies store, store.ring
    ensures store.OnDisk() && (up ==> store.Up()) && PhaseOk(store.ring.config, old(MomentOf(store, true)).ring)
    ensures MomentOf(store, up) ==
            Lived(store.ring.config, store.ring.oracle, store.ring.loss, old(MomentOf(store, true)), script)
    ensures |oks| == |script|
    ensures forall i | 0 <= i < |script| ::
              oks[i] == Taken(Lived(store.ring.config, store.ring.oracle, store.ring.loss, old(MomentOf(store, true)), script[..i]),
                              script[i])
    ensures up ==> forall l <- store.stored ::
                     Decrypted(store.cipher, store.ring.inner.keys, l, store.stored[l]) == Plain(store.made[l].plain)
    ensures up ==> forall l <- store.stored ::
                     AtHome(store.cipher, store.ring.inner.keys, l, store.stored[l], store.made[l])
    ensures store.stored.Keys == store.Entries().Keys
  {
    hide Kept, CipherOk, StateOk, Safe, KeyIdOk, Decrypted, AtHome, VaultStep, Taken, FreshIds, World.OneSealFile;
    ghost var c, o, loss, first := store.ring.config, store.ring.oracle, store.ring.loss, MomentOf(store, true);
    up, oks := true, [];
    for i := 0 to |script|
      invariant FreshIds(script, i, store.issued.Keys)
      invariant store.OnDisk() && (up ==> store.Up()) && PhaseOk(c, first.ring)
      invariant MomentOf(store, up) == Lived(c, o, loss, first, script[..i])
      invariant |oks| == i && forall k | 0 <= k < i :: oks[k] == Taken(Lived(c, o, loss, first, script[..k]), script[k])
    {
      assert script[..i + 1][..i] == script[..i];
      ghost var issued := store.issued.Keys;
      FreshNext(script, i, issued, issued);
      var ok;
      up, ok := Step(store, script[i], up);
      FreshNext(script, i, issued, store.issued.Keys);
      oks := oks + [ok];
    }
    assert script[..|script|] == script;
    KeptKeys(store.cipher, store.issued, Loaded(store.ring.config, store.ring.Visible()), store.stored, store.made);
    KeptAll(store.cipher, store.issued, Loaded(store.ring.config, store.ring.Visible()), store.stored, store.made);
  }

  method Step(store: EncryptedStore, event: Event, was: bool) returns (up: bool, ok: bool)
    requires store.OnDisk() && (was ==> store.Up()) && (Issues(event) ==> event.id !in store.issued)
    requires |store.ring.world.folders| > 0
    modifies store, store.ring
    ensures store.OnDisk() && (up ==> store.Up()) && ok == Taken(old(MomentOf(store, was)), event)
    ensures MomentOf(store, up) ==
            VaultStep(store.ring.config, store.ring.oracle, store.ring.loss, old(MomentOf(store, was)), event)
    ensures store.issued.Keys <= old(store.issued).Keys + if Issues(event) then {event.id} else {}
  {
    hide Kept, CipherOk, StateOk, Safe, KeyIdOk, RotateRun, InitRun, RetireRun, OpenRun, Converged, World.OneSealFile;
    hide Droppable, CanEncrypt;
    up, ok := was, false;
    var status := Ok;
    match event {
      case Reboot(id, secret) =>
        status := store.Restart(id, secret);
        up := status == Ok;
      case Write(l, plain) =>
        if up {
          ok := store.Put(l, plain);
        }
      case Renew(l) =>
        if up {
          var _ := store.Rewrap(l);
        }
      case FirstKey(id, secret) =>
        if up {
          status := store.Init(id, secret);
          up := status != Crashed;
        }
      case NewKey(id, secret) =>
        if up {
          status := store.Rotate(id, secret);
          up := status != Crashed;
        }
      case DropKey(id) =>
        if up {
          status := store.Retire(id);
          up := status != Crashed;
        }
    }
  }
}
