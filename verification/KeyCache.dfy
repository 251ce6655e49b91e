/** The API-key cache under concurrent lookups, mints and revocations. Every
    method is one atomic step; threads interleave between them. */
module KeyCache {
  import opened Bytes

  // Milliseconds.
  const TTL := 5000
  const LIMIT := 1024

  datatype Kind = Publishable | Secret

  /** The key table; a hash it does not hold, or a revoked one, resolves to None. */
  type KeyTable = map<string, Kind>

  function Resolve(t: KeyTable, hash: string): Option<Kind> {
    if hash in t then Some(t[hash]) else None
  }

  datatype Cached = Cached(kind: Option<Kind>, storedAt: nat)

  /** A lookup that missed: it has yet to read the table, or to store what it read. */
  datatype Lookup = Missed(hash: string) | HasRead(hash: string, kind: Option<Kind>)

  /** `pending` counts the table changes whose clear is still to come. */
  datatype View = View(now: nat, table: KeyTable, cache: map<string, Cached>, lookups: map<nat, Lookup>, pending: nat)

  // ---- Steps ---------------------------------------------------------------

  datatype Step =
    | Wait(d: nat)
    | StartLookup(id: nat, hash: string)
    | ReadTable(id: nat)
    | FinishLookup(id: nat)
    | ChangeKey(hash: string, kind: Option<Kind>)
    | ClearCache

  predicate Live(c: Cached, now: nat) {
    now - c.storedAt < TTL
  }

  /** Above the limit only live entries stay, and none if they are too many. */
  function Trimmed(cache: map<string, Cached>, now: nat): map<string, Cached> {
    if |cache| <= LIMIT then cache
    else
      var live := map h | h in cache && Live(cache[h], now) :: cache[h];
      if |live| <= LIMIT then live else map[]
  }

  /** A step a thread cannot take changes nothing. */
  function Next(v: View, s: Step): View {
    match s
    case Wait(d) => v.(now := v.now + d)
    case StartLookup(id, hash) =>
      if id in v.lookups || Reply(v, s).Some? then v else v.(lookups := v.lookups[id := Missed(hash)])
    case ReadTable(id) =>
      if id !in v.lookups || v.lookups[id].HasRead? then v
      else v.(lookups := v.lookups[id := HasRead(v.lookups[id].hash, Resolve(v.table, v.lookups[id].hash))])
    case FinishLookup(id) =>
      if id !in v.lookups || v.lookups[id].Missed? then v
      else v.(cache := Trimmed(v.cache, v.now)[v.lookups[id].hash := Cached(v.lookups[id].kind, v.now)],
              lookups := v.lookups - {id})
    case ChangeKey(hash, kind) =>
      v.(table := if kind.Some? then v.table[hash := kind.value] else v.table - {hash}, pending := v.pending + 1)
    case ClearCache =>
      if v.pending == 0 then v else v.(cache := map[], pending := v.pending - 1)
  }

  /** The answer a caller gets in this step: from the cache when the lookup
      starts, or from the table when it ends. */
  function Reply(v: View, s: Step): Option<Option<Kind>> {
    match s
    case StartLookup(id, hash) =>
      if id !in v.lookups && hash in v.cache && Live(v.cache[hash], v.now) then Some(v.cache[hash].kind) else None
    case FinishLookup(id) =>
      if id in v.lookups && v.lookups[id].HasRead? then Some(v.lookups[id].kind) else None
    case _ => None
  }

  /** The state before step `i`. */
  function At(v: View, steps: seq<Step>, i: nat): View
    requires i <= |steps|
  {
    if i == 0 then v else Next(At(v, steps, i - 1), steps[i - 1])
  }

  predicate Fresh(v: View) {
    v.cache == map[] && v.lookups == map[]
  }

  // ---- Where answers come from ---------------------------------------------

  /** A clear at `c` empties the cache. */
  predicate Clears(v: View, steps: seq<Step>, c: nat) {
    c < |steps| && steps[c] == ClearCache && At(v, steps, c).pending > 0
  }

  predicate NoClear(v: View, steps: seq<Step>, from: nat, to: nat) {
    forall c: nat | from <= c < to && c < |steps| :: !Clears(v, steps, c)
  }

  /** Lookup `id` of this hash began at `j`. */
  predicate Begun(steps: seq<Step>, id: nat, hash: string, j: nat, i: nat) {
    j < i <= |steps| && steps[j] == StartLookup(id, hash)
  }

  /** It read the table at `k`, which answered `kind`. */
  predicate WasRead(v: View, steps: seq<Step>, id: nat, hash: string, kind: Option<Kind>, j: nat, k: nat, i: nat) {
    && Begun(steps, id, hash, j, k) && k < i <= |steps| && steps[k] == ReadTable(id)
    && Resolve(At(v, steps, k).table, hash) == kind
  }

  /** It stored the answer at `m`, and the cache was not cleared since. */
  predicate WasStored(v: View, steps: seq<Step>, id: nat, hash: string, c: Cached, j: nat, k: nat, m: nat, i: nat) {
    && WasRead(v, steps, id, hash, c.kind, j, k, m) && m < i <= |steps| && steps[m] == FinishLookup(id)
    && At(v, steps, m).now == c.storedAt && NoClear(v, steps, m, i)
  }

  ghost predicate LookupSourced(v: View, steps: seq<Step>, id: nat, l: Lookup, i: nat) {
    match l
    case Missed(hash) => exists j: nat :: Begun(steps, id, hash, j, i)
    case HasRead(hash, kind) => exists j: nat, k: nat :: WasRead(v, steps, id, hash, kind, j, k, i)
  }

  ghost predicate CacheSourced(v: View, steps: seq<Step>, hash: string, c: Cached, i: nat) {
    exists id: nat, j: nat, k: nat, m: nat :: WasStored(v, steps, id, hash, c, j, k, m, i)
  }

  lemma LookupStill(v: View, steps: seq<Step>, id: nat, l: Lookup, i: nat)
    requires i < |steps| && LookupSourced(v, steps, id, l, i)
    ensures LookupSourced(v, steps, id, l, i + 1)
  {
    hide At;
    match l {
      case Missed(hash) =>
        var j: nat :| Begun(steps, id, hash, j, i);
        assert Begun(steps, id, hash, j, i + 1);
      case HasRead(hash, kind) =>
        var j: nat, k: nat :| WasRead(v, steps, id, hash, kind, j, k, i);
        assert WasRead(v, steps, id, hash, kind, j, k, i + 1);
    }
  }

  lemma CacheStill(v: View, steps: seq<Step>, hash: string, c: Cached, i: nat)
    requires i < |steps| && CacheSourced(v, steps, hash, c, i) && !Clears(v, steps, i)
    ensures CacheSourced(v, steps, hash, c, i + 1)
  {
    hide At, WasRead, Clears;
    var id: nat, j: nat, k: nat, m: nat :| WasStored(v, steps, id, hash, c, j, k, m, i);
    assert WasStored(v, steps, id, hash, c, j, k, m, i + 1);
  }

  lemma JustRead(v: View, steps: seq<Step>, id: nat, hash: string, i: nat)
    requires i < |steps| && steps[i] == ReadTable(id) && LookupSourced(v, steps, id, Missed(hash), i)
    ensures LookupSourced(v, steps, id, HasRead(hash, Resolve(At(v, steps, i).table, hash)), i + 1)
  {
    hide At;
    var j: nat :| Begun(steps, id, hash, j, i);
    assert WasRead(v, steps, id, hash, Resolve(At(v, steps, i).table, hash), j, i, i + 1);
  }

  lemma JustStored(v: View, steps: seq<Step>, id: nat, l: Lookup, i: nat)
    requires i < |steps| && steps[i] == FinishLookup(id) && l.HasRead? && LookupSourced(v, steps, id, l, i)
    ensures CacheSourced(v, steps, l.hash, Cached(l.kind, At(v, steps, i).now), i + 1)
  {
    hide At;
    var j: nat, k: nat :| WasRead(v, steps, id, l.hash, l.kind, j, k, i);
    assert !Clears(v, steps, i);
    assert WasStored(v, steps, id, l.hash, Cached(l.kind, At(v, steps, i).now), j, k, i, i + 1);
  }

  ghost predicate Sourced(v: View, steps: seq<Step>, i: nat)
    requires i <= |steps|
  {
    && (forall id <- At(v, steps, i).lookups :: LookupSourced(v, steps, id, At(v, steps, i).lookups[id], i))
    && forall h <- At(v, steps, i).cache :: CacheSourced(v, steps, h, At(v, steps, i).cache[h], i)
  }

  lemma TrimmedLess(cache: map<string, Cached>, now: nat)
    ensures |Trimmed(cache, now)| <= LIMIT
    ensures forall h <- Trimmed(cache, now) :: h in cache && Trimmed(cache, now)[h] == cache[h]
  {
  }

  lemma SourcedNext(v: View, steps: seq<Step>, i: nat)
    requires i < |steps| && Sourced(v, steps, i)
    ensures Sourced(v, steps, i + 1)
  {
    hide LookupSourced, CacheSourced, Trimmed;
    var a, b := At(v, steps, i), At(v, steps, i + 1);
    TrimmedLess(a.cache, a.now);
    forall id | id in b.lookups
      ensures LookupSourced(v, steps, id, b.lookups[id], i + 1)
    {
      if id in a.lookups && a.lookups[id] == b.lookups[id] {
        LookupStill(v, steps, id, a.lookups[id], i);
      } else if id in a.lookups {
        JustRead(v, steps, id, a.lookups[id].hash, i);
      } else {
        JustBegun(v, steps, id, b.lookups[id].hash, i);
      }
    }
    forall h | h in b.cache
      ensures CacheSourced(v, steps, h, b.cache[h], i + 1)
    {
      if h in a.cache && a.cache[h] == b.cache[h] {
        CacheStill(v, steps, h, a.cache[h], i);
      } else {
        var id := steps[i].id;
        JustStored(v, steps, id, a.lookups[id], i);
      }
    }
  }

  lemma JustBegun(v: View, steps: seq<Step>, id: nat, hash: string, i: nat)
    requires i < |steps| && steps[i] == StartLookup(id, hash)
    ensures LookupSourced(v, steps, id, Missed(hash), i + 1)
  {
    assert Begun(steps, id, hash, i, i + 1);
  }

  lemma {:induction false} AllSourced(v: View, steps: seq<Step>, i: nat)
    requires i <= |steps| && Fresh(v)
    ensures Sourced(v, steps, i)
  {
    hide LookupSourced, CacheSourced, Next;
    if i > 0 {
      AllSourced(v, steps, i - 1);
      SourcedNext(v, steps, i - 1);
    }
  }

  /** An answer from the cache is what the table said to some lookup of that
      hash that stored it under five seconds ago, with no clear since. An answer
      at the end of a lookup is what the table said to it. */
  ghost predicate Truthful(v: View, steps: seq<Step>, i: nat, kind: Option<Kind>)
    requires i < |steps|
  {
    match steps[i]
    case StartLookup(_, hash) =>
      exists id: nat, j: nat, k: nat, m: nat, t: nat ::
        WasStored(v, steps, id, hash, Cached(kind, t), j, k, m, i) && At(v, steps, i).now - t < TTL
    case FinishLookup(id) => exists hash, j: nat, k: nat :: WasRead(v, steps, id, hash, kind, j, k, i)
    case _ => false
  }

  /** Every answer, in every interleaving. */
  lemma AnswersTruthful(v: View, steps: seq<Step>, i: nat)
    requires i < |steps| && Fresh(v) && Reply(At(v, steps, i), steps[i]).Some?
    ensures Truthful(v, steps, i, Reply(At(v, steps, i), steps[i]).value)
  {
    hide At, WasRead, NoClear;
    AllSourced(v, steps, i);
    var a := At(v, steps, i);
    if steps[i].StartLookup? {
      var c := a.cache[steps[i].hash];
      assert CacheSourced(v, steps, steps[i].hash, c, i) && c == Cached(c.kind, c.storedAt);
    } else {
      assert LookupSourced(v, steps, steps[i].id, a.lookups[steps[i].id], i);
    }
  }

  // ---- When the cache agrees with the table ----------------------------------

  predicate Agrees(cache: map<string, Cached>, table: KeyTable) {
    forall h <- cache :: cache[h].kind == Resolve(table, h)
  }

  /** With no clear to come a store keeps the cache in agreement exactly if the
      table still says what was read. */
  lemma StoreExactly(v: View, id: nat)
    requires id in v.lookups && v.lookups[id].HasRead? && Agrees(v.cache, v.table)
    ensures var w := Next(v, FinishLookup(id));
            Agrees(w.cache, w.table) <==> v.lookups[id].kind == Resolve(v.table, v.lookups[id].hash)
  {
    hide Trimmed;
    TrimmedLess(v.cache, v.now);
    var w, hash := Next(v, FinishLookup(id)), v.lookups[id].hash;
    assert hash in w.cache && w.cache[hash].kind == v.lookups[id].kind;
  }

  lemma {:induction false} PendingCleared(v: View, steps: seq<Step>, t: nat, i: nat) returns (c: nat)
    requires t <= i <= |steps| && At(v, steps, t).pending > 0 && At(v, steps, i).pending == 0
    ensures t <= c < i && Clears(v, steps, c)
    decreases i
  {
    hide Trimmed, Reply;
    if At(v, steps, i - 1).pending > 0 {
      c := i - 1;
    } else {
      c := PendingCleared(v, steps, t, i - 1);
    }
  }

  lemma {:induction false} TableChanged(v: View, steps: seq<Step>, k: nat, i: nat, hash: string) returns (t: nat)
    requires k <= i <= |steps| && Resolve(At(v, steps, k).table, hash) != Resolve(At(v, steps, i).table, hash)
    ensures k <= t < i && At(v, steps, t + 1).pending > 0
    decreases i
  {
    hide Trimmed, Reply;
    if Resolve(At(v, steps, i - 1).table, hash) != Resolve(At(v, steps, i).table, hash) {
      t := i - 1;
    } else {
      t := TableChanged(v, steps, k, i - 1, hash);
    }
  }

  /** A lookup read the table, saw the cache cleared, and stored after that. */
  predicate SpanBy(v: View, steps: seq<Step>, id: nat, k: nat, c: nat, m: nat) {
    k < c < m < |steps| && steps[k] == ReadTable(id) && Clears(v, steps, c) && steps[m] == FinishLookup(id)
  }

  /** With no clear to come, an entry is wrong only if its own lookup stored it
      across a clear. */
  lemma WrongSpans(v: View, steps: seq<Step>, i: nat, hash: string) returns (id: nat, k: nat, c: nat, m: nat)
    requires i <= |steps| && Fresh(v) && At(v, steps, i).pending == 0
    requires hash in At(v, steps, i).cache && At(v, steps, i).cache[hash].kind != Resolve(At(v, steps, i).table, hash)
    ensures SpanBy(v, steps, id, k, c, m) && m < i
    ensures exists j: nat :: WasStored(v, steps, id, hash, At(v, steps, i).cache[hash], j, k, m, i)
  {
    hide At, LookupSourced, Clears;
    AllSourced(v, steps, i);
    var entry := At(v, steps, i).cache[hash];
    assert CacheSourced(v, steps, hash, entry, i);
    var j: nat;
    id, j, k, m :| WasStored(v, steps, id, hash, entry, j, k, m, i);
    var t := TableChanged(v, steps, k, i, hash);
    c := PendingCleared(v, steps, t + 1, i);
    assert !(m <= c < i);
  }

  /** No lookup reads before a clear and stores after it. */
  predicate NoSpan(steps: seq<Step>) {
    forall k, c, m | 0 <= k < c < m < |steps| ::
      steps[k].ReadTable? && steps[c] == ClearCache && steps[m].FinishLookup? ==> steps[k].id != steps[m].id
  }

  /** In every interleaving without such a lookup the cache agrees with the
      table whenever no clear is to come. */
  lemma Coherent(v: View, steps: seq<Step>, i: nat)
    requires i <= |steps| && Fresh(v) && NoSpan(steps) && At(v, steps, i).pending == 0
    ensures Agrees(At(v, steps, i).cache, At(v, steps, i).table)
  {
    var a := At(v, steps, i);
    forall h | h in a.cache
      ensures a.cache[h].kind == Resolve(a.table, h)
    {
      if a.cache[h].kind != Resolve(a.table, h) {
        var id, k, c, m := WrongSpans(v, steps, i, h);
        assert false;
      }
    }
  }

  lemma {:induction false} CacheBounded(v: View, steps: seq<Step>, i: nat)
    requires i <= |steps| && Fresh(v)
    ensures |At(v, steps, i).cache| <= LIMIT + 1
  {
    hide Trimmed;
    if i > 0 {
      CacheBounded(v, steps, i - 1);
      var a, b := At(v, steps, i - 1), At(v, steps, i);
      TrimmedLess(a.cache, a.now);
      if b.cache != a.cache && b.cache != map[] {
        var hash := a.lookups[steps[i - 1].id].hash;
        assert b.cache.Keys == Trimmed(a.cache, a.now).Keys + {hash};
      }
    }
  }

  /** A lookup that reads before a revocation and stores after its clear leaves
      the revoked key in the cache with no clear to come. */
  lemma StoreAcrossClear(v: View, hash: string) returns (steps: seq<Step>)
    requires Fresh(v) && v.pending == 0 && Resolve(v.table, hash).Some?
    ensures var w := At(v, steps, |steps|);
            && w.pending == 0 && hash in w.cache && Resolve(w.table, hash) == None
            && w.cache[hash].kind == Resolve(v.table, hash) && Live(w.cache[hash], w.now)
  {
    hide Trimmed;
    steps := [StartLookup(0, hash), ReadTable(0), ChangeKey(hash, None), ClearCache, FinishLookup(0)];
    var a := Next(v, steps[0]);
    var b := Next(a, steps[1]);
    var c := Next(b, steps[2]);
    var d := Next(c, steps[3]);
    assert At(v, steps, 1) == a;
    assert At(v, steps, 2) == b;
    assert At(v, steps, 3) == c;
    assert At(v, steps, 4) == d;
    assert At(v, steps, 5) == Next(d, steps[4]);
  }

  // ---- The service -----------------------------------------------------------

  class KeyService {
    var now: nat
    var table: KeyTable
    var cache: map<string, Cached>
    var lookups: map<nat, Lookup>
    var pending: nat

    function Look(): View
      reads this
    {
      View(now, table, cache, lookups, pending)
    }

    constructor (table: KeyTable)
      ensures Look() == View(0, table, map[], map[], 0)
    {
      now, pending := 0, 0;
      this.table, cache, lookups := table, map[], map[];
    }

    /** `cached_api_key`: answer from the cache, or go to the table. */
    method Begin(id: nat, hash: string) returns (hit: Option<Option<Kind>>)
      requires id !in lookups
      modifies this`lookups
      ensures Look() == Next(old(Look()), StartLookup(id, hash)) && hit == Reply(old(Look()), StartLookup(id, hash))
    {
      if hash in cache && Live(cache[hash], now) {
        return Some(cache[hash].kind);
      }
      lookups := lookups[id := Missed(hash)];
      return None;
    }

    method Read(id: nat)
      requires id in lookups && lookups[id].Missed?
      modifies this`lookups
      ensures Look() == Next(old(Look()), ReadTable(id))
    {
      lookups := lookups[id := HasRead(lookups[id].hash, Resolve(table, lookups[id].hash))];
    }

    /** Store what was read, and answer it. */
    method Finish(id: nat) returns (kind: Option<Kind>)
      requires id in lookups && lookups[id].HasRead?
      modifies this`lookups, this`cache
      ensures Look() == Next(old(Look()), FinishLookup(id)) && Some(kind) == Reply(old(Look()), FinishLookup(id))
    {
      hide Trimmed;
      kind := lookups[id].kind;
      Insert(lookups[id].hash, kind);
      lookups := lookups - {id};
    }

    /** `store_cached_api_key`. */
    method Insert(hash: string, kind: Option<Kind>)
      modifies this`cache
      ensures cache == Trimmed(old(cache), now)[hash := Cached(kind, now)]
    {
      if |cache| > LIMIT {
        cache := map h | h in cache && Live(cache[h], now) :: cache[h];
        if |cache| > LIMIT {
          cache := map[];
        }
      }
      cache := cache[hash := Cached(kind, now)];
    }

    /** A mint or a revocation changes the table; its clear follows later. */
    method Change(hash: string, kind: Option<Kind>)
      modifies this`table, this`pending
      ensures Look() == Next(old(Look()), ChangeKey(hash, kind)) && Resolve(table, hash) == kind
    {
      table := if kind.Some? then table[hash := kind.value] else table - {hash};
      pending := pending + 1;
    }

    method Clear()
      requires pending > 0
      modifies this`cache, this`pending
      ensures Look() == Next(old(Look()), ClearCache) && Agrees(cache, table)
    {
      cache := map[];
      pending := pending - 1;
    }
  }

  /** What an interleaving promises of every answer, and of the cache at its end. */
  ghost predicate Promised(v: View, steps: seq<Step>, answers: seq<Option<Option<Kind>>>)
    requires |answers| == |steps|
  {
    var w := At(v, steps, |steps|);
    && (forall i: nat | i < |steps| && answers[i].Some? :: Truthful(v, steps, i, answers[i].value))
    && (NoSpan(steps) && w.pending == 0 ==> Agrees(w.cache, w.table))
    && |w.cache| <= LIMIT + 1
  }

  lemma PromisesKept(v: View, steps: seq<Step>, answers: seq<Option<Option<Kind>>>)
    requires Fresh(v) && |answers| == |steps|
    requires forall i: nat | i < |steps| :: answers[i] == Reply(At(v, steps, i), steps[i])
    ensures Promised(v, steps, answers)
  {
    hide At, Truthful, NoSpan, Agrees, Reply;
    forall i: nat | i < |steps| && answers[i].Some?
      ensures Truthful(v, steps, i, answers[i].value)
    {
      AnswersTruthful(v, steps, i);
    }
    if NoSpan(steps) && At(v, steps, |steps|).pending == 0 {
      Coherent(v, steps, |steps|);
    }
    CacheBounded(v, steps, |steps|);
  }

  /** One step of some thread. */
  method Take(service: KeyService, step: Step) returns (answer: Option<Option<Kind>>)
    modifies service
    ensures service.Look() == Next(old(service.Look()), step) && answer == Reply(old(service.Look()), step)
  {
    hide Trimmed;
    answer := None;
    match step
    case Wait(d) => service.now := service.now + d;
    case StartLookup(id, hash) =>
      if id !in service.lookups {
        answer := service.Begin(id, hash);
      }
    case ReadTable(id) =>
      if id in service.lookups && service.lookups[id].Missed? {
        service.Read(id);
      }
    case FinishLookup(id) =>
      if id in service.lookups && service.lookups[id].HasRead? {
        var kind := service.Finish(id);
        answer := Some(kind);
      }
    case ChangeKey(hash, kind) => service.Change(hash, kind);
    case ClearCache =>
      if service.pending > 0 {
        service.Clear();
      }
  }

  /** The service goes through the steps as `Next` and `Reply` say, in every
      interleaving; steps a thread cannot take are skipped. */
  method Interleave(service: KeyService, steps: seq<Step>) returns (answers: seq<Option<Option<Kind>>>)
    requires Fresh(service.Look())
    modifies service
    ensures service.Look() == At(old(service.Look()), steps, |steps|) && |answers| == |steps|
    ensures forall i: nat | i < |steps| :: answers[i] == Reply(At(old(service.Look()), steps, i), steps[i])
    ensures Promised(old(service.Look()), steps, answers)
  {
    hide Next, Reply, Promised;
    ghost var v := service.Look();
    answers := [];
    for n := 0 to |steps|
      invariant service.Look() == At(v, steps, n) && |answers| == n
      invariant forall i: nat | i < n :: answers[i] == Reply(At(v, steps, i), steps[i])
    {
      var answer := Take(service, steps[n]);
      answers := answers + [answer];
    }
    PromisesKept(v, steps, answers);
  }
}
