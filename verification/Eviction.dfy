/** Eviction under a memory limit. In memory mode an eviction deletes, so it is
    journaled first; in tiered mode it moves a key to disk. */
module Eviction {
  import opened Bytes
  import FileSystem
  import opened Sets

  // "_t:"
  const TABLE_PREFIX: bytes := [0x5F, 0x74, 0x3A]
  const CLOCK_MAX: nat := 0xFFFF_FFFF
  const MAX_ITERATIONS := 128

  datatype Item = Item(size: nat, clock: nat, volatile: bool, vector: bool)

  type Data = map<bytes, Item>

  datatype Policy = NoEviction | AllKeysLru | VolatileLru | AllKeysRandom | VolatileRandom

  datatype Config = Config(maxMemory: nat, policy: Policy, sampleSize: nat, shardCount: nat, tiered: bool)

  /** Keys that may be evicted: never vectors, never table keys if eviction deletes. */
  predicate Eligible(key: bytes, i: Item, volatileOnly: bool, protect: bool) {
    (volatileOnly ==> i.volatile) && !i.vector && !(protect && TABLE_PREFIX <= key)
  }

  function SizeOf(i: Item): nat {
    i.size
  }

  ghost function Total(data: Data): nat {
    Sum(data, SizeOf)
  }

  // ---- The journal -------------------------------------------------------

  datatype Op = Set(key: bytes, item: Item) | Del(key: bytes)

  function Apply(data: Data, op: Op): Data {
    match op
    case Set(key, item) => data[key := item]
    case Del(key) => data - {key}
  }

  function Replay(data: Data, journal: seq<Op>): Data {
    if journal == [] then data else Apply(Replay(data, journal[..|journal| - 1]), journal[|journal| - 1])
  }

  lemma ReplayMore(data: Data, journal: seq<Op>, op: Op)
    ensures Replay(data, journal + [op]) == Apply(Replay(data, journal), op)
  {
    assert (journal + [op])[..|journal|] == journal;
  }

  // ---- Choosing a victim -------------------------------------------------

  /** The keys of one shard that may be evicted. */
  function Candidates(data: Data, shardOf: bytes -> nat, shard: nat, volatileOnly: bool, protect: bool): set<bytes> {
    set key | key in data && shardOf(key) == shard && Eligible(key, data[key], volatileOnly, protect)
  }

  /** A sample of a shard: as many candidates as asked for, if there are that many. */
  predicate IsSample(candidates: set<bytes>, sample: set<bytes>, size: nat) {
    sample <= candidates && |sample| == if |candidates| <= size then |candidates| else size
  }

  /** The least recently used key of a sample. A clock at its maximum is never chosen. */
  predicate IsOldest(data: Data, sample: set<bytes>, key: Option<bytes>) {
    match key
    case Some(k) =>
      k in sample && k in data && data[k].clock < CLOCK_MAX && forall o <- sample :: o in data && data[k].clock <= data[o].clock
    case None => forall o <- sample :: o in data && data[o].clock >= CLOCK_MAX
  }

  /** The choice after one more sampled key. */
  function Older(data: Data, key: Option<bytes>, k: bytes): Option<bytes>
    requires k in data && (key.Some? ==> key.value in data)
  {
    if data[k].clock < (if key.Some? then data[key.value].clock else CLOCK_MAX) then Some(k) else key
  }

  lemma OldestOfMore(data: Data, sample: set<bytes>, key: Option<bytes>, k: bytes)
    requires IsOldest(data, sample, key) && k in data
    ensures IsOldest(data, sample + {k}, Older(data, key, k))
  {
  }

  /** What of a shard has been looked at. */
  ghost predicate Sampling(all: set<bytes>, sample: set<bytes>, todo: set<bytes>, sampled: nat, size: nat) {
    sample <= all <= sample + todo && sample !! todo && sampled == |sample| <= size
  }

  lemma SampledOne(all: set<bytes>, sample: set<bytes>, todo: set<bytes>, sampled: nat, size: nat, k: bytes)
    requires Sampling(all, sample, todo, sampled, size) && sampled < size && k in todo
    ensures k in all ==> Sampling(all, sample + {k}, todo - {k}, sampled + 1, size)
    ensures k !in all ==> Sampling(all, sample, todo - {k}, sampled, size)
  {
  }

  /** Sample one shard in the order its table happens to be iterated in. */
  method SampleShard(data: Data, shardOf: bytes -> nat, shard: nat, size: nat, volatileOnly: bool, protect: bool)
    returns (key: Option<bytes>, sampled: nat, ghost sample: set<bytes>)
    ensures IsSample(Candidates(data, shardOf, shard, volatileOnly, protect), sample, size)
    ensures sampled == |sample| && IsOldest(data, sample, key)
    ensures sampled == if |Candidates(data, shardOf, shard, volatileOnly, protect)| <= size
                       then |Candidates(data, shardOf, shard, volatileOnly, protect)| else size
    ensures key.Some? ==> key.value in Candidates(data, shardOf, shard, volatileOnly, protect)
  {
    hide Eligible, IsOldest, IsSample, Sampling, Candidates;
    key, sampled, sample := None, 0, {};
    var todo := set k | k in data && shardOf(k) == shard;
    ghost var all := Candidates(data, shardOf, shard, volatileOnly, protect);
    CandidatesIn(data, shardOf, shard, volatileOnly, protect);
    NothingSampled(data, all, todo, size);
    while todo != {} && sampled < size
      invariant todo <= data.Keys && (forall k <- todo :: shardOf(k) == shard)
      invariant Sampling(all, sample, todo, sampled, size)
      invariant IsOldest(data, sample, key) && (key.Some? ==> key.value in data)
      decreases todo
    {
      var k :| k in todo;
      SampledOne(all, sample, todo, sampled, size, k);
      IsCandidate(data, shardOf, shard, volatileOnly, protect, k);
      todo := todo - {k};
      if Eligible(k, data[k], volatileOnly, protect) {
        OldestOfMore(data, sample, key, k);
        sampled, sample := sampled + 1, sample + {k};
        key := Older(data, key, k);
      }
    }
    SampleSize(all, sample, todo, sampled, size);
    OldestInside(data, all, sample, size, key);
  }

  lemma OldestInside(data: Data, all: set<bytes>, sample: set<bytes>, size: nat, key: Option<bytes>)
    requires IsSample(all, sample, size) && IsOldest(data, sample, key)
    ensures key.Some? ==> key.value in all
    ensures |sample| == if |all| <= size then |all| else size
  {
  }

  lemma CandidatesIn(data: Data, shardOf: bytes -> nat, shard: nat, volatileOnly: bool, protect: bool)
    ensures Candidates(data, shardOf, shard, volatileOnly, protect) <= set k | k in data && shardOf(k) == shard
  {
  }

  lemma IsCandidate(data: Data, shardOf: bytes -> nat, shard: nat, volatileOnly: bool, protect: bool, k: bytes)
    requires k in data && shardOf(k) == shard
    ensures k in Candidates(data, shardOf, shard, volatileOnly, protect) <==> Eligible(k, data[k], volatileOnly, protect)
  {
  }

  lemma NothingSampled(data: Data, all: set<bytes>, todo: set<bytes>, size: nat)
    requires all <= todo
    ensures Sampling(all, {}, todo, 0, size) && IsOldest(data, {}, None)
  {
  }

  lemma SampleSize(all: set<bytes>, sample: set<bytes>, todo: set<bytes>, sampled: nat, size: nat)
    requires Sampling(all, sample, todo, sampled, size) && (todo == {} || sampled >= size)
    ensures IsSample(all, sample, size) && sampled == |sample|
  {
    SmallerSet(sample, all);
    if todo == {} {
      assert all == sample;
    }
  }

  /** Candidates of the shard `offset` places after `start`. */
  function At(c: Config, data: Data, shardOf: bytes -> nat, start: nat, offset: nat, volatileOnly: bool): set<bytes>
    requires c.shardCount > 0
  {
    Candidates(data, shardOf, (start + offset) % c.shardCount, volatileOnly, !c.tiered)
  }

  predicate CanEvict(c: Config, data: Data, key: bytes, volatileOnly: bool) {
    key in data && Eligible(key, data[key], volatileOnly, !c.tiered)
  }

  lemma CandidatesCanGo(c: Config, data: Data, shardOf: bytes -> nat, start: nat, offset: nat, volatileOnly: bool, key: bytes)
    requires c.shardCount > 0 && key in At(c, data, shardOf, start, offset, volatileOnly)
    ensures CanEvict(c, data, key, volatileOnly)
  {
  }

  /** `evict_lru` up to the eviction: the first shard, from `start` on, that
      yields a sample decides. */
  method PickLru(c: Config, data: Data, shardOf: bytes -> nat, start: nat, volatileOnly: bool)
    returns (key: Option<bytes>, ghost offset: nat, ghost sample: set<bytes>)
    requires c.shardCount > 0
    ensures offset <= c.shardCount && (offset == c.shardCount ==> key.None?)
    ensures c.sampleSize > 0 ==> forall o: nat | o < offset :: At(c, data, shardOf, start, o, volatileOnly) == {}
    ensures offset < c.shardCount ==>
              && sample != {} && IsOldest(data, sample, key)
              && IsSample(At(c, data, shardOf, start, offset, volatileOnly), sample, c.sampleSize)
    ensures key.Some? ==> CanEvict(c, data, key.value, volatileOnly)
  {
    hide Candidates, Eligible, CanEvict;
    offset := 0;
    var o := 0;
    while o < c.shardCount
      invariant o <= c.shardCount && offset == o
      invariant c.sampleSize > 0 ==> forall p: nat | p < o :: At(c, data, shardOf, start, p, volatileOnly) == {}
    {
      var sampled;
      key, sampled, sample := SampleShard(data, shardOf, (start + o) % c.shardCount, c.sampleSize, volatileOnly, !c.tiered);
      if sampled > 0 {
        if key.Some? {
          CandidatesCanGo(c, data, shardOf, start, o, volatileOnly, key.value);
        }
        return;
      }
      assert c.sampleSize > 0 ==> At(c, data, shardOf, start, o, volatileOnly) == {};
      o, offset := o + 1, offset + 1;
    }
    key, sample := None, {};
  }

  /** `evict_random` up to the eviction: any candidate of the first shard that has one. */
  method PickRandom(c: Config, data: Data, shardOf: bytes -> nat, start: nat, volatileOnly: bool) returns (key: Option<bytes>)
    requires c.shardCount > 0
    ensures key.Some? ==> CanEvict(c, data, key.value, volatileOnly)
    ensures key.None? ==> forall o: nat | o < c.shardCount :: At(c, data, shardOf, start, o, volatileOnly) == {}
  {
    hide Candidates, Eligible, CanEvict;
    var o := 0;
    while o < c.shardCount
      invariant o <= c.shardCount
      invariant forall p: nat | p < o :: At(c, data, shardOf, start, p, volatileOnly) == {}
    {
      var found := At(c, data, shardOf, start, o, volatileOnly);
      if found != {} {
        var k :| k in found;
        CandidatesCanGo(c, data, shardOf, start, o, volatileOnly, k);
        return Some(k);
      }
      o := o + 1;
    }
    return None;
  }

  // ---- The store ---------------------------------------------------------

  datatype Status = Ok | OutOfMemory | JournalFailed | Crashed

  class EvictingStore {
    const config: Config
    const shardOf: bytes -> nat
    var data: Data
    var memory: nat

    /** Keys moved to the cold tier. */
    var cold: Data
    var journal: seq<Op>
    var replaying: bool

    /** The journal refuses further records. */
    var poisoned: bool

    /** The record that may be journaled without being applied. */
    ghost var suspect: Option<Op>

    /** The contents the journal starts from. */
    ghost const start: Data

    ghost predicate Valid()
      reads this
    {
      config.shardCount > 0 && memory == Total(data)
    }

    /** Replaying the journal gives the live contents. */
    ghost predicate Exact()
      reads this
    {
      Replay(start, journal) == data
    }

    /** Replaying all but the last record does, and that one is `op`. */
    ghost predicate AllBut(op: Op)
      reads this
    {
      journal != [] && journal[|journal| - 1] == op && Replay(start, journal[..|journal| - 1]) == data
    }

    /** What replay gives: the live contents, unless the journal is poisoned or
        the process died in between; then one record, the one that was being
        written, may be in the journal and not in memory. */
    ghost predicate Accounted()
      reads this
    {
      && (poisoned ==> suspect.Some?)
      && match suspect
         case None => Exact()
         case Some(op) => Exact() || AllBut(op)
    }

    constructor (config: Config, shardOf: bytes -> nat, data: Data, memory: nat)
      requires config.shardCount > 0 && memory == Total(data)
      ensures Valid() && Exact() && Accounted() && suspect.None? && this.config == config && this.data == data && journal == []
    {
      this.config, this.shardOf, this.data, this.memory := config, shardOf, data, memory;
      cold, journal, replaying, poisoned, start, suspect := map[], [], false, false, data, None;
    }

    /** `append_to_journal`: a failure may leave the record in the journal if it
        cannot be rolled back either, and then no other record follows. */
    method Journal(op: Op, faults: bool) returns (status: Status)
      requires Accounted() && (suspect.Some? ==> poisoned)
      modifies this`journal, this`poisoned, this`suspect
      ensures status == Ok || status == JournalFailed
      ensures old(poisoned) ==> status == JournalFailed && poisoned && journal == old(journal) && suspect == old(suspect)
      ensures status == Ok ==> !poisoned && suspect == Some(op) && journal == old(journal) + [op] && AllBut(op)
      ensures status == JournalFailed ==> Accounted() && (suspect.Some? ==> poisoned)
      ensures status == JournalFailed && !old(poisoned) ==>
                if poisoned then suspect == Some(op) && (journal == old(journal) || journal == old(journal) + [op])
                else suspect.None? && journal == old(journal)
      ensures !faults && !old(poisoned) ==> status == Ok
    {
      if poisoned {
        return JournalFailed;
      }
      var hit := FileSystem.Struck(faults);
      if hit {
        return JournalFailed;
      }
      ghost var before := journal;
      hit := FileSystem.Struck(faults);
      if hit {
        poisoned, suspect := true, Some(op);
        hit := FileSystem.Struck(faults);
        if hit {
          journal := journal + [op];
          assert journal[..|before|] == before;
        }
        return JournalFailed;
      }
      journal, suspect := journal + [op], Some(op);
      assert journal[..|before|] == before;
      return Ok;
    }

    /** A client command, journaled and applied. */
    method Execute(op: Op, faults: bool) returns (status: Status)
      requires Valid() && Accounted() && (suspect.Some? ==> poisoned)
      modifies this`data, this`memory, this`journal, this`poisoned, this`suspect
      ensures Valid() && Accounted() && (status != Crashed ==> (suspect.Some? ==> poisoned))
      ensures status == Ok || status == JournalFailed || status == Crashed
      ensures status == Ok ==> data == Apply(old(data), op) && journal == old(journal) + [op] && suspect.None?
      ensures status != Ok ==> data == old(data) && (journal == old(journal) || journal == old(journal) + [op])
      ensures old(poisoned) ==> status == JournalFailed && poisoned && journal == old(journal) && suspect == old(suspect)
      ensures suspect == old(suspect) || suspect == Some(op) || suspect == None
      ensures !faults && !old(poisoned) ==> status == Ok && !poisoned
    {
      hide Sum, Replay;
      status := Journal(op, faults);
      if status != Ok {
        return;
      }
      var hit := FileSystem.Struck(faults);
      if hit {
        return Crashed;
      }
      ReplayMore(start, journal[..|journal| - 1], op);
      assert journal == journal[..|journal| - 1] + [op];
      match op {
        case Set(key, item) =>
          SumInsert(data, SizeOf, key, item);
          memory := memory + item.size - if key in data then data[key].size else 0;
          data := data[key := item];
        case Del(key) =>
          if key in data {
            SumWithout(data, SizeOf, key);
            memory := memory - data[key].size;
          } else {
            assert data - {key} == data;
          }
          data := data - {key};
      }
      suspect := None;
    }

    /** `commit_journaled` around `evict_key`: the delete is journaled before it happens. */
    method EvictSelected(key: bytes, faults: bool) returns (evicted: bool, status: Status)
      requires Valid() && key in data && (!config.tiered ==> Accounted() && (suspect.Some? ==> poisoned))
      modifies this`data, this`memory, this`cold, this`journal, this`poisoned, this`suspect
      ensures Valid() && (evicted ==> status == Ok) && status != OutOfMemory
      ensures data == if evicted then old(data) - {key} else old(data)
      ensures config.tiered ==>
                && status == Ok && cold + data == old(cold + data)
                && journal == old(journal) && poisoned == old(poisoned) && suspect == old(suspect)
      ensures !config.tiered ==> cold == old(cold) && Accounted() && (status != Crashed ==> (suspect.Some? ==> poisoned))
      ensures !config.tiered && status == Ok ==> evicted && !poisoned
      ensures !config.tiered && old(poisoned) ==>
                status == JournalFailed && poisoned && journal == old(journal) && suspect == old(suspect)
      ensures !config.tiered ==> suspect == old(suspect) || suspect == Some(Del(key)) || suspect == None
      ensures !config.tiered && !faults && !old(poisoned) ==> status == Ok
    {
      hide Sum;
      if config.tiered {
        if * {
          return false, Ok;
        }
        SumWithout(data, SizeOf, key);
        cold := cold[key := data[key]];
        memory := memory - data[key].size;
        data := data - {key};
        return true, Ok;
      }
      status := Journal(Del(key), faults);
      if status != Ok {
        return false, status;
      }
      var hit := FileSystem.Struck(faults);
      if hit {
        return false, Crashed;
      }
      ReplayMore(start, journal[..|journal| - 1], Del(key));
      assert journal == journal[..|journal| - 1] + [Del(key)];
      SumWithout(data, SizeOf, key);
      memory := memory - data[key].size;
      data := data - {key};
      suspect := None;
      return true, Ok;
    }

    /** One turn of the loop: pick by policy, then evict. */
    method EvictOne(faults: bool) returns (evicted: bool, status: Status)
      requires Valid() && (!config.tiered ==> Accounted() && (suspect.Some? ==> poisoned))
      modifies this`data, this`memory, this`cold, this`journal, this`poisoned, this`suspect
      ensures Valid() && (evicted ==> status == Ok && |data| + 1 == |old(data)|)
      ensures !evicted ==> data == old(data)
      ensures data.Keys <= old(data).Keys && Untouched(config, old(data), data)
      ensures config.tiered ==>
                && status == Ok && cold + data == old(cold + data)
                && journal == old(journal) && poisoned == old(poisoned) && suspect == old(suspect)
      ensures !config.tiered ==> cold == old(cold) && Accounted() && (status != Crashed ==> (suspect.Some? ==> poisoned))
      ensures !config.tiered && old(poisoned) ==>
                !evicted && poisoned && journal == old(journal) && suspect == old(suspect) && status != Crashed
      ensures !config.tiered ==> suspect == old(suspect) || suspect == None || suspect.value.Del?
      ensures !config.tiered && status == Ok ==> (suspect == old(suspect) || suspect == None)
      ensures (forall key <- data :: data[key] == old(data)[key]) && status != OutOfMemory
      ensures !config.tiered && !faults && !old(poisoned) ==> status == Ok && !poisoned
    {
      hide Sum, Replay, Eligible, Candidates;
      var key: Option<bytes> := None;
      var first := memory % config.shardCount;
      match config.policy {
        case NoEviction =>
        case AllKeysLru => ghost var o, s; key, o, s := PickLru(config, data, shardOf, first, false);
        case VolatileLru => ghost var o, s; key, o, s := PickLru(config, data, shardOf, first, true);
        case AllKeysRandom => key := PickRandom(config, data, shardOf, first, false);
        case VolatileRandom => key := PickRandom(config, data, shardOf, first, true);
      }
      if key.None? {
        return false, Ok;
      }
      EvictedOne(config, data, key.value);
      evicted, status := EvictSelected(key.value, faults);
    }

    method EvictIfNeeded(faults: bool) returns (status: Status)
      requires Valid() && (!config.tiered ==> Accounted() && (suspect.Some? ==> poisoned))
      modifies this`data, this`memory, this`cold, this`journal, this`poisoned, this`suspect
      ensures Valid() && data.Keys <= old(data).Keys && Untouched(config, old(data), data)
      ensures config.maxMemory == 0 || replaying ==>
                status == Ok && data == old(data) && journal == old(journal) && poisoned == old(poisoned)
      ensures config.tiered ==> status == Ok && journal == old(journal) && cold + data == old(cold + data)
      ensures !config.tiered && status == Ok && config.maxMemory > 0 && !replaying ==> memory <= config.maxMemory
      ensures !config.tiered ==> |old(data)| <= |data| + MAX_ITERATIONS
      ensures !config.tiered ==> Accounted() && (status != Crashed ==> (suspect.Some? ==> poisoned))
      ensures !config.tiered && old(poisoned) ==>
                status != Crashed && poisoned && journal == old(journal) && suspect == old(suspect) && data == old(data)
      ensures !config.tiered ==> suspect == old(suspect) || suspect == None || suspect.value.Del?
      ensures forall key <- data :: data[key] == old(data)[key]
      ensures old(memory) <= config.maxMemory ==> status == Ok && data == old(data)
      ensures status == OutOfMemory ==> memory > config.maxMemory
      ensures !config.tiered && !faults && !old(poisoned) ==> (status == Ok || status == OutOfMemory) && !poisoned
    {
      hide Sum, Replay, Untouched;
      Unmoved(config, data);
      if config.maxMemory == 0 || replaying {
        return Ok;
      }
      var iterations := 0;
      while memory > config.maxMemory
        invariant Valid() && data.Keys <= old(data).Keys && Untouched(config, old(data), data)
        invariant config.tiered ==> journal == old(journal) && cold + data == old(cold + data)
        invariant !config.tiered ==> iterations <= MAX_ITERATIONS && |old(data)| == |data| + iterations
        invariant !config.tiered ==> Accounted() && (suspect.Some? ==> poisoned)
        invariant !config.tiered ==> suspect == old(suspect) || suspect == None
        invariant !config.tiered && old(poisoned) ==>
                    poisoned && journal == old(journal) && suspect == old(suspect) && data == old(data)
        invariant forall key <- data :: data[key] == old(data)[key]
        invariant old(memory) <= config.maxMemory ==> data == old(data)
        invariant !config.tiered && !faults && !old(poisoned) ==> !poisoned
        decreases if config.tiered then 0 else MAX_ITERATIONS - iterations, |data|
      {
        iterations := iterations + 1;
        if !config.tiered && iterations > MAX_ITERATIONS {
          return OutOfMemory;
        }
        ghost var before := data;
        var evicted;
        evicted, status := EvictOne(faults);
        UntouchedTwice(config, old(data), before, data);
        if status != Ok {
          return;
        }
        if !evicted {
          return if config.tiered then Ok else OutOfMemory;
        }
      }
      return Ok;
    }
  }

  /** Memory mode, over a whole run of client commands with journal failures
      and crashes anywhere: replay, which makes no choices of its own, gives the
      live contents. Only once the journal is poisoned or the process died may
      it be off by the last record: a client command or an eviction's delete
      that was journaled and not applied. Nothing is journaled after it. */
  method Serve(store: EvictingStore, script: seq<(Op, bool)>) returns (statuses: seq<Status>, ghost trace: seq<Moment>)
    requires store.Valid() && store.Exact() && store.suspect.None? && !store.poisoned && !store.config.tiered
    modifies store
    ensures store.Valid() && store.Accounted()
    ensures Crashed !in statuses && !store.poisoned ==> store.Exact()
    ensures store.suspect.Some? ==> Journaled(script, store.suspect.value)
    ensures |statuses| <= |script| && |trace| == |statuses| + 1 && trace[0] == Moment(old(store.data), false)
    ensures trace[|statuses|] == Moment(store.data, store.poisoned)
    ensures |statuses| < |script| ==> statuses != [] && statuses[|statuses| - 1] == Crashed
    ensures forall i | 0 <= i < |statuses| ::
              Handled(store.config, store.replaying, trace[i], script[i].0, script[i].1, statuses[i], trace[i + 1])
  {
    hide Sum, Replay, Handled;
    statuses, trace := [], [Moment(store.data, false)];
    for i := 0 to |script|
      invariant store.Valid() && store.Accounted() && (store.suspect.Some? ==> store.poisoned)
      invariant store.suspect.Some? ==> Journaled(script, store.suspect.value)
      invariant |statuses| == i && |trace| == i + 1 && trace[0] == Moment(old(store.data), false)
      invariant trace[i] == Moment(store.data, store.poisoned) && Crashed !in statuses
      invariant forall k | 0 <= k < i ::
                  Handled(store.config, store.replaying, trace[k], script[k].0, script[k].1, statuses[k], trace[k + 1])
    {
      var status := Handle(store, script[i].0, script[i].1);
      statuses, trace := statuses + [status], trace + [Moment(store.data, store.poisoned)];
      if status == Crashed {
        return;
      }
    }
  }

  /** The delete of an eviction, or a command of the script. */
  predicate Journaled(script: seq<(Op, bool)>, op: Op) {
    op.Del? || exists i | 0 <= i < |script| :: script[i].0 == op
  }

  /** What clients see of the store. */
  datatype Moment = Moment(data: Data, poisoned: bool)

  /** What eviction may leave: some keys are gone, at most 128 of them, no
      vector and no table key, and none if it is disabled or not needed. */
  ghost predicate Evicted(c: Config, replaying: bool, before: Data, after: Data) {
    && after.Keys <= before.Keys && (forall key <- after :: after[key] == before[key])
    && Untouched(c, before, after) && |before| <= |after| + MAX_ITERATIONS
    && (c.maxMemory == 0 || replaying || Total(before) <= c.maxMemory ==> after == before)
  }

  /** One command: evict, then execute unless memory is short or the journal
      fails. Without faults nothing else can stop it. */
  ghost predicate Handled(c: Config, replaying: bool, a: Moment, op: Op, faults: bool, status: Status, b: Moment) {
    exists mid: Data ::
      && Evicted(c, replaying, a.data, mid) && b.data == (if status == Ok then Apply(mid, op) else mid)
      && (status == Ok && c.maxMemory > 0 && !replaying ==> Total(mid) <= c.maxMemory)
      && (status == OutOfMemory ==> c.maxMemory > 0 && !replaying && Total(mid) > c.maxMemory)
      && (a.poisoned ==> b.poisoned && mid == a.data && (status == JournalFailed || status == OutOfMemory))
      && (!faults && !a.poisoned ==> !b.poisoned && (status == Ok || status == OutOfMemory))
  }

  method Handle(store: EvictingStore, op: Op, faults: bool) returns (status: Status)
    requires store.Valid() && store.Accounted() && (store.suspect.Some? ==> store.poisoned) && !store.config.tiered
    modifies store
    ensures store.Valid() && store.Accounted() && (status != Crashed ==> (store.suspect.Some? ==> store.poisoned))
    ensures store.replaying == old(store.replaying)
    ensures store.suspect.Some? ==> store.suspect == old(store.suspect) || store.suspect.value.Del? || store.suspect == Some(op)
    ensures Handled(store.config, store.replaying, Moment(old(store.data), old(store.poisoned)), op, faults, status,
                    Moment(store.data, store.poisoned))
  {
    hide Sum, Replay, Untouched;
    status := store.EvictIfNeeded(faults);
    ghost var mid := store.data;
    assert Evicted(store.config, store.replaying, old(store.data), mid);
    if status == Ok {
      status := store.Execute(op, faults);
    }
  }

  /** The record left behind by a poisoned journal, seen from the live contents:
      replay has executed one command more. */
  lemma ReplayAhead(store: EvictingStore, op: Op)
    requires store.AllBut(op)
    ensures Replay(store.start, store.journal) == Apply(store.data, op)
  {
    hide Apply;
    ReplayMore(store.start, store.journal[..|store.journal| - 1], op);
    assert store.journal == store.journal[..|store.journal| - 1] + [op];
  }

  /** No vector left, and in memory mode no table key. */
  predicate Untouched(c: Config, before: Data, after: Data) {
    forall key <- before :: before[key].vector || (!c.tiered && TABLE_PREFIX <= key) ==> key in after && after[key] == before[key]
  }

  lemma Unmoved(c: Config, data: Data)
    ensures Untouched(c, data, data)
  {
  }

  lemma UntouchedTwice(c: Config, a: Data, b: Data, d: Data)
    requires Untouched(c, a, b) && Untouched(c, b, d)
    ensures Untouched(c, a, d)
  {
  }

  lemma EvictedOne(c: Config, data: Data, key: bytes)
    requires CanEvict(c, data, key, true) || CanEvict(c, data, key, false)
    ensures |data - {key}| < |data| && Untouched(c, data, data - {key}) && Untouched(c, data, data)
  {
    assert (data - {key}).Keys == data.Keys - {key};
  }
}
