/** Whole runs of the journal: what they look like from outside, and what that
    implies for every script, wherever the process stops, whichever file
    operations fail and whatever a power loss leaves. */
module WalCourse {
  import opened Bytes
  import opened WalFormat
  import opened WalScan
  import opened FileSystem
  import opened Journal
  import opened WalReplay
  import opened WalNames
  import opened WalRun

  datatype Event =
    | Submit(commands: seq<Command>, sync: bool)
    | SubmitChecked(command: Command, sync: bool)
    | Capture(successor: Generation)
    | Install
    | Rotate
    | Reboot
    | PowerCut

  const STAGED := "wal.lux.rotate"

  /** Events, and whether faults may strike during each. */
  type Script = seq<(Event, bool)>

  /** What the store has come to: the journal under its name; what other
      journals hold that a power loss may bring back, and whether a snapshot was
      installed since; memory; how far a save has got, and the generations drawn
      so far. A store whose journal is refused does not start any more. */
  datatype Moment<S> = Moment(now: Held, past: set<Held>, stale: bool, memory: S, up: bool, refused: bool,
                              captured: bool, ready: bool, drawn: set<Generation>)

  /** The record an event is about. */
  function RecordOf(e: Event): Option<Record> {
    match e
    case Submit(commands, _) => if commands == [] then None else Some(AsRecord(commands))
    case SubmitChecked(command, _) => Some(Checked(command))
    case _ => None
  }

  /** What memory becomes if the event is executed. */
  function Effect<S>(apply: (S, Command) -> Option<S>, memory: S, e: Event): Option<S> {
    match e
    case Submit(commands, _) => ApplyAll(apply, memory, commands)
    case SubmitChecked(command, _) => apply(memory, command)
    case _ => Some(memory)
  }

  /** The event is a command for a store that is up, and is worth journaling. A
      checked command is journaled before it is known whether it is accepted. */
  predicate Offered<S>(apply: (S, Command) -> Option<S>, m: Moment<S>, e: Event) {
    m.up && RecordOf(e).Some? && Storable(RecordOf(e).value) && (e.Submit? ==> Effect(apply, m.memory, e).Some?)
  }

  predicate Syncs(e: Event) {
    (e.Submit? || e.SubmitChecked?) && e.sync
  }

  /** One record is journaled and executed, or not. Without faults it is, unless
      the handler rejects it; `told` is whether the client was told it is durable. */
  ghost predicate Tries<S>(a: Moment<S>, r: Record, next: Option<S>, sync: bool, faults: bool, told: bool, b: Moment<S>) {
    && b == a.(now := b.now, memory := b.memory, up := b.up)
    && a.now.durable <= b.now.durable <= |b.now.log| && (b.now.log == a.now.log || b.now.log == a.now.log + [r])
    && (told ==> sync && next.Some? && b.up && b.now == Held(a.now.log + [r], |a.now.log| + 1))
    && (b.up ==> if b.now.log == a.now.log then b.memory == a.memory else next == Some(b.memory))
    && (!faults ==> b.up && (told <==> sync && next.Some?) && (b.now.log == a.now.log + [r] <==> next.Some?))
  }

  ghost predicate Restarts<S>(apply: (S, Command) -> Option<S>, initial: S, h: Held, faults: bool, b: Moment<S>) {
    && Curtailed(h, b.now)
    && (b.up ==> ApplyLog(apply, initial, b.now.log) == Some(b.memory)) && (!faults ==> b.up)
  }

  /** What one event may do. */
  ghost predicate Moves<S(!new)>(apply: (S, Command) -> Option<S>, initial: S, a: Moment<S>, e: (Event, bool), told: bool,
                                 b: Moment<S>) {
    if a.refused then b.refused && !b.up && !told
    else if Offered(apply, a, e.0) then
      Tries(a, RecordOf(e.0).value, Effect(apply, a.memory, e.0), Syncs(e.0), e.1, told, b)
    else
      !told && match e.0
      case Reboot =>
        && b == a.(now := b.now, memory := b.memory, up := b.up, captured := false, ready := b.ready)
        && Restarts(apply, initial, a.now, e.1, b)
      case PowerCut =>
        b.past == {} && !b.stale && !b.captured && b.drawn == a.drawn &&
        if b.refused then !b.up && a.stale && a.past != {}
        else exists h <- {a.now} + a.past :: Restarts(apply, initial, h, e.1, b)
      case Capture(g) => if a.up && g !in a.drawn then Captures(a, g, e.1, b) else b == a
      case Install => if a.up && a.captured then Installs(a, e.1, b) else b == a
      case Rotate => if a.up && !a.captured then Rotates(a, e.1, b) else b == a
      case _ => b == a
  }

  /** The journal is synced, and a snapshot of memory taken. */
  ghost predicate Captures<S>(a: Moment<S>, g: Generation, faults: bool, b: Moment<S>) {
    && b == a.(now := b.now, captured := b.captured, drawn := b.drawn)
    && b.now.log == a.now.log && a.now.durable <= b.now.durable <= |b.now.log|
    && (!faults ==> b.captured && b.drawn == a.drawn + {g} && b.now.durable == |b.now.log|)
  }

  /** It is installed. Without faults it then lets the journal be replaced. */
  ghost predicate Installs<S>(a: Moment<S>, faults: bool, b: Moment<S>) {
    && b == a.(stale := b.stale, up := b.up, captured := false, ready := b.ready)
    && (a.stale ==> b.stale) && (b.stale ==> a.stale || a.past != {})
    && (!faults ==> b.up && b.ready)
  }

  /** The journal is replaced under its name, or the store goes down. Without
      faults it is replaced, if the snapshot lets it. With faults the name may
      have moved on without being settled. */
  ghost predicate Rotates<S>(a: Moment<S>, faults: bool, b: Moment<S>) {
    || b == a.(past := {}, stale := false, ready := false)
    || (b == a && !a.ready)
    || ((faults || !a.ready) && b == a.(up := false, ready := b.ready))
    || (faults && b == a.(past := a.past + {a.now}, up := false, ready := b.ready))
  }

  ghost predicate Course<S(!new)>(apply: (S, Command) -> Option<S>, initial: S, script: Script, told: seq<bool>,
                                  trace: seq<Moment<S>>) {
    && |told| == |script| && |trace| == |script| + 1
    && trace[0] == Moment(Held([], 0), {}, false, initial, true, false, false, false, trace[0].drawn)
    && forall i | 0 <= i < |script| :: Moves(apply, initial, trace[i], script[i], told[i], trace[i + 1])
  }

  // ---- Subsequences ------------------------------------------------------

  /** `a` is `b` with some elements left out. */
  ghost predicate Within<T>(a: seq<T>, b: seq<T>)
    decreases |b|
  {
    a == [] ||
    (b != [] && (Within(a, b[..|b| - 1]) ||
                 (a[|a| - 1] == b[|b| - 1] && Within(a[..|a| - 1], b[..|b| - 1]))))
  }

  lemma WithinBoth<T>(a: seq<T>, b: seq<T>, x: T)
    requires Within(a, b)
    ensures Within(a + [x], b + [x]) && Within(a, b + [x])
  {
    assert (a + [x])[..|a|] == a;
    assert (b + [x])[..|b|] == b;
  }

  lemma {:induction false} WithinLonger<T>(a: seq<T>, b: seq<T>, c: seq<T>)
    requires Within(a, b)
    ensures Within(a, b + c)
    decreases |c|
  {
    if c == [] {
      assert b + c == b;
    } else {
      WithinLonger(a, b, c[..|c| - 1]);
      assert b + c == b + c[..|c| - 1] + [c[|c| - 1]];
      WithinBoth(a, b + c[..|c| - 1], c[|c| - 1]);
    }
  }

  lemma {:induction false} WithinShorter<T>(a: seq<T>, b: seq<T>, n: nat)
    requires Within(a, b) && n <= |a|
    ensures Within(a[..n], b)
    decreases |b|
  {
    if n < |a| && b != [] {
      if Within(a, b[..|b| - 1]) {
        WithinShorter(a, b[..|b| - 1], n);
      } else {
        WithinShorter(a[..|a| - 1], b[..|b| - 1], n);
        assert a[..|a| - 1][..n] == a[..n];
      }
    } else {
      assert a[..n] == a;
    }
  }

  lemma {:induction false} WithinBetween<T>(a: seq<T>, b: seq<T>, c: seq<T>)
    requires Within(a, b) && Within(b, c)
    ensures Within(a, c)
    decreases |c|
  {
    if a != [] {
      if Within(b, c[..|c| - 1]) {
        WithinBetween(a, b, c[..|c| - 1]);
      } else if Within(a, b[..|b| - 1]) {
        WithinBetween(a, b[..|b| - 1], c[..|c| - 1]);
      } else {
        WithinBetween(a[..|a| - 1], b[..|b| - 1], c[..|c| - 1]);
      }
    }
  }

  // ---- What a run promises -----------------------------------------------

  /** The name moved on at `p` and was not settled there. */
  predicate Unsettled(script: Script, p: int) {
    0 <= p < |script| && script[p].0.Rotate? && script[p].1
  }

  predicate NoCut(script: Script, from: int, to: int) {
    forall i | 0 <= i < |script| && from <= i < to :: script[i].0 != PowerCut
  }

  predicate RebootWithin(script: Script, from: int, to: int) {
    exists i | 0 <= i < |script| :: from < i < to && script[i].0 == Reboot
  }

  /** A rotation that may have left its rename unsynced, a restart, event `k`,
      and the first power loss after all that, before `n`. */
  ghost predicate Exposed(script: Script, k: int, n: int) {
    exists p, c :: ExposedBy(script, p, k, c) && c < n
  }

  predicate ExposedBy(script: Script, p: int, k: int, c: int) {
    && Unsettled(script, p) && RebootWithin(script, p, k) && k < c < |script|
    && script[c].0 == PowerCut && NoCut(script, p, c)
  }

  /** The records of the first `i` events, in order. */
  function Attempted(script: Script, i: nat): seq<Record>
    requires i <= |script|
  {
    if i == 0 then []
    else Attempted(script, i - 1) + match RecordOf(script[i - 1].0) { case Some(r) => [r] case None => [] }
  }

  /** The records among them that clients were told are durable, without those
      that the first `n` events exposed. */
  ghost function Promised(script: Script, told: seq<bool>, i: nat, n: nat): seq<Record>
    requires i <= |script| == |told|
  {
    if i == 0 then []
    else Promised(script, told, i - 1, n) + Promise(script, told, i - 1, n)
  }

  ghost function Promise(script: Script, told: seq<bool>, k: nat, n: nat): seq<Record>
    requires k < |script| == |told|
  {
    if told[k] && RecordOf(script[k].0).Some? && !Exposed(script, k, n) then [RecordOf(script[k].0).value] else []
  }

  /** The log accounts for what clients were told and for what memory holds. */
  ghost predicate Explains<S>(apply: (S, Command) -> Option<S>, initial: S, script: Script, told: seq<bool>, m: Moment<S>)
    requires |script| == |told|
  {
    && (m.up ==> ApplyLog(apply, initial, m.now.log) == Some(m.memory))
    && Within(Promised(script, told, |script|, |script|), m.now.log) && Within(m.now.log, Attempted(script, |script|))
  }

  /** A power loss brought back a journal that the installed snapshot refuses:
      after a rotation that may have left its rename unsynced, a restart and a
      new snapshot. */
  ghost predicate Stranded(script: Script, n: int) {
    exists p, q, c :: StrandedBy(script, p, q, c) && c < n
  }

  predicate StrandedBy(script: Script, p: int, q: int, c: int) {
    && Unsettled(script, p) && RebootWithin(script, p, q) && 0 <= q < c < |script|
    && script[q].0 == Install && script[c].0 == PowerCut && NoCut(script, p, c)
  }

  /** With no rotation under faults nothing is exposed. */
  predicate Steady(script: Script) {
    forall p | 0 <= p < |script| :: !Unsettled(script, p)
  }

  // ---- Why -----------------------------------------------------------------

  /** What holds of a journal a power loss may bring back: the name moved on
      from it at `p`, and clients were told of nothing since without a restart. */
  ghost predicate Behind(script: Script, told: seq<bool>, h: Held, up: bool, p: nat, i: nat)
    requires i <= |script| == |told|
  {
    && p < i && Unsettled(script, p) && NoCut(script, p, i) && h.durable <= |h.log|
    && Within(Promised(script, told, p, i), h.log[..h.durable]) && Within(h.log, Attempted(script, p))
    && (up ==> RebootWithin(script, p, i))
    && forall k | p < k < i && told[k] :: RebootWithin(script, p, k)
  }

  ghost predicate Kept(script: Script, told: seq<bool>, h: Held, i: nat)
    requires i <= |script| == |told|
  {
    && h.durable <= |h.log|
    && Within(Promised(script, told, i, i), h.log[..h.durable]) && Within(h.log, Attempted(script, i))
  }

  ghost predicate Staled(script: Script, i: nat) {
    exists p, q :: StaledBy(script, p, q, i)
  }

  predicate StaledBy(script: Script, p: int, q: int, i: nat) {
    && Unsettled(script, p) && RebootWithin(script, p, q) && 0 <= q < i && q < |script|
    && script[q].0 == Install && NoCut(script, p, i)
  }

  ghost predicate AllBehind(script: Script, told: seq<bool>, past: set<Held>, up: bool, i: nat)
    requires i <= |script| == |told|
  {
    forall h <- past :: exists p: nat :: Behind(script, told, h, up, p, i)
  }

  /** The invariant of every course. */
  ghost predicate Sane<S>(apply: (S, Command) -> Option<S>, initial: S, script: Script, told: seq<bool>, m: Moment<S>, i: nat)
    requires i <= |script| == |told|
  {
    if m.refused then !m.up && Stranded(script, i)
    else
      && Kept(script, told, m.now, i)
      && (m.up ==> ApplyLog(apply, initial, m.now.log) == Some(m.memory))
      && AllBehind(script, told, m.past, m.up, i)
      && (m.stale ==> Staled(script, i))
  }

  lemma ExposedSame(script: Script, k: int, n: nat)
    requires n < |script| && script[n].0 != PowerCut
    ensures Exposed(script, k, n + 1) <==> Exposed(script, k, n)
  {
    hide NoCut, RebootWithin, Unsettled;
    if Exposed(script, k, n + 1) {
      var p, c :| ExposedBy(script, p, k, c) && c < n + 1;
      assert c < n;
    }
    if Exposed(script, k, n) {
      var p, c :| ExposedBy(script, p, k, c) && c < n;
      assert ExposedBy(script, p, k, c) && c < n + 1;
    }
  }

  lemma {:induction false} PromisedSame(script: Script, told: seq<bool>, j: nat, n: nat)
    requires j <= |script| == |told| && n < |script| && script[n].0 != PowerCut
    ensures Promised(script, told, j, n + 1) == Promised(script, told, j, n)
  {
    hide Exposed;
    if j > 0 {
      PromisedSame(script, told, j - 1, n);
      ExposedSame(script, j - 1, n);
    }
  }

  /** More events expose more. */
  lemma {:induction false} PromisedLess(script: Script, told: seq<bool>, j: nat, n: nat)
    requires j <= |script| == |told|
    ensures Within(Promised(script, told, j, n + 1), Promised(script, told, j, n))
  {
    hide Within, Promise;
    if j == 0 {
      WithinEmpty<Record>([]);
    } else {
      PromisedLess(script, told, j - 1, n);
      PromiseLess(script, told, j - 1, n);
      var a, b := Promised(script, told, j - 1, n + 1), Promised(script, told, j - 1, n);
      var p, q := Promise(script, told, j - 1, n + 1), Promise(script, told, j - 1, n);
      if q == [] {
        assert a + [] == a && b + [] == b;
      } else {
        WithinBoth(a, b, q[0]);
        assert a + [] == a && q == [q[0]];
      }
    }
  }

  lemma PromiseLess(script: Script, told: seq<bool>, k: nat, n: nat)
    requires k < |script| == |told|
    ensures |Promise(script, told, k, n)| <= 1
    ensures Promise(script, told, k, n + 1) == [] || Promise(script, told, k, n + 1) == Promise(script, told, k, n)
  {
    hide ExposedBy;
    if Exposed(script, k, n) {
      var p, c :| ExposedBy(script, p, k, c) && c < n;
      assert ExposedBy(script, p, k, c) && c < n + 1;
    }
  }

  lemma WithinEmpty<T>(b: seq<T>)
    ensures Within([], b)
  {
  }

  /** The latest event is not exposed yet. */
  lemma NotExposed(script: Script, n: nat)
    ensures !Exposed(script, n, n + 1)
  {
  }

  lemma AttemptedMore(script: Script, log: seq<Record>, i: nat)
    requires i < |script| && Within(log, Attempted(script, i))
    ensures Within(log, Attempted(script, i + 1))
    ensures RecordOf(script[i].0).Some? ==> Within(log + [RecordOf(script[i].0).value], Attempted(script, i + 1))
  {
    hide Within;
    if RecordOf(script[i].0).Some? {
      WithinBoth(log, Attempted(script, i), RecordOf(script[i].0).value);
    } else {
      assert Attempted(script, i) + [] == Attempted(script, i);
    }
  }

  lemma MoreDurable(p: seq<Record>, h: Held, g: Held)
    requires h.durable <= |h.log| && h.durable <= g.durable <= |g.log| && g.log[..h.durable] == h.log[..h.durable]
    requires Within(p, h.log[..h.durable])
    ensures Within(p, g.log[..g.durable])
  {
    hide Within;
    var d := h.durable;
    WithinLonger(p, g.log[..d], g.log[d..g.durable]);
    assert g.log[..d] + g.log[d..g.durable] == g.log[..g.durable];
  }

  lemma TriedKept(script: Script, told: seq<bool>, h: Held, g: Held, i: nat)
    requires i < |script| == |told| && Kept(script, told, h, i) && RecordOf(script[i].0).Some?
    requires var r := RecordOf(script[i].0).value;
             && h.durable <= g.durable <= |g.log| && (g.log == h.log || g.log == h.log + [r])
             && (told[i] ==> g == Held(h.log + [r], |h.log| + 1))
    ensures Kept(script, told, g, i + 1)
  {
    hide Within, Exposed;
    var r, promised := RecordOf(script[i].0).value, Promised(script, told, i, i);
    AttemptedMore(script, h.log, i);
    PromisedSame(script, told, i, i);
    NotExposed(script, i);
    MoreDurable(promised, h, g);
    if told[i] {
      WithinLonger(promised, h.log[..h.durable], h.log[h.durable..]);
      assert h.log[..h.durable] + h.log[h.durable..] == h.log;
      WithinBoth(promised, h.log, r);
      assert g.log[..g.durable] == h.log + [r];
    } else {
      assert promised + [] == promised;
    }
  }

  lemma QuietKept(script: Script, told: seq<bool>, h: Held, g: Held, i: nat)
    requires i < |script| == |told| && Kept(script, told, h, i) && !told[i] && Curtailed(h, g)
    ensures Kept(script, told, g, i + 1)
  {
    hide Within, Exposed;
    var promised := Promised(script, told, i, i);
    PromisedLess(script, told, i, i);
    assert Promised(script, told, i, i + 1) + [] == Promised(script, told, i, i + 1);
    WithinBetween(Promised(script, told, i + 1, i + 1), promised, h.log[..h.durable]);
    MoreDurable(Promised(script, told, i + 1, i + 1), h, g);
    WithinShorter(h.log, Attempted(script, i), |g.log|);
    AttemptedMore(script, g.log, i);
  }

  /** Everything told since the name moved on at `p` is exposed by a power loss at `i`. */
  lemma {:induction false} ExposedSince(script: Script, told: seq<bool>, p: nat, j: nat, i: nat)
    requires p < j <= i < |script| == |told| && Unsettled(script, p) && NoCut(script, p, i) && script[i].0 == PowerCut
    requires forall k | p < k < j && told[k] :: RebootWithin(script, p, k)
    ensures Promised(script, told, j, i + 1) == Promised(script, told, p, i + 1)
    decreases j
  {
    hide NoCut, RebootWithin;
    var k := j - 1;
    if k == p {
      assert RecordOf(script[p].0).None?;
    } else {
      ExposedSince(script, told, p, k, i);
      if told[k] {
        assert ExposedBy(script, p, k, i) && i < i + 1;
      }
    }
    assert Promised(script, told, k, i + 1) + [] == Promised(script, told, k, i + 1);
  }

  /** Nothing is promised where nobody is told. */
  lemma PromisedQuiet(script: Script, told: seq<bool>, i: nat)
    requires i < |script| == |told| && !told[i]
    ensures Promised(script, told, i + 1, i + 1) == Promised(script, told, i, i + 1)
  {
    assert Promised(script, told, i, i + 1) + [] == Promised(script, told, i, i + 1);
  }

  lemma FallenKept(script: Script, told: seq<bool>, h: Held, g: Held, up: bool, p: nat, i: nat)
    requires i < |script| == |told| && Behind(script, told, h, up, p, i)
    requires script[i].0 == PowerCut && !told[i] && Curtailed(h, g)
    ensures Kept(script, told, g, i + 1)
  {
    hide Within, Exposed, NoCut, RebootWithin, Promised, Attempted;
    ExposedSince(script, told, p, i, i);
    PromisedLess(script, told, p, i);
    PromisedQuiet(script, told, i);
    WithinBetween(Promised(script, told, i + 1, i + 1), Promised(script, told, p, i), h.log[..h.durable]);
    MoreDurable(Promised(script, told, i + 1, i + 1), h, g);
    WithinShorter(h.log, Attempted(script, p), |g.log|);
    AttemptedLonger(script, g.log, p, i + 1);
  }

  lemma {:induction false} AttemptedLonger(script: Script, log: seq<Record>, p: nat, i: nat)
    requires p <= i <= |script| && Within(log, Attempted(script, p))
    ensures Within(log, Attempted(script, i))
    decreases i
  {
    if p < i {
      AttemptedLonger(script, log, p, i - 1);
      AttemptedMore(script, log, i - 1);
    }
  }

  lemma BehindStill(script: Script, told: seq<bool>, h: Held, up: bool, up': bool, p: nat, i: nat)
    requires i < |script| == |told| && Behind(script, told, h, up, p, i)
    requires script[i].0 != PowerCut && (told[i] ==> up) && (up' ==> up || script[i].0 == Reboot)
    ensures Behind(script, told, h, up', p, i + 1)
  {
    hide Within, Exposed;
    PromisedSame(script, told, p, i);
  }

  /** The name moves on at `i`. */
  lemma BehindNow(script: Script, told: seq<bool>, h: Held, i: nat)
    requires i < |script| == |told| && Kept(script, told, h, i) && Unsettled(script, i)
    ensures Behind(script, told, h, false, i, i + 1)
  {
    hide Within, Exposed;
    PromisedSame(script, told, i, i);
  }

  lemma StaledStill(script: Script, i: nat)
    requires i < |script| && Staled(script, i) && script[i].0 != PowerCut
    ensures Staled(script, i + 1)
  {
    var p, q :| StaledBy(script, p, q, i);
    assert StaledBy(script, p, q, i + 1);
  }

  lemma StrandedStill(script: Script, i: nat)
    requires Stranded(script, i)
    ensures Stranded(script, i + 1)
  {
    hide StrandedBy;
    var p, q, c :| StrandedBy(script, p, q, c) && c < i;
    assert StrandedBy(script, p, q, c) && c < i + 1;
  }

  lemma StaleCut(script: Script, i: nat)
    requires i < |script| && Staled(script, i) && script[i].0 == PowerCut
    ensures Stranded(script, i + 1)
  {
    hide NoCut, RebootWithin, Unsettled;
    var p, q :| StaledBy(script, p, q, i);
    assert StrandedBy(script, p, q, i) && i < i + 1;
  }

  /** What is behind stays behind until a power loss. */
  lemma PastStill(script: Script, told: seq<bool>, past: set<Held>, up: bool, past': set<Held>, up': bool, i: nat)
    requires i < |script| == |told| && script[i].0 != PowerCut && past' <= past
    requires AllBehind(script, told, past, up, i)
    requires (told[i] ==> up) && (up' ==> up || script[i].0 == Reboot)
    ensures AllBehind(script, told, past', up', i + 1)
  {
    hide Behind;
    var j := i + 1;
    forall h | h in past'
      ensures exists p: nat :: Behind(script, told, h, up', p, j)
    {
      var p: nat :| Behind(script, told, h, up, p, i);
      BehindStill(script, told, h, up, up', p, i);
    }
  }

  /** A snapshot installed over an unsettled name. */
  lemma StaledNow(script: Script, told: seq<bool>, past: set<Held>, i: nat)
    requires i < |script| == |told| && AllBehind(script, told, past, true, i) && past != {} && script[i].0 == Install
    ensures Staled(script, i + 1)
  {
    hide Within, Promised, Attempted;
    var h :| h in past;
    var p: nat :| Behind(script, told, h, true, p, i);
    assert StaledBy(script, p, i, i + 1);
  }

  /** Memory follows the log. */
  lemma TriedEffect<S>(apply: (S, Command) -> Option<S>, initial: S, e: Event, a: Moment<S>, b: Moment<S>)
    requires RecordOf(e).Some? && ApplyLog(apply, initial, a.now.log) == Some(a.memory)
    requires b.now.log == a.now.log || b.now.log == a.now.log + [RecordOf(e).value]
    requires if b.now.log == a.now.log then b.memory == a.memory else Effect(apply, a.memory, e) == Some(b.memory)
    ensures ApplyLog(apply, initial, b.now.log) == Some(b.memory)
  {
    hide ApplyLog, ApplyAll;
    if b.now.log != a.now.log {
      ApplyNext(apply, initial, a.now.log, a.memory, RecordOf(e).value);
      assert e.Submit? ==> CommandsOf(RecordOf(e).value) == e.commands;
    }
  }

  /** The event is no command that is tried, and no power loss. */
  lemma NowKept<S(!new)>(apply: (S, Command) -> Option<S>, initial: S, script: Script, told: seq<bool>, a: Moment<S>,
                         b: Moment<S>, i: nat)
    requires i < |script| == |told| && Kept(script, told, a.now, i) && !a.refused && script[i].0 != PowerCut
    requires a.up ==> ApplyLog(apply, initial, a.now.log) == Some(a.memory)
    requires Moves(apply, initial, a, script[i], told[i], b) && !Offered(apply, a, script[i].0)
    ensures Kept(script, told, b.now, i + 1) && (b.up ==> ApplyLog(apply, initial, b.now.log) == Some(b.memory))
  {
    hide ApplyLog, Offered, Within, Exposed;
    assert a.now.log[..|a.now.log|] == a.now.log;
    assert Curtailed(a.now, b.now);
    QuietKept(script, told, a.now, b.now, i);
  }

  lemma BehindMore<S>(script: Script, told: seq<bool>, a: Moment<S>, i: nat)
    requires i < |script| == |told| && Unsettled(script, i) && !told[i]
    requires Kept(script, told, a.now, i) && AllBehind(script, told, a.past, a.up, i)
    ensures AllBehind(script, told, a.past + {a.now}, false, i + 1)
  {
    hide Behind, Kept;
    PastStill(script, told, a.past, a.up, a.past, false, i);
    BehindNow(script, told, a.now, i);
  }

  /** Any event but a power loss. */
  lemma SaneStep<S(!new)>(apply: (S, Command) -> Option<S>, initial: S, script: Script, told: seq<bool>, a: Moment<S>,
                          b: Moment<S>, i: nat)
    requires i < |script| == |told| && Sane(apply, initial, script, told, a, i)
    requires Moves(apply, initial, a, script[i], told[i], b) && script[i].0 != PowerCut
    ensures Sane(apply, initial, script, told, b, i + 1)
  {
    hide Kept, Behind, AllBehind, Staled, Stranded, ApplyLog, ApplyAll, Storable;
    if a.refused {
      StrandedStill(script, i);
    } else {
      if Offered(apply, a, script[i].0) {
        TriedKept(script, told, a.now, b.now, i);
        if b.up {
          TriedEffect(apply, initial, script[i].0, a, b);
        }
      } else {
        NowKept(apply, initial, script, told, a, b, i);
      }
      if b.past <= a.past {
        PastStill(script, told, a.past, a.up, b.past, b.up, i);
      } else {
        BehindMore(script, told, a, i);
      }
      if a.stale {
        StaledStill(script, i);
      } else if b.stale {
        StaledNow(script, told, a.past, i);
      }
    }
  }

  lemma SaneCut<S(!new)>(apply: (S, Command) -> Option<S>, initial: S, script: Script, told: seq<bool>, a: Moment<S>,
                         b: Moment<S>, i: nat)
    requires i < |script| == |told| && Sane(apply, initial, script, told, a, i)
    requires Moves(apply, initial, a, script[i], told[i], b) && script[i].0 == PowerCut
    ensures Sane(apply, initial, script, told, b, i + 1)
  {
    hide Kept, Behind, Staled, Stranded, ApplyLog, ApplyAll, Storable;
    if a.refused {
      StrandedStill(script, i);
    } else if b.refused {
      StaleCut(script, i);
    } else {
      var h :| h in {a.now} + a.past && Restarts(apply, initial, h, script[i].1, b);
      if h == a.now {
        QuietKept(script, told, h, b.now, i);
      } else {
        var p: nat :| Behind(script, told, h, a.up, p, i);
        FallenKept(script, told, h, b.now, a.up, p, i);
      }
    }
  }

  lemma {:induction false} CourseSane<S(!new)>(apply: (S, Command) -> Option<S>, initial: S, script: Script, told: seq<bool>,
                                               trace: seq<Moment<S>>, i: nat)
    requires Course(apply, initial, script, told, trace) && i <= |script|
    ensures Sane(apply, initial, script, told, trace[i], i)
  {
    hide Moves, Within, Staled, Stranded, Behind;
    if i == 0 {
      NothingLogged(apply, initial);
      WithinEmpty<Record>([]);
      assert trace[0].now.log[..0] == [];
    } else {
      CourseSane(apply, initial, script, told, trace, i - 1);
      hide Sane;
      assert Moves(apply, initial, trace[i - 1], script[i - 1], told[i - 1], trace[i]);
      if script[i - 1].0 == PowerCut {
        SaneCut(apply, initial, script, told, trace[i - 1], trace[i], i - 1);
      } else {
        SaneStep(apply, initial, script, told, trace[i - 1], trace[i], i - 1);
      }
    }
  }

  /** Safety of every course: the log under the journal's name holds every
      attempted record at most once and in order, and every record a client was
      told of, unless a rotation under faults, a restart before it and a power
      loss after it exposed it. A store is refused only after such a rotation,
      a restart, a new snapshot and a power loss. */
  lemma CourseExplained<S(!new)>(apply: (S, Command) -> Option<S>, initial: S, script: Script, told: seq<bool>,
                                 trace: seq<Moment<S>>)
    requires Course(apply, initial, script, told, trace)
    ensures var m := trace[|script|];
            if m.refused then !m.up && Stranded(script, |script|) else Explains(apply, initial, script, told, m)
  {
    hide Moves, Within, Stranded, ApplyLog, AllBehind, Staled;
    CourseSane(apply, initial, script, told, trace, |script|);
    var m, promised := trace[|script|], Promised(script, told, |script|, |script|);
    if !m.refused {
      var h := m.now;
      WithinLonger(promised, h.log[..h.durable], h.log[h.durable..]);
      assert h.log[..h.durable] + h.log[h.durable..] == h.log;
    }
  }

  /** The records clients were told are durable. */
  function Acknowledged(script: Script, told: seq<bool>, i: nat): seq<Record>
    requires i <= |script| == |told|
  {
    if i == 0 then []
    else Acknowledged(script, told, i - 1) +
         if told[i - 1] && RecordOf(script[i - 1].0).Some? then [RecordOf(script[i - 1].0).value] else []
  }

  lemma {:induction false} NothingExposed(script: Script, told: seq<bool>, i: nat, n: nat)
    requires i <= |script| == |told| && Steady(script)
    ensures Promised(script, told, i, n) == Acknowledged(script, told, i)
  {
    if i > 0 {
      NothingExposed(script, told, i - 1, n);
      assert !Exposed(script, i - 1, n);
    }
  }

  /** Without faults in a rotation nothing acknowledged is ever lost, and the
      store is never refused. */
  lemma SteadyKeepsAll<S(!new)>(apply: (S, Command) -> Option<S>, initial: S, script: Script, told: seq<bool>,
                                trace: seq<Moment<S>>)
    requires Course(apply, initial, script, told, trace) && Steady(script)
    ensures !trace[|script|].refused && Within(Acknowledged(script, told, |script|), trace[|script|].now.log)
  {
    hide Moves, Within, ApplyLog;
    CourseExplained(apply, initial, script, told, trace);
    NothingExposed(script, told, |script|, |script|);
  }

  /** Three fault-free events of a save: capture, install, rotate. Whatever a
      power loss could have brought back before, it cannot any more, and every
      record so far is durable. */
  lemma SaveSettles<S(!new)>(apply: (S, Command) -> Option<S>, initial: S, script: Script, told: seq<bool>,
                             trace: seq<Moment<S>>, i: nat, g: Generation)
    requires Course(apply, initial, script, told, trace) && i + 3 <= |script|
    requires script[i..i + 3] == [(Capture(g), false), (Install, false), (Rotate, false)]
    requires trace[i].up && !trace[i].refused && g !in trace[i].drawn
    ensures var m := trace[i + 3];
            && m.up && m.past == {} && !m.stale && m.memory == trace[i].memory
            && m.now == Held(trace[i].now.log, |trace[i].now.log|)
  {
    hide Tries, Restarts;
    assert script[i] == script[i..i + 3][0] && script[i + 1] == script[i..i + 3][1] && script[i + 2] == script[i..i + 3][2];
    assert Moves(apply, initial, trace[i], (Capture(g), false), told[i], trace[i + 1]);
    assert Moves(apply, initial, trace[i + 1], (Install, false), told[i + 1], trace[i + 2]);
    assert Moves(apply, initial, trace[i + 2], (Rotate, false), told[i + 2], trace[i + 3]);
  }

  // ---- Driving the journal -------------------------------------------------

  ghost function View<S(!new)>(wal: Wal<S>, up: bool, refused: bool): Moment<S>
    reads wal
  {
    Moment(Holding(wal.run), wal.held.Values, wal.stale, wal.live, up, refused, wal.pending.Some?, wal.Ready(), wal.drawn)
  }

  /** A command for a store that is up. */
  method Try<S(!new)>(wal: Wal<S>, event: Event, faults: bool) returns (up: bool, told: bool)
    requires wal.Healthy() && (event.Submit? || event.SubmitChecked?)
    modifies wal
    ensures wal.OnDisk() && (up ==> wal.Healthy())
    ensures Moves(wal.apply, wal.initial, old(View(wal, true, false)), (event, faults), told, View(wal, up, false))
  {
    hide Sound, FileOk, Intact, ApplyLog, ApplyAll, Settles, Storable, AllStorable, Frames, Disk.Valid, Apart;
    hide AllDrawn, Unclaimed;
    wal.Owes();
    up, told := true, false;
    match event
    case Submit(commands, sync) =>
      if commands != [] && Storable(AsRecord(commands)) && ApplyAll(wal.apply, wal.live, commands).Some? {
        var status := wal.Commit(commands, sync, faults);
        up, told := status != Died && !wal.poisoned, status == Ok && sync;
        wal.Owes();
      }
    case SubmitChecked(command, sync) =>
      if Storable(Checked(command)) {
        var status, accepted := wal.CommitChecked(command, sync, faults);
        up, told := status != Died && !wal.poisoned, status == Ok && accepted && sync;
        wal.Owes();
      }
  }

  /** A snapshot or a rotation for a store that is up. */
  method Maintain<S(!new)>(wal: Wal<S>, event: Event, faults: bool) returns (up: bool)
    requires wal.Healthy() && (event.Capture? || event.Install? || event.Rotate?)
    modifies wal
    ensures wal.OnDisk() && (up ==> wal.Healthy())
    ensures Moves(wal.apply, wal.initial, old(View(wal, true, false)), (event, faults), false, View(wal, up, false))
  {
    hide Sound, FileOk, Intact, ApplyLog, ApplyAll, Settles, Storable, AllStorable, Frames, Disk.Valid, Apart, Accepted;
    hide AllDrawn, Unclaimed;
    Located(wal.apply, wal.initial, wal.Ledger());
    up := true;
    match event
    case Capture(successor) =>
      if successor !in wal.drawn {
        var ok := wal.CaptureSnapshot(successor, faults);
        Located(wal.apply, wal.initial, wal.Ledger());
      }
    case Install =>
      if wal.pending.Some? {
        SomeValue(wal.held);
        var status := wal.InstallSnapshot(faults);
        up := status != Died;
      }
    case Rotate =>
      if wal.pending.None? && |wal.snapshots| == 1 && wal.snapshots[0].checkpoint.Some? {
        var next := Unused(wal.disk.inodes);
        var status := wal.RotateAfter(wal.snapshots[0].checkpoint.value, next, STAGED, faults);
        up := status == Ok;
      }
  }

  lemma SomeValue<K, V>(m: map<K, V>)
    ensures m != map[] ==> m.Values != {}
  {
    if m != map[] {
      var k :| k in m;
      assert m[k] in m.Values;
    }
  }

  /** The process starts again. */
  method Start<S(!new)>(wal: Wal<S>, faults: bool, ghost refused: bool) returns (up: bool)
    requires if refused then wal.Refusing() else wal.OnDisk()
    modifies wal
    ensures if refused then wal.Refusing() && !up else wal.OnDisk() && (up ==> wal.Healthy())
    ensures wal.held == old(wal.held) && wal.stale == old(wal.stale) && wal.drawn == old(wal.drawn) && wal.pending.None?
    ensures !refused ==> Restarts(wal.apply, wal.initial, old(Holding(wal.run)), faults, View(wal, up, false))
  {
    hide Sound, FileOk, Intact, ApplyLog, Settles, AllStorable, Headed, Refuses;
    wal.NotBoth();
    var status := wal.Recover(faults);
    up := status == Ok;
  }

  /** Power is lost, with any outcome it allows, and the process starts again. */
  method Outage<S(!new)>(wal: Wal<S>, faults: bool, ghost was: bool, ghost refused: bool) returns (up: bool, ghost refused': bool)
    requires if refused then wal.Refusing() else wal.OnDisk()
    modifies wal
    ensures if refused' then wal.Refusing() && !up else wal.OnDisk() && (up ==> wal.Healthy())
    ensures Moves(wal.apply, wal.initial, old(View(wal, was, refused)), (PowerCut, faults), false, View(wal, up, refused'))
  {
    hide Sound, FileOk, Intact, ApplyLog, Settles, AllStorable, Headed, Refuses, PowerLoss, Moves, Restarts;
    ghost var before := View(wal, was, refused);
    wal.NotBoth();
    if wal.OnDisk() {
      Located(wal.apply, wal.initial, wal.Ledger());
    }
    ghost var c := PowerLossPossible(wal.disk);
    SomeValue(wal.held);
    var after: Disk :| PowerLoss(wal.disk, after);
    var j: nat :| j < |wal.snapshots|;
    wal.LosePower(after, j);
    wal.NotBoth();
    refused' := !wal.OnDisk();
    ghost var h := Holding(wal.run);
    up := Start(wal, faults, refused');
    Fell(wal.apply, wal.initial, before, h, faults, View(wal, up, refused'));
  }

  lemma Fell<S(!new)>(apply: (S, Command) -> Option<S>, initial: S, a: Moment<S>, h: Held, faults: bool, b: Moment<S>)
    requires b.past == {} && !b.stale && !b.captured && b.drawn == a.drawn && (a.refused ==> b.refused) && (b.refused ==> !b.up)
    requires b.refused && !a.refused ==> a.stale && a.past != {}
    requires !b.refused ==> h in {a.now} + a.past && Restarts(apply, initial, h, faults, b)
    ensures Moves(apply, initial, a, (PowerCut, faults), false, b)
  {
    hide Restarts;
  }

  lemma Restarted<S(!new)>(apply: (S, Command) -> Option<S>, initial: S, a: Moment<S>, faults: bool, b: Moment<S>)
    requires if a.refused then b.refused && !b.up
             else b == a.(now := b.now, memory := b.memory, up := b.up, captured := false, ready := b.ready) &&
                  Restarts(apply, initial, a.now, faults, b)
    ensures Moves(apply, initial, a, (Reboot, faults), false, b)
  {
  }

  /** A store that is down does nothing. */
  lemma Idle<S(!new)>(apply: (S, Command) -> Option<S>, initial: S, a: Moment<S>, e: (Event, bool))
    requires !a.up && e.0 != Reboot && e.0 != PowerCut
    ensures Moves(apply, initial, a, e, false, a)
  {
  }

  /** Safety over whole runs. For every script the store goes through a course:
      each event does what `Moves` says, from which `CourseExplained` follows. */
  method Drive<S(!new)>(initial: S, apply: (S, Command) -> Option<S>, generation: Generation, script: Script)
    returns (memory: S, up: bool, told: seq<bool>, ghost trace: seq<Moment<S>>)
    ensures Course(apply, initial, script, told, trace)
    ensures var m := trace[|script|];
            && m.up == up && m.memory == memory
            && if m.refused then !up && Stranded(script, |script|) else Explains(apply, initial, script, told, m)
  {
    hide Sound, FileOk, Intact, ApplyLog, Settles, Storable, AllStorable, Frames, Moves, Explains, Stranded, Headed, Refuses;
    var wal := new Wal<S>(initial, apply, generation);
    up, told := true, [];
    ghost var refused := false;
    trace := [View(wal, up, refused)];
    for i := 0 to |script|
      invariant fresh(wal) && wal.initial == initial && wal.apply == apply
      invariant if refused then wal.Refusing() && !up else wal.OnDisk() && (up ==> wal.Healthy())
      invariant |told| == i && |trace| == i + 1 && trace[i] == View(wal, up, refused)
      invariant trace[0] == Moment(Held([], 0), {}, false, initial, true, false, false, false, {generation})
      invariant forall k | 0 <= k < i :: Moves(apply, initial, trace[k], script[k], told[k], trace[k + 1])
    {
      var spoke := false;
      var (event, faults) := script[i];
      if event.PowerCut? {
        up, refused := Outage(wal, faults, up, refused);
      } else if event.Reboot? {
        up := Start(wal, faults, refused);
        Restarted(apply, initial, trace[i], faults, View(wal, up, refused));
      } else if !up {
        Idle(apply, initial, trace[i], script[i]);
      } else if event.Submit? || event.SubmitChecked? {
        up, spoke := Try(wal, event, faults);
      } else {
        up := Maintain(wal, event, faults);
      }
      told := told + [spoke];
      trace := trace + [View(wal, up, refused)];
    }
    memory := wal.live;
    CourseExplained(apply, initial, script, told, trace);
  }
}
