/** The ring of encryption keys and its lifecycle. */
module Keyring {
  import opened Bytes
  import opened EntryCodec
  import opened Envelope
  import opened ValueCrypto
  import opened KeyFiles

  /** `collect_candidate_seals`: no duplicates, in order of preference. */
  method CollectCandidates(c: Config, f: Folder) returns (r: seq<Seal>)
    ensures forall s :: s in r <==> IsCandidate(c, f, s)
    ensures forall i, j | 0 <= i < j < |r| :: r[i] != r[j]
    ensures c.env.Some? && r != [] ==> r[0] == c.env.value
  {
    r := if c.env.Some? then [c.env.value] else [];
    var i := 0;
    while i < |c.previous|
      invariant i <= |c.previous|
      invariant forall s :: s in r <==> c.env == Some(s) || s in c.previous[..i]
      invariant forall j, k | 0 <= j < k < |r| :: r[j] != r[k]
      invariant c.env.Some? ==> |r| > 0 && r[0] == c.env.value
    {
      assert c.previous[..i + 1] == c.previous[..i] + [c.previous[i]];
      if c.previous[i] !in r {
        r := r + [c.previous[i]];
      }
      i := i + 1;
    }
    assert c.previous[..i] == c.previous;
    if c.sealPath && f.seal.Some? {
      match f.seal.value {
        case Torn => r := [];
        case Key(s, _) =>
          if s !in r {
            r := r + [s];
          }
      }
    }
  }

  /** `load_state`: try the candidates in turn. */
  method LoadState(c: Config, f: Folder) returns (r: Option<State>, used: Seal)
    requires HasState(c, f)
    ensures r.Some? <==> Unlocks(c, f)
    ensures r.Some? ==> r.value == f.state.value.state && used == f.state.value.seal
  {
    hide IsCandidate, StateOk;
    used := [];
    var candidates := CollectCandidates(c, f);
    var file, i := f.state.value, 0;
    while i < |candidates|
      invariant i <= |candidates| && file.seal !in candidates[..i]
    {
      if candidates[i] == file.seal {
        assert file.seal in candidates;
        return (if StateOk(file.state) then Some(file.state) else None), file.seal;
      }
      i := i + 1;
    }
    assert candidates[..i] == candidates;
    return None, used;
  }

  // ---- Transitions -------------------------------------------------------

  function Initialized(id: Text, secret: bytes): State {
    State(Some(id), map[id := NetworkKey(secret, false)])
  }

  /** The new key becomes active; every other key can only decrypt. */
  function Rotated(s: State, id: Text, secret: bytes): (r: State)
    ensures r.keys.Keys == s.keys.Keys + {id}
    ensures forall k <- r.keys :: if k == id then !r.keys[k].decryptOnly else r.keys[k].decryptOnly
    ensures forall k <- s.keys :: k != id ==> r.keys[k].secret == s.keys[k].secret
  {
    State(Some(id), (map k | k in s.keys :: s.keys[k].(decryptOnly := true))[id := NetworkKey(secret, false)])
  }

  function Retired(s: State, id: Text): State {
    s.(keys := s.keys - {id})
  }

  datatype Persisted = Done | NotInstalled | Installed | Died

  datatype Status = Ok | Failed | Crashed

  /** What becomes of a file operation. One that fails or dies has no effect. */
  datatype Fate = Fine | Fails | Dies

  /** The fate of every file operation and every seal that would be drawn, by
      the number of the operation. */
  datatype Oracle = Oracle(faults: nat -> Fate, draws: nat -> Seal)

  // ---- What the operations do to the files -------------------------------

  datatype Sealing = Sealing(w: World, seal: Option<Seal>, died: bool)

  function NoSeal(w: World, fate: Fate): Sealing {
    Sealing(w, None, fate == Dies)
  }

  /** `write_new_seal_file`: create, fill, sync the file, sync its directory. */
  function CreateRun(c: Config, o: Oracle, w: World): Sealing
    requires |w.folders| > 0
  {
    var created := w.Tick().Enter(w.Visible().(seal := Some(Torn)));
    var filled := created.Tick().Refill(Key(o.draws(w.clock), false));
    var synced := filled.Tick().Refill(Key(o.draws(w.clock), true));
    if o.faults(w.clock) != Fine then NoSeal(w.Tick(), o.faults(w.clock))
    else if o.faults(w.clock + 1) != Fine then NoSeal(created.Tick(), o.faults(w.clock + 1))
    else if o.faults(w.clock + 2) != Fine then NoSeal(filled.Tick(), o.faults(w.clock + 2))
    else if o.faults(w.clock + 3) != Fine then NoSeal(synced.Tick(), o.faults(w.clock + 3))
    else Sealing(synced.Tick().SyncSeals(c), Some(o.draws(w.clock)), false)
  }

  /** `current_seal`: the environment's, or the seal file's, created on first use. */
  function SealRun(c: Config, o: Oracle, w: World): Sealing
    requires |w.folders| > 0
  {
    if c.env.Some? then Sealing(w, c.env, false)
    else if !c.sealPath then Sealing(w, None, false)
    else match w.Visible().seal
      case None => CreateRun(c, o, w)
      case Some(Torn) => Sealing(w, None, false)
      case Some(Key(s, _)) => Sealing(w, Some(s), false)
  }

  datatype Persisting = Persisting(w: World, r: Persisted)

  /** Stage and sync the sealed state, rename it into place, sync the directory. */
  function InstallRun(c: Config, o: Oracle, w: World, seal: Seal, candidate: State): Persisting
    requires |w.folders| > 0
  {
    var staged := w.Tick();
    var renamed := staged.Tick().Enter(w.Visible().(state := Some(StateFile(seal, candidate))));
    if o.faults(w.clock) != Fine then Persisting(staged, if o.faults(w.clock) == Dies then Died else NotInstalled)
    else if o.faults(w.clock + 1) != Fine then
      Persisting(staged.Tick(), if o.faults(w.clock + 1) == Dies then Died else NotInstalled)
    else if o.faults(w.clock + 2) != Fine then
      Persisting(renamed.Tick(), if o.faults(w.clock + 2) == Dies then Died else Installed)
    else Persisting(renamed.Tick().SyncStates(c), Done)
  }

  /** `persist_state`. */
  function PersistRun(c: Config, o: Oracle, w: World, candidate: State): Persisting
    requires |w.folders| > 0
  {
    if !c.statePath then Persisting(w, NotInstalled)
    else
      SealLength(c, o, w);
      var s := SealRun(c, o, w);
      if s.seal.None? then Persisting(s.w, if s.died then Died else NotInstalled)
      else InstallRun(c, o, s.w, s.seal.value, candidate)
  }

  lemma SealLength(c: Config, o: Oracle, w: World)
    requires |w.folders| > 0
    ensures |SealRun(c, o, w).w.folders| > 0
  {
  }

  /** The files, the live keys, and what was reported. */
  datatype Outcome = Outcome(w: World, inner: State, status: Status)

  /** `commit_state`: the live keys follow the installed file. */
  function CommitRun(c: Config, o: Oracle, w: World, inner: State, candidate: State): Outcome
    requires |w.folders| > 0
  {
    var p := PersistRun(c, o, w, candidate);
    match p.r
    case Died => Outcome(p.w, inner, Crashed)
    case NotInstalled => Outcome(p.w, inner, Failed)
    case Installed => Outcome(p.w, candidate, Failed)
    case Done => Outcome(p.w, candidate, Ok)
  }

  function InitRun(c: Config, o: Oracle, w: World, inner: State, id: Text, secret: bytes): Outcome
    requires |w.folders| > 0
  {
    if inner.active.Some? then Outcome(w, inner, Ok)
    else if !KeyIdOk(id) then Outcome(w, inner, Failed)
    else CommitRun(c, o, w, inner, Initialized(id, secret))
  }

  function RotateRun(c: Config, o: Oracle, w: World, inner: State, id: Text, secret: bytes): Outcome
    requires |w.folders| > 0
  {
    if inner.keys == map[] then InitRun(c, o, w, inner, id, secret)
    else if !KeyIdOk(id) || id in inner.keys then Outcome(w, inner, Failed)
    else CommitRun(c, o, w, inner, Rotated(inner, id, secret))
  }

  function RetireRun(c: Config, o: Oracle, w: World, inner: State, id: Text): Outcome
    requires |w.folders| > 0
  {
    if inner.active == Some(id) || id !in inner.keys then Outcome(w, inner, Failed)
    else CommitRun(c, o, w, inner, Retired(inner, id))
  }

  /** Load the state file and re-seal it unless it is under the current seal. */
  function UnsealRun(c: Config, o: Oracle, w: World, inner: State): Outcome
    requires |w.folders| > 0 && HasState(c, w.Visible())
  {
    var file := w.Visible().state.value;
    if !Unlocks(c, w.Visible()) then Outcome(w, inner, Failed)
    else
      SealLength(c, o, w);
      var s := SealRun(c, o, w);
      if s.seal.None? then Outcome(s.w, inner, if s.died then Crashed else Failed)
      else if file.seal == s.seal.value then Outcome(s.w, file.state, Ok)
      else
        var p := PersistRun(c, o, s.w, file.state);
        Outcome(p.w, file.state, if p.r == Done then Ok else if p.r == Died then Crashed else Failed)
  }

  /** Remove a seal file the environment's seal has replaced. A failure is ignored. */
  function DropRun(c: Config, o: Oracle, w: World, inner: State): Outcome
    requires |w.folders| > 0
  {
    if !(c.env.Some? && c.sealPath && w.Visible().seal.Some?) then Outcome(w, inner, Ok)
    else match o.faults(w.clock)
      case Dies => Outcome(w.Tick(), inner, Crashed)
      case Fails => Outcome(w.Tick(), inner, Ok)
      case Fine => Outcome(w.Tick().Enter(w.Visible().(seal := None)), inner, Ok)
  }

  /** The keys startup begins with. */
  function LoadRun(c: Config, o: Oracle, w: World, inner: State): Outcome
    requires |w.folders| > 0
  {
    if HasState(c, w.Visible()) then UnsealRun(c, o, w, inner)
    else if StateOk(c.bootstrap) then Outcome(w, c.bootstrap, Ok)
    else Outcome(w, inner, Failed)
  }

  /** Startup: unseal with any accepted seal, converge on the current one, make
      a first key if asked to, then drop a seal file the environment has replaced. */
  function OpenRun(c: Config, o: Oracle, w: World, inner: State, id: Text, secret: bytes): Outcome
    requires |w.folders| > 0
  {
    var a := LoadRun(c, o, w, inner);
    LoadLength(c, o, w, inner);
    if a.status != Ok then a
    else
      var b := if c.autoInit && a.inner.active.None? then InitRun(c, o, a.w, a.inner, id, secret) else a;
      InitLength(c, o, a.w, a.inner, id, secret);
      if b.status != Ok then b else DropRun(c, o, b.w, b.inner)
  }

  lemma PersistLength(c: Config, o: Oracle, w: World, candidate: State)
    requires |w.folders| > 0
    ensures |PersistRun(c, o, w, candidate).w.folders| > 0
  {
    hide SealRun;
    SealLength(c, o, w);
  }

  lemma LoadLength(c: Config, o: Oracle, w: World, inner: State)
    requires |w.folders| > 0
    ensures |LoadRun(c, o, w, inner).w.folders| > 0
  {
    hide SealRun, PersistRun;
    SealLength(c, o, w);
    if HasState(c, w.Visible()) {
      PersistLength(c, o, SealRun(c, o, w).w, w.Visible().state.value.state);
    }
  }

  lemma InitLength(c: Config, o: Oracle, w: World, inner: State, id: Text, secret: bytes)
    requires |w.folders| > 0
    ensures |InitRun(c, o, w, inner, id, secret).w.folders| > 0
  {
    hide PersistRun;
    PersistLength(c, o, w, Initialized(id, secret));
  }

  // ---- What holds after each of them -------------------------------------

  /** The live keys are what a restart would load. */
  predicate AlignedWith(c: Config, w: World, inner: State) {
    |w.folders| > 0 && inner == Loaded(c, w.Visible()) && StateOk(inner)
  }

  /** The state file is under the current seal. */
  predicate Converged(c: Config, w: World) {
    |w.folders| > 0 && (HasState(c, w.Visible()) ==> IsCurrent(c, w.Visible(), w.Visible().state.value.seal))
  }

  /** No file operation from here on fails. */
  ghost predicate Faultless(o: Oracle, w: World) {
    forall n: nat :: w.clock <= n ==> o.faults(n) == Fine
  }

  /** There is a seal to write with, or one can be made. */
  predicate Writable(c: Config, f: Folder) {
    c.env.Some? || (c.sealPath && f.seal != Some(Torn))
  }

  lemma CreatedValid(c: Config, o: Oracle, w: World)
    requires w.Valid(c) && c.env.None? && w.Visible().seal.None?
    ensures CreateRun(c, o, w).w.Valid(c)
  {
  }

  /** While only the process may end, what is visible is all that counts. */
  lemma VisibleSafe(c: Config, w: World)
    requires w.Valid(c)
    ensures Safe(c, w, NoLoss) <==> Unlocks(c, w.Visible()) && !Hazard(c, w.Visible(), NoLoss)
  {
    hide Unlocks, Hazard;
    assert Leaves(c, w, NoLoss, w.Visible());
  }

  /** Outside a hazard a seal file is created only while no state is there and
      only the process may end. */
  lemma CreateSafe(c: Config, o: Oracle, w: World, loss: Loss)
    requires Safe(c, w, loss) && Fresh(c, w.Visible()) && c.env.None? && c.sealPath && w.Visible().seal.None?
    ensures Safe(c, CreateRun(c, o, w).w, loss)
  {
    hide StateOk;
    VisibleLeft(c, w, loss);
    CreatedValid(c, o, w);
    VisibleSafe(c, CreateRun(c, o, w).w);
  }

  lemma SealFacts(c: Config, o: Oracle, w: World, loss: Loss)
    requires w.Valid(c)
    ensures var r := SealRun(c, o, w);
            && r.w.Valid(c) && r.w.clock >= w.clock && r.w.Visible().state == w.Visible().state
            && (r.seal.Some? ==> !r.died && IsCurrent(c, r.w.Visible(), r.seal.value))
            && (Safe(c, w, loss) && Fresh(c, w.Visible()) ==> Safe(c, r.w, loss))
            && (Converged(c, w) ==> Converged(c, r.w))
            && (w.Visible().seal.Some? ==> r.w == w)
            && (Faultless(o, w) ==> !r.died && (r.seal.Some? <==> Writable(c, w.Visible())))
  {
    hide Unlocks, Hazard, Safe, StateOk;
    if c.env.None? && c.sealPath && w.Visible().seal.None? {
      CreatedValid(c, o, w);
      if Safe(c, w, loss) && Fresh(c, w.Visible()) {
        CreateSafe(c, o, w, loss);
      }
    }
  }

  lemma InstallFacts(c: Config, o: Oracle, w: World, seal: Seal, candidate: State, loss: Loss)
    requires w.Valid(c) && c.statePath && IsCurrent(c, w.Visible(), seal) && StateOk(candidate)
    ensures var p := InstallRun(c, o, w, seal, candidate); var after := w.Visible().(state := Some(StateFile(seal, candidate)));
            && p.w.Valid(c) && p.w.clock >= w.clock && (p.w.Visible() == w.Visible() || p.w.Visible() == after)
            && (p.r == NotInstalled ==> p.w.Visible() == w.Visible())
            && (p.r == Done || p.r == Installed ==> p.w.Visible() == after)
            && (Safe(c, w, loss) && Fresh(c, w.Visible()) ==> Safe(c, p.w, loss))
            && (p.r == Done ==> p.w.Durable())
            && (Faultless(o, w) ==> p.r == Done)
  {
    hide Unlocks, Hazard, Safe, StateOk, IsCurrent;
    if Safe(c, w, loss) && Fresh(c, w.Visible()) {
      InstallSafe(c, o, w, seal, candidate, loss);
    }
  }

  lemma InstallSafe(c: Config, o: Oracle, w: World, seal: Seal, candidate: State, loss: Loss)
    requires Safe(c, w, loss) && IsCurrent(c, w.Visible(), seal) && StateOk(candidate) && Fresh(c, w.Visible())
    ensures Safe(c, InstallRun(c, o, w, seal, candidate).w, loss)
  {
    hide Unlocks, Hazard, Safe, StateOk, IsCurrent, Fresh;
    TickSafe(c, w, loss);
    TickSafe(c, w.Tick(), loss);
    var renamed := w.Tick().Tick().Enter(w.Visible().(state := Some(StateFile(seal, candidate))));
    StateSafe(c, w.Tick().Tick(), loss, seal, candidate);
    TickSafe(c, renamed, loss);
    SyncSafe(c, renamed.Tick(), loss);
  }

  lemma PersistFacts(c: Config, o: Oracle, w: World, candidate: State, loss: Loss)
    requires w.Valid(c) && StateOk(Loaded(c, w.Visible())) && StateOk(candidate)
    ensures var p := PersistRun(c, o, w, candidate);
            && p.w.Valid(c) && p.w.clock >= w.clock && (Safe(c, w, loss) ==> Safe(c, p.w, loss))
            && (p.r == NotInstalled ==> p.w.Visible().state == w.Visible().state)
            && (p.r == Done || p.r == Installed ==>
                  Converged(c, p.w) && HasState(c, p.w.Visible()) && p.w.Visible().state.value.state == candidate)
            && (Converged(c, w) ==> Converged(c, p.w))
            && (w.Visible().seal.Some? ==> p.w.Visible().seal == w.Visible().seal)
            && (p.r == Died ==> p.w.Visible().state == w.Visible().state || Loaded(c, p.w.Visible()) == candidate)
            && (HasState(c, w.Visible()) ==> HasState(c, p.w.Visible())) && (p.r == Done ==> p.w.Durable())
            && (Faultless(o, w) ==>
                  (p.r == Done || p.r == NotInstalled) && (p.r == Done <==> c.statePath && Writable(c, w.Visible())))
  {
    hide Unlocks, Hazard, Safe, StateOk, SealRun, InstallRun;
    if c.statePath {
      SealFacts(c, o, w, loss);
      var s := SealRun(c, o, w);
      if s.seal.Some? {
        InstallFacts(c, o, s.w, s.seal.value, candidate, loss);
      }
    }
  }

  lemma CommitFacts(c: Config, o: Oracle, w: World, inner: State, candidate: State, loss: Loss)
    requires w.Valid(c) && AlignedWith(c, w, inner) && StateOk(candidate)
    ensures var r := CommitRun(c, o, w, inner, candidate);
            && r.w.Valid(c) && r.w.clock >= w.clock && (Safe(c, w, loss) ==> Safe(c, r.w, loss))
            && (Converged(c, w) ==> Converged(c, r.w))
            && (w.Visible().seal.Some? ==> r.w.Visible().seal == w.Visible().seal)
            && (r.status != Crashed ==> AlignedWith(c, r.w, r.inner) && (r.inner == inner || r.inner == candidate))
            && (r.status == Crashed ==>
                  r.inner == inner && (Loaded(c, r.w.Visible()) == inner || Loaded(c, r.w.Visible()) == candidate))
            && (r.status == Ok ==> r.inner == candidate && r.w.Durable())
            && (Faultless(o, w) ==> r.status == if c.statePath && Writable(c, w.Visible()) then Ok else Failed)
  {
    hide Unlocks, Hazard, Safe, StateOk, PersistRun;
    PersistFacts(c, o, w, candidate, loss);
  }

  /** What every change of the keys keeps: the live keys are those of the file,
      before or after the change. */
  ghost predicate Follows(c: Config, w: World, inner: State, r: Outcome, candidate: State, loss: Loss)
    requires w.Valid(c)
  {
    && r.w.Valid(c) && r.w.clock >= w.clock && (Safe(c, w, loss) ==> Safe(c, r.w, loss))
    && (Converged(c, w) ==> Converged(c, r.w))
    && (w.Visible().seal.Some? ==> r.w.Visible().seal == w.Visible().seal)
    && (r.status != Crashed ==> AlignedWith(c, r.w, r.inner) && (r.inner == inner || r.inner == candidate))
    && (r.status == Crashed ==>
          r.inner == inner && (Loaded(c, r.w.Visible()) == inner || Loaded(c, r.w.Visible()) == candidate))
  }

  lemma InitFacts(c: Config, o: Oracle, w: World, inner: State, id: Text, secret: bytes, loss: Loss)
    requires w.Valid(c) && AlignedWith(c, w, inner)
    ensures var r := InitRun(c, o, w, inner, id, secret);
            && Follows(c, w, inner, r, Initialized(id, secret), loss)
            && (r.status == Ok ==> r.inner == if inner.active.Some? then inner else Initialized(id, secret))
            && (r.inner != inner || r.status == Crashed ==> inner.active.None? && KeyIdOk(id))
            && (Faultless(o, w) ==>
                  r.status == if inner.active.Some? || (KeyIdOk(id) && c.statePath && Writable(c, w.Visible())) then Ok else Failed)
  {
    hide KeyIdOk, Utf8, CommitRun, Safe, Converged;
    if inner.active.None? && KeyIdOk(id) {
      CommitFacts(c, o, w, inner, Initialized(id, secret), loss);
    }
  }

  lemma RotateFacts(c: Config, o: Oracle, w: World, inner: State, id: Text, secret: bytes, loss: Loss)
    requires w.Valid(c) && AlignedWith(c, w, inner)
    ensures var r := RotateRun(c, o, w, inner, id, secret);
            && Follows(c, w, inner, r, Rotated(inner, id, secret), loss)
            && (r.status == Ok ==> r.inner == Rotated(inner, id, secret) || inner.keys == map[])
            && (r.inner != inner || r.status == Crashed ==> id !in inner.keys && KeyIdOk(id))
            && (Faultless(o, w) ==> r.status != Crashed)
  {
    hide KeyIdOk, Utf8, CommitRun, InitRun, Safe, Converged;
    if inner.keys == map[] {
      EmptyRotation(inner, id, secret);
      InitFacts(c, o, w, inner, id, secret, loss);
    } else if KeyIdOk(id) && id !in inner.keys {
      RotatedOk(inner, id, secret);
      CommitFacts(c, o, w, inner, Rotated(inner, id, secret), loss);
    }
  }

  lemma RetireFacts(c: Config, o: Oracle, w: World, inner: State, id: Text, loss: Loss)
    requires w.Valid(c) && AlignedWith(c, w, inner)
    ensures var r := RetireRun(c, o, w, inner, id);
            && Follows(c, w, inner, r, Retired(inner, id), loss)
            && (r.status == Ok ==> r.inner == Retired(inner, id))
            && (inner.active == Some(id) || id !in inner.keys ==> r.status == Failed && r.inner == inner)
            && (Faultless(o, w) ==> r.status != Crashed)
  {
    hide KeyIdOk, Utf8, CommitRun, Safe, Converged;
    if inner.active != Some(id) && id in inner.keys {
      CommitFacts(c, o, w, inner, Retired(inner, id), loss);
    }
  }

  lemma UnsealFacts(c: Config, o: Oracle, w: World, inner: State, loss: Loss)
    requires w.Valid(c) && HasState(c, w.Visible())
    ensures var r := UnsealRun(c, o, w, inner);
            && r.w.Valid(c) && r.w.clock >= w.clock && (Safe(c, w, loss) ==> Safe(c, r.w, loss))
            && Loaded(c, r.w.Visible()) == Loaded(c, w.Visible()) && HasState(c, r.w.Visible())
            && (w.Visible().seal.Some? ==> r.w.Visible().seal == w.Visible().seal)
            && (r.status == Ok ==> AlignedWith(c, r.w, r.inner) && Converged(c, r.w))
            && (Faultless(o, w) && Unlocks(c, w.Visible()) && Writable(c, w.Visible()) ==> r.status == Ok)
  {
    hide KeyIdOk, Utf8, SealRun, PersistRun, Safe, IsCandidate, StateOk;
    if Unlocks(c, w.Visible()) {
      SealFacts(c, o, w, loss);
      var s := SealRun(c, o, w);
      if s.seal.Some? && w.Visible().state.value.seal != s.seal.value {
        PersistFacts(c, o, s.w, w.Visible().state.value.state, loss);
        SealKept(c, o, w);
      }
    }
  }

  /** With a seal found, there is one to write with. */
  lemma SealKept(c: Config, o: Oracle, w: World)
    requires w.Valid(c) && SealRun(c, o, w).seal.Some?
    ensures |SealRun(c, o, w).w.folders| > 0 && Writable(c, SealRun(c, o, w).w.Visible())
  {
  }

  lemma DropFacts(c: Config, o: Oracle, w: World, inner: State, loss: Loss)
    requires w.Valid(c) && AlignedWith(c, w, inner) && Converged(c, w)
    ensures var r := DropRun(c, o, w, inner);
            && r.w.Valid(c) && r.w.clock >= w.clock && r.inner == inner && (Safe(c, w, loss) ==> Safe(c, r.w, loss))
            && AlignedWith(c, r.w, r.inner) && Converged(c, r.w) && r.w.Visible().state == w.Visible().state
            && (w.Visible().seal.Some? && r.w.Visible().seal.None? ==> c.env.Some?)
            && (r.status == Ok || r.status == Crashed) && (Faultless(o, w) ==> r.status == Ok)
  {
    hide StateOk, Safe;
    if Safe(c, w, loss) {
      TickSafe(c, w, loss);
      if c.env.Some? {
        DropSafe(c, w.Tick(), loss);
      }
    }
  }

  /** Nothing but a fault can keep startup from succeeding. */
  predicate Startable(c: Config, f: Folder, id: Text) {
    && StateOk(Loaded(c, f)) && (HasState(c, f) ==> Writable(c, f))
    && (c.autoInit && Loaded(c, f).active.None? ==> KeyIdOk(id) && c.statePath && Writable(c, f))
  }

  lemma LoadFacts(c: Config, o: Oracle, w: World, inner: State, loss: Loss)
    requires w.Valid(c)
    ensures var r := LoadRun(c, o, w, inner);
            && r.w.Valid(c) && r.w.clock >= w.clock && (Safe(c, w, loss) ==> Safe(c, r.w, loss))
            && Loaded(c, r.w.Visible()) == Loaded(c, w.Visible())
            && (w.Visible().seal.Some? ==> r.w.Visible().seal == w.Visible().seal)
            && (r.status == Ok ==> AlignedWith(c, r.w, r.inner) && Converged(c, r.w))
            && (Faultless(o, w) && Unlocks(c, w.Visible()) && StateOk(Loaded(c, w.Visible())) &&
                (HasState(c, w.Visible()) ==> Writable(c, w.Visible())) ==>
                  r.status == Ok && (Writable(c, w.Visible()) ==> Writable(c, r.w.Visible())))
  {
    hide Safe, UnsealRun, StateOk;
    if HasState(c, w.Visible()) {
      UnsealFacts(c, o, w, inner, loss);
    }
  }

  lemma OpenFacts(c: Config, o: Oracle, w: World, inner: State, id: Text, secret: bytes, loss: Loss)
    requires w.Valid(c)
    ensures var r := OpenRun(c, o, w, inner, id, secret);
            && r.w.Valid(c) && r.w.clock >= w.clock && (Safe(c, w, loss) ==> Safe(c, r.w, loss))
            && (r.status == Ok ==> AlignedWith(c, r.w, r.inner) && Converged(c, r.w))
            && (Loaded(c, r.w.Visible()) == Loaded(c, w.Visible()) ||
                (c.autoInit && Loaded(c, w.Visible()).active.None? && Loaded(c, r.w.Visible()) == Initialized(id, secret)))
            && (w.Visible().seal.Some? && r.w.Visible().seal.None? ==>
                  c.env.Some? && (HasState(c, r.w.Visible()) ==> r.w.Visible().state.value.seal == c.env.value))
            && (Faultless(o, w) && Unlocks(c, w.Visible()) && Startable(c, w.Visible(), id) ==> r.status == Ok)
  {
    hide Safe, StateOk, KeyIdOk, LoadRun, InitRun, DropRun;
    LoadFacts(c, o, w, inner, loss);
    var a := LoadRun(c, o, w, inner);
    if a.status == Ok {
      InitFacts(c, o, a.w, a.inner, id, secret, loss);
      var b := if c.autoInit && a.inner.active.None? then InitRun(c, o, a.w, a.inner, id, secret) else a;
      if b.status == Ok {
        DropFacts(c, o, b.w, b.inner, loss);
      }
    }
  }

  lemma RotatedOk(s: State, id: Text, secret: bytes)
    requires StateOk(s) && KeyIdOk(id)
    ensures StateOk(Rotated(s, id, secret))
  {
    hide KeyIdOk, Utf8;
  }

  lemma EmptyRotation(s: State, id: Text, secret: bytes)
    requires s.keys == map[]
    ensures Rotated(s, id, secret) == Initialized(id, secret)
  {
    hide Utf8;
  }

  // ---- The ring ----------------------------------------------------------

  class EncryptionKeyring {
    const config: Config

    /** The fate of every file operation, and what a crash may take. */
    const oracle: Oracle
    const loss: Loss

    /** The files the ring was created over. */
    const first: Folder

    /** The live keys. */
    var inner: State

    var world: World

    constructor (config: Config, folder: Folder, oracle: Oracle, loss: Loss)
      ensures this.config == config && this.oracle == oracle && this.loss == loss && first == folder
      ensures world == Start(folder, 0) && world.Valid(config)
    {
      this.config, this.oracle, this.loss, first := config, oracle, loss, folder;
      inner, world := State(None, map[]), Start(folder, 0);
    }

    function Visible(): Folder
      requires |world.folders| > 0
      reads this`world
    {
      world.Visible()
    }

    /** No crash now or later locks the state out. */
    ghost predicate Openable()
      reads this`world
      ensures Openable() ==> world.Valid(config)
    {
      Safe(config, world, loss)
    }

    /** The live keys are what a restart would load. */
    ghost predicate Aligned()
      reads this`world, this`inner
    {
      AlignedWith(config, world, inner)
    }

    /** The fate of the next file operation. */
    method Next() returns (fate: Fate)
      modifies this`world
      ensures fate == oracle.faults(old(world.clock)) && world == old(world).Tick()
    {
      fate := oracle.faults(world.clock);
      world := world.Tick();
    }

    method CurrentSeal() returns (seal: Option<Seal>, died: bool)
      requires world.Valid(config)
      modifies this`world
      ensures Sealing(world, seal, died) == SealRun(config, oracle, old(world)) && world.Valid(config)
      ensures seal.Some? ==> IsCurrent(config, Visible(), seal.value)
      ensures old(Openable()) && Fresh(config, old(Visible())) ==> Openable()
    {
      hide Unlocks, Hazard, Safe, StateOk, IsCurrent;
      SealFacts(config, oracle, world, loss);
      seal, died := None, false;
      if config.env.Some? {
        return config.env, false;
      }
      if !config.sealPath {
        return;
      }
      var f := Visible();
      if f.seal.Some? {
        match f.seal.value {
          case Torn => return;
          case Key(s, _) => return Some(s), false;
        }
      }
      var s := oracle.draws(world.clock);
      var fate := Next();
      if fate != Fine {
        return None, fate == Dies;
      }
      world := world.Enter(f.(seal := Some(Torn)));
      fate := Next();
      if fate != Fine {
        return None, fate == Dies;
      }
      world := world.Refill(Key(s, false));
      fate := Next();
      if fate != Fine {
        return None, fate == Dies;
      }
      world := world.Refill(Key(s, true));
      fate := Next();
      if fate != Fine {
        return None, fate == Dies;
      }
      world := world.SyncSeals(config);
      return Some(s), false;
    }

    /** `persist_state`: seal, stage, rename, sync the directory. The rename is
        the commit point. */
    method PersistState(candidate: State) returns (r: Persisted)
      requires world.Valid(config) && StateOk(Loaded(config, Visible())) && StateOk(candidate)
      modifies this`world
      ensures Persisting(world, r) == PersistRun(config, oracle, old(world), candidate) && world.Valid(config)
      ensures old(Openable()) ==> Openable()
      ensures r == NotInstalled ==> Visible().state == old(Visible().state)
      ensures r == Done || r == Installed ==>
                Converged(config, world) && HasState(config, Visible()) && Visible().state.value.state == candidate
      ensures r == Done ==> world.Durable()
    {
      hide Unlocks, Hazard, Safe, StateOk, SealRun, Converged;
      PersistFacts(config, oracle, world, candidate, loss);
      if !config.statePath {
        return NotInstalled;
      }
      var seal, died := CurrentSeal();
      if seal.None? {
        return if died then Died else NotInstalled;
      }
      var fate := Next();
      if fate != Fine {
        return if fate == Dies then Died else NotInstalled;
      }
      fate := Next();
      if fate != Fine {
        return if fate == Dies then Died else NotInstalled;
      }
      world := world.Enter(Visible().(state := Some(StateFile(seal.value, candidate))));
      fate := Next();
      if fate != Fine {
        return if fate == Dies then Died else Installed;
      }
      world := world.SyncStates(config);
      return Done;
    }

    /** `commit_state`: the live keys follow the installed file. */
    method CommitState(candidate: State) returns (status: Status)
      requires world.Valid(config) && Aligned() && StateOk(candidate)
      modifies this`world, this`inner
      ensures Outcome(world, inner, status) == CommitRun(config, oracle, old(world), old(inner), candidate)
      ensures Follows(config, old(world), old(inner), Outcome(world, inner, status), candidate, loss)
      ensures status == Ok ==> inner == candidate && world.Durable()
    {
      hide StateOk, Safe, PersistRun, Converged;
      CommitFacts(config, oracle, world, inner, candidate, loss);
      var r := PersistState(candidate);
      match r {
        case Died => return Crashed;
        case NotInstalled => return Failed;
        case Installed =>
          inner := candidate;
          return Failed;
        case Done =>
          inner := candidate;
          return Ok;
      }
    }

    method Init(id: Text, secret: bytes) returns (status: Status)
      requires world.Valid(config) && Aligned()
      modifies this`world, this`inner
      ensures Outcome(world, inner, status) == InitRun(config, oracle, old(world), old(inner), id, secret)
      ensures Follows(config, old(world), old(inner), Outcome(world, inner, status), Initialized(id, secret), loss)
      ensures status == Ok ==> inner == (if old(inner).active.Some? then old(inner) else Initialized(id, secret))
      ensures inner != old(inner) || status == Crashed ==> old(inner).active.None? && KeyIdOk(id)
    {
      hide KeyIdOk, Utf8, Safe, CommitRun, Converged;
      InitFacts(config, oracle, world, inner, id, secret, loss);
      if inner.active.Some? {
        return Ok;
      }
      if !KeyIdOk(id) {
        return Failed;
      }
      status := CommitState(Initialized(id, secret));
    }

    method Rotate(id: Text, secret: bytes) returns (status: Status)
      requires world.Valid(config) && Aligned()
      modifies this`world, this`inner
      ensures Outcome(world, inner, status) == RotateRun(config, oracle, old(world), old(inner), id, secret)
      ensures Follows(config, old(world), old(inner), Outcome(world, inner, status), Rotated(old(inner), id, secret), loss)
      ensures status == Ok ==> inner == Rotated(old(inner), id, secret) || old(inner).keys == map[]
      ensures inner != old(inner) || status == Crashed ==> id !in old(inner).keys && KeyIdOk(id)
    {
      hide KeyIdOk, Utf8, Safe, CommitRun, InitRun, Converged;
      RotateFacts(config, oracle, world, inner, id, secret, loss);
      if inner.keys == map[] {
        status := Init(id, secret);
        return;
      }
      if !KeyIdOk(id) || id in inner.keys {
        return Failed;
      }
      RotatedOk(inner, id, secret);
      status := CommitState(Rotated(inner, id, secret));
    }

    method Retire(id: Text) returns (status: Status)
      requires world.Valid(config) && Aligned()
      modifies this`world, this`inner
      ensures Outcome(world, inner, status) == RetireRun(config, oracle, old(world), old(inner), id)
      ensures Follows(config, old(world), old(inner), Outcome(world, inner, status), Retired(old(inner), id), loss)
      ensures status == Ok ==> inner == Retired(old(inner), id)
      ensures old(inner).active == Some(id) || id !in old(inner).keys ==> status == Failed && inner == old(inner)
    {
      hide KeyIdOk, Utf8, Safe, CommitRun, Converged;
      RetireFacts(config, oracle, world, inner, id, loss);
      if inner.active == Some(id) || id !in inner.keys {
        return Failed;
      }
      status := CommitState(Retired(inner, id));
    }

    method Open(id: Text, secret: bytes) returns (status: Status)
      requires world.Valid(config)
      modifies this`world, this`inner
      ensures Outcome(world, inner, status) == OpenRun(config, oracle, old(world), old(inner), id, secret) && world.Valid(config)
      ensures old(Openable()) ==> Openable()
      ensures status == Ok ==> Aligned() && Converged(config, world)
      ensures Loaded(config, Visible()) == old(Loaded(config, Visible())) ||
              (config.autoInit && old(Loaded(config, Visible())).active.None? && Loaded(config, Visible()) == Initialized(id, secret))
      ensures old(Visible()).seal.Some? && Visible().seal.None? ==>
                config.env.Some? && (HasState(config, Visible()) ==> Visible().state.value.seal == config.env.value)
      ensures old(Faultless(oracle, world)) && Unlocks(config, old(Visible())) && Startable(config, old(Visible()), id) ==>
                status == Ok
    {
      hide KeyIdOk, Utf8, StateOk, Safe, UnsealRun, InitRun, DropRun, Converged, Unlocks, World.OneSealFile, Startable;
      OpenFacts(config, oracle, world, inner, id, secret, loss);
      if HasState(config, Visible()) {
        status := Unseal();
        if status != Ok {
          return;
        }
      } else {
        if !StateOk(config.bootstrap) {
          return Failed;
        }
        inner := config.bootstrap;
      }
      if config.autoInit && inner.active.None? {
        status := Init(id, secret);
        if status != Ok {
          return;
        }
      }
      status := DropSeal();
    }

    /** Remove a seal file the environment's seal has replaced. A failure is ignored. */
    method DropSeal() returns (status: Status)
      requires |world.folders| > 0
      modifies this`world
      ensures Outcome(world, inner, status) == DropRun(config, oracle, old(world), inner)
    {
      if config.env.Some? && config.sealPath && Visible().seal.Some? {
        var removed := Next();
        if removed == Dies {
          return Crashed;
        }
        if removed == Fine {
          world := world.Enter(Visible().(seal := None));
        }
      }
      return Ok;
    }

    /** Load the state file and re-seal it unless it is under the current seal. */
    method Unseal() returns (status: Status)
      requires world.Valid(config) && HasState(config, Visible())
      modifies this`world, this`inner
      ensures Outcome(world, inner, status) == UnsealRun(config, oracle, old(world), old(inner)) && world.Valid(config)
      ensures old(Openable()) ==> Openable()
      ensures Loaded(config, Visible()) == old(Loaded(config, Visible())) && HasState(config, Visible())
      ensures status == Ok ==> Aligned() && Converged(config, world)
    {
      hide KeyIdOk, Utf8, StateOk, Safe, SealRun, PersistRun, IsCandidate, Converged;
      UnsealFacts(config, oracle, world, inner, loss);
      var state, used := LoadState(config, Visible());
      if state.None? {
        return Failed;
      }
      SealFacts(config, oracle, world, loss);
      var current, died := CurrentSeal();
      if current.None? {
        return if died then Crashed else Failed;
      }
      inner := state.value;
      if used != current.value {
        var r := PersistState(inner);
        return if r == Done then Ok else if r == Died then Crashed else Failed;
      }
      return Ok;
    }

    /** The process ends, and power may be lost. */
    method Crash(after: Folder)
      requires world.Valid(config) && Leaves(config, world, loss, after)
      modifies this`world
      ensures world == Start(after, old(world.clock)) && world.Valid(config)
      ensures old(Openable()) ==> Openable()
    {
      if Safe(config, world, loss) {
        LossSafe(config, world, loss, after, world.clock);
      }
      world := Start(after, world.clock);
    }
  }

  // ---- Whole runs --------------------------------------------------------

  datatype Event =
    | Startup(id: Text, secret: bytes)
    | InitKey(id: Text, secret: bytes)
    | RotateKey(id: Text, secret: bytes)
    | RetireKey(id: Text)
    | PowerLoss(after: Folder)

  /** The files, the live keys, and whether the ring is up. */
  datatype Phase = Phase(w: World, inner: State, up: bool)

  /** A ring that is up has the keys a restart would load. */
  ghost predicate PhaseOk(c: Config, p: Phase) {
    p.w.Valid(c) && (p.up ==> AlignedWith(c, p.w, p.inner))
  }

  function Changed(r: Outcome): Phase {
    Phase(r.w, r.inner, r.status != Crashed)
  }

  /** What one event does. */
  function LifeStep(c: Config, o: Oracle, loss: Loss, p: Phase, e: Event): Phase
    requires |p.w.folders| > 0
  {
    match e
    case Startup(id, secret) => var r := OpenRun(c, o, p.w, p.inner, id, secret); Phase(r.w, r.inner, r.status == Ok)
    case InitKey(id, secret) => if p.up then Changed(InitRun(c, o, p.w, p.inner, id, secret)) else p
    case RotateKey(id, secret) => if p.up then Changed(RotateRun(c, o, p.w, p.inner, id, secret)) else p
    case RetireKey(id) => if p.up then Changed(RetireRun(c, o, p.w, p.inner, id)) else p
    case PowerLoss(after) => if Leaves(c, p.w, loss, after) then Phase(Start(after, p.w.clock), p.inner, false) else p
  }

  /** Every event keeps live keys and file together and, outside a hazard, the
      state openable. Without faults it leaves a ring that is up, up. */
  lemma LifeStepOk(c: Config, o: Oracle, loss: Loss, p: Phase, e: Event)
    requires PhaseOk(c, p)
    ensures var q := LifeStep(c, o, loss, p, e);
            && PhaseOk(c, q) && q.w.clock >= p.w.clock && (Safe(c, p.w, loss) ==> Safe(c, q.w, loss))
            && (p.up && !e.Startup? && !e.PowerLoss? && Faultless(o, p.w) ==> q.up)
            && (e.Startup? && Faultless(o, p.w) && Unlocks(c, p.w.Visible()) && Startable(c, p.w.Visible(), e.id) ==> q.up)
  {
    hide Safe, Unlocks, Hazard, StateOk, KeyIdOk, OpenRun, InitRun, RotateRun, RetireRun, Converged, World.OneSealFile;
    hide Startable, Faultless, Leaves;
    match e
    case Startup(id, secret) => OpenFacts(c, o, p.w, p.inner, id, secret, loss);
    case InitKey(id, secret) => if p.up { InitFacts(c, o, p.w, p.inner, id, secret, loss); }
    case RotateKey(id, secret) => if p.up { RotateFacts(c, o, p.w, p.inner, id, secret, loss); }
    case RetireKey(id) => if p.up { RetireFacts(c, o, p.w, p.inner, id, loss); }
    case PowerLoss(after) =>
      if Leaves(c, p.w, loss, after) {
        StartValid(c, after, p.w.clock);
        if Safe(c, p.w, loss) {
          LossSafe(c, p.w, loss, after, p.w.clock);
        }
      }
  }

  lemma StartValid(c: Config, f: Folder, clock: nat)
    ensures Start(f, clock).Valid(c)
  {
  }

  function Life(c: Config, o: Oracle, loss: Loss, p: Phase, script: seq<Event>): (q: Phase)
    requires PhaseOk(c, p)
    ensures PhaseOk(c, q)
  {
    if script == [] then p
    else
      var before := Life(c, o, loss, p, script[..|script| - 1]);
      LifeStepOk(c, o, loss, before, script[|script| - 1]);
      LifeStep(c, o, loss, before, script[|script| - 1])
  }

  /** Through every run of startups, key changes with a fault at any step, and
      crashes with any outcome, the state file stays openable unless the run
      began in a hazard. */
  lemma {:induction false} LifeSafe(c: Config, o: Oracle, loss: Loss, p: Phase, script: seq<Event>)
    requires PhaseOk(c, p) && Safe(c, p.w, loss)
    ensures Safe(c, Life(c, o, loss, p, script).w, loss)
  {
    hide Safe, LifeStep, PhaseOk;
    if script != [] {
      var n := |script| - 1;
      LifeSafe(c, o, loss, p, script[..n]);
      LifeStepOk(c, o, loss, Life(c, o, loss, p, script[..n]), script[n]);
    }
  }

  /** The ring goes through the life `Life` describes: it stays openable unless
      it began in a hazard, and while it is up its live keys are the ones a
      restart would load and its active key, if any, is present and may encrypt. */
  method Lifecycle(ring: EncryptionKeyring, script: seq<Event>) returns (up: bool)
    requires ring.world.Valid(ring.config)
    modifies ring
    ensures Phase(ring.world, ring.inner, up) ==
            Life(ring.config, ring.oracle, ring.loss, Phase(old(ring.world), old(ring.inner), false), script)
    ensures ring.world.Valid(ring.config) && (up ==> ring.Aligned())
    ensures old(ring.Openable()) ==> ring.Openable() && Unlocked(ring.config, ring.world, ring.loss)
  {
    hide StateOk, Unlocks, Hazard, World.OneSealFile, Converged, Safe, LifeStep;
    up := false;
    ghost var c, o, loss, first := ring.config, ring.oracle, ring.loss, Phase(ring.world, ring.inner, false);
    for i := 0 to |script|
      invariant Phase(ring.world, ring.inner, up) == Life(c, o, loss, first, script[..i])
    {
      LifeStepOk(c, o, loss, Phase(ring.world, ring.inner, up), script[i]);
      assert script[..i + 1][..i] == script[..i];
      up := Live(ring, script[i], up);
    }
    assert script[..|script|] == script;
    if Safe(c, first.w, loss) {
      LifeSafe(c, o, loss, first, script);
      SafeUnlocked(c, ring.world, loss);
    }
  }

  method Live(ring: EncryptionKeyring, event: Event, was: bool) returns (up: bool)
    requires PhaseOk(ring.config, Phase(ring.world, ring.inner, was))
    modifies ring
    ensures Phase(ring.world, ring.inner, up) ==
            LifeStep(ring.config, ring.oracle, ring.loss, Phase(old(ring.world), old(ring.inner), was), event)
  {
    hide StateOk, Unlocks, Hazard, World.OneSealFile, Converged, Safe, OpenRun, InitRun, RotateRun, RetireRun, Leaves;
    var status := Ok;
    up := was;
    match event {
      case Startup(id, secret) =>
        status := ring.Open(id, secret);
        return status == Ok;
      case InitKey(id, secret) =>
        if up {
          status := ring.Init(id, secret);
        }
      case RotateKey(id, secret) =>
        if up {
          status := ring.Rotate(id, secret);
        }
      case RetireKey(id) =>
        if up {
          status := ring.Retire(id);
        }
      case PowerLoss(after) =>
        if Leaves(ring.config, ring.world, ring.loss, after) {
          ring.Crash(after);
          return false;
        }
    }
    up := up && status != Crashed;
  }

  lemma SafeUnlocked(c: Config, w: World, loss: Loss)
    requires Safe(c, w, loss)
    ensures Unlocked(c, w, loss)
  {
  }

  // ---- Runs that lock the state out --------------------------------------

  /** The seal that can be used without creating a file. */
  function Ready(c: Config, f: Folder): Option<Seal> {
    if c.env.Some? then c.env
    else if c.sealPath && f.seal.Some? && f.seal.value.Key? then Some(f.seal.value.seal)
    else None
  }

  /** Startup without state writes a first key. */
  predicate MakesKey(c: Config, f: Folder, id: Text) {
    c.statePath && f.state.None? && c.autoInit && c.bootstrap.active.None? && StateOk(c.bootstrap) && KeyIdOk(id)
  }

  function WithState(f: Folder, seal: Seal, state: State): Folder {
    f.(state := Some(StateFile(seal, state)))
  }

  lemma AutoInstalls(c: Config, o: Oracle, w: World, inner: State, id: Text, secret: bytes)
    requires |w.folders| > 0 && MakesKey(c, w.Visible(), id) && Ready(c, w.Visible()).Some?
    requires o.faults(w.clock) == o.faults(w.clock + 1) == Fine && o.faults(w.clock + 2) == Dies
    ensures var r := OpenRun(c, o, w, inner, id, secret);
            |r.w.folders| > 0 && r.w.Visible() == WithState(w.Visible(), Ready(c, w.Visible()).value, Initialized(id, secret))
  {
    hide StateOk, KeyIdOk, Utf8;
    assert LoadRun(c, o, w, inner) == Outcome(w, c.bootstrap, Ok);
    var p := InstallRun(c, o, w, Ready(c, w.Visible()).value, Initialized(id, secret));
    assert PersistRun(c, o, w, Initialized(id, secret)) == p && p.r == Died;
  }

  /** Startup that writes nothing; a seal file it cannot remove stays. */
  lemma OpensQuietly(c: Config, o: Oracle, w: World, inner: State, id: Text, secret: bytes)
    requires |w.folders| > 0 && w.Visible().state.None? && StateOk(c.bootstrap)
    requires !(c.autoInit && c.bootstrap.active.None?) && (c.env.Some? ==> o.faults(w.clock) == Fails)
    ensures var r := OpenRun(c, o, w, inner, id, secret);
            r.status == Ok && r.inner == c.bootstrap && r.w.folders == w.folders && w.clock <= r.w.clock &&
            r.w.clock == if c.env.Some? && c.sealPath && w.Visible().seal.Some? then w.clock + 1 else w.clock
  {
    hide StateOk;
  }

  lemma RotateInstalls(c: Config, o: Oracle, w: World, inner: State, id: Text, secret: bytes)
    requires |w.folders| > 0 && c.statePath && Ready(c, w.Visible()).Some? && StateOk(inner) && KeyIdOk(id) && id !in inner.keys
    requires o.faults(w.clock) == o.faults(w.clock + 1) == Fine
    ensures var r := RotateRun(c, o, w, inner, id, secret);
            |r.w.folders| > 0 &&
            r.w.Visible() == WithState(w.Visible(), Ready(c, w.Visible()).value, Rotated(inner, id, secret))
  {
    hide KeyIdOk, Utf8;
    var candidate := Rotated(inner, id, secret);
    if inner.keys == map[] {
      EmptyRotation(inner, id, secret);
      assert inner.active.None?;
    }
    assert PersistRun(c, o, w, candidate) == InstallRun(c, o, w, Ready(c, w.Visible()).value, candidate);
  }

  /** A seal file that was filled and could not be synced. */
  lemma CreationCut(c: Config, o: Oracle, w: World, candidate: State)
    requires |w.folders| > 0 && c.statePath && c.env.None? && c.sealPath && w.Visible().seal.None?
    requires o.faults(w.clock) == o.faults(w.clock + 1) == Fine && o.faults(w.clock + 2) == Fails
    ensures var p := PersistRun(c, o, w, candidate);
            p.r == NotInstalled && |p.w.folders| > 0 && p.w.clock == w.clock + 3 &&
            p.w.Visible() == w.Visible().(seal := Some(Key(o.draws(w.clock), false)))
  {
  }

  /** State whose re-sealing was installed and not made durable. */
  lemma ResealCut(c: Config, o: Oracle, w: World, inner: State, id: Text, secret: bytes)
    requires |w.folders| > 0 && c.env.Some? && HasState(c, w.Visible()) && Unlocks(c, w.Visible())
    requires w.Visible().state.value.seal != c.env.value
    requires o.faults(w.clock) == o.faults(w.clock + 1) == Fine && o.faults(w.clock + 2) == Fails
    ensures var r := OpenRun(c, o, w, inner, id, secret); var f := w.Visible();
            r.status == Failed && r.w.clock == w.clock + 3 && r.w.stateFrom == w.stateFrom && r.w.sealFrom == w.sealFrom &&
            r.w.folders == w.folders + [WithState(f, c.env.value, f.state.value.state)]
  {
    hide StateOk;
    var f := w.Visible();
    assert PersistRun(c, o, w, f.state.value.state) == InstallRun(c, o, w, c.env.value, f.state.value.state);
    assert LoadRun(c, o, w, inner).status == Failed;
  }

  /** A first key beside state that has none, installed and not made durable. */
  lemma InitCut(c: Config, o: Oracle, w: World, inner: State, id: Text, secret: bytes)
    requires |w.folders| > 0 && c.env.Some? && HasState(c, w.Visible()) && Unlocks(c, w.Visible())
    requires w.Visible().state.value.seal == c.env.value && KeyIdOk(id)
    requires c.autoInit && w.Visible().state.value.state.active.None?
    requires o.faults(w.clock) == o.faults(w.clock + 1) == Fine && o.faults(w.clock + 2) == Fails
    ensures var r := OpenRun(c, o, w, inner, id, secret);
            r.status == Failed && r.w.clock == w.clock + 3 && r.w.stateFrom == w.stateFrom && r.w.sealFrom == w.sealFrom &&
            r.w.folders == w.folders + [WithState(w.Visible(), c.env.value, Initialized(id, secret))]
  {
    hide StateOk, KeyIdOk, Utf8, IsCandidate;
    var state := w.Visible().state.value.state;
    assert LoadRun(c, o, w, inner) == Outcome(w, state, Ok);
    assert PersistRun(c, o, w, Initialized(id, secret)) == InstallRun(c, o, w, c.env.value, Initialized(id, secret));
  }

  /** Startup under the environment's seal removes the seal file. */
  lemma DropsSeal(c: Config, o: Oracle, w: World, inner: State, id: Text, secret: bytes)
    requires |w.folders| > 0 && c.env.Some? && c.sealPath && HasState(c, w.Visible()) && Unlocks(c, w.Visible())
    requires w.Visible().state.value.seal == c.env.value && w.Visible().seal.Some?
    requires !(c.autoInit && w.Visible().state.value.state.active.None?) && o.faults(w.clock) == Fine
    ensures var r := OpenRun(c, o, w, inner, id, secret);
            r.w.folders == w.folders + [w.Visible().(seal := None)] && r.w.stateFrom == w.stateFrom && r.w.sealFrom == w.sealFrom
  {
    hide StateOk, IsCandidate;
    assert LoadRun(c, o, w, inner) == Outcome(w, w.Visible().state.value.state, Ok);
  }

  /** A stop between creating and filling the seal file. */
  lemma StopsTorn(c: Config, o: Oracle, w: World, inner: State, id: Text, secret: bytes)
    requires |w.folders| > 0 && HasState(c, w.Visible()) && Unlocks(c, w.Visible())
    requires c.env.None? && c.sealPath && w.Visible().seal.None?
    requires o.faults(w.clock) == Fine && o.faults(w.clock + 1) != Fine
    ensures var r := OpenRun(c, o, w, inner, id, secret);
            |r.w.folders| > 0 && r.w.Visible() == w.Visible().(seal := Some(Torn))
  {
    hide StateOk;
    assert LoadRun(c, o, w, inner) == UnsealRun(c, o, w, inner) && LoadRun(c, o, w, inner).status != Ok;
  }

  /** A power loss tears a seal file that was not synced. */
  lemma Tears(c: Config, w: World, loss: Loss)
    requires w.Valid(c) && loss != NoLoss && w.Visible().seal.Some? && (w.Visible().seal.value.Key? ==> !w.Visible().seal.value.synced)
    ensures Leaves(c, w, loss, w.Visible().(seal := Some(Torn)))
  {
    var n := |w.folders| - 1;
    assert ComesBack(c, w, loss, w.Visible().(seal := Some(Torn)), n, n);
  }

  lemma TornLocks(c: Config, f: Folder)
    requires HasState(c, f) && c.sealPath && f.seal == Some(Torn)
    ensures !Unlocks(c, f)
  {
  }

  /** Beside state under another seal, one stop inside startup locks it out,
      whatever a crash takes. */
  method StopLocksOut(c: Config, f: Folder, loss: Loss, id: Text, secret: bytes) returns (ring: EncryptionKeyring)
    requires Unlocks(c, f) && HasState(c, f) && c.env.None? && c.sealPath && f.seal.None?
    ensures ring.config == c && ring.first == f && ring.loss == loss && ring.world.Valid(c) && !Unlocks(c, ring.world.Visible())
  {
    hide StateOk, Unlocks, OpenRun, Safe;
    ring := new EncryptionKeyring(c, f, Oracle(n => if n == 1 then Dies else Fine, _ => []), loss);
    StopsTorn(c, ring.oracle, ring.world, ring.inner, id, secret);
    var status := ring.Open(id, secret);
    TornLocks(c, ring.world.Visible());
  }

  lemma AutoCut(c: Config, o: Oracle, w: World, inner: State, id: Text, secret: bytes)
    requires |w.folders| > 0 && MakesKey(c, w.Visible(), id) && c.env.None? && c.sealPath && w.Visible().seal.None?
    requires o.faults(w.clock) == o.faults(w.clock + 1) == Fine && o.faults(w.clock + 2) == Fails
    ensures var r := OpenRun(c, o, w, inner, id, secret);
            |r.w.folders| > 0 && r.w.clock == w.clock + 3 &&
            r.w.Visible() == w.Visible().(seal := Some(Key(o.draws(w.clock), false)))
  {
    hide StateOk, KeyIdOk, Utf8, PersistRun;
    assert LoadRun(c, o, w, inner) == Outcome(w, c.bootstrap, Ok);
    CreationCut(c, o, w, Initialized(id, secret));
  }

  lemma RotateCut(c: Config, o: Oracle, w: World, inner: State, id: Text, secret: bytes)
    requires |w.folders| > 0 && c.statePath && c.env.None? && c.sealPath && w.Visible().seal.None?
    requires StateOk(inner) && KeyIdOk(id) && id !in inner.keys
    requires o.faults(w.clock) == o.faults(w.clock + 1) == Fine && o.faults(w.clock + 2) == Fails
    ensures var r := RotateRun(c, o, w, inner, id, secret);
            r.inner == inner && r.status == Failed && |r.w.folders| > 0 && r.w.clock == w.clock + 3 &&
            r.w.Visible() == w.Visible().(seal := Some(Key(o.draws(w.clock), false)))
  {
    hide KeyIdOk, Utf8, PersistRun;
    if inner.keys == map[] {
      assert inner.active.None?;
      CreationCut(c, o, w, Initialized(id, secret));
    } else {
      CreationCut(c, o, w, Rotated(inner, id, secret));
    }
  }

  /** A seal file used before it was synced: the first attempt to write state
      creates it and fails to sync it, the next one finds it and uses it. */
  method UnsyncedLocksOut(c: Config, f: Folder, loss: Loss, id: Text, secret: bytes)
    returns (ring: EncryptionKeyring, after: Folder)
    requires c.statePath && c.sealPath && c.env.None? && f == Folder(None, None) && StateOk(c.bootstrap) && loss != NoLoss
    requires KeyIdOk(id) && id !in c.bootstrap.keys
    ensures ring.config == c && ring.first == f && ring.loss == loss && ring.world.Valid(c)
    ensures Leaves(c, ring.world, loss, after) && !Unlocks(c, after)
  {
    hide StateOk, Unlocks, OpenRun, RotateRun, Safe, KeyIdOk, Leaves, World.OneSealFile, IsCandidate, Converged;
    ring := new EncryptionKeyring(c, f, Oracle(n => if n == 2 then Fails else if n == 5 then Dies else Fine, _ => []), loss);
    var status;
    if MakesKey(c, f, id) {
      AutoCut(c, ring.oracle, ring.world, ring.inner, id, secret);
      status := ring.Open(id, secret);
      AutoInstalls(c, ring.oracle, ring.world, ring.inner, id, secret);
      status := ring.Open(id, secret);
    } else {
      OpensQuietly(c, ring.oracle, ring.world, ring.inner, id, secret);
      status := ring.Open(id, secret);
      RotateCut(c, ring.oracle, ring.world, ring.inner, id, secret);
      status := ring.Rotate(id, secret);
      RotateInstalls(c, ring.oracle, ring.world, ring.inner, id, secret);
      status := ring.Rotate(id, secret);
    }
    after := ring.world.Visible().(seal := Some(Torn));
    Tears(c, ring.world, loss);
    TornLocks(c, after);
  }

  /** State beside a seal file that is torn or that a power loss can tear. */
  method BesideLocksOut(c: Config, f: Folder, loss: Loss, id: Text, secret: bytes)
    returns (ring: EncryptionKeyring, after: Folder)
    requires Unlocks(c, f) && Fresh(c, f) && c.sealPath && f.seal.Some?
    requires if f.seal.value.Torn? then c.env.Some? else loss != NoLoss && !f.seal.value.synced
    requires KeyIdOk(id) && id !in c.bootstrap.keys
    ensures ring.config == c && ring.first == f && ring.loss == loss && ring.world.Valid(c)
    ensures Leaves(c, ring.world, loss, after) && !Unlocks(c, after)
  {
    hide StateOk, OpenRun, RotateRun, Safe, KeyIdOk, Leaves, World.OneSealFile, Converged;
    var stop := if MakesKey(c, f, id) then 2 else 0;
    var fate := if MakesKey(c, f, id) then Dies else if c.env.Some? then Fails else Fine;
    ring := new EncryptionKeyring(c, f, Oracle(n => if n == stop then fate else Fine, _ => []), loss);
    if f.state.None? {
      var status;
      if MakesKey(c, f, id) {
        AutoInstalls(c, ring.oracle, ring.world, ring.inner, id, secret);
        status := ring.Open(id, secret);
      } else {
        OpensQuietly(c, ring.oracle, ring.world, ring.inner, id, secret);
        status := ring.Open(id, secret);
        RotateInstalls(c, ring.oracle, ring.world, ring.inner, id, secret);
        status := ring.Rotate(id, secret);
      }
    }
    after := ring.world.Visible().(seal := Some(Torn));
    if f.seal.value.Torn? {
      VisibleLeft(c, ring.world, loss);
    } else {
      Tears(c, ring.world, loss);
    }
    TornLocks(c, after);
  }

  /** State under the seal file's own seal: its re-sealing is not made durable,
      a later startup removes the seal file, and the two names fall back apart. */
  method DroppedLocksOut(c: Config, f: Folder, loss: Loss, id: Text, secret: bytes)
    returns (ring: EncryptionKeyring, after: Folder)
    requires Unlocks(c, f) && HasState(c, f) && c.sealPath && f.seal.Some? && f.seal.value.Key?
    requires Separate(c, loss) && c.env.Some? && !Configured(c, f.state.value.seal) && KeyIdOk(id)
    ensures ring.config == c && ring.first == f && ring.loss == loss && ring.world.Valid(c)
    ensures Leaves(c, ring.world, loss, after) && !Unlocks(c, after)
  {
    hide StateOk, OpenRun, Safe, KeyIdOk, World.OneSealFile, Converged, Leaves;
    ring := new EncryptionKeyring(c, f, Oracle(n => if n == 2 || n == 5 then Fails else Fine, _ => []), loss);
    ResealCut(c, ring.oracle, ring.world, ring.inner, id, secret);
    var status := ring.Open(id, secret);
    if c.autoInit && f.state.value.state.active.None? {
      InitCut(c, ring.oracle, ring.world, ring.inner, id, secret);
      status := ring.Open(id, secret);
      InitializedOk(id, secret);
    }
    DropsSeal(c, ring.oracle, ring.world, ring.inner, id, secret);
    status := ring.Open(id, secret);
    after := Folder(f.state, None);
    FallsApart(c, ring.world, loss, f);
  }

  lemma InitializedOk(id: Text, secret: bytes)
    requires KeyIdOk(id)
    ensures StateOk(Initialized(id, secret))
  {
    hide KeyIdOk, Utf8;
  }

  lemma FallsApart(c: Config, w: World, loss: Loss, f: Folder)
    requires |w.folders| > 0 && w.stateFrom == 0 && w.sealFrom == 0 && w.folders[0] == f && w.Visible().seal.None? && Separate(c, loss)
    ensures Leaves(c, w, loss, Folder(f.state, None))
  {
    assert ComesBack(c, w, loss, Folder(f.state, None), 0, |w.folders| - 1);
  }

  /** The condition on whole runs is exact: from every pair of files that meets
      it, some run of startups and key changes ends where a crash leaves files
      that do not unlock. */
  method RunLocksOut(c: Config, f: Folder, loss: Loss, id: Text, secret: bytes) returns (ring: EncryptionKeyring, after: Folder)
    requires Unlocks(c, f) && Hazard(c, f, loss) && KeyIdOk(id) && id !in c.bootstrap.keys
    ensures ring.config == c && ring.first == f && ring.loss == loss && ring.world.Valid(c)
    ensures Leaves(c, ring.world, loss, after) && !Unlocks(c, after)
  {
    hide StateOk, Unlocks, OpenRun, Safe, KeyIdOk, Leaves, World.OneSealFile, IsCandidate, Converged;
    if f.seal.None? {
      if f.state.Some? {
        ring := StopLocksOut(c, f, loss, id, secret);
        after := ring.world.Visible();
        VisibleLeft(c, ring.world, loss);
      } else {
        ring, after := UnsyncedLocksOut(c, f, loss, id, secret);
      }
    } else if f.seal == Some(Torn) || (loss != NoLoss && !f.seal.value.synced) {
      ring, after := BesideLocksOut(c, f, loss, id, secret);
    } else {
      ring, after := DroppedLocksOut(c, f, loss, id, secret);
    }
  }
}
