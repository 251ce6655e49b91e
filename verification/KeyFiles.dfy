/** The two files behind the keyring, the sealed state and the seal, and what
    faults and power losses do to them. */
module KeyFiles {
  import opened Bytes
  import opened ValueCrypto

  type Seal = bytes

  /** A seal file is created empty and then filled. Its bytes are on stable
      storage only once the file itself was synced. */
  datatype SealFile = Torn | Key(seal: Seal, synced: bool)

  /** The sealed state: only the seal it was made with opens it. The file is
      synced before it gets its name. */
  datatype StateFile = StateFile(seal: Seal, state: State)

  /** What is found under the two paths. */
  datatype Folder = Folder(state: Option<StateFile>, seal: Option<SealFile>)

  /** `together` says whether both paths are in one directory. */
  datatype Config = Config(env: Option<Seal>, previous: seq<Seal>, statePath: bool, sealPath: bool, together: bool,
                           bootstrap: State, autoInit: bool)

  predicate Configured(c: Config, s: Seal) {
    c.env == Some(s) || s in c.previous
  }

  /** The seals tried against the state file. A torn seal file stops the attempt. */
  predicate IsCandidate(c: Config, f: Folder, s: Seal) {
    if !c.sealPath || f.seal.None? then Configured(c, s)
    else match f.seal.value
      case Torn => false
      case Key(k, _) => s == k || Configured(c, s)
  }

  /** The configuration names a state file and it is there. */
  predicate HasState(c: Config, f: Folder) {
    c.statePath && f.state.Some?
  }

  /** Startup with this configuration can open the state file. */
  predicate Unlocks(c: Config, f: Folder) {
    HasState(c, f) ==> IsCandidate(c, f, f.state.value.seal) && StateOk(f.state.value.state)
  }

  /** The seal new state is written with. */
  predicate IsCurrent(c: Config, f: Folder, s: Seal) {
    if c.env.Some? then s == c.env.value
    else c.sealPath && f.seal.Some? && f.seal.value.Key? && f.seal.value.seal == s
  }

  /** What startup loads. */
  function Loaded(c: Config, f: Folder): State {
    if HasState(c, f) then f.state.value.state else c.bootstrap
  }

  // ---- Crashes -----------------------------------------------------------

  /** What a crash may take: nothing, if only the process ends; bytes of a seal
      file that was not synced, and directory changes, each directory coming
      back in one of its states since its last sync; or the same with every
      name falling back by itself. */
  datatype Loss = NoLoss | States | Names

  /** Both names may fall back separately. */
  predicate Separate(c: Config, loss: Loss) {
    loss == Names || (loss == States && !c.together)
  }

  /** Every pair of files since the older of the two last directory syncs, and
      from where on each of the two names may come back. */
  datatype World = World(folders: seq<Folder>, stateFrom: nat, sealFrom: nat, clock: nat) {
    ghost predicate Valid(c: Config)
      ensures Valid(c) ==> |folders| > 0
    {
      && stateFrom < |folders| && sealFrom < |folders| && (c.together ==> stateFrom == sealFrom)
      && OneSealFile(c)
    }

    /** Under every state the seal's name leads to the same file. Only the
        environment's seal makes startup remove it. */
    ghost predicate OneSealFile(c: Config) {
      && (forall i, j | 0 <= i < |folders| && 0 <= j < |folders| && folders[i].seal.Some? && folders[j].seal.Some? ::
            folders[i].seal == folders[j].seal)
      && (c.env.None? ==> forall i | 0 <= i < |folders| && folders[i].seal.Some? :: folders[|folders| - 1].seal.Some?)
    }

    function Visible(): Folder
      requires |folders| > 0
    {
      folders[|folders| - 1]
    }

    /** The state file's name is durable. */
    predicate Durable() {
      stateFrom + 1 == |folders|
    }

    /** One file operation more has been tried. */
    function Tick(): World {
      this.(clock := clock + 1)
    }

    /** A change of one of the names that is not synced yet. */
    function Enter(f: Folder): World {
      this.(folders := folders + [f])
    }

    /** The seal file's bytes change, whatever its name does. */
    function Refill(file: SealFile): World {
      this.(folders := seq(|folders|, i requires 0 <= i < |folders| =>
        if folders[i].seal.Some? then folders[i].(seal := Some(file)) else folders[i]))
    }

    /** Sync the directory of the state file. It covers names, not contents. */
    function SyncStates(c: Config): World
      requires |folders| > 0
    {
      this.(stateFrom := |folders| - 1, sealFrom := if c.together then |folders| - 1 else sealFrom)
    }

    /** Sync the directory of the seal file. */
    function SyncSeals(c: Config): World
      requires |folders| > 0
    {
      this.(sealFrom := |folders| - 1, stateFrom := if c.together then |folders| - 1 else stateFrom)
    }
  }

  function Start(f: Folder, clock: nat): World {
    World([f], 0, 0, clock)
  }

  /** What power loss makes of the seal file. */
  predicate SealSettles(before: Option<SealFile>, after: Option<SealFile>) {
    if before.Some? && before.value.Key?
    then after == Some(Key(before.value.seal, true)) || (!before.value.synced && after == Some(Torn))
    else after == before
  }

  /** The state's name comes back as it was at `i`, the seal's as it was at `j`. */
  predicate ComesBack(c: Config, w: World, loss: Loss, g: Folder, i: nat, j: nat) {
    && w.stateFrom <= i < |w.folders| && w.sealFrom <= j < |w.folders| && (!Separate(c, loss) ==> i == j)
    && g.state == w.folders[i].state && SealSettles(w.folders[j].seal, g.seal)
  }

  /** What a crash may leave. */
  predicate Leaves(c: Config, w: World, loss: Loss, g: Folder)
    requires |w.folders| > 0
  {
    g == w.Visible() ||
    (loss != NoLoss && exists i, j | 0 <= i < |w.folders| && 0 <= j < |w.folders| :: ComesBack(c, w, loss, g, i, j))
  }

  /** No crash now locks the state out. */
  ghost predicate Unlocked(c: Config, w: World, loss: Loss)
    requires |w.folders| > 0
  {
    forall g :: Leaves(c, w, loss, g) ==> Unlocks(c, g)
  }

  // ---- What can lock the state out ---------------------------------------

  /** State is there, or the ring can come up and write some. */
  predicate Fresh(c: Config, f: Folder) {
    c.statePath && StateOk(Loaded(c, f))
  }

  /** What a caller can see before starting. State that can be opened now can be
      locked out later exactly if the seal file
      is missing without a seal in the environment, so that it will be created:
        beside state a stop leaves it torn, and otherwise it may be used before
        it is synced;
      is torn and the seal in the environment lets state be written beside it;
      is not synced, so that a power loss may tear it;
      or is the only seal of the state, will be removed for the one in the
        environment, and names may fall back separately. */
  predicate Hazard(c: Config, f: Folder, loss: Loss) {
    && c.sealPath && Fresh(c, f)
    && match f.seal
       case None => c.env.None? && (f.state.Some? || loss != NoLoss)
       case Some(Torn) => c.env.Some?
       case Some(Key(_, synced)) =>
         (loss != NoLoss && !synced) ||
         (Separate(c, loss) && c.env.Some? && f.state.Some? && !Configured(c, f.state.value.seal))
  }

  /** No crash now or later locks the state out. */
  ghost predicate Safe(c: Config, w: World, loss: Loss)
    ensures Safe(c, w, loss) ==> w.Valid(c)
  {
    w.Valid(c) && forall g :: Leaves(c, w, loss, g) ==> Unlocks(c, g) && !Hazard(c, g, loss)
  }

  /** A single pair of files is safe exactly if it unlocks and is no hazard. */
  lemma StartSafe(c: Config, f: Folder, clock: nat, loss: Loss)
    ensures Safe(c, Start(f, clock), loss) <==> Unlocks(c, f) && !Hazard(c, f, loss)
  {
    hide StateOk;
    var w := Start(f, clock);
    assert Leaves(c, w, loss, f);
    forall g | Leaves(c, w, loss, g) && Unlocks(c, f) && !Hazard(c, f, loss)
      ensures Unlocks(c, g) && !Hazard(c, g, loss)
    {
    }
  }

  lemma TickSafe(c: Config, w: World, loss: Loss)
    requires Safe(c, w, loss)
    ensures Safe(c, w.Tick(), loss)
  {
    hide Unlocks, Hazard;
    forall g | Leaves(c, w.Tick(), loss, g)
      ensures Leaves(c, w, loss, g)
    {
      if g != w.Visible() {
        var i, j :| 0 <= i < |w.folders| && 0 <= j < |w.folders| && ComesBack(c, w.Tick(), loss, g, i, j);
        assert ComesBack(c, w, loss, g, i, j);
      }
    }
  }

  /** A sync only takes outcomes away. */
  lemma SyncSafe(c: Config, w: World, loss: Loss)
    requires Safe(c, w, loss)
    ensures Safe(c, w.SyncStates(c), loss) && Safe(c, w.SyncSeals(c), loss)
  {
    hide Unlocks, Hazard;
    forall g, w' | (w' == w.SyncStates(c) || w' == w.SyncSeals(c)) && Leaves(c, w', loss, g)
      ensures Leaves(c, w, loss, g)
    {
      if g != w.Visible() {
        var i, j :| 0 <= i < |w'.folders| && 0 <= j < |w'.folders| && ComesBack(c, w', loss, g, i, j);
        assert ComesBack(c, w, loss, g, i, j);
      }
    }
  }

  /** Power loss leaves a settled pair of files. */
  lemma LossSafe(c: Config, w: World, loss: Loss, g: Folder, clock: nat)
    requires Safe(c, w, loss) && Leaves(c, w, loss, g)
    ensures Safe(c, Start(g, clock), loss)
  {
    StartSafe(c, g, clock, loss);
  }

  // ---- Writing state -----------------------------------------------------

  /** State written outside a hazard, beside one seal file. */
  lemma WrittenOk(c: Config, loss: Loss, now: Folder, g: Folder, seal: Seal, candidate: State)
    requires IsCurrent(c, now, seal) && StateOk(candidate) && Fresh(c, g) && Fresh(c, now)
    requires Unlocks(c, g) && !Hazard(c, g, loss) && !Hazard(c, now, loss)
    requires now.seal.Some? && g.seal.Some? ==> SealSettles(now.seal, g.seal) || g.seal == now.seal
    requires c.env.None? ==> g.seal.Some? ==> now.seal.Some?
    requires loss == NoLoss ==> g.seal == now.seal
    ensures var after := g.(state := Some(StateFile(seal, candidate))); Unlocks(c, after) && !Hazard(c, after, loss)
  {
    hide StateOk;
  }

  lemma StateSafe(c: Config, w: World, loss: Loss, seal: Seal, candidate: State)
    requires Safe(c, w, loss) && IsCurrent(c, w.Visible(), seal) && StateOk(candidate) && Fresh(c, w.Visible())
    ensures Safe(c, w.Enter(w.Visible().(state := Some(StateFile(seal, candidate)))), loss)
  {
    hide StateOk, Unlocks, Hazard, IsCurrent, Leaves;
    var now := w.Visible();
    var file := StateFile(seal, candidate);
    var w' := w.Enter(now.(state := Some(file)));
    VisibleLeft(c, w, loss);
    forall g | Leaves(c, w', loss, g)
      ensures Unlocks(c, g) && !Hazard(c, g, loss)
    {
      if !Leaves(c, w, loss, g) {
        StateOutcome(c, w, loss, file, g);
        var before := g.(state := now.state);
        SealOutcome(c, w, loss, before);
        WrittenOk(c, loss, now, before, seal, candidate);
        assert before.(state := Some(file)) == g;
      }
    }
  }

  lemma VisibleLeft(c: Config, w: World, loss: Loss)
    requires |w.folders| > 0
    ensures Leaves(c, w, loss, w.Visible())
  {
  }

  /** The seal file a crash may leave, compared with the visible one. */
  lemma SealOutcome(c: Config, w: World, loss: Loss, g: Folder)
    requires w.Valid(c) && Leaves(c, w, loss, g)
    ensures var now := w.Visible();
            && (now.seal.Some? && g.seal.Some? ==> SealSettles(now.seal, g.seal) || g.seal == now.seal)
            && (c.env.None? ==> g.seal.Some? ==> now.seal.Some?)
            && (loss == NoLoss ==> g.seal == now.seal)
  {
  }

  /** What a crash may leave after state was written: what it could leave
      before, or that with the new state. */
  lemma StateOutcome(c: Config, w: World, loss: Loss, file: StateFile, g: Folder)
    requires w.Valid(c) && Leaves(c, w.Enter(w.Visible().(state := Some(file))), loss, g)
    ensures Leaves(c, w, loss, g) || (g.state == Some(file) && Leaves(c, w, loss, g.(state := w.Visible().state)))
  {
    var w', n := w.Enter(w.Visible().(state := Some(file))), |w.folders|;
    if g != w'.Visible() {
      var i, j :| 0 <= i < |w'.folders| && 0 <= j < |w'.folders| && ComesBack(c, w', loss, g, i, j);
      var j' := if j == n then n - 1 else j;
      if i == n {
        assert ComesBack(c, w, loss, g.(state := w.Visible().state), n - 1, j');
      } else {
        assert ComesBack(c, w, loss, g, i, j');
      }
    }
  }

  // ---- Removing the seal file --------------------------------------------

  lemma DropSafe(c: Config, w: World, loss: Loss)
    requires Safe(c, w, loss) && c.env.Some?
    requires HasState(c, w.Visible()) ==> w.Visible().state.value.seal == c.env.value
    ensures Safe(c, w.Enter(w.Visible().(seal := None)), loss)
  {
    hide StateOk, Unlocks, Hazard, Leaves;
    var now := w.Visible();
    var w' := w.Enter(now.(seal := None));
    VisibleLeft(c, w, loss);
    forall g | Leaves(c, w', loss, g)
      ensures Unlocks(c, g) && !Hazard(c, g, loss)
    {
      if !Leaves(c, w, loss, g) {
        var before := DropOutcome(c, w, loss, g);
        DroppedOk(c, loss, before, g);
      }
    }
  }

  lemma DroppedOk(c: Config, loss: Loss, before: Folder, g: Folder)
    requires Unlocks(c, before) && !Hazard(c, before, loss) && c.env.Some? && g == before.(seal := None)
    requires before.seal.Some? && !Separate(c, loss) ==> (HasState(c, g) ==> g.state.value.seal == c.env.value)
    ensures Unlocks(c, g) && !Hazard(c, g, loss)
  {
    hide StateOk;
  }

  lemma DropOutcome(c: Config, w: World, loss: Loss, g: Folder) returns (before: Folder)
    requires w.Valid(c) && Leaves(c, w.Enter(w.Visible().(seal := None)), loss, g) && !Leaves(c, w, loss, g)
    ensures Leaves(c, w, loss, before) && g == before.(seal := None)
    ensures !Separate(c, loss) ==> g.state == w.Visible().state
  {
    var w', n := w.Enter(w.Visible().(seal := None)), |w.folders|;
    if g == w'.Visible() {
      before := w.Visible();
    } else {
      var i, j :| 0 <= i < |w'.folders| && 0 <= j < |w'.folders| && ComesBack(c, w', loss, g, i, j);
      var i' := if i == n then n - 1 else i;
      if j == n {
        var settled := Settled(w.Visible().seal);
        before := Folder(g.state, settled);
        assert ComesBack(c, w, loss, before, i', n - 1);
      } else {
        assert ComesBack(c, w, loss, g, i', j);
        before := g;
      }
    }
  }

  /** What power loss may always leave of a seal file. */
  function Settled(file: Option<SealFile>): (r: Option<SealFile>)
    ensures SealSettles(file, r)
  {
    if file.Some? && file.value.Key? then Some(Key(file.value.seal, true)) else file
  }
}
