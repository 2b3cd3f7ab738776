/**
 The registry of attached roots (`src/daemon/vault_registry.rs`): lookups, replaced directories,
 dying vaults and `close`, all interleaved with the attach protocol of every vault.
 */
module RootsRegistry {
  import opened Wrappers
  import opened VaultViews
  import opened AttachProtocol
  import opened AttachTheorems

  type VaultId = nat

  /** A directory as an open handle sees it: its canonical path and its identity. */
  datatype Root = Root(path: string, dir: nat)

  /** `alive` is a positive strong count. */
  datatype Entry = Entry(root: Root, alive: bool, vault: Vault)

  datatype Closer = Open | Flagged | Retiring(rest: set<VaultId>) | Returned

  datatype Registry = Registry(roots: map<string, VaultId>, vaults: map<VaultId, Entry>, closer: Closer) {
    predicate Closed() { !closer.Open? }
  }

  const INITIAL := Registry(map[], map[], Open)

  datatype Step =
    | Lookup(first: Root, second: Root, create: bool, newVault: VaultId)
    | OnVault(v: VaultId, a: Action)
    | SetClosed
    | SnapshotRoots
    | RetireOne(v: VaultId)
    | CloseReturns
    | Die(v: VaultId)
    | Cleanup(v: VaultId)

  ghost predicate Allowed(r: Registry, s: Step) {
    match s
    case Lookup(_, _, _, newVault) => newVault !in r.vaults && (forall p :: p in r.roots ==> r.roots[p] in r.vaults)
    case OnVault(v, a) =>
      && v in r.vaults && r.vaults[v].alive
      && Enabled(r.vaults[v].vault, a)
      && !a.RevokeAll? && !a.Replace?
      && (a.ReserveScope? ==> a.closed == r.Closed() && forall u :: u in r.vaults ==> a.freshId !in r.vaults[u].vault.known)
    case SetClosed => r.closer.Open?
    case SnapshotRoots => r.closer.Flagged?
    case RetireOne(v) => r.closer.Retiring? && v in r.closer.rest && v in r.vaults
    case CloseReturns => r.closer.Retiring? && r.closer.rest == {}
    case Die(v) => v in r.vaults && r.vaults[v].alive && r.vaults[v].vault.tasks == map[] && r.vaults[v].vault.outstanding == {}
    case Cleanup(v) => v in r.vaults && !r.vaults[v].alive
  }

  ghost function WithVault(r: Registry, v: VaultId, a: Action): Registry
    requires v in r.vaults && Enabled(r.vaults[v].vault, a)
  {
    r.(vaults := r.vaults[v := r.vaults[v].(vault := Apply(r.vaults[v].vault, a))])
  }

  /** The vault a path leads to, when its weak entry can still be upgraded. */
  function Upgrade(r: Registry, path: string): Option<VaultId>
    requires forall p :: p in r.roots ==> r.roots[p] in r.vaults
  {
    if path in r.roots && r.vaults[r.roots[path]].alive then Some(r.roots[path]) else None
  }

  /** `lookup_root`: `first` was opened before the table was locked, `second` under the lock. */
  ghost function LookupRoot(r: Registry, first: Root, second: Root, create: bool, newVault: VaultId): (Registry, Option<VaultId>)
    requires forall p :: p in r.roots ==> r.roots[p] in r.vaults
  {
    if r.Closed() then (r, None)
    else
      var previous := Upgrade(r, first.path);
      if previous.Some? && r.vaults[previous.value].root.dir == first.dir then (r, previous)
      else if previous.None? && !create then (r, None)
      else if second != first then (r, None)
      else
        var r1 := if previous.Some? then WithVault(r, previous.value, Replace).(roots := r.roots - {first.path}) else r;
        if !create then (r1, None)
        else (r1.(roots := r1.roots[first.path := newVault],
                  vaults := r1.vaults[newVault := Entry(first, true, Empty(first.path))]), Some(newVault))
  }

  ghost function Take(r: Registry, s: Step): Registry
    requires Allowed(r, s)
  {
    match s
    case Lookup(first, second, create, newVault) => LookupRoot(r, first, second, create, newVault).0
    case OnVault(v, a) => WithVault(r, v, a)
    case SetClosed => r.(closer := Flagged)
    case SnapshotRoots => r.(closer := Retiring(set v | v in r.roots.Values && v in r.vaults && r.vaults[v].alive))
    case RetireOne(v) => WithVault(r, v, RevokeAll).(closer := Retiring(r.closer.rest - {v}))
    case CloseReturns => r.(closer := Returned)
    case Die(v) => r.(vaults := r.vaults[v := r.vaults[v].(alive := false)])
    case Cleanup(v) =>
      var path := r.vaults[v].root.path;
      if path in r.roots && r.roots[path] == v then r.(roots := r.roots - {path}) else r
  }

  // ---------------------------------------------------------------------------------------
  // Invariant
  // ---------------------------------------------------------------------------------------

  ghost predicate EntryOk(r: Registry, v: VaultId)
    requires v in r.vaults
  {
    var e := r.vaults[v];
    && Inv(e.vault) && e.vault.root == e.root.path
    && (!e.alive ==> e.vault.tasks == map[] && e.vault.outstanding == {})
    && (e.alive && !e.vault.world.views.replaced ==> e.root.path in r.roots && r.roots[e.root.path] == v)
  }

  ghost predicate RootsOk(r: Registry) {
    forall p :: p in r.roots ==>
      && r.roots[p] in r.vaults
      && r.vaults[r.roots[p]].root.path == p
      && !r.vaults[r.roots[p]].vault.world.views.replaced
  }

  /** An id is issued by one vault only. */
  ghost predicate IdsOk(r: Registry) {
    forall u, v, h :: u in r.vaults && v in r.vaults && h in r.vaults[u].vault.issued && h in r.vaults[v].vault.issued ==> u == v
  }

  /** Once the roots were listed, only the vaults still on the list may hold anything. */
  ghost predicate CloserOk(r: Registry) {
    forall v :: v in r.vaults && v in Done(r) ==> r.vaults[v].vault.world.views.scopes == map[]
  }

  ghost function Done(r: Registry): set<VaultId> {
    match r.closer
    case Open => {}
    case Flagged => {}
    case Retiring(rest) => r.vaults.Keys - rest
    case Returned => r.vaults.Keys
  }

  ghost predicate RegistryInv(r: Registry) {
    && (forall v :: v in r.vaults ==> EntryOk(r, v))
    && RootsOk(r) && IdsOk(r) && CloserOk(r)
  }

  /** Without an undropped grant there is no scope. */
  lemma NoGrantsNoScopes(v: Vault)
    requires Inv(v) && v.outstanding == {}
    ensures v.world.views.scopes == map[]
  {
    forall s, h ensures !LiveIn(v.world.views, s, h) {
      assert LiveIn(v.world.views, s, h) ==> HolderOk(v, s, h);
    }
    forall s ensures s !in v.world.views.scopes {
      assert forall h :: !LiveIn(v.world.views, s, h);
      assert s in v.world.views.scopes ==> forall h :: h in v.world.views.scopes[s].holders ==> LiveIn(v.world.views, s, h);
    }
  }

  lemma ReplacedSticks(v: Vault, a: Action)
    requires Enabled(v, a) && v.world.views.replaced
    ensures Apply(v, a).world.views.replaced
  {
    if !TouchesWorld(a) {
      QuietStep(v, a);
    }
  }

  lemma OnlyReplaceReplaces(v: Vault, a: Action)
    requires Enabled(v, a) && !a.Replace? && !v.world.views.replaced
    ensures !Apply(v, a).world.views.replaced
  {
    if !TouchesWorld(a) {
      QuietStep(v, a);
    }
  }

  /** With the registry closed, no step of a vault gives it a scope it did not have. */
  lemma ClosedVaultGainsNothing(v: Vault, a: Action)
    requires Enabled(v, a) && v.world.views.scopes == map[] && (a.ReserveScope? ==> a.closed)
    ensures Apply(v, a).world.views.scopes == map[]
  {
    if !TouchesWorld(a) {
      QuietStep(v, a);
    }
  }

  lemma IssuesOnlyFresh(v: Vault, a: Action, h: HolderId)
    requires Enabled(v, a) && h in Apply(v, a).issued && h !in v.issued
    ensures a.ReserveScope? && h == a.freshId
  {
  }

  ghost function Swap(r: Registry, v: VaultId, vault: Vault): Registry
    requires v in r.vaults
  {
    r.(vaults := r.vaults[v := r.vaults[v].(vault := vault)])
  }

  lemma SwapKeepsTables(r: Registry, v: VaultId, vault: Vault)
    requires RegistryInv(r) && v in r.vaults
    requires vault.world.views.replaced == r.vaults[v].vault.world.views.replaced
    requires forall u, h :: u in r.vaults && u != v && h in vault.issued ==> h !in r.vaults[u].vault.issued
    requires v in Done(r) ==> vault.world.views.scopes == map[]
    ensures RootsOk(Swap(r, v, vault)) && IdsOk(Swap(r, v, vault)) && CloserOk(Swap(r, v, vault))
  {
    hide EntryOk;
  }

  /** Putting a vault's next state in place, given what that state must satisfy on its own. */
  lemma SwapKeepsInv(r: Registry, v: VaultId, vault: Vault)
    requires RegistryInv(r) && v in r.vaults
    requires Inv(vault) && vault.root == r.vaults[v].vault.root
    requires r.vaults[v].alive || (vault.tasks == map[] && vault.outstanding == {})
    requires vault.world.views.replaced == r.vaults[v].vault.world.views.replaced
    requires forall u, h :: u in r.vaults && u != v && h in vault.issued ==> h !in r.vaults[u].vault.issued
    requires v in Done(r) ==> vault.world.views.scopes == map[]
    ensures RegistryInv(Swap(r, v, vault))
  {
    hide Inv;
    var r' := Swap(r, v, vault);
    assert EntryOk(r, v);
    forall u | u in r'.vaults ensures EntryOk(r', u) {
      assert EntryOk(r, u);
    }
    SwapKeepsTables(r, v, vault);
    hide EntryOk, RootsOk, IdsOk, CloserOk;
  }

  lemma VaultStepKeepsInv(r: Registry, v: VaultId, a: Action)
    requires RegistryInv(r) && Allowed(r, OnVault(v, a))
    ensures RegistryInv(WithVault(r, v, a))
  {
    hide Inv;
    var vault := r.vaults[v].vault;
    var vault' := Apply(vault, a);
    assert EntryOk(r, v);
    StepKeepsInv(vault, a);
    if vault.world.views.replaced {
      ReplacedSticks(vault, a);
    } else {
      OnlyReplaceReplaces(vault, a);
    }
    if v in Done(r) {
      ClosedVaultGainsNothing(vault, a);
    }
    forall u, h | u in r.vaults && u != v && h in vault'.issued ensures h !in r.vaults[u].vault.issued {
      if h !in vault.issued {
        IssuesOnlyFresh(vault, a, h);
        IssuedIsKnown(r, u);
      }
    }
    RootStays(vault, a);
    SwapKeepsInv(r, v, vault');
  }

  lemma IssuedIsKnown(r: Registry, u: VaultId)
    requires RegistryInv(r) && u in r.vaults
    ensures r.vaults[u].vault.issued.Keys <= r.vaults[u].vault.known
  {
    assert EntryOk(r, u);
  }

  lemma RootStays(v: Vault, a: Action)
    requires Enabled(v, a)
    ensures Apply(v, a).root == v.root
  {
  }

  /** Replacing a directory: its vault loses everything, and its table entry with it. */
  lemma ReplaceKeepsInv(r: Registry, v: VaultId)
    requires RegistryInv(r) && v in r.vaults && r.vaults[v].alive && r.vaults[v].root.path in r.roots && r.roots[r.vaults[v].root.path] == v
    ensures RegistryInv(WithVault(r, v, Replace).(roots := r.roots - {r.vaults[v].root.path}))
  {
    hide Inv;
    var vault := r.vaults[v].vault;
    var vault' := Apply(vault, Replace);
    var r' := WithVault(r, v, Replace).(roots := r.roots - {r.vaults[v].root.path});
    assert EntryOk(r, v);
    StepKeepsInv(vault, Replace);
    forall u | u in r'.vaults ensures EntryOk(r', u) {
      assert EntryOk(r, u);
    }
  }

  function Enrolled(r: Registry, root: Root, v: VaultId): Registry {
    r.(roots := r.roots[root.path := v], vaults := r.vaults[v := Entry(root, true, Empty(root.path))])
  }

  lemma EnrolKeepsTables(r: Registry, root: Root, v: VaultId)
    requires RegistryInv(r) && v !in r.vaults && !r.Closed()
    ensures RootsOk(Enrolled(r, root, v)) && IdsOk(Enrolled(r, root, v)) && CloserOk(Enrolled(r, root, v))
  {
    hide EntryOk;
  }

  lemma EnrolKeepsInv(r: Registry, root: Root, v: VaultId)
    requires RegistryInv(r) && v !in r.vaults && !r.Closed()
    requires root.path in r.roots ==> !r.vaults[r.roots[root.path]].alive
    ensures RegistryInv(Enrolled(r, root, v))
  {
    hide Inv, IdsOk, CloserOk;
    var r' := Enrolled(r, root, v);
    EmptyOk(root.path);
    forall u | u in r'.vaults ensures EntryOk(r', u) {
      assert u in r.vaults ==> EntryOk(r, u);
    }
    EnrolKeepsTables(r, root, v);
    hide RootsOk, EntryOk;
  }

  lemma LookupKeepsInv(r: Registry, first: Root, second: Root, create: bool, newVault: VaultId)
    requires RegistryInv(r) && Allowed(r, Lookup(first, second, create, newVault))
    ensures RegistryInv(Take(r, Lookup(first, second, create, newVault)))
  {
    hide Inv, Apply;
    var previous := Upgrade(r, first.path);
    var inert := r.Closed() || (previous.Some? && r.vaults[previous.value].root.dir == first.dir) || (previous.None? && !create) || second != first;
    if !inert {
      var r1 := r;
      if previous.Some? {
        ReplaceKeepsInv(r, previous.value);
        r1 := WithVault(r, previous.value, Replace).(roots := r.roots - {first.path});
      }
      if create {
        EnrolKeepsInv(r1, first, newVault);
      }
    }
  }

  /** A vault outside the table, or dead, or replaced holds nothing. */
  lemma UnlistedHoldsNothing(r: Registry, u: VaultId)
    requires RegistryInv(r) && u in r.vaults && !(u in r.roots.Values && r.vaults[u].alive)
    ensures r.vaults[u].vault.world.views.scopes == map[]
  {
    assert EntryOk(r, u);
    var e := r.vaults[u];
    if e.alive {
      assert forall p :: p in r.roots ==> r.roots[p] in r.roots.Values;
      assert ScopesOk(e.vault);
    } else {
      NoGrantsNoScopes(e.vault);
    }
  }

  lemma CloseKeepsInv(r: Registry, s: Step)
    requires RegistryInv(r) && Allowed(r, s) && (s.SetClosed? || s.SnapshotRoots? || s.CloseReturns?)
    ensures RegistryInv(Take(r, s))
  {
    hide Inv;
    var r' := Take(r, s);
    forall u | u in r'.vaults ensures EntryOk(r', u) {
      assert EntryOk(r, u);
    }
    if s.SnapshotRoots? {
      forall u | u in Done(r') ensures r'.vaults[u].vault.world.views.scopes == map[] {
        UnlistedHoldsNothing(r, u);
      }
    }
  }

  lemma RetireOneKeepsInv(r: Registry, v: VaultId)
    requires RegistryInv(r) && Allowed(r, RetireOne(v))
    ensures RegistryInv(Take(r, RetireOne(v)))
  {
    hide Inv;
    var vault := r.vaults[v].vault;
    assert EntryOk(r, v);
    StepKeepsInv(vault, RevokeAll);
    SwapKeepsInv(r, v, Apply(vault, RevokeAll));
    var swapped := Swap(r, v, Apply(vault, RevokeAll));
    var r' := Take(r, RetireOne(v));
    forall u | u in r'.vaults ensures EntryOk(r', u) {
      assert EntryOk(swapped, u);
    }
  }

  lemma VaultDies(r: Registry, v: VaultId)
    requires RegistryInv(r) && Allowed(r, Die(v))
    ensures RegistryInv(Take(r, Die(v)))
  {
    hide Inv;
    assert RootsOk(Take(r, Die(v))) && IdsOk(Take(r, Die(v))) && CloserOk(Take(r, Die(v))) by {
      hide EntryOk;
    }
    hide RootsOk, IdsOk, CloserOk;
    var r' := Take(r, Die(v));
    forall u | u in r'.vaults ensures EntryOk(r', u) {
      assert EntryOk(r, u);
    }
  }

  lemma VaultIsCleanedUp(r: Registry, v: VaultId)
    requires RegistryInv(r) && Allowed(r, Cleanup(v))
    ensures RegistryInv(Take(r, Cleanup(v)))
  {
    hide Inv;
    var r' := Take(r, Cleanup(v));
    forall u | u in r'.vaults ensures EntryOk(r', u) {
      assert EntryOk(r, u);
    }
  }

  lemma DeathKeepsInv(r: Registry, s: Step)
    requires RegistryInv(r) && Allowed(r, s) && (s.Die? || s.Cleanup?)
    ensures RegistryInv(Take(r, s))
  {
    hide Inv;
    if s.Die? {
      VaultDies(r, s.v);
    } else {
      VaultIsCleanedUp(r, s.v);
    }
  }

  lemma TakeKeepsInv(r: Registry, s: Step)
    requires RegistryInv(r) && Allowed(r, s)
    ensures RegistryInv(Take(r, s))
  {
    hide Inv, Apply;
    match s
    case Lookup(first, second, create, newVault) => LookupKeepsInv(r, first, second, create, newVault);
    case OnVault(v, a) => VaultStepKeepsInv(r, v, a);
    case Die(_) => DeathKeepsInv(r, s);
    case Cleanup(_) => DeathKeepsInv(r, s);
    case RetireOne(v) => RetireOneKeepsInv(r, v);
    case _ => CloseKeepsInv(r, s);
  }

  // ---------------------------------------------------------------------------------------
  // Runs
  // ---------------------------------------------------------------------------------------

  /** Every interleaving of the steps from the empty registry; `steps[i]` leads from `states[i]` to `states[i + 1]`. */
  ghost predicate Run(states: seq<Registry>, steps: seq<Step>) {
    && |states| == |steps| + 1
    && states[0] == INITIAL
    && forall i :: 0 <= i < |steps| ==> Allowed(states[i], steps[i]) && states[i + 1] == Take(states[i], steps[i])
  }

  lemma {:induction false} RunKeepsInv(states: seq<Registry>, steps: seq<Step>, i: nat)
    requires Run(states, steps) && i < |states|
    ensures RegistryInv(states[i])
  {
    hide Inv, Take, Allowed;
    if i > 0 {
      RunKeepsInv(states, steps, i - 1);
      TakeKeepsInv(states[i - 1], steps[i - 1]);
    }
  }

  ghost predicate LiveAt(r: Registry, v: VaultId, h: HolderId) {
    v in r.vaults && Live(r.vaults[v].vault.world.views, h)
  }

  ghost predicate Resolves(r: Registry, v: VaultId, h: HolderId, c: CtxId) {
    v in r.vaults && ContextOf(r.vaults[v].vault.world.views, h) == Some(c)
  }

  ghost predicate KnownAt(r: Registry, v: VaultId, h: HolderId) {
    v in r.vaults && h in r.vaults[v].vault.known
  }

  lemma EmptyScopesMeanNoHolder(v: Views, h: HolderId)
    requires v.scopes == map[]
    ensures !Live(v, h)
  {
  }

  lemma LiveIsKnown(r: Registry, v: VaultId, h: HolderId)
    requires RegistryInv(r) && LiveAt(r, v, h)
    ensures KnownAt(r, v, h) && h in r.vaults[v].vault.issued
  {
    assert EntryOk(r, v);
    var s := ByHolder(r.vaults[v].vault.world.views, h).value;
    assert HolderOk(r.vaults[v].vault, s, h);
  }

  /** One step of the registry changes a vault by one step of its protocol or not at all. */
  lemma VaultMoves(r: Registry, s: Step, v: VaultId)
    requires RegistryInv(r) && Allowed(r, s) && v in r.vaults
    ensures v in Take(r, s).vaults
    ensures Take(r, s).vaults[v].root == r.vaults[v].root
    ensures || Take(r, s).vaults[v].vault == r.vaults[v].vault
            || exists a :: Enabled(r.vaults[v].vault, a) && Take(r, s).vaults[v].vault == Apply(r.vaults[v].vault, a)
  {
    hide Inv, Apply;
    assert Enabled(r.vaults[v].vault, Replace) && Enabled(r.vaults[v].vault, RevokeAll);
  }

  lemma WithdrawnStepStays(r: Registry, s: Step, v: VaultId, h: HolderId)
    requires RegistryInv(r) && Allowed(r, s) && KnownAt(r, v, h) && !LiveAt(r, v, h)
    ensures KnownAt(Take(r, s), v, h) && !LiveAt(Take(r, s), v, h)
  {
    hide Inv, Apply, Enabled;
    assert EntryOk(r, v);
    VaultMoves(r, s, v);
    var vault, vault' := r.vaults[v].vault, Take(r, s).vaults[v].vault;
    if vault' != vault {
      var a :| Enabled(vault, a) && vault' == Apply(vault, a);
      WithdrawnStaysWithdrawn(vault, a, h);
    }
  }

  /** On every run, a holder id that was withdrawn never becomes live again. */
  lemma {:induction false} WithdrawnForever(states: seq<Registry>, steps: seq<Step>, i: nat, j: nat, v: VaultId, h: HolderId)
    requires Run(states, steps) && i <= j < |states|
    requires KnownAt(states[i], v, h) && !LiveAt(states[i], v, h)
    ensures KnownAt(states[j], v, h) && !LiveAt(states[j], v, h)
  {
    hide Inv, Take, Allowed, RegistryInv;
    if i < j {
      WithdrawnForever(states, steps, i, j - 1, v, h);
      RunKeepsInv(states, steps, j - 1);
      WithdrawnStepStays(states[j - 1], steps[j - 1], v, h);
    }
  }

  /**
   A connection whose attach was given a new grant drops the old one later, whenever the attach returned. In every state
   from the reservation on, the old holder is not live, and dropping its grant changes nothing.
   */
  lemma SupersededForever(states: seq<Registry>, steps: seq<Step>, i: nat, j: nat, v: VaultId, a: Action, g: Grant)
    requires Run(states, steps) && i < j < |states| && steps[i] == OnVault(v, a)
    requires a.ReserveScope? && a.t in states[i].vaults[v].vault.tasks && states[i].vaults[v].vault.tasks[a.t].current == Some(g)
    requires a.freshId in states[i + 1].vaults[v].vault.issued
    ensures v in states[j].vaults && !LiveAt(states[j], v, g.id)
    ensures DropGrant(states[j].vaults[v].vault.world, g) == states[j].vaults[v].vault.world
  {
    RunKeepsInv(states, steps, i);
    hide Inv, Apply, Enabled, DropGrant;
    assert EntryOk(states[i], v);
    SupersededDropIsInert(states[i].vaults[v].vault, a, g);
    WithdrawnForever(states, steps, i + 1, j, v, g.id);
    DeadDropIsInert(states[j].vaults[v].vault.world, g);
  }

  lemma ContextStepStays(r: Registry, s: Step, v: VaultId, h: HolderId, c: CtxId)
    requires RegistryInv(r) && Allowed(r, s) && Resolves(r, v, h, c) && LiveAt(Take(r, s), v, h)
    ensures Resolves(Take(r, s), v, h, c)
  {
    hide Inv, Apply, Enabled;
    assert EntryOk(r, v);
    LiveIsKnown(r, v, h);
    VaultMoves(r, s, v);
    var vault, vault' := r.vaults[v].vault, Take(r, s).vaults[v].vault;
    if vault' != vault {
      var a :| Enabled(vault, a) && vault' == Apply(vault, a);
      ContextNeverSwapped(vault, a, h);
    }
  }

  /** What a holder resolves to is usable: active, not retired, and at least as strict as the current floor. */
  ghost predicate Usable(r: Registry, v: VaultId, c: CtxId) {
    && v in r.vaults && c in r.vaults[v].vault.world.ctxs
    && var w := r.vaults[v].vault.world;
    && w.ctxs[c].activated && !w.ctxs[c].retired
    && w.views.floor.Some? && w.views.floor.value <= w.ctxs[c].exclude
  }

  lemma ResolvedIsUsable(r: Registry, v: VaultId, h: HolderId, c: CtxId)
    requires RegistryInv(r) && Resolves(r, v, h, c)
    ensures LiveAt(r, v, h) && Usable(r, v, c)
  {
    assert EntryOk(r, v);
    ResolvedContextIsSound(r.vaults[v].vault, h);
  }

  /**
   A query checks its holder before and after it runs. If both checks succeed, the holder was live
   the whole time, in one vault, on one context that was usable in every state between the checks.
   */
  lemma {:induction false} SearchWasAuthorized(states: seq<Registry>, steps: seq<Step>, i: nat, k: nat, j: nat,
                                               v: VaultId, v': VaultId, h: HolderId, c: CtxId, c': CtxId)
    requires Run(states, steps) && i <= k <= j < |states|
    requires Resolves(states[i], v, h, c) && Resolves(states[j], v', h, c')
    ensures v == v' && c == c'
    ensures Resolves(states[k], v, h, c) && Usable(states[k], v, c)
  {
    HolderKeepsVault(states, steps, i, j, v, v', h, c, c');
    ContextHolds(states, steps, i, j, j, v, h, c);
    ContextHolds(states, steps, i, k, j, v, h, c);
    RunKeepsInv(states, steps, k);
    ResolvedIsUsable(states[k], v, h, c);
  }

  lemma HolderKeepsVault(states: seq<Registry>, steps: seq<Step>, i: nat, j: nat, v: VaultId, v': VaultId, h: HolderId, c: CtxId, c': CtxId)
    requires Run(states, steps) && i <= j < |states|
    requires Resolves(states[i], v, h, c) && Resolves(states[j], v', h, c')
    ensures v == v'
  {
    RunKeepsInv(states, steps, i);
    RunKeepsInv(states, steps, j);
    LiveIsKnown(states[i], v, h);
    LiveIsKnown(states[j], v', h);
    PromiseStands(states, steps, i, j, v, h);
  }

  lemma {:induction false} ContextHolds(states: seq<Registry>, steps: seq<Step>, i: nat, k: nat, j: nat, v: VaultId, h: HolderId, c: CtxId)
    requires Run(states, steps) && i <= k <= j < |states|
    requires Resolves(states[i], v, h, c) && LiveAt(states[j], v, h)
    ensures Resolves(states[k], v, h, c)
  {
    hide Inv, Take, Allowed, RegistryInv;
    if i < k {
      ContextHolds(states, steps, i, k - 1, j, v, h, c);
      RunKeepsInv(states, steps, k - 1);
      LiveIsKnown(states[k - 1], v, h);
      if !LiveAt(states[k], v, h) {
        KnownStepStays(states[k - 1], steps[k - 1], v, h);
        WithdrawnForever(states, steps, k, j, v, h);
        assert false;
      }
      ContextStepStays(states[k - 1], steps[k - 1], v, h, c);
    }
  }

  lemma KnownStepStays(r: Registry, s: Step, v: VaultId, h: HolderId)
    requires RegistryInv(r) && Allowed(r, s) && KnownAt(r, v, h)
    ensures KnownAt(Take(r, s), v, h)
  {
    hide Inv, Apply, Enabled;
    assert EntryOk(r, v);
    VaultMoves(r, s, v);
    var vault, vault' := r.vaults[v].vault, Take(r, s).vaults[v].vault;
    if vault' != vault {
      var a :| Enabled(vault, a) && vault' == Apply(vault, a);
      StepHistory(vault, a);
    }
  }

  ghost predicate DoomedAt(r: Registry, v: VaultId, c: CtxId) {
    v in r.vaults && Doomed(r.vaults[v].vault, c)
  }

  lemma DoomedStepStays(r: Registry, s: Step, v: VaultId, c: CtxId)
    requires RegistryInv(r) && Allowed(r, s) && DoomedAt(r, v, c)
    ensures DoomedAt(Take(r, s), v, c)
  {
    hide Inv, Apply, Enabled, Doomed;
    assert EntryOk(r, v);
    VaultMoves(r, s, v);
    var vault, vault' := r.vaults[v].vault, Take(r, s).vaults[v].vault;
    if vault' != vault {
      var a :| Enabled(vault, a) && vault' == Apply(vault, a);
      DoomedStaysDoomed(vault, a, c);
    }
  }

  lemma DoomedNeverResolves(r: Registry, v: VaultId, h: HolderId, c: CtxId)
    requires DoomedAt(r, v, c)
    ensures !Resolves(r, v, h, c)
  {
    var views := r.vaults[v].vault.world.views;
    assert ContextOf(views, h) == Some(c) ==> Publishes(views, ByHolder(views, h).value, c);
  }

  /** On every run, a context built for a revoked holder is never activated and no holder ever resolves to it. */
  lemma {:induction false} DoomedForever(states: seq<Registry>, steps: seq<Step>, i: nat, j: nat, v: VaultId, c: CtxId, h: HolderId)
    requires Run(states, steps) && i <= j < |states| && DoomedAt(states[i], v, c)
    ensures DoomedAt(states[j], v, c)
    ensures c in states[j].vaults[v].vault.world.ctxs && !states[j].vaults[v].vault.world.ctxs[c].activated
    ensures !Resolves(states[j], v, h, c)
  {
    hide Inv, Take, Allowed, RegistryInv, Resolves;
    if i < j {
      DoomedForever(states, steps, i, j - 1, v, c, h);
      RunKeepsInv(states, steps, j - 1);
      DoomedStepStays(states[j - 1], steps[j - 1], v, c);
    }
    DoomedNeverResolves(states[j], v, h, c);
  }

  /** Once `close` returned, no holder of any vault is ever live again, whatever the attaches in flight do. */
  lemma {:induction false} ClosedForever(states: seq<Registry>, steps: seq<Step>, i: nat, j: nat, v: VaultId, h: HolderId)
    requires Run(states, steps) && i <= j < |states| && states[i].closer.Returned?
    ensures states[j].closer.Returned? && !LiveAt(states[j], v, h)
  {
    hide Inv, Take, Allowed;
    RunKeepsInv(states, steps, j);
    if i < j {
      ClosedForever(states, steps, i, j - 1, v, h);
      ReturnedStays(states[j - 1], steps[j - 1]);
    }
    if v in states[j].vaults {
      EmptyScopesMeanNoHolder(states[j].vaults[v].vault.world.views, h);
    }
  }

  lemma ReturnedStays(r: Registry, s: Step)
    requires Allowed(r, s) && r.closer.Returned?
    ensures Take(r, s).closer.Returned?
  {
    hide Apply;
  }

  ghost predicate ReplacedAt(r: Registry, v: VaultId) {
    v in r.vaults && r.vaults[v].vault.world.views.replaced
  }

  /** Once a directory was marked replaced, its vault never again has a live holder. */
  lemma {:induction false} ReplacedForever(states: seq<Registry>, steps: seq<Step>, i: nat, j: nat, v: VaultId, h: HolderId)
    requires Run(states, steps) && i <= j < |states| && ReplacedAt(states[i], v)
    ensures ReplacedAt(states[j], v) && !LiveAt(states[j], v, h)
  {
    hide Inv, Take, Allowed, RegistryInv;
    if i < j {
      ReplacedForever(states, steps, i, j - 1, v, h);
      ReplacedStepStays(states, steps, j - 1, v);
    }
    RunKeepsInv(states, steps, j);
    ReplacedHoldsNothing(states[j], v);
    EmptyScopesMeanNoHolder(states[j].vaults[v].vault.world.views, h);
  }

  lemma ReplacedHoldsNothing(r: Registry, v: VaultId)
    requires RegistryInv(r) && ReplacedAt(r, v)
    ensures r.vaults[v].vault.world.views.scopes == map[]
  {
    assert EntryOk(r, v);
    assert ScopesOk(r.vaults[v].vault);
  }

  lemma ReplacedStepStays(states: seq<Registry>, steps: seq<Step>, i: nat, v: VaultId)
    requires Run(states, steps) && i < |steps| && ReplacedAt(states[i], v)
    ensures ReplacedAt(states[i + 1], v)
  {
    RunKeepsInv(states, steps, i);
    hide Inv, Apply, Enabled;
    VaultMoves(states[i], steps[i], v);
    var vault, vault' := states[i].vaults[v].vault, states[i + 1].vaults[v].vault;
    if vault' != vault {
      var a :| Enabled(vault, a) && vault' == Apply(vault, a);
      ReplacedSticks(vault, a);
    }
  }

  /** In every reachable state the table leads to each vault that is alive and not replaced, so `close` and lookups miss none. */
  lemma RootsAreComplete(states: seq<Registry>, steps: seq<Step>, i: nat, v: VaultId)
    requires Run(states, steps) && i < |states| && v in states[i].vaults
    requires states[i].vaults[v].alive && !states[i].vaults[v].vault.world.views.replaced
    ensures states[i].vaults[v].root.path in states[i].roots && states[i].roots[states[i].vaults[v].root.path] == v
  {
    RunKeepsInv(states, steps, i);
    hide Inv;
    assert EntryOk(states[i], v);
  }

  /** A dying vault that cleans up late never removes the entry of a live successor. */
  lemma CleanupSparesSuccessor(r: Registry, v: VaultId, u: VaultId)
    requires RegistryInv(r) && Allowed(r, Cleanup(v)) && u in r.vaults && r.vaults[u].alive
    requires r.vaults[u].root.path in r.roots && r.roots[r.vaults[u].root.path] == u
    ensures Take(r, Cleanup(v)).roots[r.vaults[u].root.path] == u
  {
    hide Inv;
    assert u != v;
  }

  /** A delayed lookup, whose first look no longer matches the directory, neither revokes anything nor enrols anything. */
  lemma DelayedLookupIsInert(r: Registry, first: Root, second: Root, create: bool, newVault: VaultId)
    requires RegistryInv(r) && Allowed(r, Lookup(first, second, create, newVault)) && first != second
    ensures LookupRoot(r, first, second, create, newVault).0 == r
    ensures var found := LookupRoot(r, first, second, create, newVault).1;
            found.Some? ==> r.vaults[found.value].alive && r.vaults[found.value].root == first && !r.vaults[found.value].vault.world.views.replaced
  {
    hide Inv, Apply;
    if first.path in r.roots {
      assert r.vaults[r.roots[first.path]].root.path == first.path;
    }
  }

  /** In every reachable state, a published context watches only if a live holder asked for it. */
  lemma WatcherOnlyIfAskedFor(states: seq<Registry>, steps: seq<Step>, i: nat, v: VaultId, s: ScopeId, c: CtxId)
    requires Run(states, steps) && i < |states| && v in states[i].vaults
    requires Publishes(states[i].vaults[v].vault.world.views, s, c)
    ensures var w := states[i].vaults[v].vault.world;
            c in w.ctxs && (w.ctxs[c].watcher ==> exists h :: LiveIn(w.views, s, h) && w.views.scopes[s].holders[h])
  {
    RunKeepsInv(states, steps, i);
    assert EntryOk(states[i], v);
    var w := states[i].vaults[v].vault.world;
    assert ContextOk(w, s, c);
    if w.ctxs[c].watcher {
      var h :| h in w.views.scopes[s].holders && w.views.scopes[s].holders[h];
      assert LiveIn(w.views, s, h);
    }
  }

  /**
   In every reachable state, the live holders of a scope that finished attaching resolve to one context,
   it watches if any of them asked for that, and each was admitted under the floor that is still in force.
   */
  lemma FinishedHoldersAreServed(states: seq<Registry>, steps: seq<Step>, i: nat, v: VaultId, s: ScopeId, h1: HolderId, h2: HolderId)
    requires Run(states, steps) && i < |states| && v in states[i].vaults
    requires LiveIn(states[i].vaults[v].vault.world.views, s, h1) && LiveIn(states[i].vaults[v].vault.world.views, s, h2)
    requires h1 in states[i].vaults[v].vault.finished && h2 in states[i].vaults[v].vault.finished
    ensures var w := states[i].vaults[v].vault.world;
            && ContextOf(w.views, h1).Some? && ContextOf(w.views, h1) == ContextOf(w.views, h2)
            && Usable(states[i], v, ContextOf(w.views, h1).value)
            && (w.views.scopes[s].holders[h1] || w.views.scopes[s].holders[h2] ==> w.ctxs[ContextOf(w.views, h1).value].watcher)
    ensures var vault := states[i].vaults[v].vault;
            h1 in vault.issued && vault.world.views.floor == Some(vault.issued[h1].floor) && vault.issued[h1].floor <= s.patterns
    ensures var vault := states[i].vaults[v].vault;
            vault.world.ctxs[ContextOf(vault.world.views, h1).value].exclude == vault.world.views.floor.value + vault.issued[h1].rules
  {
    RunKeepsInv(states, steps, i);
    assert EntryOk(states[i], v);
    var vault := states[i].vaults[v].vault;
    FinishedHoldersShare(vault, s, h1, h2);
    FinishedHolderGetsItsRules(vault, s, h1);
    assert HolderOk(vault, s, h1) && HolderOk(vault, s, h2);
    ResolvedIsUsable(states[i], v, h1, ContextOf(vault.world.views, h1).value);
  }

  /**
   `context_for_policy` reads the floor, then looks the scope up under a second lock, provided the floor
   in force is the one it read. Whatever happened in between, what it reports was built under the current
   floor and the caller's rules.
   */
  ghost function ContextForPolicy(before: Views, now: Views, root: string, rules: Patterns): Option<CtxId> {
    if before.floor.None? || now.floor != before.floor then None
    else
      var id := ScopeId(root, before.floor.value + rules);
      if id in now.scopes then now.scopes[id].context else None
  }

  lemma PolicyStatusIsCurrent(states: seq<Registry>, steps: seq<Step>, i: nat, j: nat, v: VaultId, rules: Patterns, c: CtxId)
    requires Run(states, steps) && i <= j < |states| && v in states[i].vaults && v in states[j].vaults
    requires ContextForPolicy(states[i].vaults[v].vault.world.views, states[j].vaults[v].vault.world.views, states[j].vaults[v].root.path, rules) == Some(c)
    ensures Usable(states[j], v, c)
    ensures var w := states[j].vaults[v].vault.world; w.ctxs[c].exclude == w.views.floor.value + rules
  {
    RunKeepsInv(states, steps, j);
    assert EntryOk(states[j], v);
    var w := states[j].vaults[v].vault.world;
    assert Publishes(w.views, ScopeId(states[j].vaults[v].root.path, w.views.floor.value + rules), c);
  }

  /** And it does find what is there: the context that a finished holder with the same rules resolves to, if the floor did not change. */
  lemma PolicyStatusFindsHolders(states: seq<Registry>, steps: seq<Step>, i: nat, j: nat, v: VaultId, h: HolderId)
    requires Run(states, steps) && i <= j < |states| && v in states[i].vaults && LiveAt(states[j], v, h)
    requires h in states[j].vaults[v].vault.finished && h in states[j].vaults[v].vault.issued
    requires states[i].vaults[v].vault.world.views.floor == states[j].vaults[v].vault.world.views.floor
    ensures var vault := states[j].vaults[v].vault;
            && ContextOf(vault.world.views, h).Some?
            && ContextForPolicy(states[i].vaults[v].vault.world.views, vault.world.views, states[j].vaults[v].root.path, vault.issued[h].rules)
                 == ContextOf(vault.world.views, h)
  {
    RunKeepsInv(states, steps, j);
    assert EntryOk(states[j], v);
    var vault := states[j].vaults[v].vault;
    var s := ByHolder(vault.world.views, h).value;
    assert HolderOk(vault, s, h) && s.root == vault.root;
    FinishedHolderGetsItsRules(vault, s, h);
    ContextOfLive(vault, s, h);
    assert s == ScopeId(states[j].vaults[v].root.path, vault.world.views.floor.value + vault.issued[h].rules);
  }

  // ---------------------------------------------------------------------------------------
  // Exactly when
  // ---------------------------------------------------------------------------------------

  /** The first look at a path found a live vault of this very directory. */
  predicate Current(r: Registry, first: Root)
    requires forall p :: p in r.roots ==> r.roots[p] in r.vaults
  {
    first.path in r.roots && r.vaults[r.roots[first.path]].alive && r.vaults[r.roots[first.path]].root.dir == first.dir
  }

  /** This lookup finds another directory where vault `v` was, and both looks agree on that. */
  predicate Supersedes(r: Registry, first: Root, second: Root, v: VaultId) {
    && r.closer.Open? && first == second
    && first.path in r.roots && r.roots[first.path] == v
    && v in r.vaults && r.vaults[v].alive && r.vaults[v].root.dir != first.dir
  }

  /** What a lookup returns, in every case. */
  lemma LooksUpExactly(r: Registry, first: Root, second: Root, create: bool, newVault: VaultId)
    requires RegistryInv(r) && Allowed(r, Lookup(first, second, create, newVault))
    ensures var found := LookupRoot(r, first, second, create, newVault).1;
            && (found.Some? <==> r.closer.Open? && (Current(r, first) || (create && first == second)))
            && (found.Some? ==> found.value == if Current(r, first) then r.roots[first.path] else newVault)
  {
    hide Inv, Apply, EntryOk, RootsOk, IdsOk, CloserOk;
  }

  /** What a lookup does to the vaults: it enrols what it newly returns, marks what it supersedes, and leaves all others alone. */
  lemma LookupChangesVaults(r: Registry, first: Root, second: Root, create: bool, newVault: VaultId)
    requires Allowed(r, Lookup(first, second, create, newVault))
    ensures var (r', found) := LookupRoot(r, first, second, create, newVault);
            var enrols := found.Some? && !Current(r, first);
            && r'.closer == r.closer
            && r'.vaults.Keys == r.vaults.Keys + (if enrols then {newVault} else {})
            && (enrols ==> r'.vaults[newVault] == Entry(first, true, Empty(first.path)))
            && (forall v :: v in r.vaults ==>
                r'.vaults[v] == if Supersedes(r, first, second, v) then r.vaults[v].(vault := Apply(r.vaults[v].vault, Replace)) else r.vaults[v])
  {
    hide Apply;
  }

  /** What a lookup does to the table: the path leads to what it newly enrolled, or no longer to what it superseded. */
  lemma LookupChangesRoots(r: Registry, first: Root, second: Root, create: bool, newVault: VaultId)
    requires Allowed(r, Lookup(first, second, create, newVault))
    ensures var (r', found) := LookupRoot(r, first, second, create, newVault);
            && (forall p :: p != first.path ==> (p in r'.roots <==> p in r.roots) && (p in r.roots ==> r'.roots[p] == r.roots[p]))
            && (if found.Some? && !Current(r, first) then first.path in r'.roots && r'.roots[first.path] == newVault
                else
                  && (first.path in r'.roots <==> first.path in r.roots && !Supersedes(r, first, second, r.roots[first.path]))
                  && (first.path in r'.roots ==> r'.roots[first.path] == r.roots[first.path]))
  {
    hide Apply;
  }

  /** A dead vault's late cleanup takes its own entry out of the table, if it is still there, and no other. */
  lemma CleanupRemovesExactly(r: Registry, v: VaultId)
    requires RegistryInv(r) && Allowed(r, Cleanup(v))
    ensures var r' := Take(r, Cleanup(v));
            && r'.vaults == r.vaults && r'.closer == r.closer
            && (forall p :: p in r'.roots <==> p in r.roots && r.roots[p] != v)
            && (forall p :: p in r'.roots ==> r'.roots[p] == r.roots[p])
  {
    hide Inv;
    forall p | p in r.roots && r.roots[p] == v ensures p == r.vaults[v].root.path {
    }
  }

  /** Only these steps take holder `h` of vault `v` away. */
  ghost predicate TakesAway(r: Registry, s: Step, v: VaultId, h: HolderId)
    requires Allowed(r, s) && v in r.vaults
  {
    match s
    case OnVault(u, a) => u == v && Withdraws(r.vaults[v].vault, a, h)
    case RetireOne(u) => u == v
    case Lookup(first, second, _, _) => Supersedes(r, first, second, v)
    case _ => false
  }

  lemma LookupLeaves(r: Registry, s: Step, v: VaultId, h: HolderId)
    requires RegistryInv(r) && Allowed(r, s) && s.Lookup? && LiveAt(r, v, h)
    ensures LiveAt(Take(r, s), v, h) <==> !TakesAway(r, s, v, h)
  {
    LookupChangesVaults(r, s.first, s.second, s.create, s.newVault);
    RevocationLeaves(r.vaults[v].vault, h);
    hide RegistryInv, Apply, LookupRoot;
  }

  lemma VaultStepLeaves(r: Registry, u: VaultId, a: Action, v: VaultId, h: HolderId)
    requires RegistryInv(r) && Allowed(r, OnVault(u, a)) && LiveAt(r, v, h)
    ensures LiveAt(Take(r, OnVault(u, a)), v, h) <==> !TakesAway(r, OnVault(u, a), v, h)
  {
    assert EntryOk(r, v);
    var vault := r.vaults[v].vault;
    var s := ByHolder(vault.world.views, h).value;
    VaultAfter(r, u, a, v, h);
    hide *;
    if u == v {
      LeavesExactlyWhen(vault, a, s, h);
    }
    LiveAtMeans(r, v, h);
    LiveAtMeans(Take(r, OnVault(u, a)), v, h);
  }

  lemma LiveAtMeans(r: Registry, v: VaultId, h: HolderId)
    ensures LiveAt(r, v, h) <==> v in r.vaults && Live(r.vaults[v].vault.world.views, h)
  {
  }

  lemma VaultAfter(r: Registry, u: VaultId, a: Action, v: VaultId, h: HolderId)
    requires Allowed(r, OnVault(u, a)) && v in r.vaults
    ensures u in r.vaults && Enabled(r.vaults[u].vault, a) && v in Take(r, OnVault(u, a)).vaults
    ensures Take(r, OnVault(u, a)).vaults[v].vault == if u == v then Apply(r.vaults[v].vault, a) else r.vaults[v].vault
    ensures TakesAway(r, OnVault(u, a), v, h) <==> u == v && Withdraws(r.vaults[v].vault, a, h)
  {
    hide Apply, Withdraws, Enabled;
  }

  lemma OtherStepsKeep(r: Registry, s: Step, v: VaultId, h: HolderId)
    requires Allowed(r, s) && !s.Lookup? && !s.OnVault? && LiveAt(r, v, h)
    ensures LiveAt(Take(r, s), v, h) <==> !TakesAway(r, s, v, h)
  {
    RevocationLeaves(r.vaults[v].vault, h);
    hide Apply, Live;
  }

  /**
   In any registry state that satisfies the invariant, a live holder is withdrawn by exactly these steps: its own grant's
   drop, a reservation of its vault that saw another floor or could not read it, `close`, and a replaced directory.
   */
  lemma HolderLeavesExactlyWhen(r: Registry, s: Step, v: VaultId, h: HolderId)
    requires RegistryInv(r) && Allowed(r, s) && LiveAt(r, v, h)
    ensures LiveAt(Take(r, s), v, h) <==> !TakesAway(r, s, v, h)
  {
    hide Take, Allowed, TakesAway, RegistryInv, LiveAt;
    match s
    case Lookup(_, _, _, _) => LookupLeaves(r, s, v, h);
    case OnVault(u, a) => VaultStepLeaves(r, u, a, v, h);
    case _ => OtherStepsKeep(r, s, v, h);
  }

  ghost predicate RetiredAt(r: Registry, v: VaultId, c: CtxId) {
    v in r.vaults && c in r.vaults[v].vault.world.ctxs && r.vaults[v].vault.world.ctxs[c].retired && !r.vaults[v].vault.world.ctxs[c].watcher
  }

  /** On every run, a retired context stays retired, never watches again, and no holder ever resolves to it. */
  lemma {:induction false} RetiredForever(states: seq<Registry>, steps: seq<Step>, i: nat, j: nat, v: VaultId, c: CtxId, h: HolderId)
    requires Run(states, steps) && i <= j < |states| && RetiredAt(states[i], v, c)
    ensures RetiredAt(states[j], v, c) && !Resolves(states[j], v, h, c)
  {
    hide Inv, Take, Allowed, RegistryInv, Resolves, Usable;
    RunKeepsInv(states, steps, j);
    if i < j {
      RetiredForever(states, steps, i, j - 1, v, c, h);
      RunKeepsInv(states, steps, j - 1);
      RetiredStepStays(states[j - 1], steps[j - 1], v, c);
    }
    RetiredNeverResolves(states[j], v, h, c);
  }

  lemma RetiredNeverResolves(r: Registry, v: VaultId, h: HolderId, c: CtxId)
    requires RegistryInv(r) && RetiredAt(r, v, c)
    ensures !Resolves(r, v, h, c)
  {
    if ContextOf(r.vaults[v].vault.world.views, h).Some? {
      ResolvedIsUsable(r, v, h, ContextOf(r.vaults[v].vault.world.views, h).value);
    }
  }

  lemma RetiredStepStays(r: Registry, s: Step, v: VaultId, c: CtxId)
    requires RegistryInv(r) && Allowed(r, s) && RetiredAt(r, v, c)
    ensures RetiredAt(Take(r, s), v, c)
  {
    hide Inv, Apply, Enabled;
    assert EntryOk(r, v);
    VaultMoves(r, s, v);
    var vault, vault' := r.vaults[v].vault, Take(r, s).vaults[v].vault;
    if vault' != vault {
      var a :| Enabled(vault, a) && vault' == Apply(vault, a);
      RetiredStaysQuiet(vault, a, c);
    }
  }

  lemma IssueStepStays(r: Registry, s: Step, v: VaultId, h: HolderId)
    requires RegistryInv(r) && Allowed(r, s) && v in r.vaults && h in r.vaults[v].vault.issued
    ensures v in Take(r, s).vaults && h in Take(r, s).vaults[v].vault.issued
    ensures Take(r, s).vaults[v].vault.issued[h] == r.vaults[v].vault.issued[h]
  {
    hide Inv, Apply, Enabled;
    assert EntryOk(r, v);
    VaultMoves(r, s, v);
    var vault, vault' := r.vaults[v].vault, Take(r, s).vaults[v].vault;
    if vault' != vault {
      var a :| Enabled(vault, a) && vault' == Apply(vault, a);
      IssueStays(vault, a, h);
    }
  }

  lemma {:induction false} PromiseStands(states: seq<Registry>, steps: seq<Step>, i: nat, j: nat, v: VaultId, h: HolderId)
    requires Run(states, steps) && i <= j < |states|
    requires v in states[i].vaults && h in states[i].vaults[v].vault.issued
    ensures v in states[j].vaults && h in states[j].vaults[v].vault.issued
    ensures states[j].vaults[v].vault.issued[h] == states[i].vaults[v].vault.issued[h]
    ensures states[j].vaults[v].root == states[i].vaults[v].root
  {
    hide Inv, Take, Allowed, RegistryInv;
    if i < j {
      PromiseStands(states, steps, i, j - 1, v, h);
      RunKeepsInv(states, steps, j - 1);
      IssueStepStays(states[j - 1], steps[j - 1], v, h);
      VaultMoves(states[j - 1], steps[j - 1], v);
    }
  }

  /**
   An attach gets what it asked for. In every state after the reservation that issued its holder, as long as the holder
   is live: the floor in force is the one the attach read, the holder sits in the scope of that floor and the attach's own
   rules with its own watch preference, and once the attach has finished, the holder resolves to a usable context that
   leaves out exactly the floor and those rules, with a watcher if one was asked for.
   */
  lemma AttachGetsWhatItAsked(states: seq<Registry>, steps: seq<Step>, i: nat, j: nat, v: VaultId, a: Action)
    requires Run(states, steps) && i < j < |states| && steps[i] == OnVault(v, a) && a.ReserveScope?
    requires a.freshId in states[i + 1].vaults[v].vault.issued && LiveAt(states[j], v, a.freshId)
    ensures var task, vault := states[i].vaults[v].vault.tasks[a.t], states[j].vaults[v].vault;
            && task.pc.read.Some? && task.rules.Some? && vault.world.views.floor == task.pc.read
            && var s := ScopeId(states[j].vaults[v].root.path, task.pc.read.value + task.rules.value);
            && LiveIn(vault.world.views, s, a.freshId) && vault.world.views.scopes[s].holders[a.freshId] == task.watch
            && (a.freshId in vault.finished ==>
                && ContextOf(vault.world.views, a.freshId).Some?
                && var c := ContextOf(vault.world.views, a.freshId).value;
                && Usable(states[j], v, c)
                && vault.world.ctxs[c].exclude == task.pc.read.value + task.rules.value
                && (task.watch ==> vault.world.ctxs[c].watcher))
  {
    var h := a.freshId;
    RunKeepsInv(states, steps, i);
    RunKeepsInv(states, steps, j);
    assert EntryOk(states[i], v) && EntryOk(states[j], v);
    IssueRecordsTheAsk(states[i].vaults[v].vault, a);
    PromiseStands(states, steps, i + 1, j, v, h);
    var vault := states[j].vaults[v].vault;
    var s := ByHolder(vault.world.views, h).value;
    assert HolderOk(vault, s, h);
    if h in vault.finished {
      FinishedHolderGetsItsRules(vault, s, h);
      ResolvedIsUsable(states[j], v, h, ContextOf(vault.world.views, h).value);
    }
    hide Inv, Apply, RegistryInv;
  }
}
