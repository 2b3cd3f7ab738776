/**
 The mutable side of `src/daemon/vault_registry.rs` and `src/daemon/vault_context.rs`: contexts with a
 watcher slot, and the attached vault whose critical sections update them in place. Each method is
 proved to do what the function of the same name in `VaultViews` does to the vault's abstract world.
 */
module AttachedVaults {
  import opened Wrappers
  import opened VaultViews

  class VaultContext {
    ghost const id: CtxId
    const exclude: Patterns
    var watcher: bool
    var activated: bool
    var retired: bool

    constructor (ghost id: CtxId, exclude: Patterns, watch: bool)
      ensures this.id == id && State() == Ctx(exclude, watch, false, false)
    {
      this.id, this.exclude := id, exclude;
      watcher, activated, retired := watch, false, false;
    }

    ghost function State(): Ctx
      reads this
    {
      Ctx(exclude, watcher, activated, retired)
    }

    method InstallWatcher()
      modifies this`watcher
      ensures State() == old(State()).(watcher := true)
    {
      watcher := true;
    }

    method StopWatcher()
      modifies this`watcher
      ensures State() == VaultViews.StopWatcher(old(State()))
    {
      watcher := false;
    }

    method Activate()
      modifies this`activated
      ensures State() == old(State()).(activated := true)
    {
      activated := true;
    }

    method Retire()
      modifies this`watcher, this`retired
      ensures State() == VaultViews.Retire(old(State()))
    {
      retired := true;
      StopWatcher();
    }
  }

  type Scope = LiveScope<VaultContext>

  class AttachedVault {
    const root: string
    var replaced: bool
    var floor: Option<Patterns>
    var scopes: map<ScopeId, Scope>
    // Every context opened for this vault, published or not.
    ghost var pool: set<VaultContext>

    constructor (root: string)
      ensures Valid() && fresh(pool) && this.root == root && World() == VaultViews.World(FRESH_VIEWS, map[])
    {
      this.root := root;
      replaced, floor, scopes, pool := false, None, map[], {};
    }

    ghost predicate Valid()
      reads this
    {
      && (forall c1, c2 :: c1 in pool && c2 in pool && c1.id == c2.id ==> c1 == c2)
      && (forall s :: s in scopes && scopes[s].context.Some? ==> scopes[s].context.value in pool)
      && (forall s1, s2, h :: s1 in scopes && s2 in scopes && h in scopes[s1].holders && h in scopes[s2].holders ==> s1 == s2)
    }

    ghost function Named(s: Scope): LiveScope<CtxId> {
      LiveScope(s.lock, if s.context.Some? then Some(s.context.value.id) else None, s.holders)
    }

    /** The table of scopes, and the contexts by their ids. */
    ghost function Shown(): map<ScopeId, LiveScope<CtxId>>
      reads this`scopes
    {
      map s | s in scopes :: Named(scopes[s])
    }

    ghost function Known(): map<CtxId, Ctx>
      requires forall c1, c2 :: c1 in pool && c2 in pool && c1.id == c2.id ==> c1 == c2
      reads this`pool, pool
    {
      map c | c in pool :: c.id := c.State()
    }

    ghost function World(): World
      requires Valid()
      reads this, pool
    {
      VaultViews.World(Views(replaced, floor, Shown()), Known())
    }

    /** One of these scopes holds this context. */
    ghost predicate Held(keys: set<ScopeId>, c: VaultContext)
      reads this
    {
      exists s :: s in keys && s in scopes && scopes[s].context == Some(c)
    }

    lemma PublishedIsHeld(c: VaultContext)
      requires Valid() && c in pool
      ensures Published(World().views, c.id) <==> Held(scopes.Keys, c)
    {
      if s :| s in scopes && scopes[s].context == Some(c) {
        assert Publishes(World().views, s, c.id);
      }
      if Published(World().views, c.id) {
        var s :| Publishes(World().views, s, c.id);
        assert scopes[s].context.value in pool;
      }
    }

    /** The context part of `retire_all`. */
    method RetireHeld()
      requires Valid()
      modifies pool
      ensures Valid() && World() == VaultViews.World(old(World()).views, RetirePublished(old(World()).views, old(World()).ctxs))
      ensures forall c :: c in pool ==>
        c.State() == if old(Held(scopes.Keys, c)) then VaultViews.Retire(old(c.State())) else old(c.State())
    {
      ghost var w := World();
      forall c | c in pool ensures Published(w.views, c.id) <==> Held(scopes.Keys, c) {
        PublishedIsHeld(c);
      }
      var todo := scopes.Keys;
      while todo != {}
        invariant todo <= scopes.Keys
        invariant forall c :: c in pool ==>
          c.State() == if Held(scopes.Keys - todo, c) then VaultViews.Retire(old(c.State())) else old(c.State())
        decreases todo
        modifies pool
      {
        var s :| s in todo;
        match scopes[s].context {
          case Some(context) => context.Retire();
          case None =>
        }
        assert scopes.Keys - (todo - {s}) == (scopes.Keys - todo) + {s};
        todo := todo - {s};
      }
      assert scopes.Keys - todo == scopes.Keys;
      assert World().views == w.views;
      assert World().ctxs == RetirePublished(w.views, w.ctxs);
    }

    method RetireAll()
      requires Valid()
      modifies this, pool
      ensures Valid() && pool == old(pool)
      ensures World() == VaultViews.RetireAll(old(World()))
      // Nothing is granted any more, and exactly the contexts that were published are retired.
      ensures scopes == map[] && floor.None? && replaced == old(replaced)
      ensures forall c :: c in pool ==>
        if old(Held(scopes.Keys, c)) then c.retired && !c.watcher && c.activated == old(c.activated) else c.State() == old(c.State())
    {
      hide RetirePublished, Held;
      RetireHeld();
      label retired:
      scopes := map[];
      floor := None;
      assert World().ctxs == old@retired(World().ctxs);
    }

    lemma HoldersSitOnce()
      requires Valid()
      ensures OneScopeEach(World().views)
    {
    }

    /** `by_holder`: look through the scopes for the one that lists this holder. */
    method FindHolder(h: HolderId) returns (found: Option<ScopeId>)
      requires Valid()
      ensures found == ByHolder(World().views, h)
    {
      var todo := scopes.Keys;
      while todo != {}
        invariant todo <= scopes.Keys
        invariant forall s :: s in scopes.Keys - todo ==> h !in scopes[s].holders
        decreases todo
      {
        var s :| s in todo;
        if h in scopes[s].holders {
          assert LiveIn(World().views, s, h);
          return Some(s);
        }
        todo := todo - {s};
      }
      assert !Live(World().views, h);
      return None;
    }

    method ApplyFloor(read: Patterns)
      requires Valid()
      modifies this, pool
      ensures Valid() && pool == old(pool)
      ensures World() == VaultViews.ApplyFloor(old(World()), read)
    {
      if floor != Some(read) {
        RetireAll();
        label revoked:
        floor := Some(read);
        assert World().ctxs == old@revoked(World().ctxs);
      }
    }

    /** One entry of the table is written; its holders must not sit in another scope. */
    method SetScope(s: ScopeId, scope: Scope)
      requires Valid() && (scope.context.Some? ==> scope.context.value in pool)
      requires forall t, h :: t in scopes && t != s && h in scopes[t].holders ==> h !in scope.holders
      modifies this`scopes
      ensures Valid() && scopes == old(scopes)[s := scope]
      ensures World() == old(World()).(views := old(World()).views.(scopes := old(World()).views.scopes[s := Named(scope)]))
    {
      hide Known;
      ghost var shown := Shown();
      scopes := scopes[s := scope];
      assert Shown() == shown[s := Named(scope)];
    }

    method RemoveScope(s: ScopeId)
      requires Valid()
      modifies this`scopes
      ensures Valid()
      ensures World() == old(World()).(views := old(World()).views.(scopes := old(World()).views.scopes - {s}))
    {
      hide Known;
      ghost var shown := Shown();
      scopes := scopes - {s};
      assert Shown() == shown - {s};
    }

    /** A change of one context's state, as the vault's world sees it. */
    twostate lemma OnlyContextChanged(c: VaultContext)
      requires old(Valid()) && unchanged(this) && c in pool
      requires forall d :: d in pool && d != c ==> d.State() == old(d.State())
      ensures Valid() && c.id in old(World()).ctxs && old(World()).ctxs[c.id] == old(c.State())
      ensures World() == old(World()).(ctxs := old(World()).ctxs[c.id := c.State()])
    {
      assert World().views == old(World()).views;
      assert World().ctxs == old(World()).ctxs[c.id := c.State()];
    }

    method Enter(g: Grant, watch: bool, freshLock: LockId)
      requires Valid() && !Live(World().views, g.id)
      modifies this`scopes
      ensures Valid() && g.scope in scopes
      ensures World() == VaultViews.Enter(old(World()), g, watch, freshLock)
      ensures scopes[g.scope].lock == World().views.scopes[g.scope].lock
    {
      ghost var w := World();
      assert forall s :: s in scopes ==> (g.id in scopes[s].holders <==> LiveIn(w.views, s, g.id));
      var entry := if g.scope in scopes then scopes[g.scope] else LiveScope(freshLock, None, map[]);
      SetScope(g.scope, entry.(holders := entry.holders[g.id := watch]));
    }

    /** The critical section that ends `reserve`. */
    method Reserve(closed: bool, read: Option<Patterns>, rules: Option<Patterns>, watch: bool, current: Option<Grant>,
                   freshId: HolderId, freshLock: LockId)
      returns (r: Result<Reservation, Refusal>)
      requires Valid() && !Live(World().views, freshId)
      modifies this, pool
      ensures Valid() && pool == old(pool)
      ensures (World(), r) == VaultViews.Reserve(old(World()), closed, root, read, rules, watch, current, freshId, freshLock)
      // Granted exactly to those who may have it, for the floor and the caller's own rules together.
      ensures r.Ok? <==> Reservable(old(World()), closed, root, read, rules, watch, current)
      ensures r.Ok? ==>
        && r.value.exclude == read.value + rules.value
        && r.value.grant.scope == ScopeId(root, read.value + rules.value)
        && (if Keeps(old(World()), read, current) then r.value.grant == current.value && !r.value.provisional
            else r.value.grant.id == freshId && r.value.provisional)
      ensures r == Err(Unattached) <==> old(replaced) || closed
      ensures r == Err(FloorUnreadable) <==> !old(replaced) && !closed && read.None?
      ensures r == Err(PolicyInvalid) <==> !old(replaced) && !closed && read.Some? && rules.None?
    {
      HoldersSitOnce();
      ReservesExactly(World(), closed, root, read, rules, watch, current, freshId, freshLock);
      hide Reservable, Keeps, OneScopeEach;
      if replaced || closed {
        return Err(Unattached);
      }
      if read.None? {
        RetireAll();
        return Err(FloorUnreadable);
      }
      ApplyFloor(read.value);
      if rules.None? {
        return Err(PolicyInvalid);
      }
      var exclude := read.value + rules.value;
      var id := ScopeId(root, exclude);
      if current.Some? {
        var held := FindHolder(current.value.id);
        if held.Some? {
          if current.value.scope != id || scopes[held.value].holders[current.value.id] != watch {
            return Err(ScopeRetained);
          }
          return Ok(Reservation(exclude, false, current.value, scopes[held.value].lock));
        }
      }
      assert forall s :: LiveIn(World().views, s, freshId) ==> LiveIn(old(World()).views, s, freshId);
      ghost var w := World();
      Enter(Grant(id, freshId), watch, freshLock);
      r := Ok(Reservation(exclude, true, Grant(id, freshId), scopes[id].lock));
    }

    /** `Drop for VaultAttachment`. */
    method DropGrant(g: Grant)
      requires Valid()
      modifies this`scopes, pool
      ensures Valid()
      ensures World() == VaultViews.DropGrant(old(World()), g)
    {
      ghost var w := World();
      if g.scope in scopes && g.id in scopes[g.scope].holders {
        assert LiveIn(w.views, g.scope, g.id);
        var scope := scopes[g.scope];
        var rest := scope.(holders := scope.holders - {g.id});
        assert Named(rest) == w.views.scopes[g.scope].(holders := rest.holders);
        if rest.holders == map[] {
          if scope.context.Some? {
            scope.context.value.Retire();
            OnlyContextChanged(scope.context.value);
          }
          RemoveScope(g.scope);
        } else {
          if !rest.Watching() && scope.context.Some? {
            scope.context.value.StopWatcher();
            OnlyContextChanged(scope.context.value);
          }
          SetScope(g.scope, rest);
        }
      }
    }

    /** The first look under the initialization lock: the scope's context, if it has one, and whether anyone watches. */
    method Peek(h: HolderId) returns (r: Option<(Option<VaultContext>, bool)>)
      requires Valid()
      ensures r.Some? <==> Live(World().views, h)
      ensures r.Some? ==>
        var scope := World().views.scopes[ByHolder(World().views, h).value];
        && r.value.1 == scope.Watching()
        && (r.value.0.Some? <==> scope.context.Some?)
        && (r.value.0.Some? ==> r.value.0.value in pool && scope.context == Some(r.value.0.value.id))
    {
      var s := FindHolder(h);
      if s.None? {
        return None;
      }
      return Some((scopes[s.value].context, scopes[s.value].Watching()));
    }

    /** A cold open: a new context that nobody else knows yet. */
    method Open(ghost newId: CtxId, exclude: Patterns, wants: bool) returns (context: VaultContext)
      requires Valid() && newId !in World().ctxs
      modifies this`pool
      ensures Valid() && fresh(context) && context.id == newId && pool == old(pool) + {context}
      ensures World() == VaultViews.World(old(World()).views, old(World()).ctxs[newId := Ctx(exclude, wants, false, false)])
    {
      hide Shown;
      ghost var known, before := Known(), pool;
      assert forall c :: c in pool ==> c.id in known;
      context := new VaultContext(newId, exclude, wants);
      pool := pool + {context};
      assert forall c :: c in pool ==> c == context || c in before;
      assert Known() == known[newId := Ctx(exclude, wants, false, false)];
    }

    /** The critical section that ends `attach`. */
    method Publish(g: Grant, context: VaultContext, pending: bool) returns (ok: bool)
      requires Valid() && context in pool
      modifies this`scopes, context`watcher, context`activated
      ensures Valid() && context in pool
      ensures context.id in old(World()).ctxs
      ensures var published := VaultViews.Publish(old(World()), g, context.id, pending);
              ok == published.Some? && World() == if ok then published.value else old(World())
      // Published exactly for a holder that is still there, and then the scope resolves to it.
      ensures ok <==> g.scope in old(scopes) && g.id in old(scopes)[g.scope].holders
      ensures ok ==> scopes == old(scopes)[g.scope := old(scopes)[g.scope].(context := Some(context))]
      ensures ok ==> context.activated && context.retired == old(context.retired)
      ensures ok ==> (context.watcher <==> old(scopes)[g.scope].Watching() && (pending || old(context.watcher)))
      ensures !ok ==> scopes == old(scopes) && context.State() == old(context.State())
    {
      ghost var w := World();
      StateIn(context);
      if g.scope !in scopes || g.id !in scopes[g.scope].holders {
        assert !LiveIn(w.views, g.scope, g.id);
        return false;
      }
      assert LiveIn(w.views, g.scope, g.id);
      var scope := scopes[g.scope];
      SettleWatcher(context, scope.Watching(), pending);
      ghost var w1 := World();
      SetScope(g.scope, scope.(context := Some(context)));
      ghost var w2 := World();
      Activate(context);
      PublishedWorld(w, g, context.id, pending, w1, w2, World());
      return true;
    }

    /** Settling the watcher, entering the context and activating it add up to a publication. */
    static lemma PublishedWorld(w: World, g: Grant, c: CtxId, pending: bool, w1: World, w2: World, w3: World)
      requires LiveIn(w.views, g.scope, g.id) && c in w.ctxs
      requires var scope := w.views.scopes[g.scope];
               && w1 == w.(ctxs := w.ctxs[c := w.ctxs[c].(watcher := scope.Watching() && (pending || w.ctxs[c].watcher))])
               && w2 == w1.(views := w1.views.(scopes := w1.views.scopes[g.scope := scope.(context := Some(c))]))
               && w3 == w2.(ctxs := w2.ctxs[c := w2.ctxs[c].(activated := true)])
      ensures VaultViews.Publish(w, g, c, pending) == Some(w3)
    {
      assert w3.ctxs == w.ctxs[c := w3.ctxs[c]];
    }

    /** The watcher is installed, kept or stopped as the live holders want it. */
    method SettleWatcher(context: VaultContext, watching: bool, pending: bool)
      requires Valid() && context in pool
      modifies context`watcher
      ensures Valid() && context.id in old(World()).ctxs
      ensures World() == old(World()).(ctxs := old(World()).ctxs[context.id :=
                old(World()).ctxs[context.id].(watcher := watching && (pending || old(World()).ctxs[context.id].watcher))])
    {
      if watching {
        if pending {
          context.InstallWatcher();
        }
      } else {
        context.StopWatcher();
      }
      OnlyContextChanged(context);
    }

    method Activate(context: VaultContext)
      requires Valid() && context in pool
      modifies context`activated
      ensures Valid() && context.id in old(World()).ctxs
      ensures World() == old(World()).(ctxs := old(World()).ctxs[context.id := old(World()).ctxs[context.id].(activated := true)])
    {
      context.Activate();
      OnlyContextChanged(context);
    }

    lemma StateIn(c: VaultContext)
      requires Valid() && c in pool
      ensures c.id in World().ctxs && World().ctxs[c.id] == c.State()
    {
    }
  }
}
