/**
 The authorized views of one attached vault (`src/daemon/vault_registry.rs`).

 Every function below is one critical section under the `views` lock, written as a
 function from the world before it to the world after it. Contexts are opaque tokens
 that carry only what the registry itself controls: the exclusion policy they were
 opened with, the watcher slot, and whether they were activated or retired.
 */
module VaultViews {
  import opened Wrappers

  type Patterns = set<string>
  type HolderId = nat
  type LockId = nat
  type CtxId = nat

  /** The fingerprint of a root and its effective rules; a constructor is injective, as the digest is taken to be. */
  datatype ScopeId = ScopeId(root: string, patterns: Patterns)

  datatype Ctx = Ctx(exclude: Patterns, watcher: bool, activated: bool, retired: bool)

  datatype LiveScope<+C> = LiveScope(lock: LockId, context: Option<C>, holders: map<HolderId, bool>) {
    predicate Watching() {
      exists h :: h in holders && holders[h]
    }
  }

  datatype Views = Views(replaced: bool, floor: Option<Patterns>, scopes: map<ScopeId, LiveScope<CtxId>>)

  datatype World = World(views: Views, ctxs: map<CtxId, Ctx>)

  datatype Grant = Grant(scope: ScopeId, id: HolderId)

  datatype Reservation = Reservation(exclude: Patterns, provisional: bool, grant: Grant, lock: LockId)

  datatype Refusal = Unattached | FloorUnreadable | PolicyInvalid | ScopeRetained

  const FRESH_VIEWS := Views(false, None, map[])

  function Retire(c: Ctx): Ctx {
    c.(retired := true, watcher := false)
  }

  function StopWatcher(c: Ctx): Ctx {
    c.(watcher := false)
  }

  ghost predicate LiveIn(v: Views, s: ScopeId, h: HolderId) {
    s in v.scopes && h in v.scopes[s].holders
  }

  ghost predicate Live(v: Views, h: HolderId) {
    exists s :: LiveIn(v, s, h)
  }

  /** `by_holder`: the scope that lists this holder, if any. */
  ghost function ByHolder(v: Views, h: HolderId): (r: Option<ScopeId>)
    ensures r.Some? <==> Live(v, h)
    ensures r.Some? ==> LiveIn(v, r.value, h)
  {
    if Live(v, h) then
      var s :| LiveIn(v, s, h);
      Some(s)
    else None
  }

  /** What a query for this holder resolves to. */
  ghost function ContextOf(v: Views, h: HolderId): Option<CtxId> {
    var s := ByHolder(v, h);
    if s.Some? then v.scopes[s.value].context else None
  }

  ghost predicate Publishes(v: Views, s: ScopeId, c: CtxId) {
    s in v.scopes && v.scopes[s].context == Some(c)
  }

  ghost predicate Published(v: Views, c: CtxId) {
    exists s :: Publishes(v, s, c)
  }

  ghost function RetirePublished(v: Views, ctxs: map<CtxId, Ctx>): map<CtxId, Ctx> {
    map c | c in ctxs :: if Published(v, c) then Retire(ctxs[c]) else ctxs[c]
  }

  /** `retire_all`: every scope is dropped, every published context retired, the floor forgotten. */
  ghost function RetireAll(w: World): World {
    World(w.views.(floor := None, scopes := map[]), RetirePublished(w.views, w.ctxs))
  }

  ghost function MarkReplaced(w: World): World {
    RetireAll(w.(views := w.views.(replaced := true)))
  }

  /** The floor part of `reserve`: a floor with other patterns revokes everything granted under the old one. */
  ghost function ApplyFloor(w: World, floor: Patterns): World {
    if w.views.floor == Some(floor) then w
    else
      var r := RetireAll(w);
      r.(views := r.views.(floor := Some(floor)))
  }

  /** The grant part of `reserve`: an entry of the scope gains one more holder. */
  ghost function Enter(w: World, g: Grant, watch: bool, freshLock: LockId): World {
    var entry := if g.scope in w.views.scopes then w.views.scopes[g.scope] else LiveScope(freshLock, None, map[]);
    w.(views := w.views.(scopes := w.views.scopes[g.scope := entry.(holders := entry.holders[g.id := watch])]))
  }

  /** The critical section that ends `reserve`. `read` is the observed floor, `rules` the descriptor when it compiles. */
  ghost function Reserve(w: World, closed: bool, root: string, read: Option<Patterns>, rules: Option<Patterns>,
                         watch: bool, current: Option<Grant>, freshId: HolderId, freshLock: LockId)
    : (World, Result<Reservation, Refusal>)
  {
    if w.views.replaced || closed then (w, Err(Unattached))
    else if read.None? then (RetireAll(w), Err(FloorUnreadable))
    else
      var w1 := ApplyFloor(w, read.value);
      if rules.None? then (w1, Err(PolicyInvalid))
      else
        var exclude := read.value + rules.value;
        var id := ScopeId(root, exclude);
        var held := if current.Some? then ByHolder(w1.views, current.value.id) else None;
        if held.Some? then
          var scope := w1.views.scopes[held.value];
          if current.value.scope != id || scope.holders[current.value.id] != watch then (w1, Err(ScopeRetained))
          else (w1, Ok(Reservation(exclude, false, current.value, scope.lock)))
        else
          var g := Grant(id, freshId);
          var w2 := Enter(w1, g, watch, freshLock);
          (w2, Ok(Reservation(exclude, true, g, w2.views.scopes[id].lock)))
  }

  /** Dropping a grant withdraws its holder; the last holder retires the context, the last watcher stops the watcher. */
  ghost function DropGrant(w: World, g: Grant): World {
    if !LiveIn(w.views, g.scope, g.id) then w
    else
      var scope := w.views.scopes[g.scope];
      var rest := scope.(holders := scope.holders - {g.id});
      if rest.holders == map[] then
        World(w.views.(scopes := w.views.scopes - {g.scope}), Touch(w.ctxs, scope.context, Retire))
      else
        World(w.views.(scopes := w.views.scopes[g.scope := rest]),
              if rest.Watching() then w.ctxs else Touch(w.ctxs, scope.context, StopWatcher))
  }

  ghost function Touch(ctxs: map<CtxId, Ctx>, c: Option<CtxId>, f: Ctx -> Ctx): map<CtxId, Ctx> {
    if c.Some? && c.value in ctxs then ctxs[c.value := f(ctxs[c.value])] else ctxs
  }

  /** The critical section that ends `attach`; `pending` says that a watcher was started meanwhile. */
  ghost function Publish(w: World, g: Grant, c: CtxId, pending: bool): Option<World>
    requires c in w.ctxs
  {
    if !LiveIn(w.views, g.scope, g.id) then None
    else
      var scope := w.views.scopes[g.scope];
      var watcher := scope.Watching() && (pending || w.ctxs[c].watcher);
      Some(World(w.views.(scopes := w.views.scopes[g.scope := scope.(context := Some(c))]),
                 w.ctxs[c := w.ctxs[c].(watcher := watcher, activated := true)]))
  }

  // ---------------------------------------------------------------------------------------
  // What the critical sections do, in terms of holders, scopes and contexts alone
  // ---------------------------------------------------------------------------------------

  /** The context was published and is retired now; no other context changed. */
  ghost predicate PublishedAreRetired(w: World, w': World) {
    && w'.ctxs.Keys == w.ctxs.Keys
    && forall c :: c in w.ctxs ==>
        w'.ctxs[c] == if Published(w.views, c) then Ctx(w.ctxs[c].exclude, false, w.ctxs[c].activated, true) else w.ctxs[c]
  }

  /** Retiring all scopes leaves no holder, no floor and no published context that is not retired, and nothing else changes. */
  lemma RetiresExactly(w: World)
    ensures var w' := RetireAll(w);
            w'.views == Views(w.views.replaced, None, map[]) && PublishedAreRetired(w, w')
    ensures MarkReplaced(w).views == Views(true, None, map[]) && PublishedAreRetired(w, MarkReplaced(w))
  {
    assert forall s, c :: Publishes(w.views.(replaced := true), s, c) <==> Publishes(w.views, s, c);
    assert forall c :: Published(w.views.(replaced := true), c) <==> Published(w.views, c) by {
      forall c | Published(w.views, c) ensures Published(w.views.(replaced := true), c) {
        var s :| Publishes(w.views, s, c);
        assert Publishes(w.views.(replaced := true), s, c);
      }
    }
  }

  /** The connection's holder is there, and the floor just read is the one it was admitted under. */
  ghost predicate Keeps(w: World, read: Option<Patterns>, current: Option<Grant>) {
    read == w.views.floor && current.Some? && Live(w.views, current.value.id)
  }

  /** An open vault sees a floor that is not the one in force, or cannot be read. */
  predicate Revokes(w: World, closed: bool, read: Option<Patterns>) {
    !w.views.replaced && !closed && (read.None? || read != w.views.floor)
  }

  /** The holder's scope and watch preference are the ones asked for now. */
  ghost predicate AsksTheSame(w: World, scope: ScopeId, watch: bool, current: Grant) {
    current.scope == scope && exists s :: LiveIn(w.views, s, current.id) && w.views.scopes[s].holders[current.id] == watch
  }

  /** The one rule for a reservation: open registry, readable floor and rules, and nothing different from what the connection holds. */
  ghost predicate Reservable(w: World, closed: bool, root: string, read: Option<Patterns>, rules: Option<Patterns>,
                             watch: bool, current: Option<Grant>)
  {
    && !w.views.replaced && !closed && read.Some? && rules.Some?
    && (Keeps(w, read, current) ==> AsksTheSame(w, ScopeId(root, read.value + rules.value), watch, current.value))
  }

  /** Holders sit in one scope each. */
  ghost predicate OneScopeEach(v: Views) {
    forall s, t, h :: LiveIn(v, s, h) && LiveIn(v, t, h) ==> s == t
  }

  /** When a reservation succeeds, what it is for, and which refusal is given otherwise. */
  lemma ReservesExactly(w: World, closed: bool, root: string, read: Option<Patterns>, rules: Option<Patterns>,
                        watch: bool, current: Option<Grant>, freshId: HolderId, freshLock: LockId)
    requires OneScopeEach(w.views)
    ensures var r := Reserve(w, closed, root, read, rules, watch, current, freshId, freshLock).1;
            && (r.Ok? <==> Reservable(w, closed, root, read, rules, watch, current))
            && (r.Ok? ==>
                && r.value.exclude == read.value + rules.value
                && r.value.grant.scope == ScopeId(root, read.value + rules.value)
                && (if Keeps(w, read, current) then r.value.grant == current.value && !r.value.provisional
                    else r.value.grant.id == freshId && r.value.provisional))
            && (r == Err(Unattached) <==> w.views.replaced || closed)
            && (r == Err(FloorUnreadable) <==> !w.views.replaced && !closed && read.None?)
            && (r == Err(PolicyInvalid) <==> !w.views.replaced && !closed && read.Some? && rules.None?)
  {
    hide RetireAll;
    RetiresExactly(w);
    if !w.views.replaced && !closed && read.Some? {
      assert read != w.views.floor ==> forall s, h :: !LiveIn(ApplyFloor(w, read.value).views, s, h);
    }
  }

  /** Who is live after a reservation: everybody as before unless the floor changed, and the new holder with its preference. */
  lemma ReserveAdmitsExactly(w: World, closed: bool, root: string, read: Option<Patterns>, rules: Option<Patterns>,
                             watch: bool, current: Option<Grant>, freshId: HolderId, freshLock: LockId, s: ScopeId, h: HolderId)
    requires !Live(w.views, freshId)
    ensures var (w', r) := Reserve(w, closed, root, read, rules, watch, current, freshId, freshLock);
            var revokes := Revokes(w, closed, read);
            var enters := r.Ok? && r.value.provisional;
            && (LiveIn(w'.views, s, h) <==>
                (!revokes && LiveIn(w.views, s, h)) || (enters && s == r.value.grant.scope && h == freshId))
            && (LiveIn(w'.views, s, h) ==> w'.views.scopes[s].holders[h] == if h == freshId then watch else w.views.scopes[s].holders[h])
            && (LiveIn(w'.views, s, h) && s in w.views.scopes && !revokes ==>
                w'.views.scopes[s].lock == w.views.scopes[s].lock && w'.views.scopes[s].context == w.views.scopes[s].context)
            && (LiveIn(w'.views, s, h) && (s !in w.views.scopes || revokes) ==>
                w'.views.scopes[s].lock == freshLock && w'.views.scopes[s].context.None?)
            && (enters ==> r.value.grant.scope in w'.views.scopes && r.value.lock == w'.views.scopes[r.value.grant.scope].lock)
  {
    hide RetireAll;
    RetiresExactly(w);
    assert LiveIn(w.views, s, freshId) ==> Live(w.views, freshId);
    hide ByHolder, PublishedAreRetired;
  }

  /** What a reservation does to the floor and the contexts: nothing, or a full revocation if the floor is another one. */
  lemma ReserveRevokesExactly(w: World, closed: bool, root: string, read: Option<Patterns>, rules: Option<Patterns>,
                              watch: bool, current: Option<Grant>, freshId: HolderId, freshLock: LockId)
    ensures var w' := Reserve(w, closed, root, read, rules, watch, current, freshId, freshLock).0;
            && w'.views.replaced == w.views.replaced
            && (w.views.replaced || closed ==> w' == w)
            && (!w.views.replaced && !closed ==> w'.views.floor == read)
            && (if Revokes(w, closed, read) then PublishedAreRetired(w, w') else w'.ctxs == w.ctxs)
    ensures var w' := Reserve(w, closed, root, read, rules, watch, current, freshId, freshLock).0;
            forall s, c :: Publishes(w'.views, s, c) <==> !Revokes(w, closed, read) && Publishes(w.views, s, c)
  {
    hide RetireAll;
    RetiresExactly(w);
    hide ByHolder, Published;
  }

  /** Who is live after a drop, and what it does to the dropped scope's context; every other context stays as it was. */
  lemma DropsExactly(w: World, g: Grant)
    ensures var w' := DropGrant(w, g);
            var watched := exists h :: LiveIn(w.views, g.scope, h) && h != g.id && w.views.scopes[g.scope].holders[h];
            var left := exists h :: LiveIn(w.views, g.scope, h) && h != g.id;
            && w'.views.floor == w.views.floor && w'.views.replaced == w.views.replaced && w'.ctxs.Keys == w.ctxs.Keys
            && (forall s, h :: LiveIn(w'.views, s, h) <==> LiveIn(w.views, s, h) && Grant(s, h) != g)
            && (forall s, h :: LiveIn(w'.views, s, h) ==>
                w'.views.scopes[s].holders[h] == w.views.scopes[s].holders[h] && w'.views.scopes[s].context == w.views.scopes[s].context)
            && (forall c :: c in w.ctxs ==>
                w'.ctxs[c] == if !LiveIn(w.views, g.scope, g.id) || !Publishes(w.views, g.scope, c) || watched then w.ctxs[c]
                              else Ctx(w.ctxs[c].exclude, false, w.ctxs[c].activated, w.ctxs[c].retired || !left))
  {
    if LiveIn(w.views, g.scope, g.id) {
      var holders := w.views.scopes[g.scope].holders;
      var rest := holders - {g.id};
      assert forall h :: h in rest <==> LiveIn(w.views, g.scope, h) && h != g.id;
      assert rest == map[] <==> forall h :: h !in rest;
    }
  }

  /** When a publication succeeds, and what it publishes; holders and all other scopes and contexts stay as they were. */
  lemma PublishesExactly(w: World, g: Grant, c: CtxId, pending: bool)
    requires c in w.ctxs
    ensures Publish(w, g, c, pending).Some? <==> g.scope in w.views.scopes && g.id in w.views.scopes[g.scope].holders
    ensures Publish(w, g, c, pending).Some? ==>
      var w' := Publish(w, g, c, pending).value;
      var watched := exists h :: LiveIn(w.views, g.scope, h) && w.views.scopes[g.scope].holders[h];
      && Publishes(w'.views, g.scope, c)
      && w'.ctxs.Keys == w.ctxs.Keys && w'.views.scopes.Keys == w.views.scopes.Keys
      && w'.views.floor == w.views.floor && w'.views.replaced == w.views.replaced
      && w'.ctxs[c] == Ctx(w.ctxs[c].exclude, watched && (pending || w.ctxs[c].watcher), true, w.ctxs[c].retired)
      && (forall d :: d in w.ctxs && d != c ==> w'.ctxs[d] == w.ctxs[d])
      && (forall s :: s in w.views.scopes ==> w'.views.scopes[s].holders == w.views.scopes[s].holders)
      && (forall s :: s in w.views.scopes ==> w'.views.scopes[s].lock == w.views.scopes[s].lock)
      && (forall s :: s in w.views.scopes && s != g.scope ==> w'.views.scopes[s].context == w.views.scopes[s].context)
  {
    if LiveIn(w.views, g.scope, g.id) && w.views.scopes[g.scope].Watching() {
      var h :| h in w.views.scopes[g.scope].holders && w.views.scopes[g.scope].holders[h];
      assert LiveIn(w.views, g.scope, h);
    }
  }
}
