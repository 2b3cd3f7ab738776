/**
 The attach protocol of one vault as a step machine (`src/daemon/vault_registry.rs`).

 Each action is one critical section, one await that completes, or one cancellation. A grant
 may be dropped at any moment between its issue and its drop, which covers every place where
 the program lets go of one: an error return, a cancelled request, a closed connection and a
 superseded attachment.
 */
module AttachProtocol {
  import opened Wrappers
  import opened VaultViews

  type TaskId = nat

  datatype Pc =
    | AwaitRefresh
    | ReadingFloor
    | FloorSeen(read: Option<Patterns>, stamp: nat)
    | AwaitInit(res: Reservation)
    | HoldingInit(res: Reservation)
    | Reusing(res: Reservation, ctx: CtxId, wants: bool)
    | Resuming(res: Reservation, ctx: CtxId)
    | Opening(res: Reservation, wants: bool)
    | Ready(res: Reservation, ctx: CtxId, pending: bool, built: bool)

  datatype Task = Task(watch: bool, rules: Option<Patterns>, current: Option<Grant>, pc: Pc)

  /** What was promised when a holder id was issued: its scope and watch preference, and the floor and the caller's rules it was asked under. */
  datatype Issue = Issue(scope: ScopeId, watch: bool, lock: LockId, floor: Patterns, rules: Patterns)

  /**
   `world` is the registry's own state, `refresh` and `init` are the two asynchronous locks,
   and the rest is history: ids seen, ids issued, grants not yet dropped, holders whose attach
   returned, and the number of floor observations made and the last one applied.
   */
  datatype Vault = Vault(
    root: string,
    world: World,
    refresh: Option<TaskId>,
    init: map<LockId, TaskId>,
    tasks: map<TaskId, Task>,
    known: set<HolderId>,
    issued: map<HolderId, Issue>,
    outstanding: set<HolderId>,
    finished: set<HolderId>,
    observed: nat,
    applied: nat)

  function Empty(root: string): Vault {
    Vault(root, World(FRESH_VIEWS, map[]), None, map[], map[], {}, map[], {}, {}, 0, 0)
  }

  datatype Action =
    | Begin(t: TaskId, watch: bool, rules: Option<Patterns>, current: Option<Grant>)
    | LockRefresh(t: TaskId)
    | ReadFloor(t: TaskId, read: Option<Patterns>)
    | ReserveScope(t: TaskId, closed: bool, freshId: HolderId, freshLock: LockId)
    | LockInit(t: TaskId)
    | Peek(t: TaskId)
    | CheckWatch(t: TaskId)
    | Resumed(t: TaskId)
    | Opened(t: TaskId, freshCtx: CtxId)
    | PublishContext(t: TaskId)
    | Cancel(t: TaskId)
    | Drop(h: HolderId)
    | RevokeAll
    | Replace

  predicate HasRes(pc: Pc) {
    pc.AwaitInit? || pc.HoldingInit? || pc.Reusing? || pc.Resuming? || pc.Opening? || pc.Ready?
  }

  predicate HoldsInit(pc: Pc) {
    HasRes(pc) && !pc.AwaitInit?
  }

  predicate HoldsContext(pc: Pc) {
    pc.Reusing? || pc.Resuming? || pc.Ready?
  }

  predicate HoldsRefresh(pc: Pc) {
    pc.ReadingFloor? || pc.FloorSeen?
  }

  /** The guards are locks being free, ids being fresh, and a task being where it is. */
  ghost predicate Enabled(v: Vault, a: Action) {
    match a
    case Begin(t, _, _, current) =>
      && t !in v.tasks
      && (current.Some? && current.value.id in v.issued ==> v.issued[current.value.id].scope == current.value.scope)
    case LockRefresh(t) => t in v.tasks && v.tasks[t].pc.AwaitRefresh? && v.refresh.None?
    case ReadFloor(t, _) => t in v.tasks && v.tasks[t].pc.ReadingFloor?
    case ReserveScope(t, _, id, lock) => t in v.tasks && v.tasks[t].pc.FloorSeen? && id !in v.known && UnusedLock(v, lock)
    case LockInit(t) => t in v.tasks && v.tasks[t].pc.AwaitInit? && v.tasks[t].pc.res.lock !in v.init
    case Peek(t) => t in v.tasks && v.tasks[t].pc.HoldingInit?
    case CheckWatch(t) => t in v.tasks && v.tasks[t].pc.Reusing? && v.tasks[t].pc.ctx in v.world.ctxs
    case Resumed(t) => t in v.tasks && v.tasks[t].pc.Resuming?
    case Opened(t, c) => t in v.tasks && v.tasks[t].pc.Opening? && c !in v.world.ctxs
    case PublishContext(t) => t in v.tasks && v.tasks[t].pc.Ready? && v.tasks[t].pc.ctx in v.world.ctxs
    case Cancel(t) => t in v.tasks
    case Drop(h) => h in v.outstanding && h in v.issued
    case RevokeAll => true
    case Replace => true
  }

  ghost predicate UnusedLock(v: Vault, l: LockId) {
    forall h :: h in v.issued ==> v.issued[h].lock != l
  }

  function GoTo(v: Vault, t: TaskId, pc: Pc): Vault
    requires t in v.tasks
  {
    v.(tasks := v.tasks[t := v.tasks[t].(pc := pc)])
  }

  /** A task that ends, for whatever reason, lets go of the locks it holds. */
  function End(v: Vault, t: TaskId): Vault
    requires t in v.tasks
  {
    var pc := v.tasks[t].pc;
    v.(tasks := v.tasks - {t},
       refresh := if v.refresh == Some(t) then None else v.refresh,
       init := if HoldsInit(pc) then v.init - {pc.res.lock} else v.init)
  }

  ghost function Apply(v: Vault, a: Action): Vault
    requires Enabled(v, a)
  {
    match a
    case Begin(t, watch, rules, current) =>
      v.(tasks := v.tasks[t := Task(watch, rules, current, AwaitRefresh)],
         known := v.known + (if current.Some? then {current.value.id} else {}))
    case LockRefresh(t) => GoTo(v, t, ReadingFloor).(refresh := Some(t))
    case ReadFloor(t, read) => GoTo(v, t, FloorSeen(read, v.observed + 1)).(observed := v.observed + 1)
    case ReserveScope(t, closed, id, lock) => ApplyReserve(v, t, closed, id, lock)
    case LockInit(t) => GoTo(v, t, HoldingInit(v.tasks[t].pc.res)).(init := v.init[v.tasks[t].pc.res.lock := t])
    case Peek(t) =>
      var res := v.tasks[t].pc.res;
      var s := ByHolder(v.world.views, res.grant.id);
      if s.None? then End(v, t)
      else
        var scope := v.world.views.scopes[s.value];
        if scope.context.Some? then GoTo(v, t, Reusing(res, scope.context.value, scope.Watching()))
        else GoTo(v, t, Opening(res, scope.Watching()))
    case CheckWatch(t) =>
      var pc := v.tasks[t].pc;
      if pc.wants && !v.world.ctxs[pc.ctx].watcher then GoTo(v, t, Resuming(pc.res, pc.ctx))
      else GoTo(v, t, Ready(pc.res, pc.ctx, false, false))
    case Resumed(t) => GoTo(v, t, Ready(v.tasks[t].pc.res, v.tasks[t].pc.ctx, true, false))
    case Opened(t, c) =>
      var pc := v.tasks[t].pc;
      GoTo(v, t, Ready(pc.res, c, false, true)).(
      world := v.world.(ctxs := v.world.ctxs[c := Ctx(pc.res.exclude, pc.wants, false, false)]))
    case PublishContext(t) =>
      var pc := v.tasks[t].pc;
      var published := Publish(v.world, pc.res.grant, pc.ctx, pc.pending);
      if published.None? then End(v, t)
      else End(v, t).(world := published.value, finished := v.finished + {pc.res.grant.id})
    case Cancel(t) => End(v, t)
    case Drop(h) => v.(world := DropGrant(v.world, Grant(v.issued[h].scope, h)), outstanding := v.outstanding - {h})
    case RevokeAll => v.(world := RetireAll(v.world))
    case Replace => v.(world := MarkReplaced(v.world))
  }

  ghost function ApplyReserve(v: Vault, t: TaskId, closed: bool, freshId: HolderId, freshLock: LockId): Vault
    requires t in v.tasks && v.tasks[t].pc.FloorSeen?
  {
    var task := v.tasks[t];
    var refused := v.world.views.replaced || closed;
    var (w, outcome) := Reserve(v.world, closed, v.root, task.pc.read, task.rules, task.watch, task.current, freshId, freshLock);
    var released := End(v, t).(world := w, applied := if refused then v.applied else task.pc.stamp);
    if outcome.Err? then released
    else
      var res := outcome.value;
      var admitted := released.(tasks := released.tasks[t := task.(pc := AwaitInit(res))]);
      if !res.provisional then admitted
      else admitted.(known := v.known + {freshId},
                     issued := v.issued[freshId := Issue(res.grant.scope, task.watch, res.lock, task.pc.read.value, task.rules.value)],
                     outstanding := v.outstanding + {freshId})
  }

  // ---------------------------------------------------------------------------------------
  // The invariant. Its parts only go through together: a published context is unique because
  // a live holder's initialization lock is its scope's lock, and a watcher is where it should
  // be because a task that asked for one keeps its own holder in the scope.
  // ---------------------------------------------------------------------------------------

  ghost predicate HolderOk(v: Vault, s: ScopeId, h: HolderId)
    requires LiveIn(v.world.views, s, h)
  {
    && h in v.issued && h in v.outstanding
    && v.issued[h].scope == s && s.patterns == v.issued[h].floor + v.issued[h].rules
    && v.issued[h].watch == v.world.views.scopes[s].holders[h]
    && v.issued[h].lock == v.world.views.scopes[s].lock
    && v.world.views.floor == Some(v.issued[h].floor)
  }

  ghost predicate HoldersOk(v: Vault) {
    && v.issued.Keys <= v.known
    && v.outstanding <= v.issued.Keys
    && v.finished <= v.issued.Keys
    && (forall s, h :: LiveIn(v.world.views, s, h) ==> HolderOk(v, s, h))
  }

  /** Scopes are never empty and always at least as strict as the current floor. */
  ghost predicate ScopesOk(v: Vault) {
    && (forall s :: s in v.world.views.scopes ==>
        && v.world.views.scopes[s].holders != map[]
        && v.world.views.floor.Some?
        && s.root == v.root
        && v.world.views.floor.value <= s.patterns)
    && (v.world.views.replaced ==> v.world.views.scopes == map[])
  }

  ghost predicate ContextOk(w: World, s: ScopeId, c: CtxId)
    requires Publishes(w.views, s, c)
  {
    && c in w.ctxs
    && w.ctxs[c].activated && !w.ctxs[c].retired
    && w.ctxs[c].exclude == s.patterns
    && (w.ctxs[c].watcher ==> w.views.scopes[s].Watching())
  }

  ghost predicate ContextsOk(w: World) {
    && (forall s, c :: Publishes(w.views, s, c) ==> ContextOk(w, s, c))
    && (forall s1, s2, c :: Publishes(w.views, s1, c) && Publishes(w.views, s2, c) ==> s1 == s2)
  }

  /** Holders whose attach returned resolve, and have a watcher if they asked for one. */
  ghost predicate FinishedOk(v: Vault) {
    forall s, h :: LiveIn(v.world.views, s, h) && h in v.finished && HolderOk(v, s, h) ==>
      && v.world.views.scopes[s].context.Some?
      && (v.issued[h].watch && v.world.views.scopes[s].context.value in v.world.ctxs ==>
          v.world.ctxs[v.world.views.scopes[s].context.value].watcher)
  }

  ghost predicate LocksOk(v: Vault) {
    && (v.refresh.Some? ==> v.refresh.value in v.tasks)
    && (forall t :: t in v.tasks ==> (HoldsRefresh(v.tasks[t].pc) <==> v.refresh == Some(t)))
    && (forall l :: l in v.init ==>
        v.init[l] in v.tasks && HoldsInit(v.tasks[v.init[l]].pc) && v.tasks[v.init[l]].pc.res.lock == l)
    && (forall t :: t in v.tasks && HoldsInit(v.tasks[t].pc) ==>
        v.tasks[t].pc.res.lock in v.init && v.init[v.tasks[t].pc.res.lock] == t)
  }

  ghost predicate ReservationOk(v: Vault, watch: bool, res: Reservation) {
    && res.grant.id in v.issued
    && v.issued[res.grant.id].scope == res.grant.scope
    && v.issued[res.grant.id].lock == res.lock
    && v.issued[res.grant.id].watch == watch
    && res.exclude == res.grant.scope.patterns
  }

  /** What a task knows about its scope, as long as its holder was not withdrawn. */
  ghost predicate KnowledgeOk(v: Vault, watch: bool, pc: Pc)
    requires HasRes(pc)
  {
    var s := pc.res.grant.scope;
    LiveIn(v.world.views, s, pc.res.grant.id) ==>
      match pc
      case AwaitInit(_) => true
      case HoldingInit(_) => true
      case Reusing(_, c, wants) => v.world.views.scopes[s].context == Some(c) && (watch ==> wants)
      case Resuming(_, c) => v.world.views.scopes[s].context == Some(c)
      case Opening(_, wants) => v.world.views.scopes[s].context.None? && (watch ==> wants)
      case Ready(_, c, pending, built) =>
        && v.world.views.scopes[s].context == (if built then None else Some(c))
        && (watch ==> pending || (c in v.world.ctxs && v.world.ctxs[c].watcher))
  }

  /** A context that was built but not published belongs to its task alone. */
  ghost predicate PrivateOk(v: Vault, t: TaskId)
    requires t in v.tasks && v.tasks[t].pc.Ready? && v.tasks[t].pc.built
  {
    var c := v.tasks[t].pc.ctx;
    && c in v.world.ctxs
    && !v.world.ctxs[c].activated && !v.world.ctxs[c].retired
    && v.world.ctxs[c].exclude == v.tasks[t].pc.res.exclude
    && !Published(v.world.views, c)
    && (forall u :: u in v.tasks && u != t && v.tasks[u].pc.Ready? && v.tasks[u].pc.built ==> v.tasks[u].pc.ctx != c)
  }

  ghost predicate TaskOk(v: Vault, t: TaskId)
    requires t in v.tasks
  {
    var task := v.tasks[t];
    && (task.current.Some? ==> task.current.value.id in v.known)
    && (task.current.Some? && task.current.value.id in v.issued ==>
        v.issued[task.current.value.id].scope == task.current.value.scope)
    && (task.pc.FloorSeen? ==> task.pc.stamp == v.observed && v.applied < v.observed)
    && (HasRes(task.pc) ==> ReservationOk(v, task.watch, task.pc.res) && KnowledgeOk(v, task.watch, task.pc))
    && (task.pc.Ready? && task.pc.built ==> PrivateOk(v, t))
    && (HoldsContext(task.pc) ==> task.pc.ctx in v.world.ctxs)
    && (HoldsContext(task.pc) && !(task.pc.Ready? && task.pc.built) ==> v.world.ctxs[task.pc.ctx].activated)
  }

  ghost predicate Inv(v: Vault) {
    && HoldersOk(v)
    && ScopesOk(v)
    && ContextsOk(v.world)
    && FinishedOk(v)
    && LocksOk(v)
    && v.applied <= v.observed
    && (forall t :: t in v.tasks ==> TaskOk(v, t))
  }

  lemma EmptyOk(root: string)
    ensures Inv(Empty(root))
  {
  }

  // ---------------------------------------------------------------------------------------
  // Steps that only withdraw: dropped grants, a new floor, a replaced directory, a closing registry.
  // ---------------------------------------------------------------------------------------

  /** Nothing is granted or published, and only scopes that lost a holder are touched. */
  ghost predicate Withdrawn(w: World, w': World) {
    && w'.ctxs.Keys == w.ctxs.Keys
    && (forall c :: c in w.ctxs ==> w'.ctxs[c].activated == w.ctxs[c].activated)
    && (w'.views.floor == w.views.floor || w'.views.scopes == map[])
    && (w'.views.replaced ==> w.views.replaced || w'.views.scopes == map[])
    && (forall s :: s in w'.views.scopes ==> ScopeShrunk(w, w', s))
    && (forall s, c :: Publishes(w'.views, s, c) && c in w.ctxs ==>
        w'.ctxs[c] == if w'.views.scopes[s].Watching() then w.ctxs[c] else StopWatcher(w.ctxs[c]))
    && (forall c :: c in w.ctxs && !Published(w.views, c) ==> w'.ctxs[c] == w.ctxs[c])
  }

  ghost predicate ScopeShrunk(w: World, w': World, s: ScopeId)
    requires s in w'.views.scopes
  {
    && s in w.views.scopes
    && w'.views.scopes[s].holders != map[]
    && w'.views.scopes[s].context == w.views.scopes[s].context
    && w'.views.scopes[s].lock == w.views.scopes[s].lock
    && (forall h :: h in w'.views.scopes[s].holders ==>
        h in w.views.scopes[s].holders && w'.views.scopes[s].holders[h] == w.views.scopes[s].holders[h])
  }

  lemma RetireAllWithdraws(w: World)
    ensures Withdrawn(w, RetireAll(w)) && Withdrawn(w, MarkReplaced(w))
  {
    assert forall s, c :: Publishes(w.views.(replaced := true), s, c) ==> Publishes(w.views, s, c);
  }

  /** The contexts after a drop: the dropped scope's context is retired or stopped as its holders demand, all others stay. */
  lemma DropGrantContexts(w: World, g: Grant)
    requires ContextsOk(w)
    ensures var w' := DropGrant(w, g);
      && w'.ctxs.Keys == w.ctxs.Keys
      && (forall c :: c in w.ctxs ==> w'.ctxs[c].activated == w.ctxs[c].activated)
      && (forall c :: c in w.ctxs && !Published(w.views, c) ==> w'.ctxs[c] == w.ctxs[c])
      && forall s, c :: Publishes(w'.views, s, c) && c in w.ctxs ==>
          w'.ctxs[c] == if w'.views.scopes[s].Watching() then w.ctxs[c] else StopWatcher(w.ctxs[c])
  {
    var w' := DropGrant(w, g);
    if LiveIn(w.views, g.scope, g.id) {
      var c := w.views.scopes[g.scope].context;
      if c.Some? {
        assert Publishes(w.views, g.scope, c.value);
      }
      forall s, d | Publishes(w'.views, s, d) && d in w.ctxs
        ensures w'.ctxs[d] == if w'.views.scopes[s].Watching() then w.ctxs[d] else StopWatcher(w.ctxs[d])
      {
        assert Publishes(w.views, s, d);
      }
    } else {
      forall s, d | Publishes(w.views, s, d) && d in w.ctxs
        ensures w.ctxs[d] == if w.views.scopes[s].Watching() then w.ctxs[d] else StopWatcher(w.ctxs[d])
      {
        assert ContextOk(w, s, d);
      }
    }
  }

  lemma DropGrantScopes(w: World, g: Grant)
    requires forall s :: s in w.views.scopes ==> w.views.scopes[s].holders != map[]
    ensures var w' := DropGrant(w, g);
      && w'.views.floor == w.views.floor && w'.views.replaced == w.views.replaced
      && (forall s :: s in w'.views.scopes ==> ScopeShrunk(w, w', s))
      && !LiveIn(w'.views, g.scope, g.id)
  {
    hide Touch;
  }

  lemma DropGrantWithdraws(w: World, g: Grant)
    requires ContextsOk(w)
    requires forall s :: s in w.views.scopes ==> w.views.scopes[s].holders != map[]
    ensures Withdrawn(w, DropGrant(w, g))
    ensures !LiveIn(DropGrant(w, g).views, g.scope, g.id)
  {
    DropGrantContexts(w, g);
    DropGrantScopes(w, g);
    hide DropGrant, ScopeShrunk, ContextsOk;
  }

  lemma WithdrawalKeepsViews(v: Vault, w': World)
    requires Inv(v) && Withdrawn(v.world, w')
    ensures var v' := v.(world := w');
            HoldersOk(v') && ScopesOk(v') && ContextsOk(w') && FinishedOk(v')
  {
    var v' := v.(world := w');
    forall s, h | LiveIn(w'.views, s, h)
      ensures LiveIn(v.world.views, s, h) && HolderOk(v, s, h) && HolderOk(v', s, h)
    {
      assert ScopeShrunk(v.world, w', s);
      assert LiveIn(v.world.views, s, h);
    }
    forall s, c | Publishes(w'.views, s, c)
      ensures Publishes(v.world.views, s, c) && ContextOk(w', s, c)
    {
      assert ScopeShrunk(v.world, w', s);
      assert Publishes(v.world.views, s, c) && ContextOk(v.world, s, c);
    }
    forall s, h | LiveIn(w'.views, s, h) && h in v.finished
      ensures var c := w'.views.scopes[s].context;
              c.Some? && c.value in w'.ctxs && (v.issued[h].watch ==> w'.ctxs[c.value].watcher)
    {
      assert ScopeShrunk(v.world, w', s);
      assert LiveIn(v.world.views, s, h) && HolderOk(v, s, h);
      var c := w'.views.scopes[s].context.value;
      assert Publishes(v.world.views, s, c) && Publishes(w'.views, s, c);
      assert w'.views.scopes[s].holders[h] ==> w'.views.scopes[s].Watching();
    }
  }

  lemma WithdrawalKeepsTask(v: Vault, w': World, t: TaskId)
    requires Inv(v) && Withdrawn(v.world, w') && t in v.tasks
    ensures TaskOk(v.(world := w'), t)
  {
    var v' := v.(world := w');
    var task := v.tasks[t];
    assert TaskOk(v, t);
    if HasRes(task.pc) {
      var s, h := task.pc.res.grant.scope, task.pc.res.grant.id;
      if LiveIn(w'.views, s, h) {
        assert ScopeShrunk(v.world, w', s);
        assert LiveIn(v.world.views, s, h) && HolderOk(v, s, h);
        if task.pc.Ready? {
          if !task.pc.built {
            assert Publishes(v.world.views, s, task.pc.ctx) && Publishes(w'.views, s, task.pc.ctx);
          }
          assert w'.views.scopes[s].holders[h] ==> w'.views.scopes[s].Watching();
        }
        assert KnowledgeOk(v', task.watch, task.pc);
      }
      if task.pc.Ready? && task.pc.built {
        var c := task.pc.ctx;
        assert PrivateOk(v, t);
        assert forall s' :: Publishes(w'.views, s', c) && ScopeShrunk(v.world, w', s') ==> Publishes(v.world.views, s', c);
      }
    }
  }

  lemma WithdrawalKeepsInv(v: Vault, w': World)
    requires Inv(v) && Withdrawn(v.world, w')
    ensures Inv(v.(world := w'))
  {
    WithdrawalKeepsViews(v, w');
    forall t | t in v.tasks ensures TaskOk(v.(world := w'), t) {
      WithdrawalKeepsTask(v, w', t);
    }
  }

  lemma DropKeepsInv(v: Vault, h: HolderId)
    requires Inv(v) && Enabled(v, Drop(h))
    ensures Inv(Apply(v, Drop(h)))
  {
    var g := Grant(v.issued[h].scope, h);
    DropGrantWithdraws(v.world, g);
    var v1 := v.(world := DropGrant(v.world, g));
    WithdrawalKeepsInv(v, v1.world);
    var v' := Apply(v, Drop(h));
    forall s, k | LiveIn(v'.world.views, s, k) ensures HolderOk(v', s, k) {
      assert LiveIn(v1.world.views, s, k) && HolderOk(v1, s, k);
    }
    forall t | t in v'.tasks ensures TaskOk(v', t) {
      assert TaskOk(v1, t);
    }
  }

  // ---------------------------------------------------------------------------------------
  // Steps of one task.
  // ---------------------------------------------------------------------------------------

  /** Another task's facts survive a step that leaves the views, the issued ids and the floor observations alone. */
  lemma OtherTaskOk(v: Vault, v': Vault, t: TaskId, u: TaskId)
    requires Inv(v) && u in v.tasks && u != t && u in v'.tasks && v'.tasks[u] == v.tasks[u]
    requires forall x :: x in v'.tasks && x != t ==> x in v.tasks && v'.tasks[x] == v.tasks[x]
    requires v'.world.views == v.world.views && v'.issued == v.issued && v.known <= v'.known
    requires v.world.ctxs.Keys <= v'.world.ctxs.Keys
    requires forall c :: c in v.world.ctxs ==> v'.world.ctxs[c] == v.world.ctxs[c]
    requires !v.tasks[u].pc.FloorSeen? || (v'.observed == v.observed && v'.applied == v.applied)
    requires t in v'.tasks && v'.tasks[t].pc.Ready? && v'.tasks[t].pc.built ==> v'.tasks[t].pc.ctx !in v.world.ctxs
    ensures TaskOk(v', u)
  {
    assert TaskOk(v, u);
    var pc := v.tasks[u].pc;
    if HasRes(pc) {
      assert KnowledgeOk(v', v.tasks[u].watch, pc);
      if pc.Ready? && pc.built {
        assert PrivateOk(v, u);
        assert PrivateOk(v', u);
      }
    }
  }

  lemma EndKeepsInv(v: Vault, t: TaskId)
    requires Inv(v) && t in v.tasks
    ensures Inv(End(v, t))
  {
    var v' := End(v, t);
    forall s, h | LiveIn(v'.world.views, s, h) ensures HolderOk(v', s, h) {
      assert HolderOk(v, s, h);
    }
    assert HoldersOk(v') && ScopesOk(v') && FinishedOk(v');
    assert TaskOk(v, t);
    assert LocksOk(v');
    forall u | u in v'.tasks ensures TaskOk(v', u) {
      OtherTaskOk(v, v', t, u);
    }
  }

  /** A step that moves one task and touches nothing but locks and the floor observation counter. */
  lemma MoveKeepsInv(v: Vault, v': Vault, t: TaskId)
    requires Inv(v) && t in v'.tasks
    requires v'.tasks.Keys == v.tasks.Keys + {t}
    requires forall x :: x in v.tasks && x != t ==> v'.tasks[x] == v.tasks[x]
    requires v' == v.(tasks := v'.tasks, refresh := v'.refresh, init := v'.init, known := v'.known, observed := v'.observed)
    requires v.known <= v'.known && v.observed <= v'.observed
    requires v'.observed == v.observed || v.refresh == Some(t)
    requires LocksOk(v') && TaskOk(v', t)
    requires !(v'.tasks[t].pc.Ready? && v'.tasks[t].pc.built)
    ensures Inv(v')
  {
    forall s, h | LiveIn(v'.world.views, s, h) ensures HolderOk(v', s, h) {
      assert HolderOk(v, s, h);
    }
    forall u | u in v'.tasks && u != t ensures TaskOk(v', u) {
      OtherTaskOk(v, v', t, u);
    }
  }

  lemma BeginKeepsInv(v: Vault, a: Action)
    requires Inv(v) && Enabled(v, a) && a.Begin?
    ensures Inv(Apply(v, a))
  {
    MoveKeepsInv(v, Apply(v, a), a.t);
  }

  lemma LockRefreshKeepsInv(v: Vault, t: TaskId)
    requires Inv(v) && Enabled(v, LockRefresh(t))
    ensures Inv(Apply(v, LockRefresh(t)))
  {
    assert TaskOk(v, t);
    MoveKeepsInv(v, Apply(v, LockRefresh(t)), t);
  }

  lemma ReadFloorKeepsInv(v: Vault, t: TaskId, read: Option<Patterns>)
    requires Inv(v) && Enabled(v, ReadFloor(t, read))
    ensures Inv(Apply(v, ReadFloor(t, read)))
  {
    assert TaskOk(v, t);
    MoveKeepsInv(v, Apply(v, ReadFloor(t, read)), t);
  }

  lemma LockInitKeepsInv(v: Vault, t: TaskId)
    requires Inv(v) && Enabled(v, LockInit(t))
    ensures Inv(Apply(v, LockInit(t)))
  {
    hide ContextsOk, FinishedOk, ScopesOk;
    assert TaskOk(v, t);
    var v' := Apply(v, LockInit(t));
    assert LocksOk(v');
    assert KnowledgeOk(v', v'.tasks[t].watch, v'.tasks[t].pc);
    MoveKeepsInv(v, v', t);
  }

  /** The steps under the initialization lock that only record what the attach learned. */
  lemma AdvanceKeepsInv(v: Vault, t: TaskId, pc: Pc)
    requires Inv(v) && t in v.tasks && HoldsInit(v.tasks[t].pc) && HoldsInit(pc)
    requires pc.res == v.tasks[t].pc.res && !(pc.Ready? && pc.built)
    requires HoldsContext(pc) ==> pc.ctx in v.world.ctxs && v.world.ctxs[pc.ctx].activated
    requires KnowledgeOk(v, v.tasks[t].watch, pc)
    ensures Inv(GoTo(v, t, pc))
  {
    assert TaskOk(v, t);
    var v' := GoTo(v, t, pc);
    assert LocksOk(v');
    assert KnowledgeOk(v', v.tasks[t].watch, pc);
    MoveKeepsInv(v, v', t);
  }

  lemma PeekKeepsInv(v: Vault, t: TaskId)
    requires Inv(v) && Enabled(v, Peek(t))
    ensures Inv(Apply(v, Peek(t)))
  {
    assert TaskOk(v, t);
    var res := v.tasks[t].pc.res;
    var s := ByHolder(v.world.views, res.grant.id);
    if s.None? {
      EndKeepsInv(v, t);
    } else {
      assert HolderOk(v, s.value, res.grant.id);
      var scope := v.world.views.scopes[s.value];
      assert scope.holders[res.grant.id] ==> scope.Watching();
      assert scope.context.Some? ==> Publishes(v.world.views, s.value, scope.context.value) && ContextOk(v.world, s.value, scope.context.value);
      AdvanceKeepsInv(v, t, Apply(v, Peek(t)).tasks[t].pc);
    }
  }

  lemma CheckWatchKeepsInv(v: Vault, t: TaskId)
    requires Inv(v) && Enabled(v, CheckWatch(t))
    ensures Inv(Apply(v, CheckWatch(t)))
  {
    assert TaskOk(v, t);
    AdvanceKeepsInv(v, t, Apply(v, CheckWatch(t)).tasks[t].pc);
  }

  lemma ResumedKeepsInv(v: Vault, t: TaskId)
    requires Inv(v) && Enabled(v, Resumed(t))
    ensures Inv(Apply(v, Resumed(t)))
  {
    assert TaskOk(v, t);
    AdvanceKeepsInv(v, t, Apply(v, Resumed(t)).tasks[t].pc);
  }

  lemma OpenedKeepsViews(v: Vault, t: TaskId, c: CtxId)
    requires Inv(v) && Enabled(v, Opened(t, c))
    ensures var v' := Apply(v, Opened(t, c)); HoldersOk(v') && ScopesOk(v') && ContextsOk(v'.world) && FinishedOk(v')
    ensures !Published(v.world.views, c)
  {
    var v' := Apply(v, Opened(t, c));
    assert TaskOk(v, t);
    forall s, h | LiveIn(v'.world.views, s, h) ensures HolderOk(v', s, h) {
      assert HolderOk(v, s, h);
    }
    forall s, d | Publishes(v'.world.views, s, d) ensures ContextOk(v'.world, s, d) && d != c {
      assert Publishes(v.world.views, s, d) && ContextOk(v.world, s, d);
    }
    forall s, h | LiveIn(v'.world.views, s, h) && h in v'.finished
      ensures v'.world.views.scopes[s].context.Some?
      ensures v'.world.views.scopes[s].context.value in v.world.ctxs
    {
      assert LiveIn(v.world.views, s, h) && HolderOk(v, s, h);
      assert Publishes(v.world.views, s, v.world.views.scopes[s].context.value);
    }
  }

  lemma OpenedIsPrivate(v: Vault, t: TaskId, c: CtxId)
    requires Inv(v) && Enabled(v, Opened(t, c)) && !Published(v.world.views, c)
    ensures PrivateOk(Apply(v, Opened(t, c)), t)
  {
    hide HoldersOk, ScopesOk, ContextsOk, FinishedOk, LocksOk;
    forall u | u in v.tasks && v.tasks[u].pc.Ready? && v.tasks[u].pc.built ensures v.tasks[u].pc.ctx != c {
      assert TaskOk(v, u);
    }
  }

  lemma OpenedKeepsInv(v: Vault, t: TaskId, c: CtxId)
    requires Inv(v) && Enabled(v, Opened(t, c))
    ensures Inv(Apply(v, Opened(t, c)))
  {
    var v' := Apply(v, Opened(t, c));
    OpenedKeepsViews(v, t, c);
    OpenedIsPrivate(v, t, c);
    hide HoldersOk, ScopesOk, ContextsOk, FinishedOk, PrivateOk;
    assert TaskOk(v, t);
    assert LocksOk(v');
    forall u | u in v'.tasks && u != t ensures TaskOk(v', u) {
      OtherTaskOk(v, v', t, u);
    }
  }

  // ---------------------------------------------------------------------------------------
  // Publication and reservation.
  // ---------------------------------------------------------------------------------------

  /** The initialization lock leaves at most one task with a live holder past it in each scope. */
  lemma OneInitializerPerScope(v: Vault, t: TaskId, u: TaskId)
    requires Inv(v) && t in v.tasks && u in v.tasks && HoldsInit(v.tasks[t].pc) && HoldsInit(v.tasks[u].pc)
    requires LiveIn(v.world.views, v.tasks[t].pc.res.grant.scope, v.tasks[t].pc.res.grant.id)
    requires LiveIn(v.world.views, v.tasks[u].pc.res.grant.scope, v.tasks[u].pc.res.grant.id)
    requires v.tasks[t].pc.res.grant.scope == v.tasks[u].pc.res.grant.scope
    ensures t == u
  {
    assert TaskOk(v, t) && TaskOk(v, u);
    assert HolderOk(v, v.tasks[t].pc.res.grant.scope, v.tasks[t].pc.res.grant.id);
    assert HolderOk(v, v.tasks[u].pc.res.grant.scope, v.tasks[u].pc.res.grant.id);
  }

  /** What the publishing task brings to its critical section. */
  ghost predicate Publishable(v: Vault, g: Grant, c: CtxId, pending: bool, built: bool) {
    && LiveIn(v.world.views, g.scope, g.id) && HolderOk(v, g.scope, g.id)
    && c in v.world.ctxs
    && v.world.views.scopes[g.scope].context == (if built then None else Some(c))
    && (built ==>
        && !v.world.ctxs[c].retired && v.world.ctxs[c].exclude == g.scope.patterns
        && !Published(v.world.views, c))
    && (v.issued[g.id].watch ==> pending || v.world.ctxs[c].watcher)
    && (forall u :: u in v.tasks && HoldsInit(v.tasks[u].pc) ==>
        && (v.tasks[u].pc.Ready? && v.tasks[u].pc.built ==> v.tasks[u].pc.ctx != c)
        && !(v.tasks[u].pc.res.grant.scope == g.scope && LiveIn(v.world.views, g.scope, v.tasks[u].pc.res.grant.id)))
  }

  lemma PublicationKeepsHolders(v: Vault, g: Grant, c: CtxId, pending: bool, built: bool)
    requires Inv(v) && Publishable(v, g, c, pending, built)
    ensures var w' := Publish(v.world, g, c, pending).value;
            var v' := v.(world := w', finished := v.finished + {g.id});
            HoldersOk(v') && ScopesOk(v')
  {
    hide FinishedOk, LocksOk, ContextsOk;
    var w' := Publish(v.world, g, c, pending).value;
    var v' := v.(world := w', finished := v.finished + {g.id});
    forall s, h | LiveIn(w'.views, s, h) ensures LiveIn(v.world.views, s, h) && HolderOk(v, s, h) && HolderOk(v', s, h) {
      assert LiveIn(v.world.views, s, h);
    }
  }

  lemma PublicationKeepsContexts(v: Vault, g: Grant, c: CtxId, pending: bool, built: bool)
    requires Inv(v) && Publishable(v, g, c, pending, built)
    ensures ContextsOk(Publish(v.world, g, c, pending).value)
  {
    hide FinishedOk, LocksOk, HoldersOk;
    var w' := Publish(v.world, g, c, pending).value;
    assert !built ==> Publishes(v.world.views, g.scope, c) && ContextOk(v.world, g.scope, c);
    assert w'.views.scopes[g.scope].Watching() <==> v.world.views.scopes[g.scope].Watching();
    forall s, d | Publishes(w'.views, s, d) ensures ContextOk(w', s, d) && (s != g.scope <==> d != c) {
      if s != g.scope {
        assert Publishes(v.world.views, s, d) && ContextOk(v.world, s, d);
      }
    }
  }

  lemma PublicationKeepsViews(v: Vault, g: Grant, c: CtxId, pending: bool, built: bool)
    requires Inv(v) && Publishable(v, g, c, pending, built)
    ensures var w' := Publish(v.world, g, c, pending).value;
            var v' := v.(world := w', finished := v.finished + {g.id});
            HoldersOk(v') && ScopesOk(v') && ContextsOk(w') && FinishedOk(v')
  {
    PublicationKeepsHolders(v, g, c, pending, built);
    PublicationKeepsContexts(v, g, c, pending, built);
    hide ScopesOk, LocksOk;
    var w' := Publish(v.world, g, c, pending).value;
    var v' := v.(world := w', finished := v.finished + {g.id});
    assert !built ==> Publishes(v.world.views, g.scope, c) && ContextOk(v.world, g.scope, c);
    forall s, h | LiveIn(w'.views, s, h) && h in v'.finished
      ensures w'.views.scopes[s].context.Some?
      ensures v.issued[h].watch && w'.views.scopes[s].context.value in w'.ctxs ==>
              w'.ctxs[w'.views.scopes[s].context.value].watcher
    {
      assert LiveIn(v.world.views, s, h) && HolderOk(v, s, h);
      if s == g.scope {
        assert v.issued[h].watch ==> w'.views.scopes[s].holders[h];
      } else {
        assert h != g.id;
        assert Publishes(v.world.views, s, v.world.views.scopes[s].context.value);
        assert Publishes(w'.views, s, v.world.views.scopes[s].context.value);
        assert ContextOk(w', s, v.world.views.scopes[s].context.value);
      }
    }
  }

  lemma PublicationKeepsTask(v: Vault, g: Grant, c: CtxId, pending: bool, built: bool, u: TaskId)
    requires Inv(v) && Publishable(v, g, c, pending, built) && u in v.tasks
    ensures TaskOk(v.(world := Publish(v.world, g, c, pending).value, finished := v.finished + {g.id}), u)
  {
    hide HoldersOk, ScopesOk, FinishedOk, LocksOk;
    var w' := Publish(v.world, g, c, pending).value;
    var v' := v.(world := w', finished := v.finished + {g.id});
    assert !built ==> Publishes(v.world.views, g.scope, c);
    assert TaskOk(v, u);
    var pc := v.tasks[u].pc;
    if HasRes(pc) {
      var s, h := pc.res.grant.scope, pc.res.grant.id;
      if LiveIn(w'.views, s, h) && HoldsInit(pc) {
        assert LiveIn(v.world.views, s, h) && s != g.scope;
        if pc.Ready? && !pc.built {
          assert Publishes(v.world.views, s, pc.ctx);
          assert pc.ctx != c;
        }
      }
      assert KnowledgeOk(v', v.tasks[u].watch, pc);
      if pc.Ready? && pc.built {
        assert PrivateOk(v, u);
        assert forall s' :: Publishes(w'.views, s', pc.ctx) ==> Publishes(v.world.views, s', pc.ctx);
        assert PrivateOk(v', u);
      }
    }
  }

  lemma PublicationKeepsInv(v: Vault, g: Grant, c: CtxId, pending: bool, built: bool)
    requires Inv(v) && Publishable(v, g, c, pending, built)
    ensures Inv(v.(world := Publish(v.world, g, c, pending).value, finished := v.finished + {g.id}))
  {
    PublicationKeepsViews(v, g, c, pending, built);
    hide HoldersOk, ScopesOk, FinishedOk, TaskOk;
    forall u | u in v.tasks ensures TaskOk(v.(world := Publish(v.world, g, c, pending).value, finished := v.finished + {g.id}), u) {
      PublicationKeepsTask(v, g, c, pending, built, u);
    }
  }

  lemma PublishKeepsInv(v: Vault, t: TaskId)
    requires Inv(v) && Enabled(v, PublishContext(t))
    ensures Inv(Apply(v, PublishContext(t)))
  {
    var pc := v.tasks[t].pc;
    var g := pc.res.grant;
    EndKeepsInv(v, t);
    if LiveIn(v.world.views, g.scope, g.id) {
      var ended := End(v, t);
      assert TaskOk(v, t) && HolderOk(v, g.scope, g.id);
      assert pc.built ==> PrivateOk(v, t);
      forall u | u in ended.tasks && HoldsInit(ended.tasks[u].pc)
        ensures ended.tasks[u].pc.Ready? && ended.tasks[u].pc.built ==> ended.tasks[u].pc.ctx != pc.ctx
        ensures !(ended.tasks[u].pc.res.grant.scope == g.scope && LiveIn(v.world.views, g.scope, ended.tasks[u].pc.res.grant.id))
      {
        if ended.tasks[u].pc.res.grant.scope == g.scope && LiveIn(v.world.views, g.scope, ended.tasks[u].pc.res.grant.id) {
          OneInitializerPerScope(v, t, u);
        }
        if ended.tasks[u].pc.Ready? && ended.tasks[u].pc.built {
          assert TaskOk(v, u) && PrivateOk(v, u);
          assert !pc.built ==> Publishes(v.world.views, g.scope, pc.ctx);
        }
      }
      assert LiveIn(ended.world.views, g.scope, g.id) && HolderOk(ended, g.scope, g.id);
      assert Publishable(ended, g, pc.ctx, pc.pending, pc.built);
      PublicationKeepsInv(ended, g, pc.ctx, pc.pending, pc.built);
    }
  }

  /** A floor with other patterns withdraws everything; then the floor is the one just read. */
  lemma FloorKeepsInv(v: Vault, floor: Patterns)
    requires Inv(v) && !v.world.views.replaced
    ensures Inv(v.(world := ApplyFloor(v.world, floor)))
    ensures ApplyFloor(v.world, floor).views.floor == Some(floor)
    ensures Withdrawn(v.world, ApplyFloor(v.world, floor))
  {
    RetireAllWithdraws(v.world);
    WithdrawalKeepsInv(v, ApplyFloor(v.world, floor));
  }

  /** The vault after a fresh holder was issued and entered its scope. */
  ghost function Entered(v: Vault, g: Grant, watch: bool, freshLock: LockId, rules: Patterns): Vault
    requires v.world.views.floor.Some?
  {
    var w' := Enter(v.world, g, watch, freshLock);
    v.(world := w',
       known := v.known + {g.id},
       issued := v.issued[g.id := Issue(g.scope, watch, w'.views.scopes[g.scope].lock, v.world.views.floor.value, rules)],
       outstanding := v.outstanding + {g.id})
  }

  lemma EnterKeepsHolders(v: Vault, g: Grant, watch: bool, freshLock: LockId, rules: Patterns)
    requires Inv(v) && g.id !in v.known && !v.world.views.replaced
    requires v.world.views.floor.Some? && g.scope == ScopeId(v.root, v.world.views.floor.value + rules)
    ensures HoldersOk(Entered(v, g, watch, freshLock, rules)) && ScopesOk(Entered(v, g, watch, freshLock, rules))
  {
    hide ContextsOk, FinishedOk, LocksOk;
    var v' := Entered(v, g, watch, freshLock, rules);
    forall s, h | LiveIn(v'.world.views, s, h) ensures HolderOk(v', s, h) && (h != g.id ==> LiveIn(v.world.views, s, h)) {
      if LiveIn(v.world.views, s, h) {
        assert HolderOk(v, s, h);
      }
    }
    assert g.id in v'.world.views.scopes[g.scope].holders;
  }

  lemma EnterKeepsViews(v: Vault, g: Grant, watch: bool, freshLock: LockId, rules: Patterns)
    requires Inv(v) && g.id !in v.known && !v.world.views.replaced
    requires v.world.views.floor.Some? && g.scope == ScopeId(v.root, v.world.views.floor.value + rules)
    ensures var v' := Entered(v, g, watch, freshLock, rules);
            HoldersOk(v') && ScopesOk(v') && ContextsOk(v'.world) && FinishedOk(v')
  {
    EnterKeepsHolders(v, g, watch, freshLock, rules);
    hide ScopesOk, LocksOk;
    var v' := Entered(v, g, watch, freshLock, rules);
    var w' := v'.world;
    forall s, c | Publishes(w'.views, s, c) ensures Publishes(v.world.views, s, c) && ContextOk(w', s, c) {
      assert Publishes(v.world.views, s, c) && ContextOk(v.world, s, c);
      if h :| h in v.world.views.scopes[s].holders && v.world.views.scopes[s].holders[h] {
        assert LiveIn(v.world.views, s, h) && HolderOk(v, s, h);
        assert w'.views.scopes[s].holders[h];
      }
    }
    forall s, h | LiveIn(w'.views, s, h) && h in v'.finished
      ensures LiveIn(v.world.views, s, h) && HolderOk(v, s, h) && v'.issued[h] == v.issued[h]
    {
      assert h in v.known && HolderOk(v', s, h);
    }
  }

  lemma EnterKeepsTask(v: Vault, g: Grant, watch: bool, freshLock: LockId, rules: Patterns, u: TaskId)
    requires Inv(v) && g.id !in v.known && v.world.views.floor.Some? && u in v.tasks
    ensures TaskOk(Entered(v, g, watch, freshLock, rules), u)
  {
    var v' := Entered(v, g, watch, freshLock, rules);
    assert TaskOk(v, u);
    var pc := v.tasks[u].pc;
    if HasRes(pc) {
      var s, h := pc.res.grant.scope, pc.res.grant.id;
      assert h != g.id;
      assert LiveIn(v'.world.views, s, h) ==> LiveIn(v.world.views, s, h);
      assert KnowledgeOk(v', v.tasks[u].watch, pc);
      if pc.Ready? && pc.built {
        assert PrivateOk(v, u);
        assert forall s' :: Publishes(v'.world.views, s', pc.ctx) ==> Publishes(v.world.views, s', pc.ctx);
        assert PrivateOk(v', u);
      }
    }
  }

  /** A fresh holder enters the scope of the current floor and its own rules. */
  lemma EnterKeepsInv(v: Vault, g: Grant, watch: bool, freshLock: LockId, rules: Patterns)
    requires Inv(v) && g.id !in v.known && !v.world.views.replaced
    requires v.world.views.floor.Some? && g.scope == ScopeId(v.root, v.world.views.floor.value + rules)
    ensures Inv(Entered(v, g, watch, freshLock, rules))
  {
    EnterKeepsViews(v, g, watch, freshLock, rules);
    forall u | u in v.tasks ensures TaskOk(Entered(v, g, watch, freshLock, rules), u) {
      EnterKeepsTask(v, g, watch, freshLock, rules, u);
    }
  }

  /** The floor observation a task brings to its critical section is the latest one, so recording it as applied is sound. */
  lemma AppliedKeepsInv(v: Vault, t: TaskId)
    requires Inv(v) && t in v.tasks && v.tasks[t].pc.FloorSeen?
    ensures v.tasks[t].pc.stamp == v.observed
    ensures Inv(End(v, t).(applied := v.tasks[t].pc.stamp))
  {
    assert TaskOk(v, t);
    EndKeepsInv(v, t);
    var e := End(v, t);
    var v' := e.(applied := v.tasks[t].pc.stamp);
    forall s, h | LiveIn(v'.world.views, s, h) ensures HolderOk(v', s, h) {
      assert HolderOk(e, s, h);
    }
    forall u | u in v'.tasks ensures TaskOk(v', u) {
      assert TaskOk(e, u);
      assert !e.tasks[u].pc.FloorSeen?;
      assert HasRes(e.tasks[u].pc) ==> KnowledgeOk(v', e.tasks[u].watch, e.tasks[u].pc);
      assert e.tasks[u].pc.Ready? && e.tasks[u].pc.built ==> PrivateOk(e, u) && PrivateOk(v', u);
    }
  }

  /** A task whose reservation was just made waits for the initialization lock. */
  lemma AdmitKeepsInv(v: Vault, t: TaskId, task: Task)
    requires Inv(v) && t !in v.tasks && task.pc.AwaitInit?
    requires task.current.Some? ==> task.current.value.id in v.known
    requires task.current.Some? && task.current.value.id in v.issued ==> v.issued[task.current.value.id].scope == task.current.value.scope
    requires ReservationOk(v, task.watch, task.pc.res)
    ensures Inv(v.(tasks := v.tasks[t := task]))
  {
    var v' := v.(tasks := v.tasks[t := task]);
    assert KnowledgeOk(v', task.watch, task.pc);
    MoveKeepsInv(v, v', t);
  }

  lemma ReserveKeepsInv(v: Vault, a: Action)
    requires Inv(v) && Enabled(v, a) && a.ReserveScope?
    ensures Inv(Apply(v, a))
  {
    var t, task := a.t, v.tasks[a.t];
    assert TaskOk(v, t);
    var (w, outcome) := Reserve(v.world, a.closed, v.root, task.pc.read, task.rules, task.watch, task.current, a.freshId, a.freshLock);
    var ended := End(v, t);
    EndKeepsInv(v, t);
    if v.world.views.replaced || a.closed {
      assert Apply(v, a) == ended;
    } else {
      AppliedKeepsInv(v, t);
      var v0 := ended.(applied := task.pc.stamp);
      if task.pc.read.None? {
        RetireAllWithdraws(v0.world);
        WithdrawalKeepsInv(v0, RetireAll(v0.world));
        assert Apply(v, a) == v0.(world := w);
      } else {
        FloorKeepsInv(v0, task.pc.read.value);
        var v1 := v0.(world := ApplyFloor(v0.world, task.pc.read.value));
        if outcome.Err? {
          assert Apply(v, a) == v1;
        } else {
          ReserveGrantKeepsInv(v, a, outcome.value);
        }
      }
    }
  }

  /** The vault between the floor part and the grant part of a reservation, with the attach set aside. */
  ghost function FloorApplied(v: Vault, t: TaskId, floor: Patterns): Vault
    requires t in v.tasks && v.tasks[t].pc.FloorSeen?
  {
    End(v, t).(applied := v.tasks[t].pc.stamp, world := ApplyFloor(v.world, floor))
  }

  lemma ReserveGrantShape(v: Vault, a: Action)
    requires Inv(v) && Enabled(v, a) && a.ReserveScope?
    requires var task := v.tasks[a.t];
             Reserve(v.world, a.closed, v.root, task.pc.read, task.rules, task.watch, task.current, a.freshId, a.freshLock).1.Ok?
    ensures var task := v.tasks[a.t];
            var res := Reserve(v.world, a.closed, v.root, task.pc.read, task.rules, task.watch, task.current, a.freshId, a.freshLock).1.value;
            && task.pc.read.Some? && task.rules.Some? && !v.world.views.replaced
            && res.grant.scope == ScopeId(v.root, task.pc.read.value + task.rules.value)
            && var v1 := FloorApplied(v, a.t, task.pc.read.value);
            var v2 := if res.provisional then Entered(v1, res.grant, task.watch, a.freshLock, task.rules.value) else v1;
            Apply(v, a) == v2.(tasks := v2.tasks[a.t := task.(pc := AwaitInit(res))])
  {
  }

  lemma ReserveGrantKeepsInv(v: Vault, a: Action, res: Reservation)
    requires Inv(v) && Enabled(v, a) && a.ReserveScope?
    requires var task := v.tasks[a.t];
             Reserve(v.world, a.closed, v.root, task.pc.read, task.rules, task.watch, task.current, a.freshId, a.freshLock).1 == Ok(res)
    requires var task := v.tasks[a.t]; task.pc.read.Some? ==> Inv(FloorApplied(v, a.t, task.pc.read.value))
    ensures Inv(Apply(v, a))
  {
    var t, task := a.t, v.tasks[a.t];
    ReserveGrantShape(v, a);
    var v1 := FloorApplied(v, t, task.pc.read.value);
    assert TaskOk(v, t);
    if res.provisional {
      EnterKeepsInv(v1, res.grant, task.watch, a.freshLock, task.rules.value);
      AdmitKeepsInv(Entered(v1, res.grant, task.watch, a.freshLock, task.rules.value), t, task.(pc := AwaitInit(res)));
    } else {
      assert HolderOk(v1, ByHolder(v1.world.views, res.grant.id).value, res.grant.id);
      AdmitKeepsInv(v1, t, task.(pc := AwaitInit(res)));
    }
  }

  /** Every step of the protocol keeps the invariant. */
  lemma StepKeepsInv(v: Vault, a: Action)
    requires Inv(v) && Enabled(v, a)
    ensures Inv(Apply(v, a))
  {
    match a
    case Begin(_, _, _, _) => BeginKeepsInv(v, a);
    case LockRefresh(t) => LockRefreshKeepsInv(v, t);
    case ReadFloor(t, read) => ReadFloorKeepsInv(v, t, read);
    case ReserveScope(_, _, _, _) => ReserveKeepsInv(v, a);
    case LockInit(t) => LockInitKeepsInv(v, t);
    case Peek(t) => PeekKeepsInv(v, t);
    case CheckWatch(t) => CheckWatchKeepsInv(v, t);
    case Resumed(t) => ResumedKeepsInv(v, t);
    case Opened(t, c) => OpenedKeepsInv(v, t, c);
    case PublishContext(t) => PublishKeepsInv(v, t);
    case Cancel(t) => EndKeepsInv(v, t);
    case Drop(h) => DropKeepsInv(v, h);
    case RevokeAll =>
      RetireAllWithdraws(v.world);
      WithdrawalKeepsInv(v, RetireAll(v.world));
    case Replace =>
      RetireAllWithdraws(v.world);
      WithdrawalKeepsInv(v, MarkReplaced(v.world));
  }
}
