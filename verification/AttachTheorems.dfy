/**
 What one step of the attach protocol can and cannot do to holders, contexts and floors.
 */
module AttachTheorems {
  import opened Wrappers
  import opened VaultViews
  import opened AttachProtocol

  /** A holder that is live after a step was live in the same scope before it, with the same preference and the same context if it had one, or is new. */
  ghost predicate HolderHistory(v: Vault, v': Vault) {
    && v.known <= v'.known && v.issued.Keys <= v'.issued.Keys && v.finished <= v'.finished
    && (forall s, h :: LiveIn(v'.world.views, s, h) ==> CameFrom(v, v', s, h))
  }

  ghost predicate CameFrom(v: Vault, v': Vault, s: ScopeId, h: HolderId)
    requires LiveIn(v'.world.views, s, h)
  {
    || h !in v.known
    || (&& LiveIn(v.world.views, s, h)
        && v'.world.views.scopes[s].holders[h] == v.world.views.scopes[s].holders[h]
        && (v.world.views.scopes[s].context.Some? ==> v'.world.views.scopes[s].context == v.world.views.scopes[s].context))
  }

  lemma WithdrawalHistory(v: Vault, w': World)
    requires Withdrawn(v.world, w')
    ensures HolderHistory(v, v.(world := w'))
  {
    forall s, h | LiveIn(w'.views, s, h) ensures CameFrom(v, v.(world := w'), s, h) {
      assert ScopeShrunk(v.world, w', s);
    }
  }

  /** Reserving adds at most the fresh holder and sets no context. */
  lemma ReserveAddsOnlyFresh(w: World, closed: bool, root: string, read: Option<Patterns>, rules: Option<Patterns>,
                             watch: bool, current: Option<Grant>, freshId: HolderId, freshLock: LockId, s: ScopeId, h: HolderId)
    requires var w' := Reserve(w, closed, root, read, rules, watch, current, freshId, freshLock).0;
             LiveIn(w'.views, s, h) && h != freshId
    ensures var w' := Reserve(w, closed, root, read, rules, watch, current, freshId, freshLock).0;
            && LiveIn(w.views, s, h) && w'.views.scopes[s].context == w.views.scopes[s].context
            && w'.views.scopes[s].holders[h] == w.views.scopes[s].holders[h]
  {
  }

  lemma ReserveHistory(v: Vault, a: Action)
    requires Inv(v) && Enabled(v, a) && a.ReserveScope?
    ensures HolderHistory(v, Apply(v, a))
  {
    var task := v.tasks[a.t];
    var v' := Apply(v, a);
    forall s, h | LiveIn(v'.world.views, s, h) ensures CameFrom(v, v', s, h) {
      if h != a.freshId {
        ReserveAddsOnlyFresh(v.world, a.closed, v.root, task.pc.read, task.rules, task.watch, task.current, a.freshId, a.freshLock, s, h);
      }
    }
  }

  lemma PublishHistory(v: Vault, t: TaskId)
    requires Inv(v) && Enabled(v, PublishContext(t))
    ensures HolderHistory(v, Apply(v, PublishContext(t)))
  {
    var pc := v.tasks[t].pc;
    var v' := Apply(v, PublishContext(t));
    assert TaskOk(v, t);
    forall s, h | LiveIn(v'.world.views, s, h) ensures CameFrom(v, v', s, h) {
      assert LiveIn(v.world.views, s, h);
    }
  }

  /** The critical sections of the registry; every other step leaves its state alone. */
  predicate TouchesWorld(a: Action) {
    a.ReserveScope? || a.Opened? || a.PublishContext? || a.Drop? || a.RevokeAll? || a.Replace?
  }

  lemma DropHistory(v: Vault, h: HolderId)
    requires Inv(v) && Enabled(v, Drop(h))
    ensures HolderHistory(v, Apply(v, Drop(h)))
  {
    var g := Grant(v.issued[h].scope, h);
    DropGrantWithdraws(v.world, g);
    hide DropGrant;
    WithdrawalHistory(v, DropGrant(v.world, g));
  }

  lemma RevocationHistory(v: Vault)
    requires Inv(v)
    ensures HolderHistory(v, Apply(v, RevokeAll)) && HolderHistory(v, Apply(v, Replace))
  {
    RetireAllWithdraws(v.world);
    hide RetireAll;
    WithdrawalHistory(v, RetireAll(v.world));
    WithdrawalHistory(v, MarkReplaced(v.world));
  }

  lemma QuietHistory(v: Vault, a: Action)
    requires Inv(v) && Enabled(v, a) && (!TouchesWorld(a) || a.Opened?)
    ensures HolderHistory(v, Apply(v, a))
  {
    hide Inv;
    assert Apply(v, a).world.views == v.world.views;
  }

  lemma StepHistory(v: Vault, a: Action)
    requires Inv(v) && Enabled(v, a)
    ensures HolderHistory(v, Apply(v, a))
  {
    hide Inv, Apply, HolderHistory, Enabled;
    match a
    case ReserveScope(_, _, _, _) => ReserveHistory(v, a);
    case PublishContext(t) => PublishHistory(v, t);
    case Drop(h) => DropHistory(v, h);
    case RevokeAll => RevocationHistory(v);
    case Replace => RevocationHistory(v);
    case _ => QuietHistory(v, a);
  }

  /** A holder sits in one scope only, so its context is that scope's. */
  lemma ContextOfLive(v: Vault, s: ScopeId, h: HolderId)
    requires Inv(v) && LiveIn(v.world.views, s, h)
    ensures ContextOf(v.world.views, h) == v.world.views.scopes[s].context
  {
    var s' := ByHolder(v.world.views, h).value;
    assert HolderOk(v, s, h) && HolderOk(v, s', h);
  }

  /** An id that was withdrawn stays withdrawn: no step brings a known holder back. */
  lemma WithdrawnStaysWithdrawn(v: Vault, a: Action, h: HolderId)
    requires Inv(v) && Enabled(v, a) && h in v.known && !Live(v.world.views, h)
    ensures h in Apply(v, a).known && !Live(Apply(v, a).world.views, h)
  {
    StepHistory(v, a);
    var v' := Apply(v, a);
    assert forall s :: LiveIn(v'.world.views, s, h) ==> CameFrom(v, v', s, h);
  }

  /** A live holder's context, once set, is never swapped for another while the holder stays. */
  lemma ContextNeverSwapped(v: Vault, a: Action, h: HolderId)
    requires Inv(v) && Enabled(v, a) && h in v.known && ContextOf(v.world.views, h).Some?
    requires Live(Apply(v, a).world.views, h)
    ensures ContextOf(Apply(v, a).world.views, h) == ContextOf(v.world.views, h)
  {
    StepHistory(v, a);
    StepKeepsInv(v, a);
    var v' := Apply(v, a);
    var s' := ByHolder(v'.world.views, h).value;
    assert CameFrom(v, v', s', h);
    ContextOfLive(v, s', h);
    ContextOfLive(v', s', h);
  }

  /** What a query may rely on: whatever a holder resolves to is activated, not retired, and built under the scope's rules. */
  lemma ResolvedContextIsSound(v: Vault, h: HolderId)
    requires Inv(v) && ContextOf(v.world.views, h).Some?
    ensures var c := ContextOf(v.world.views, h).value;
            && h in v.issued && v.world.views.floor.Some?
            && c in v.world.ctxs && v.world.ctxs[c].activated && !v.world.ctxs[c].retired
            && v.world.ctxs[c].exclude == v.issued[h].scope.patterns
            && v.world.views.floor.value <= v.world.ctxs[c].exclude
  {
    var s := ByHolder(v.world.views, h).value;
    var c := ContextOf(v.world.views, h).value;
    assert HolderOk(v, s, h);
    assert Publishes(v.world.views, s, c) && ContextOk(v.world, s, c);
  }

  /** Holders of one scope that finished attaching share one context, and it watches exactly when one of the live holders asked to. */
  lemma FinishedHoldersShare(v: Vault, s: ScopeId, h1: HolderId, h2: HolderId)
    requires Inv(v) && LiveIn(v.world.views, s, h1) && LiveIn(v.world.views, s, h2)
    requires h1 in v.finished && h2 in v.finished
    ensures ContextOf(v.world.views, h1).Some? && ContextOf(v.world.views, h1) == ContextOf(v.world.views, h2)
    ensures ContextOf(v.world.views, h1).value in v.world.ctxs
    ensures v.world.ctxs[ContextOf(v.world.views, h1).value].watcher ==>
              exists h :: LiveIn(v.world.views, s, h) && v.issued[h].watch
    ensures v.issued[h1].watch || v.issued[h2].watch ==> v.world.ctxs[ContextOf(v.world.views, h1).value].watcher
  {
    ContextOfLive(v, s, h1);
    ContextOfLive(v, s, h2);
    assert HolderOk(v, s, h1) && HolderOk(v, s, h2);
    var c := v.world.views.scopes[s].context.value;
    assert Publishes(v.world.views, s, c) && ContextOk(v.world, s, c);
    if v.world.ctxs[c].watcher {
      var h :| h in v.world.views.scopes[s].holders && v.world.views.scopes[s].holders[h];
      assert LiveIn(v.world.views, s, h) && HolderOk(v, s, h);
    }
  }

  /** A context that was built for a holder that is gone: inactive, unpublished, and in the hands of nobody who could publish it. */
  ghost predicate Doomed(v: Vault, c: CtxId) {
    && c in v.world.ctxs && !v.world.ctxs[c].activated
    && !Published(v.world.views, c)
    && (forall t :: t in v.tasks && HoldsContext(v.tasks[t].pc) && v.tasks[t].pc.ctx == c ==>
        v.tasks[t].pc.res.grant.id in v.known && !Live(v.world.views, v.tasks[t].pc.res.grant.id))
  }

  /** A context built by an attach whose holder was revoked meanwhile is doomed at once ... */
  lemma RevokedBuildIsDoomed(v: Vault, t: TaskId)
    requires Inv(v) && t in v.tasks && v.tasks[t].pc.Ready? && v.tasks[t].pc.built
    requires !Live(v.world.views, v.tasks[t].pc.res.grant.id)
    ensures Doomed(v, v.tasks[t].pc.ctx)
  {
    assert TaskOk(v, t) && PrivateOk(v, t);
    forall u | u in v.tasks && HoldsContext(v.tasks[u].pc) && v.tasks[u].pc.ctx == v.tasks[t].pc.ctx ensures u == t {
      assert TaskOk(v, u);
    }
  }

  lemma QuietStep(v: Vault, a: Action)
    requires Enabled(v, a) && !TouchesWorld(a)
    ensures Apply(v, a).world == v.world && Apply(v, a).applied == v.applied
  {
  }

  lemma PublicationActivates(v: Vault, t: TaskId, c: CtxId)
    requires Enabled(v, PublishContext(t)) && c in v.world.ctxs && !v.world.ctxs[c].activated
    requires v.tasks[t].pc.ctx == c ==> !Live(v.world.views, v.tasks[t].pc.res.grant.id)
    ensures var w' := Apply(v, PublishContext(t)).world; c in w'.ctxs && !w'.ctxs[c].activated
  {
    var g := v.tasks[t].pc.res.grant;
    assert LiveIn(v.world.views, g.scope, g.id) ==> Live(v.world.views, g.id);
  }

  lemma ReserveActivatesNothing(w: World, closed: bool, root: string, read: Option<Patterns>, rules: Option<Patterns>,
                                watch: bool, current: Option<Grant>, freshId: HolderId, freshLock: LockId, c: CtxId)
    requires c in w.ctxs && !w.ctxs[c].activated
    ensures var w' := Reserve(w, closed, root, read, rules, watch, current, freshId, freshLock).0;
            c in w'.ctxs && !w'.ctxs[c].activated
  {
    hide ByHolder;
  }

  lemma ReservationActivatesNothing(v: Vault, a: Action, c: CtxId)
    requires Enabled(v, a) && a.ReserveScope? && c in v.world.ctxs && !v.world.ctxs[c].activated
    ensures c in Apply(v, a).world.ctxs && !Apply(v, a).world.ctxs[c].activated
  {
    hide Reserve;
    var task := v.tasks[a.t];
    ReserveActivatesNothing(v.world, a.closed, v.root, task.pc.read, task.rules, task.watch, task.current, a.freshId, a.freshLock, c);
  }

  lemma OthersActivateNothing(v: Vault, a: Action, c: CtxId)
    requires Enabled(v, a) && !a.ReserveScope? && !a.PublishContext? && c in v.world.ctxs && !v.world.ctxs[c].activated
    ensures c in Apply(v, a).world.ctxs && !Apply(v, a).world.ctxs[c].activated
  {
    if !TouchesWorld(a) {
      QuietStep(v, a);
    }
  }

  /** Only a publication activates. */
  lemma OnlyPublicationActivates(v: Vault, a: Action, c: CtxId)
    requires Enabled(v, a) && c in v.world.ctxs && !v.world.ctxs[c].activated
    requires a.PublishContext? && v.tasks[a.t].pc.ctx == c ==> !Live(v.world.views, v.tasks[a.t].pc.res.grant.id)
    ensures c in Apply(v, a).world.ctxs && !Apply(v, a).world.ctxs[c].activated
  {
    hide Apply, Live;
    if a.PublishContext? {
      assert a.t in v.tasks && v.tasks[a.t].pc.Ready?;
      PublicationActivates(v, a.t, c);
    } else if a.ReserveScope? {
      ReservationActivatesNothing(v, a, c);
    } else {
      OthersActivateNothing(v, a, c);
    }
  }

  /** A task has a context that it had before, that it saw published, or that is new. */
  ghost predicate ContextHasOrigin(v: Vault, v': Vault, t: TaskId)
    requires t in v'.tasks && HoldsContext(v'.tasks[t].pc)
  {
    var pc' := v'.tasks[t].pc;
    || (t in v.tasks && HoldsContext(v.tasks[t].pc) && v.tasks[t].pc.ctx == pc'.ctx && v.tasks[t].pc.res == pc'.res)
    || pc'.ctx !in v.world.ctxs
    || Published(v.world.views, pc'.ctx)
  }

  lemma PeekedContextHasOrigin(v: Vault, a: Action)
    requires Enabled(v, a) && a.Peek? && a.t in Apply(v, a).tasks && HoldsContext(Apply(v, a).tasks[a.t].pc)
    ensures ContextHasOrigin(v, Apply(v, a), a.t)
  {
    var s := ByHolder(v.world.views, v.tasks[a.t].pc.res.grant.id).value;
    assert Publishes(v.world.views, s, Apply(v, a).tasks[a.t].pc.ctx);
  }

  /** Only a look at a published context or a build gives a task a context. */
  lemma ContextsComeFromPeekOrBuild(v: Vault, a: Action, t: TaskId)
    requires Enabled(v, a) && t in Apply(v, a).tasks && HoldsContext(Apply(v, a).tasks[t].pc)
    ensures ContextHasOrigin(v, Apply(v, a), t)
  {
    hide ByHolder, Reserve, Publish, RetireAll, DropGrant, Published;
    if a.Peek? && a.t == t {
      PeekedContextHasOrigin(v, a);
    }
  }

  /** ... and stays so: it is never published or activated. */
  lemma DoomedStaysDoomed(v: Vault, a: Action, c: CtxId)
    requires Inv(v) && Enabled(v, a) && Doomed(v, c)
    ensures Doomed(Apply(v, a), c)
  {
    var v' := Apply(v, a);
    StepKeepsInv(v, a);
    OnlyPublicationActivates(v, a, c);
    forall s ensures !Publishes(v'.world.views, s, c) {
      assert Publishes(v'.world.views, s, c) ==> ContextOk(v'.world, s, c);
    }
    forall t | t in v'.tasks && HoldsContext(v'.tasks[t].pc) && v'.tasks[t].pc.ctx == c
      ensures v'.tasks[t].pc.res.grant.id in v'.known && !Live(v'.world.views, v'.tasks[t].pc.res.grant.id)
    {
      ContextsComeFromPeekOrBuild(v, a, t);
      WithdrawnStaysWithdrawn(v, a, v.tasks[t].pc.res.grant.id);
    }
  }

  lemma FloorUnlessReserved(v: Vault, a: Action)
    requires Enabled(v, a) && !a.ReserveScope?
    ensures Apply(v, a).world.views.floor == v.world.views.floor || Apply(v, a).world.views.floor.None?
  {
    if !TouchesWorld(a) {
      QuietStep(v, a);
    }
  }

  lemma ReserveFloor(w: World, closed: bool, root: string, read: Option<Patterns>, rules: Option<Patterns>,
                     watch: bool, current: Option<Grant>, freshId: HolderId, freshLock: LockId)
    ensures var floor := Reserve(w, closed, root, read, rules, watch, current, freshId, freshLock).0.views.floor;
            floor == w.views.floor || floor.None? || (floor == read && !w.views.replaced && !closed)
  {
    hide ByHolder;
  }

  /** The floor in force is always the latest observation: a slower, earlier read never overrides a later one. */
  lemma FloorIsLatestObservation(v: Vault, a: Action)
    requires Inv(v) && Enabled(v, a)
    requires Apply(v, a).world.views.floor != v.world.views.floor && Apply(v, a).world.views.floor.Some?
    ensures a.ReserveScope?
    ensures v.tasks[a.t].pc.stamp == v.observed && v.applied < v.observed && Apply(v, a).applied == v.observed
    ensures Apply(v, a).world.views.floor == v.tasks[a.t].pc.read
  {
    hide Reserve;
    if a.ReserveScope? {
      var task := v.tasks[a.t];
      ReserveFloor(v.world, a.closed, v.root, task.pc.read, task.rules, task.watch, task.current, a.freshId, a.freshLock);
      assert TaskOk(v, a.t);
      hide Inv;
    } else {
      FloorUnlessReserved(v, a);
      hide Apply, Inv;
    }
  }

  lemma DeadDropIsInert(w: World, g: Grant)
    requires !Live(w.views, g.id)
    ensures DropGrant(w, g) == w
  {
    assert !LiveIn(w.views, g.scope, g.id);
  }

  /** A reservation issues a new grant only to a connection whose old holder is gone. */
  lemma NewGrantMeansDead(w: World, closed: bool, root: string, read: Option<Patterns>, rules: Option<Patterns>,
                          watch: bool, g: Grant, freshId: HolderId, freshLock: LockId)
    requires var outcome := Reserve(w, closed, root, read, rules, watch, Some(g), freshId, freshLock).1;
             outcome.Ok? && outcome.value.provisional && g.id != freshId
    ensures !Live(Reserve(w, closed, root, read, rules, watch, Some(g), freshId, freshLock).0.views, g.id)
  {
    var w' := Reserve(w, closed, root, read, rules, watch, Some(g), freshId, freshLock).0;
    var w1 := ApplyFloor(w, read.value);
    assert !Live(w1.views, g.id);
    hide ApplyFloor;
    forall s ensures !LiveIn(w'.views, s, g.id) {
      assert !LiveIn(w1.views, s, g.id);
    }
  }

  lemma SupersededIsDead(v: Vault, a: Action, g: Grant)
    requires Inv(v) && Enabled(v, a) && a.ReserveScope? && v.tasks[a.t].current == Some(g)
    requires a.freshId in Apply(v, a).issued
    ensures g.id in Apply(v, a).known && !Live(Apply(v, a).world.views, g.id)
  {
    hide Reserve;
    var task := v.tasks[a.t];
    assert TaskOk(v, a.t);
    assert a.freshId !in v.issued;
    NewGrantMeansDead(v.world, a.closed, v.root, task.pc.read, task.rules, task.watch, g, a.freshId, a.freshLock);
  }

  /** A superseded grant was already withdrawn when its successor was issued, so dropping it later changes nothing at all. */
  lemma SupersededDropIsInert(v: Vault, a: Action, g: Grant)
    requires Inv(v) && Enabled(v, a) && a.ReserveScope? && v.tasks[a.t].current == Some(g)
    requires a.freshId in Apply(v, a).issued
    ensures g.id in Apply(v, a).known && !Live(Apply(v, a).world.views, g.id)
    ensures DropGrant(Apply(v, a).world, g) == Apply(v, a).world
  {
    hide Inv, Apply, DropGrant;
    SupersededIsDead(v, a, g);
    DeadDropIsInert(Apply(v, a).world, g);
  }

  /** Dropping a live grant takes that holder only: every other holder keeps its context and its preference. */
  lemma DropIsIsolated(v: Vault, h: HolderId, k: HolderId)
    requires Inv(v) && Enabled(v, Drop(h)) && k != h && Live(v.world.views, k)
    ensures var v' := Apply(v, Drop(h));
            && Live(v'.world.views, k)
            && ContextOf(v'.world.views, k) == ContextOf(v.world.views, k)
            && (ContextOf(v.world.views, k).Some? && k in v.issued && v.issued[k].watch ==>
                ContextOf(v.world.views, k).value in v'.world.ctxs && ContextOf(v.world.views, k).value in v.world.ctxs &&
                v'.world.ctxs[ContextOf(v.world.views, k).value] == v.world.ctxs[ContextOf(v.world.views, k).value])
    ensures !Live(Apply(v, Drop(h)).world.views, h)
  {
    var g := Grant(v.issued[h].scope, h);
    var v' := Apply(v, Drop(h));
    StepKeepsInv(v, Drop(h));
    DropGrantWithdraws(v.world, g);
    forall s ensures !LiveIn(v'.world.views, s, h) {
      assert LiveIn(v'.world.views, s, h) ==> HolderOk(v', s, h);
    }
    var s := ByHolder(v.world.views, k).value;
    assert HolderOk(v, s, k);
    assert LiveIn(v'.world.views, s, k) by {
      if s == g.scope && LiveIn(v.world.views, s, h) {
        assert k in v.world.views.scopes[s].holders - {h};
      }
    }
    ContextOfLive(v, s, k);
    ContextOfLive(v', s, k);
    assert ScopeShrunk(v.world, v'.world, s);
    var c := v.world.views.scopes[s].context;
    if c.Some? {
      assert Publishes(v.world.views, s, c.value) && ContextOk(v.world, s, c.value);
      assert Publishes(v'.world.views, s, c.value);
      assert v.issued[k].watch ==> v'.world.views.scopes[s].holders[k];
    }
  }

  // ---------------------------------------------------------------------------------------
  // Exactly when: who leaves, what is retired, who is served and with what
  // ---------------------------------------------------------------------------------------

  /** The only steps that withdraw `h`: its own drop, a revocation, and a reservation that saw another floor or could not read it. */
  ghost predicate Withdraws(v: Vault, a: Action, h: HolderId)
    requires Enabled(v, a)
  {
    || a == Drop(h) || a.RevokeAll? || a.Replace?
    || (a.ReserveScope? && !v.world.views.replaced && !a.closed && v.tasks[a.t].pc.read != v.world.views.floor)
  }

  lemma FloorOfLive(v: Vault, s: ScopeId, h: HolderId)
    requires Inv(v) && LiveIn(v.world.views, s, h)
    ensures v.world.views.floor.Some? && h in v.issued && h in v.known && v.issued[h].scope == s
  {
    assert HolderOk(v, s, h);
  }

  lemma ReservationLeaves(v: Vault, a: Action, s: ScopeId, h: HolderId)
    requires Inv(v) && Enabled(v, a) && a.ReserveScope? && LiveIn(v.world.views, s, h)
    ensures LiveIn(Apply(v, a).world.views, s, h) <==> !Withdraws(v, a, h)
    ensures Withdraws(v, a, h) ==> !Live(Apply(v, a).world.views, h)
  {
    var task := v.tasks[a.t];
    FloorOfLive(v, s, h);
    assert !Live(v.world.views, a.freshId) by {
      forall s' ensures !LiveIn(v.world.views, s', a.freshId) {
        if LiveIn(v.world.views, s', a.freshId) {
          FloorOfLive(v, s', a.freshId);
        }
      }
    }
    forall s' ensures LiveIn(Apply(v, a).world.views, s', h) <==> !Withdraws(v, a, h) && LiveIn(v.world.views, s', h) {
      ReserveAdmitsExactly(v.world, a.closed, v.root, task.pc.read, task.rules, task.watch, task.current, a.freshId, a.freshLock, s', h);
    }
    hide Apply, Inv, Enabled, LiveIn;
  }

  /** A live holder leaves by exactly these steps, and nothing else ever takes it away. */
  lemma LeavesExactlyWhen(v: Vault, a: Action, s: ScopeId, h: HolderId)
    requires Inv(v) && Enabled(v, a) && LiveIn(v.world.views, s, h)
    ensures Live(Apply(v, a).world.views, h) <==> !Withdraws(v, a, h)
    ensures Live(Apply(v, a).world.views, h) ==> LiveIn(Apply(v, a).world.views, s, h)
  {
    hide Apply, Inv, LiveIn;
    match a
    case ReserveScope(_, _, _, _) => ReservationLeaves(v, a, s, h);
    case PublishContext(t) => PublicationKeeps(v, t, s, h);
    case Drop(k) => DropLeaves(v, k, s, h);
    case RevokeAll => RevocationLeaves(v, h);
    case Replace => RevocationLeaves(v, h);
    case _ => UntouchedViews(v, a);
  }

  lemma RevocationLeaves(v: Vault, h: HolderId)
    ensures !Live(Apply(v, RevokeAll).world.views, h) && !Live(Apply(v, Replace).world.views, h)
  {
    RetiresExactly(v.world);
  }

  lemma PublicationKeeps(v: Vault, t: TaskId, s: ScopeId, h: HolderId)
    requires Enabled(v, PublishContext(t)) && LiveIn(v.world.views, s, h)
    ensures LiveIn(Apply(v, PublishContext(t)).world.views, s, h) && Live(Apply(v, PublishContext(t)).world.views, h)
  {
    PublishesExactly(v.world, v.tasks[t].pc.res.grant, v.tasks[t].pc.ctx, v.tasks[t].pc.pending);
    hide Publish;
    assert LiveIn(Apply(v, PublishContext(t)).world.views, s, h);
  }

  lemma UntouchedViews(v: Vault, a: Action)
    requires Enabled(v, a) && (!TouchesWorld(a) || a.Opened?)
    ensures Apply(v, a).world.views == v.world.views
  {
  }

  lemma DropLeaves(v: Vault, k: HolderId, s: ScopeId, h: HolderId)
    requires Inv(v) && Enabled(v, Drop(k)) && LiveIn(v.world.views, s, h)
    ensures Live(Apply(v, Drop(k)).world.views, h) <==> h != k
    ensures h != k ==> LiveIn(Apply(v, Drop(k)).world.views, s, h)
  {
    FloorOfLive(v, s, h);
    DropsExactly(v.world, Grant(v.issued[k].scope, k));
    forall s' | LiveIn(v.world.views, s', k) ensures s' == v.issued[k].scope {
      FloorOfLive(v, s', k);
    }
    hide DropGrant;
  }

  /** A drop keeps a scope exactly as long as another holder is left in it. */
  lemma DropKeepsPublication(w: World, g: Grant, s: ScopeId, c: CtxId)
    requires forall t :: t in w.views.scopes ==> w.views.scopes[t].holders != map[]
    ensures Publishes(DropGrant(w, g).views, s, c) <==> Publishes(w.views, s, c) && exists h :: LiveIn(w.views, s, h) && Grant(s, h) != g
  {
    if Publishes(w.views, s, c) {
      var holders := w.views.scopes[s].holders;
      var h :| h in holders;
      if s == g.scope && g.id in holders {
        var rest := holders - {g.id};
        assert forall k :: k in rest <==> LiveIn(w.views, s, k) && Grant(s, k) != g;
        if rest != map[] {
          var k :| k in rest;
        }
      } else {
        assert LiveIn(w.views, s, h) && Grant(s, h) != g;
      }
    }
  }

  lemma DropRetires(v: Vault, k: HolderId, c: CtxId)
    requires Inv(v) && Enabled(v, Drop(k)) && c in v.world.ctxs
    ensures var w' := Apply(v, Drop(k)).world;
            c in w'.ctxs && (w'.ctxs[c].retired <==> v.world.ctxs[c].retired || (Published(v.world.views, c) && !Published(w'.views, c)))
  {
    var w, g := v.world, Grant(v.issued[k].scope, k);
    DropsExactly(w, g);
    forall s ensures Publishes(DropGrant(w, g).views, s, c) <==> Publishes(w.views, s, c) && exists h :: LiveIn(w.views, s, h) && Grant(s, h) != g {
      DropKeepsPublication(w, g, s, c);
    }
    assert forall s, t :: Publishes(w.views, s, c) && Publishes(w.views, t, c) ==> s == t;
    hide DropGrant, Inv, Publishes, LiveIn;
    if Publishes(w.views, g.scope, c) {
      assert forall s :: Publishes(w.views, s, c) ==> s == g.scope;
    }
  }

  lemma ReservationRetires(v: Vault, a: Action, c: CtxId)
    requires Inv(v) && Enabled(v, a) && a.ReserveScope? && c in v.world.ctxs
    ensures var w' := Apply(v, a).world;
            c in w'.ctxs && (w'.ctxs[c].retired <==> v.world.ctxs[c].retired || (Published(v.world.views, c) && !Published(w'.views, c)))
  {
    var task := v.tasks[a.t];
    ReserveRevokesExactly(v.world, a.closed, v.root, task.pc.read, task.rules, task.watch, task.current, a.freshId, a.freshLock);
    hide Reserve, Inv;
  }

  lemma PublicationRetires(v: Vault, t: TaskId, c: CtxId)
    requires Inv(v) && Enabled(v, PublishContext(t)) && c in v.world.ctxs
    ensures var w' := Apply(v, PublishContext(t)).world;
            && c in w'.ctxs && w'.ctxs[c].retired == v.world.ctxs[c].retired
            && (Published(v.world.views, c) ==> Published(w'.views, c))
  {
    var pc := v.tasks[t].pc;
    PublishesExactly(v.world, pc.res.grant, pc.ctx, pc.pending);
    assert TaskOk(v, t);
    var w' := Apply(v, PublishContext(t)).world;
    if s :| Publishes(v.world.views, s, c) {
      assert Publishes(w'.views, s, c);
    }
  }

  /** A context is retired by exactly the step that takes its publication away, and then for good. */
  lemma ContextRetiredExactlyWhen(v: Vault, a: Action, c: CtxId)
    requires Inv(v) && Enabled(v, a) && c in v.world.ctxs
    ensures var w' := Apply(v, a).world;
            && c in w'.ctxs
            && (w'.ctxs[c].retired <==> v.world.ctxs[c].retired || (Published(v.world.views, c) && !Published(w'.views, c)))
  {
    hide Inv, Apply, Published;
    match a
    case ReserveScope(_, _, _, _) => ReservationRetires(v, a, c);
    case PublishContext(t) => PublicationRetires(v, t, c);
    case Drop(k) => DropRetires(v, k, c);
    case RevokeAll => RevocationRetires(v, c);
    case Replace => RevocationRetires(v, c);
    case _ =>
      UntouchedViews(v, a);
      UntouchedContext(v, a, c);
  }

  lemma RevocationRetires(v: Vault, c: CtxId)
    requires c in v.world.ctxs
    ensures var w' := Apply(v, RevokeAll).world;
            c in w'.ctxs && !Published(w'.views, c) && (w'.ctxs[c].retired <==> v.world.ctxs[c].retired || Published(v.world.views, c))
    ensures var w' := Apply(v, Replace).world;
            c in w'.ctxs && !Published(w'.views, c) && (w'.ctxs[c].retired <==> v.world.ctxs[c].retired || Published(v.world.views, c))
  {
    RetiresExactly(v.world);
  }

  lemma UntouchedContext(v: Vault, a: Action, c: CtxId)
    requires Enabled(v, a) && (!TouchesWorld(a) || a.Opened?) && c in v.world.ctxs
    ensures c in Apply(v, a).world.ctxs && Apply(v, a).world.ctxs[c] == v.world.ctxs[c]
  {
  }

  /** A reservation that issues a holder records the floor it read and the rules it was asked for, and enters exactly their scope. */
  lemma IssueRecordsTheAsk(v: Vault, a: Action)
    requires Inv(v) && Enabled(v, a) && a.ReserveScope? && a.freshId in Apply(v, a).issued
    ensures var task, v' := v.tasks[a.t], Apply(v, a);
            var issue := v'.issued[a.freshId];
            && task.pc.read.Some? && task.rules.Some?
            && issue.scope == ScopeId(v.root, task.pc.read.value + task.rules.value)
            && issue.floor == task.pc.read.value && issue.rules == task.rules.value && issue.watch == task.watch
            && LiveIn(v'.world.views, issue.scope, a.freshId)
            && a.freshId !in v.issued
  {
    ReserveGrantShape(v, a);
  }

  /** What was promised is never rewritten. */
  lemma IssueStays(v: Vault, a: Action, h: HolderId)
    requires Inv(v) && Enabled(v, a) && h in v.issued
    ensures h in Apply(v, a).issued && Apply(v, a).issued[h] == v.issued[h]
  {
    assert h in v.known;
  }

  /** An attach that reaches its publication finishes exactly if its holder is still there, and its holder then resolves to what it brought. */
  lemma PublicationServes(v: Vault, t: TaskId)
    requires Inv(v) && Enabled(v, PublishContext(t))
    ensures var v', h := Apply(v, PublishContext(t)), v.tasks[t].pc.res.grant.id;
            && (h in v'.finished <==> h in v.finished || Live(v.world.views, h))
            && (Live(v.world.views, h) ==> ContextOf(v'.world.views, h) == Some(v.tasks[t].pc.ctx))
            && t !in v'.tasks
  {
    var pc := v.tasks[t].pc;
    var g, v' := pc.res.grant, Apply(v, PublishContext(t));
    assert TaskOk(v, t);
    PublishesExactly(v.world, g, pc.ctx, pc.pending);
    if Live(v.world.views, g.id) {
      var s := ByHolder(v.world.views, g.id).value;
      FloorOfLive(v, s, g.id);
      assert LiveIn(v'.world.views, g.scope, g.id);
      StepKeepsInv(v, PublishContext(t));
      ContextOfLive(v', g.scope, g.id);
    }
  }

  /** Before its publication an attach ends on its own only if its holder is gone. */
  lemma AttachGivesUpExactlyWhen(v: Vault, t: TaskId)
    requires Inv(v) && Enabled(v, Peek(t))
    ensures t in Apply(v, Peek(t)).tasks <==> Live(v.world.views, v.tasks[t].pc.res.grant.id)
  {
  }

  /** Nobody ever starts a watcher on a retired context. */
  lemma RetiredStaysQuiet(v: Vault, a: Action, c: CtxId)
    requires Inv(v) && Enabled(v, a) && c in v.world.ctxs && v.world.ctxs[c].retired && !v.world.ctxs[c].watcher
    ensures c in Apply(v, a).world.ctxs && Apply(v, a).world.ctxs[c].retired && !Apply(v, a).world.ctxs[c].watcher
  {
    ContextRetiredExactlyWhen(v, a, c);
    if a.PublishContext? {
      hide Apply;
      RetiredIsNotPublished(v, a.t, c);
    } else if a.ReserveScope? {
      var task := v.tasks[a.t];
      ReserveRevokesExactly(v.world, a.closed, v.root, task.pc.read, task.rules, task.watch, task.current, a.freshId, a.freshLock);
      hide Inv, Reserve;
    } else {
      hide Inv;
      QuietElsewhere(v, a, c);
      hide Apply, Enabled;
    }
  }

  lemma QuietElsewhere(v: Vault, a: Action, c: CtxId)
    requires Enabled(v, a) && !a.ReserveScope? && !a.PublishContext? && c in v.world.ctxs && !v.world.ctxs[c].watcher
    ensures c in Apply(v, a).world.ctxs && !Apply(v, a).world.ctxs[c].watcher
  {
    if !TouchesWorld(a) {
      QuietStep(v, a);
    }
  }

  /** The context that an attach of a live holder brings to its publication is not retired. */
  lemma PublishedIsNotRetired(v: Vault, t: TaskId)
    requires Inv(v) && Enabled(v, PublishContext(t))
    requires LiveIn(v.world.views, v.tasks[t].pc.res.grant.scope, v.tasks[t].pc.res.grant.id)
    ensures !v.world.ctxs[v.tasks[t].pc.ctx].retired
  {
    var pc := v.tasks[t].pc;
    assert TaskOk(v, t);
    if pc.built {
      assert PrivateOk(v, t);
    } else {
      assert Publishes(v.world.views, pc.res.grant.scope, pc.ctx) && ContextOk(v.world, pc.res.grant.scope, pc.ctx);
    }
  }

  lemma RetiredIsNotPublished(v: Vault, t: TaskId, c: CtxId)
    requires Inv(v) && Enabled(v, PublishContext(t)) && c in v.world.ctxs && v.world.ctxs[c].retired
    ensures c in Apply(v, PublishContext(t)).world.ctxs && Apply(v, PublishContext(t)).world.ctxs[c] == v.world.ctxs[c]
  {
    var pc := v.tasks[t].pc;
    if LiveIn(v.world.views, pc.res.grant.scope, pc.res.grant.id) {
      PublishedIsNotRetired(v, t);
    }
    hide Inv;
  }

  /** A holder that finished attaching resolves to a context that leaves out the floor in force and its own rules, and nothing else. */
  lemma FinishedHolderGetsItsRules(v: Vault, s: ScopeId, h: HolderId)
    requires Inv(v) && LiveIn(v.world.views, s, h) && h in v.finished
    ensures h in v.issued && v.world.views.floor.Some? && ContextOf(v.world.views, h).Some?
    ensures var c := ContextOf(v.world.views, h).value;
            && c in v.world.ctxs && v.world.ctxs[c].activated && !v.world.ctxs[c].retired
            && v.world.ctxs[c].exclude == v.world.views.floor.value + v.issued[h].rules
            && (v.issued[h].watch ==> v.world.ctxs[c].watcher)
  {
    ContextOfLive(v, s, h);
    assert HolderOk(v, s, h);
    var c := v.world.views.scopes[s].context.value;
    assert Publishes(v.world.views, s, c) && ContextOk(v.world, s, c);
  }
}
