/**
 Who owns indexing, the shared daemon or the local runtime (`src/tools/mod.rs`, `src/tools/search.rs`).

 Handlers race for daemon attachments, acquisitions outlive the handlers that started them, and any
 handler may try to fall back to local ownership. `Book` is what the state lock guards; the functions on
 it are its critical sections. Slots, with their own lock, and spawned tasks are separate agents.
 */
module OwnerArbitration {
  import opened Wrappers

  type Key = string
  type SlotId = nat
  type TaskId = nat
  type CallerId = nat
  type AttachmentId = nat

  datatype Book<S> = Book(slots: map<Key, S>, negotiating: int, stricterSeen: bool)

  /** The first critical section of `handle`: a slot for this key, made on demand, unless local ownership is selected. */
  function SlotFor<S>(b: Book<S>, local: bool, key: Key, spare: S): (Book<S>, Option<S>) {
    if local then (b, None)
    else if key in b.slots then (b, Some(b.slots[key]))
    else (b.(slots := b.slots[key := spare]), Some(spare))
  }

  datatype Work = Work(held: Option<AttachmentId>, acquisition: Option<TaskId>)

  datatype Decision = Refuse | Reuse(id: AttachmentId) | Join(task: TaskId) | Start(task: TaskId)

  /** The second critical section of `handle`, with the slot locked. `next` is the id for a new acquisition, if one is needed. */
  function Decide<S>(b: Book<S>, local: bool, work: Work, expired: Option<AttachmentId>, next: TaskId): (Book<S>, Work, Decision) {
    if local then (b, work, Refuse)
    else if work.held.Some? && expired != work.held then (b, work, Reuse(work.held.value))
    else if work.acquisition.Some? then (b, work.(held := None), Join(work.acquisition.value))
    else (b.(negotiating := b.negotiating + 1), Work(None, Some(next)), Start(next))
  }

  /** `Drop for Negotiation`. */
  function DropToken<S>(b: Book<S>, stricterScope: bool): Book<S> {
    b.(stricterSeen := b.stricterSeen || stricterScope, negotiating := b.negotiating - 1)
  }

  /** `select_local`: the book, the flag and the answer afterwards. */
  function SelectLocal<S>(b: Book<S>, local: bool): (Book<S>, bool, bool) {
    if b.stricterSeen || b.negotiating > 0 then (b, local, false)
    else if !local then (b.(slots := map[]), true, true)
    else (b, local, true)
  }

  // ---------------------------------------------------------------------------------------
  // The machine
  // ---------------------------------------------------------------------------------------

  /** A spawned acquisition: `Settled` has dropped its token but not returned yet; `Taken` was awaited to its end. */
  datatype TaskState = Running | Settled(id: AttachmentId) | Finished(result: Option<AttachmentId>) | Taken | Gone

  /** `aborted` was asked for by a dropped slot; the runtime acts on it later, unless it ends first. */
  datatype Task = Task(slot: SlotId, state: TaskState, aborted: bool)

  datatype Caller =
    | AwaitSlot(slot: SlotId, expired: Option<AttachmentId>)
    | InSlot(slot: SlotId, expired: Option<AttachmentId>)
    | Awaiting(slot: SlotId, expired: Option<AttachmentId>, task: TaskId)
    | Returned(slot: SlotId, expired: Option<AttachmentId>, result: Option<AttachmentId>)

  /** `tokens` are the live negotiations; `issued`, `reported` and `stricterGranted` are history. */
  datatype State = State(
    book: Book<SlotId>,
    local: bool,
    work: map<SlotId, Work>,
    locked: map<SlotId, CallerId>,
    tasks: map<TaskId, Task>,
    tokens: set<TaskId>,
    callers: map<CallerId, Caller>,
    issued: set<AttachmentId>,
    reported: set<AttachmentId>,
    stricterGranted: bool)

  const INITIAL := State(Book(map[], 0, false), false, map[], map[], map[], {}, map[], {}, {}, false)

  datatype Step =
    | Arrive(c: CallerId, key: Key, expired: Option<AttachmentId>, newSlot: SlotId)
    | LockSlot(c: CallerId)
    | DecideSlot(c: CallerId, newTask: TaskId)
    | Harvest(c: CallerId)
    | GiveUp(c: CallerId)
    | Attached(t: TaskId, id: AttachmentId, stricter: bool)
    | Return(t: TaskId)
    | Fail(t: TaskId)
    | FallBack
    | DropSlot(s: SlotId)
    | Reap(t: TaskId)

  ghost predicate Allowed(st: State, s: Step) {
    match s
    case Arrive(c, _, expired, newSlot) =>
      && c !in st.callers && newSlot !in st.work
      && (expired.Some? ==> expired.value in st.reported)
    case LockSlot(c) => c in st.callers && st.callers[c].AwaitSlot? && st.callers[c].slot !in st.locked
    case DecideSlot(c, t) => c in st.callers && st.callers[c].InSlot? && st.callers[c].slot in st.work && t !in st.tasks
    case Harvest(c) =>
      && c in st.callers && st.callers[c].Awaiting? && st.callers[c].slot in st.work
      && st.callers[c].task in st.tasks && st.tasks[st.callers[c].task].state.Finished?
    case GiveUp(c) => c in st.callers && !st.callers[c].Returned?
    case Attached(t, id, _) => t in st.tasks && st.tasks[t].state.Running? && id !in st.issued
    case Return(t) => t in st.tasks && st.tasks[t].state.Settled?
    case Fail(t) => t in st.tasks && st.tasks[t].state.Running?
    case FallBack => true
    case DropSlot(s) =>
      && s in st.work && s !in st.book.slots.Values
      && (forall c :: c in st.callers && !st.callers[c].Returned? ==> st.callers[c].slot != s)
    case Reap(t) => t in st.tasks && st.tasks[t].aborted && !st.tasks[t].state.Taken? && !st.tasks[t].state.Gone?
  }

  function SetTask(st: State, t: TaskId, state: TaskState): State
    requires t in st.tasks
  {
    st.(tasks := st.tasks[t := st.tasks[t].(state := state)])
  }

  function Leave(st: State, c: CallerId, result: Option<AttachmentId>): State
    requires c in st.callers
  {
    var caller := st.callers[c];
    st.(callers := st.callers[c := Returned(caller.slot, caller.expired, result)],
        locked := if caller.slot in st.locked && st.locked[caller.slot] == c then st.locked - {caller.slot} else st.locked,
        reported := if result.Some? then st.reported + {result.value} else st.reported)
  }

  ghost function Take(st: State, s: Step): State
    requires Allowed(st, s)
  {
    match s
    case Arrive(c, key, expired, newSlot) =>
      var (book, slot) := SlotFor(st.book, st.local, key, newSlot);
      if slot.None? then st
      else st.(book := book,
               work := if slot.value in st.work then st.work else st.work[slot.value := Work(None, None)],
               callers := st.callers[c := AwaitSlot(slot.value, expired)])
    case LockSlot(c) =>
      var caller := st.callers[c];
      st.(callers := st.callers[c := InSlot(caller.slot, caller.expired)], locked := st.locked[caller.slot := c])
    case DecideSlot(c, t) =>
      var caller := st.callers[c];
      var (book, work, decision) := Decide(st.book, st.local, st.work[caller.slot], caller.expired, t);
      var st1 := st.(book := book, work := st.work[caller.slot := work]);
      (match decision
       case Refuse => Leave(st1, c, None)
       case Reuse(id) => Leave(st1, c, Some(id))
       case Join(task) => st1.(callers := st.callers[c := Awaiting(caller.slot, caller.expired, task)])
       case Start(task) => st1.(callers := st.callers[c := Awaiting(caller.slot, caller.expired, task)],
                                tasks := st.tasks[task := Task(caller.slot, Running, false)],
                                tokens := st.tokens + {task}))
    case Harvest(c) =>
      var caller := st.callers[c];
      var result := st.tasks[caller.task].state.result;
      Leave(SetTask(st, caller.task, Taken).(work := st.work[caller.slot := Work(result, None)]), c, result)
    case GiveUp(c) => Leave(st, c, None)
    case Attached(t, id, stricter) =>
      SetTask(st, t, Settled(id)).(book := DropToken(st.book, stricter), tokens := st.tokens - {t},
                                   issued := st.issued + {id}, stricterGranted := st.stricterGranted || stricter)
    case Return(t) => SetTask(st, t, Finished(Some(st.tasks[t].state.id)))
    case Fail(t) => SetTask(st, t, Finished(None)).(book := DropToken(st.book, false), tokens := st.tokens - {t})
    case FallBack =>
      var (book, local, _) := SelectLocal(st.book, st.local);
      st.(book := book, local := local)
    case DropSlot(s) =>
      // Drop for AttachmentWork
      var acquisition := st.work[s].acquisition;
      var st1 := st.(work := st.work - {s});
      if acquisition.None? || acquisition.value !in st.tasks then st1
      else st1.(tasks := st.tasks[acquisition.value := st.tasks[acquisition.value].(aborted := true)])
    case Reap(t) =>
      if st.tasks[t].state.Running? then SetTask(st, t, Gone).(book := DropToken(st.book, false), tokens := st.tokens - {t})
      else SetTask(st, t, Gone)
  }

  // ---------------------------------------------------------------------------------------
  // Invariant
  // ---------------------------------------------------------------------------------------

  /** Tokens are counted exactly, and local ownership excludes every daemon negotiation. */
  ghost predicate OwnerOk(st: State) {
    && st.book.negotiating == |st.tokens|
    && (forall t :: t in st.tokens <==> t in st.tasks && st.tasks[t].state.Running?)
    && (st.local ==> st.tokens == {} && !st.book.stricterSeen && st.book.slots == map[])
    && (st.stricterGranted <==> st.book.stricterSeen)
  }

  /** A task is in flight until its result was taken or it is gone. */
  predicate InFlight(task: Task) {
    task.state.Running? || task.state.Settled? || task.state.Finished?
  }

  /** Each slot has at most one acquisition in flight, the one it records. */
  ghost predicate SlotOk(st: State, s: SlotId)
    requires s in st.work
  {
    && (st.work[s].held.Some? ==> st.work[s].held.value in st.reported)
    && (st.work[s].acquisition.Some? ==>
        && st.work[s].held.None?
        && var t := st.work[s].acquisition.value;
        && t in st.tasks && st.tasks[t].slot == s && InFlight(st.tasks[t]) && !st.tasks[t].aborted)
  }

  ghost predicate TaskOk(st: State, t: TaskId)
    requires t in st.tasks
  {
    && (InFlight(st.tasks[t]) && !st.tasks[t].aborted ==>
        st.tasks[t].slot in st.work && st.work[st.tasks[t].slot].acquisition == Some(t))
    && (Unclaimed(st.tasks[t]).Some? ==>
        Unclaimed(st.tasks[t]).value in st.issued && Unclaimed(st.tasks[t]).value !in st.reported)
  }

  ghost predicate SlotsOk(st: State) {
    && (forall k :: k in st.book.slots ==> st.book.slots[k] in st.work)
    && (forall s :: s in st.work ==> SlotOk(st, s))
    && (forall t :: t in st.tasks ==> TaskOk(st, t))
  }

  ghost predicate CallersOk(st: State) {
    && (forall c :: c in st.callers ==> CallerOk(st, st.callers[c]))
    && (forall c :: c in st.callers ==>
        ((st.callers[c].InSlot? || st.callers[c].Awaiting?) <==>
         (st.callers[c].slot in st.locked && st.locked[st.callers[c].slot] == c)))
    && (forall s :: s in st.locked ==> st.locked[s] in st.callers && st.callers[st.locked[s]].slot == s)
  }

  ghost predicate CallerOk(st: State, caller: Caller) {
    && (caller.expired.Some? ==> caller.expired.value in st.reported)
    && (!caller.Returned? ==> caller.slot in st.work)
    && (caller.Awaiting? ==> st.work[caller.slot].acquisition == Some(caller.task))
    && (caller.Returned? && caller.result.Some? && caller.expired.Some? ==> caller.result != caller.expired)
  }

  /** The attachment a task has obtained and nobody has been given yet. */
  function Unclaimed(task: Task): Option<AttachmentId> {
    if task.state.Settled? then Some(task.state.id)
    else if task.state.Finished? then task.state.result
    else None
  }

  /** No attachment is in the hands of two tasks. */
  ghost predicate IdsOk(st: State) {
    && st.reported <= st.issued
    && (forall t, u :: t in st.tasks && u in st.tasks && Unclaimed(st.tasks[t]).Some? && Unclaimed(st.tasks[t]) == Unclaimed(st.tasks[u]) ==> t == u)
  }

  ghost predicate Inv(st: State) {
    OwnerOk(st) && SlotsOk(st) && CallersOk(st) && IdsOk(st)
  }

  lemma ArriveKeepsBooks(st: State, s: Step)
    requires Inv(st) && Allowed(st, s) && s.Arrive?
    ensures OwnerOk(Take(st, s)) && IdsOk(Take(st, s))
  {
    hide SlotsOk, CallersOk;
  }

  lemma ArriveKeepsSlots(st: State, s: Step)
    requires Inv(st) && Allowed(st, s) && s.Arrive?
    ensures SlotsOk(Take(st, s))
  {
    hide OwnerOk, CallersOk, IdsOk;
  }

  lemma ArriveKeepsCallers(st: State, s: Step)
    requires Inv(st) && Allowed(st, s) && s.Arrive?
    ensures CallersOk(Take(st, s))
  {
    hide OwnerOk, SlotsOk, IdsOk;
  }

  lemma ArriveKeepsInv(st: State, s: Step)
    requires Inv(st) && Allowed(st, s) && s.Arrive?
    ensures Inv(Take(st, s))
  {
    ArriveKeepsBooks(st, s);
    ArriveKeepsSlots(st, s);
    ArriveKeepsCallers(st, s);
    hide OwnerOk, SlotsOk, CallersOk, IdsOk, Take;
  }

  lemma LockSlotKeepsInv(st: State, s: Step)
    requires Inv(st) && Allowed(st, s) && s.LockSlot?
    ensures Inv(Take(st, s))
  {
  }

  lemma HarvestKeepsBooks(st: State, s: Step)
    requires Inv(st) && Allowed(st, s) && s.Harvest?
    ensures OwnerOk(Take(st, s)) && IdsOk(Take(st, s))
  {
    hide CallersOk;
  }

  lemma HarvestKeepsSlots(st: State, s: Step)
    requires Inv(st) && Allowed(st, s) && s.Harvest?
    ensures SlotsOk(Take(st, s))
  {
    hide OwnerOk;
  }

  lemma HarvestKeepsCallers(st: State, s: Step)
    requires Inv(st) && Allowed(st, s) && s.Harvest?
    ensures CallersOk(Take(st, s))
  {
    hide OwnerOk;
  }

  lemma HarvestKeepsInv(st: State, s: Step)
    requires Inv(st) && Allowed(st, s) && s.Harvest?
    ensures Inv(Take(st, s))
  {
    HarvestKeepsBooks(st, s);
    HarvestKeepsSlots(st, s);
    HarvestKeepsCallers(st, s);
    hide OwnerOk, SlotsOk, CallersOk, IdsOk, Take;
  }

  lemma GiveUpKeepsBooks(st: State, s: Step)
    requires Inv(st) && Allowed(st, s) && s.GiveUp?
    ensures OwnerOk(Take(st, s)) && IdsOk(Take(st, s))
  {
    hide SlotsOk, CallersOk;
  }

  lemma GiveUpKeepsSlots(st: State, s: Step)
    requires Inv(st) && Allowed(st, s) && s.GiveUp?
    ensures SlotsOk(Take(st, s))
  {
    hide OwnerOk, CallersOk, IdsOk;
  }

  lemma GiveUpKeepsCallers(st: State, s: Step)
    requires Inv(st) && Allowed(st, s) && s.GiveUp?
    ensures CallersOk(Take(st, s))
  {
    hide OwnerOk, SlotsOk, IdsOk;
  }

  lemma GiveUpKeepsInv(st: State, s: Step)
    requires Inv(st) && Allowed(st, s) && s.GiveUp?
    ensures Inv(Take(st, s))
  {
    GiveUpKeepsBooks(st, s);
    GiveUpKeepsSlots(st, s);
    GiveUpKeepsCallers(st, s);
    hide OwnerOk, SlotsOk, CallersOk, IdsOk, Take;
  }

  lemma AttachedKeepsBooks(st: State, s: Step)
    requires Inv(st) && Allowed(st, s) && s.Attached?
    ensures OwnerOk(Take(st, s)) && IdsOk(Take(st, s))
  {
    hide CallersOk;
  }

  lemma AttachedKeepsSlots(st: State, s: Step)
    requires Inv(st) && Allowed(st, s) && s.Attached?
    ensures SlotsOk(Take(st, s))
  {
    hide OwnerOk, CallersOk;
  }

  lemma AttachedKeepsCallers(st: State, s: Step)
    requires Inv(st) && Allowed(st, s) && s.Attached?
    ensures CallersOk(Take(st, s))
  {
    hide SlotsOk, IdsOk;
  }

  lemma AttachedKeepsInv(st: State, s: Step)
    requires Inv(st) && Allowed(st, s) && s.Attached?
    ensures Inv(Take(st, s))
  {
    AttachedKeepsBooks(st, s);
    AttachedKeepsSlots(st, s);
    AttachedKeepsCallers(st, s);
    hide OwnerOk, SlotsOk, CallersOk, IdsOk, Take;
  }

  lemma ReturnKeepsBooks(st: State, s: Step)
    requires Inv(st) && Allowed(st, s) && s.Return?
    ensures OwnerOk(Take(st, s)) && IdsOk(Take(st, s))
  {
    hide SlotsOk, CallersOk;
  }

  lemma ReturnKeepsSlots(st: State, s: Step)
    requires Inv(st) && Allowed(st, s) && s.Return?
    ensures SlotsOk(Take(st, s))
  {
    hide OwnerOk, CallersOk, IdsOk;
  }

  lemma ReturnKeepsCallers(st: State, s: Step)
    requires Inv(st) && Allowed(st, s) && s.Return?
    ensures CallersOk(Take(st, s))
  {
    hide OwnerOk, SlotsOk, IdsOk;
  }

  lemma ReturnKeepsInv(st: State, s: Step)
    requires Inv(st) && Allowed(st, s) && s.Return?
    ensures Inv(Take(st, s))
  {
    ReturnKeepsBooks(st, s);
    ReturnKeepsSlots(st, s);
    ReturnKeepsCallers(st, s);
    hide OwnerOk, SlotsOk, CallersOk, IdsOk, Take;
  }

  lemma FailKeepsBooks(st: State, s: Step)
    requires Inv(st) && Allowed(st, s) && s.Fail?
    ensures OwnerOk(Take(st, s)) && IdsOk(Take(st, s))
  {
    hide SlotsOk, CallersOk;
  }

  lemma FailKeepsSlots(st: State, s: Step)
    requires Inv(st) && Allowed(st, s) && s.Fail?
    ensures SlotsOk(Take(st, s))
  {
    hide OwnerOk, CallersOk, IdsOk;
  }

  lemma FailKeepsCallers(st: State, s: Step)
    requires Inv(st) && Allowed(st, s) && s.Fail?
    ensures CallersOk(Take(st, s))
  {
    hide SlotsOk, IdsOk;
  }

  lemma FailKeepsInv(st: State, s: Step)
    requires Inv(st) && Allowed(st, s) && s.Fail?
    ensures Inv(Take(st, s))
  {
    FailKeepsBooks(st, s);
    FailKeepsSlots(st, s);
    FailKeepsCallers(st, s);
    hide OwnerOk, SlotsOk, CallersOk, IdsOk, Take;
  }

  lemma FallBackKeepsInv(st: State, s: Step)
    requires Inv(st) && Allowed(st, s) && s.FallBack?
    ensures Inv(Take(st, s))
  {
  }

  lemma DropSlotKeepsOwner(st: State, s: SlotId)
    requires Inv(st) && Allowed(st, DropSlot(s))
    ensures OwnerOk(Take(st, DropSlot(s))) && IdsOk(Take(st, DropSlot(s)))
  {
  }

  lemma DropSlotKeepsTask(st: State, s: SlotId, t: TaskId)
    requires Inv(st) && Allowed(st, DropSlot(s)) && t in Take(st, DropSlot(s)).tasks
    ensures TaskOk(Take(st, DropSlot(s)), t)
  {
    hide OwnerOk, CallersOk, IdsOk;
    assert TaskOk(st, t) && SlotOk(st, s);
    hide SlotsOk, SlotOk;
    var st' := Take(st, DropSlot(s));
    assert st'.tasks[t].slot == st.tasks[t].slot && st'.tasks[t].state == st.tasks[t].state;
    if st.work[s].acquisition != Some(t) {
      assert st'.tasks[t] == st.tasks[t];
      assert InFlight(st.tasks[t]) && !st.tasks[t].aborted ==> st.tasks[t].slot != s;
    }
  }

  lemma DropSlotKeepsWork(st: State, s: SlotId, k: SlotId)
    requires Inv(st) && Allowed(st, DropSlot(s)) && k in Take(st, DropSlot(s)).work
    ensures SlotOk(Take(st, DropSlot(s)), k)
  {
    hide OwnerOk, CallersOk, IdsOk;
    assert SlotOk(st, k) && SlotOk(st, s);
    hide SlotsOk;
  }

  lemma DropSlotKeepsSlots(st: State, s: SlotId)
    requires Inv(st) && Allowed(st, DropSlot(s))
    ensures SlotsOk(Take(st, DropSlot(s)))
  {
    hide OwnerOk, CallersOk, IdsOk, TaskOk, SlotOk;
    var st' := Take(st, DropSlot(s));
    assert forall k :: k in st'.book.slots ==> st'.book.slots[k] in st.book.slots.Values;
    forall k | k in st'.work ensures SlotOk(st', k) {
      DropSlotKeepsWork(st, s, k);
    }
    forall t | t in st'.tasks ensures TaskOk(st', t) {
      DropSlotKeepsTask(st, s, t);
    }
  }

  lemma DropSlotKeepsCallers(st: State, s: SlotId)
    requires Inv(st) && Allowed(st, DropSlot(s))
    ensures CallersOk(Take(st, DropSlot(s)))
  {
  }

  lemma DropSlotKeepsInv(st: State, s: SlotId)
    requires Inv(st) && Allowed(st, DropSlot(s))
    ensures Inv(Take(st, DropSlot(s)))
  {
    hide OwnerOk, SlotsOk, CallersOk, IdsOk, Take;
    DropSlotKeepsOwner(st, s);
    DropSlotKeepsSlots(st, s);
    DropSlotKeepsCallers(st, s);
  }

  lemma ReapKeepsOwner(st: State, t: TaskId)
    requires Inv(st) && Allowed(st, Reap(t))
    ensures OwnerOk(Take(st, Reap(t)))
  {
    hide SlotsOk, CallersOk, IdsOk;
    var st' := Take(st, Reap(t));
    assert st'.local == st.local && st'.stricterGranted == st.stricterGranted;
    if st.tasks[t].state.Running? {
      assert t in st.tokens && |st'.tokens| == |st.tokens| - 1;
    }
    forall u ensures u in st'.tokens <==> u in st'.tasks && st'.tasks[u].state.Running? {
      assert u in st.tokens <==> u in st.tasks && st.tasks[u].state.Running?;
      assert u != t ==> (u in st'.tasks <==> u in st.tasks) && (u in st.tasks ==> st'.tasks[u] == st.tasks[u]);
    }
  }

  lemma ReapKeepsIds(st: State, t: TaskId)
    requires Inv(st) && Allowed(st, Reap(t))
    ensures IdsOk(Take(st, Reap(t)))
  {
  }

  lemma ReapKeepsSlots(st: State, t: TaskId)
    requires Inv(st) && Allowed(st, Reap(t))
    ensures SlotsOk(Take(st, Reap(t)))
  {
  }

  lemma ReapKeepsCallers(st: State, t: TaskId)
    requires Inv(st) && Allowed(st, Reap(t))
    ensures CallersOk(Take(st, Reap(t)))
  {
  }

  lemma ReapKeepsInv(st: State, t: TaskId)
    requires Inv(st) && Allowed(st, Reap(t))
    ensures Inv(Take(st, Reap(t)))
  {
    hide OwnerOk, SlotsOk, CallersOk, IdsOk, Take;
    ReapKeepsOwner(st, t);
    ReapKeepsIds(st, t);
    ReapKeepsSlots(st, t);
    ReapKeepsCallers(st, t);
  }

  lemma LeaveKeepsInv(st: State, c: CallerId, result: Option<AttachmentId>)
    requires Inv(st) && c in st.callers
    requires result.Some? ==> result.value in st.reported && st.callers[c].expired != result
    ensures Inv(Leave(st, c, result))
  {
  }

  /** Forgetting an attachment that was reported expired. */
  lemma ForgetKeepsInv(st: State, s: SlotId)
    requires Inv(st) && s in st.work
    ensures Inv(st.(work := st.work[s := st.work[s].(held := None)]))
  {
  }

  lemma JoinKeepsInv(st: State, c: CallerId, t: TaskId)
    requires Inv(st) && c in st.callers && st.callers[c].InSlot? && st.callers[c].slot in st.work
    requires st.work[st.callers[c].slot].acquisition == Some(t)
    ensures Inv(st.(callers := st.callers[c := Awaiting(st.callers[c].slot, st.callers[c].expired, t)]))
  {
  }

  function Started(st: State, s: SlotId, t: TaskId): State {
    st.(book := st.book.(negotiating := st.book.negotiating + 1),
        work := st.work[s := Work(None, Some(t))],
        tasks := st.tasks[t := Task(s, Running, false)],
        tokens := st.tokens + {t})
  }

  /** Starting an acquisition for an idle slot. */
  lemma StartKeepsOwner(st: State, s: SlotId, t: TaskId)
    requires Inv(st) && s in st.work && st.work[s] == Work(None, None) && t !in st.tasks && !st.local
    ensures OwnerOk(Started(st, s, t)) && IdsOk(Started(st, s, t))
  {
    hide SlotsOk, CallersOk;
  }

  lemma StartKeepsSlots(st: State, s: SlotId, t: TaskId)
    requires Inv(st) && s in st.work && st.work[s] == Work(None, None) && t !in st.tasks && !st.local
    ensures SlotsOk(Started(st, s, t))
  {
    hide OwnerOk, CallersOk, IdsOk;
    var st' := Started(st, s, t);
    forall x | x in st'.work ensures SlotOk(st', x) {
      assert SlotOk(st, x);
    }
    forall u | u in st'.tasks ensures TaskOk(st', u) {
      assert u in st.tasks ==> TaskOk(st, u);
    }
    hide TaskOk, SlotOk;
  }

  lemma StartKeepsCallers(st: State, s: SlotId, t: TaskId)
    requires Inv(st) && s in st.work && st.work[s] == Work(None, None) && t !in st.tasks && !st.local
    ensures CallersOk(Started(st, s, t))
  {
    hide OwnerOk, SlotsOk, IdsOk;
    var st' := Started(st, s, t);
    forall c | c in st'.callers ensures CallerOk(st', st'.callers[c]) {
      assert CallerOk(st, st.callers[c]);
    }
  }

  lemma StartKeepsInv(st: State, s: SlotId, t: TaskId)
    requires Inv(st) && s in st.work && st.work[s] == Work(None, None) && t !in st.tasks && !st.local
    ensures Inv(Started(st, s, t))
  {
    StartKeepsOwner(st, s, t);
    StartKeepsSlots(st, s, t);
    StartKeepsCallers(st, s, t);
    hide OwnerOk, SlotsOk, CallersOk, IdsOk;
  }

  lemma InSlotFacts(st: State, c: CallerId)
    requires Inv(st) && c in st.callers && st.callers[c].InSlot?
    ensures CallerOk(st, st.callers[c]) && SlotOk(st, st.callers[c].slot)
  {
  }

  lemma DecideSlotKeepsInv(st: State, c: CallerId, t: TaskId)
    requires Inv(st) && Allowed(st, DecideSlot(c, t))
    ensures Inv(Take(st, DecideSlot(c, t)))
  {
    hide Inv;
    var caller := st.callers[c];
    var s := caller.slot;
    var work := st.work[s];
    InSlotFacts(st, c);
    var decision := Decide(st.book, st.local, work, caller.expired, t).2;
    match decision
    case Refuse =>
      LeaveKeepsInv(st, c, None);
      assert st.work[s := work] == st.work;
    case Reuse(id) =>
      LeaveKeepsInv(st, c, Some(id));
      assert st.work[s := work] == st.work;
    case Join(task) =>
      ForgetKeepsInv(st, s);
      JoinKeepsInv(st.(work := st.work[s := work.(held := None)]), c, task);
    case Start(_) =>
      ForgetKeepsInv(st, s);
      var idle := st.(work := st.work[s := work.(held := None)]);
      StartKeepsInv(idle, s, t);
      assert idle.work[s := Work(None, Some(t))] == st.work[s := Work(None, Some(t))];
      JoinKeepsInv(Started(idle, s, t), c, t);
  }

  lemma TakeKeepsInv(st: State, s: Step)
    requires Inv(st) && Allowed(st, s)
    ensures Inv(Take(st, s))
  {
    hide Inv, Take, Allowed;
    match s
    case Arrive(_, _, _, _) => ArriveKeepsInv(st, s);
    case LockSlot(_) => LockSlotKeepsInv(st, s);
    case DecideSlot(c, t) => DecideSlotKeepsInv(st, c, t);
    case Harvest(_) => HarvestKeepsInv(st, s);
    case GiveUp(_) => GiveUpKeepsInv(st, s);
    case Attached(_, _, _) => AttachedKeepsInv(st, s);
    case Return(_) => ReturnKeepsInv(st, s);
    case Fail(_) => FailKeepsInv(st, s);
    case FallBack => FallBackKeepsInv(st, s);
    case DropSlot(slot) => DropSlotKeepsInv(st, slot);
    case Reap(t) => ReapKeepsInv(st, t);
  }

  // ---------------------------------------------------------------------------------------
  // Runs
  // ---------------------------------------------------------------------------------------

  ghost predicate Run(states: seq<State>, steps: seq<Step>) {
    && |states| == |steps| + 1
    && states[0] == INITIAL
    && forall i :: 0 <= i < |steps| ==> Allowed(states[i], steps[i]) && states[i + 1] == Take(states[i], steps[i])
  }

  lemma {:induction false} RunKeepsInv(states: seq<State>, steps: seq<Step>, i: nat)
    requires Run(states, steps) && i < |states|
    ensures Inv(states[i])
  {
    hide Take, Allowed;
    if i > 0 {
      RunKeepsInv(states, steps, i - 1);
      TakeKeepsInv(states[i - 1], steps[i - 1]);
    }
  }

  /** On every run the counter is exactly the number of live negotiations, so it never goes below zero. */
  lemma NegotiationsAreCounted(states: seq<State>, steps: seq<Step>, i: nat)
    requires Run(states, steps) && i < |states|
    ensures states[i].book.negotiating == |set t | t in states[i].tasks && states[i].tasks[t].state.Running?|
    ensures states[i].book.negotiating >= 0
  {
    RunKeepsInv(states, steps, i);
    assert states[i].tokens == set t | t in states[i].tasks && states[i].tasks[t].state.Running?;
  }

  lemma LocalStepStays(st: State, s: Step)
    requires Inv(st) && Allowed(st, s) && st.local
    ensures Take(st, s).local && Take(st, s).tasks.Keys == st.tasks.Keys
  {
  }

  /** Once local ownership is selected it stays selected, nothing is negotiated, and no acquisition ever starts. */
  lemma {:induction false} LocalForever(states: seq<State>, steps: seq<Step>, i: nat, j: nat)
    requires Run(states, steps) && i <= j < |states| && states[i].local
    ensures states[j].local && states[j].tasks.Keys == states[i].tasks.Keys
    ensures states[j].tokens == {} && !states[j].book.stricterSeen && states[j].book.slots == map[]
  {
    hide Take, Allowed, SlotsOk, CallersOk, IdsOk;
    RunKeepsInv(states, steps, j);
    if i < j {
      LocalForever(states, steps, i, j - 1);
      RunKeepsInv(states, steps, j - 1);
      LocalStepStays(states[j - 1], steps[j - 1]);
    }
  }

  lemma GrantStepStays(st: State, s: Step)
    requires Allowed(st, s) && st.stricterGranted
    ensures Take(st, s).stricterGranted
  {
  }

  /** Once a daemon granted a scope stricter than the local one, local ownership can never be selected. */
  lemma {:induction false} StricterGrantForbidsLocal(states: seq<State>, steps: seq<Step>, i: nat, j: nat)
    requires Run(states, steps) && i <= j < |states| && states[i].stricterGranted
    ensures states[j].stricterGranted && !states[j].local
    ensures !SelectLocal(states[j].book, states[j].local).2
  {
    hide Take, Allowed, SlotsOk, CallersOk, IdsOk;
    RunKeepsInv(states, steps, j);
    if i < j {
      StricterGrantForbidsLocal(states, steps, i, j - 1);
      GrantStepStays(states[j - 1], steps[j - 1]);
    }
  }

  /** Falling back succeeds exactly when no negotiation is live and no stricter scope was ever granted. */
  lemma FallBackSucceedsIff(states: seq<State>, steps: seq<Step>, i: nat)
    requires Run(states, steps) && i < |states|
    ensures SelectLocal(states[i].book, states[i].local).2 <==> states[i].tokens == {} && !states[i].stricterGranted
  {
    RunKeepsInv(states, steps, i);
  }

  /** In every reachable state a slot has one acquisition in flight at most, so all its waiters share it. */
  lemma AcquisitionIsSingleFlight(states: seq<State>, steps: seq<Step>, i: nat, t: TaskId, u: TaskId)
    requires Run(states, steps) && i < |states| && t in states[i].tasks && u in states[i].tasks
    requires InFlight(states[i].tasks[t]) && !states[i].tasks[t].aborted
    requires InFlight(states[i].tasks[u]) && !states[i].tasks[u].aborted
    requires states[i].tasks[t].slot == states[i].tasks[u].slot
    ensures t == u
    ensures forall c :: c in states[i].callers && states[i].callers[c].Awaiting? && states[i].callers[c].slot == states[i].tasks[t].slot ==>
              states[i].callers[c].task == t
  {
    RunKeepsInv(states, steps, i);
    assert TaskOk(states[i], t) && TaskOk(states[i], u);
    forall c | c in states[i].callers && states[i].callers[c].Awaiting? && states[i].callers[c].slot == states[i].tasks[t].slot
      ensures states[i].callers[c].task == t
    {
      assert CallerOk(states[i], states[i].callers[c]);
    }
  }

  /** A caller that reported an expired attachment is never handed that attachment back. */
  lemma ReplacementDiffers(states: seq<State>, steps: seq<Step>, i: nat, c: CallerId)
    requires Run(states, steps) && i < |states| && c in states[i].callers
    requires states[i].callers[c].Returned? && states[i].callers[c].expired.Some? && states[i].callers[c].result.Some?
    ensures states[i].callers[c].result.value != states[i].callers[c].expired.value
  {
    RunKeepsInv(states, steps, i);
    assert CallerOk(states[i], states[i].callers[c]);
  }

  ghost predicate Holds(st: State, s: SlotId, id: AttachmentId) {
    s in st.work && st.work[s].held == Some(id)
  }

  /** This step is a caller of slot `s` reporting `id` expired, or the slot going away. */
  ghost predicate Discards(st: State, step: Step, s: SlotId, id: AttachmentId) {
    || (step.DropSlot? && step.s == s)
    || (step.DecideSlot? && step.c in st.callers && st.callers[step.c].slot == s && st.callers[step.c].expired == Some(id))
  }

  lemma HeldStepStays(st: State, step: Step, s: SlotId, id: AttachmentId)
    requires Inv(st) && Allowed(st, step) && Holds(st, s, id) && !Discards(st, step, s, id)
    ensures Holds(Take(st, step), s, id)
    ensures forall t :: t in Take(st, step).tasks && t !in st.tasks ==> Take(st, step).tasks[t].slot != s
  {
    assert SlotOk(st, s);
    assert step.Harvest? ==> CallerOk(st, st.callers[step.c]);
    HeldStepStaysHere(st, step, s, id);
  }

  lemma HeldStepStaysHere(st: State, step: Step, s: SlotId, id: AttachmentId)
    requires Allowed(st, step) && Holds(st, s, id) && !Discards(st, step, s, id)
    requires SlotOk(st, s) && (step.Harvest? ==> CallerOk(st, st.callers[step.c]))
    ensures Holds(Take(st, step), s, id)
    ensures forall t :: t in Take(st, step).tasks && t !in st.tasks ==> Take(st, step).tasks[t].slot != s
  {
  }

  /**
   One replacement serves everybody: after a slot holds an attachment, and until someone reports that very
   attachment expired, the slot keeps it, starts no further acquisition, and hands it to every caller that
   decides there, in particular to those that reported its predecessor.
   */
  lemma {:induction false} OneReplacementServesAll(states: seq<State>, steps: seq<Step>, i: nat, j: nat, s: SlotId, id: AttachmentId)
    requires Run(states, steps) && i <= j < |states| && Holds(states[i], s, id)
    requires forall k :: i <= k < j ==> !Discards(states[k], steps[k], s, id)
    ensures Holds(states[j], s, id)
    ensures forall t :: t in states[j].tasks && states[j].tasks[t].slot == s ==> t in states[i].tasks
    ensures forall expired: Option<AttachmentId>, t: TaskId :: expired != Some(id) && !states[j].local ==>
              Decide(states[j].book, states[j].local, states[j].work[s], expired, t).2 == Reuse(id)
  {
    hide Take, Allowed, Inv, Discards;
    if i < j {
      OneReplacementServesAll(states, steps, i, j - 1, s, id);
      RunKeepsInv(states, steps, j - 1);
      HeldStepStays(states[j - 1], steps[j - 1], s, id);
      SlotOfTaskFixed(states[j - 1], steps[j - 1]);
    }
  }

  /** The waiter that sees an acquisition end returns what it brought, and the slot holds it from then on, for everybody. */
  lemma HarvestServesAll(states: seq<State>, steps: seq<Step>, i: nat, j: nat, c: CallerId, id: AttachmentId)
    requires Run(states, steps) && i < j < |states| && steps[i] == Harvest(c)
    requires var caller := states[i].callers[c];
             && states[i].tasks[caller.task].state == Finished(Some(id))
             && forall k :: i < k < j ==> !Discards(states[k], steps[k], caller.slot, id)
    ensures c in states[i + 1].callers && states[i + 1].callers[c].Returned? && states[i + 1].callers[c].result == Some(id)
    ensures Holds(states[j], states[i].callers[c].slot, id)
  {
    assert Holds(states[i + 1], states[i].callers[c].slot, id);
    OneReplacementServesAll(states, steps, i + 1, j, states[i].callers[c].slot, id);
  }

  /** The acquisition has ended with this attachment, whether or not anybody has seen that yet. */
  ghost predicate Obtained(st: State, t: TaskId, id: AttachmentId) {
    && t in st.tasks && !st.tasks[t].state.Running?
    && (st.tasks[t].state.Settled? ==> st.tasks[t].state.id == id)
    && (st.tasks[t].state.Finished? ==> st.tasks[t].state.result == Some(id))
  }

  lemma AttachedObtains(st: State, t: TaskId, id: AttachmentId, stricter: bool)
    requires Allowed(st, Attached(t, id, stricter))
    ensures Obtained(Take(st, Attached(t, id, stricter)), t, id)
  {
    hide SlotFor, SelectLocal, Decide;
  }

  lemma ObtainedStays(st: State, s: Step, t: TaskId, id: AttachmentId)
    requires Allowed(st, s) && Obtained(st, t, id)
    ensures Obtained(Take(st, s), t, id)
  {
    hide SlotFor, SelectLocal, DropToken;
  }

  /** What an acquisition obtained is what its waiters find when it has finished. */
  lemma {:induction false} FinishedCarriesItsAttachment(states: seq<State>, steps: seq<Step>, i: nat, j: nat, t: TaskId, id: AttachmentId, stricter: bool)
    requires Run(states, steps) && i < j < |states| && steps[i] == Attached(t, id, stricter)
    ensures t in states[j].tasks && !states[j].tasks[t].state.Running?
    ensures states[j].tasks[t].state.Settled? ==> states[j].tasks[t].state.id == id
    ensures states[j].tasks[t].state.Finished? ==> states[j].tasks[t].state.result == Some(id)
  {
    hide Take, Allowed;
    if i + 1 < j {
      FinishedCarriesItsAttachment(states, steps, i, j - 1, t, id, stricter);
      ObtainedStays(states[j - 1], steps[j - 1], t, id);
    } else {
      AttachedObtains(states[i], t, id, stricter);
    }
  }

  lemma SlotOfTaskFixed(st: State, step: Step)
    requires Allowed(st, step)
    ensures forall t :: t in st.tasks ==> t in Take(st, step).tasks && Take(st, step).tasks[t].slot == st.tasks[t].slot
  {
  }

  // ---------------------------------------------------------------------------------------
  // A search
  // ---------------------------------------------------------------------------------------

  datatype Mode = LocalMode | DaemonMode | Auto

  datatype Failure = Unavailable | BootstrapRequired | OtherFailure

  datatype Answer<H> = FromLocal | FromDaemon(hits: H) | Failed(error: Failure)

  predicate UsesLocalBackend(mode: Mode, local: bool) {
    mode.LocalMode? || (mode.Auto? && local)
  }

  /** Only an outage, and only in automatic mode, may select local ownership. */
  function ActivateLocalFallback<S>(b: Book<S>, local: bool, mode: Mode, error: Failure): (Book<S>, bool, bool) {
    if !mode.Auto? || error.OtherFailure? then (b, local, false) else SelectLocal(b, local)
  }

  /** The end of `search_semantic`, once the daemon's result is in: `canFallBack` says that a client and a local backend exist. */
  function FinishSearch<S, H>(b: Book<S>, local: bool, mode: Mode, canFallBack: bool, result: Result<H, Failure>): (Book<S>, bool, Answer<H>) {
    if UsesLocalBackend(mode, local) then (b, local, FromLocal)
    else
      match result
      case Ok(hits) => (b, local, FromDaemon(hits))
      case Err(error) =>
        if !canFallBack then (b, local, Failed(error))
        else
          var (b', local', selected) := ActivateLocalFallback(b, local, mode, error);
          (b', local', if selected then FromLocal else Failed(error))
  }

  /**
   Local by choice or earlier selection, or for an outage in automatic mode that nothing speaks against; otherwise
   the daemon's own hits or its own error.
   */
  lemma SearchAnswersExactly<S, H>(b: Book<S>, local: bool, mode: Mode, canFallBack: bool, result: Result<H, Failure>)
    ensures var answer := FinishSearch(b, local, mode, canFallBack, result).2;
            && (answer.FromLocal? <==>
                || mode.LocalMode? || (mode.Auto? && local)
                || (mode.Auto? && canFallBack && result.Err? && (result.error.Unavailable? || result.error.BootstrapRequired?)
                    && !b.stricterSeen && b.negotiating <= 0))
            && (!answer.FromLocal? ==> answer == if result.Ok? then FromDaemon(result.value) else Failed(result.error))
  {
    match mode
    case LocalMode =>
    case DaemonMode =>
    case Auto => assert UsesLocalBackend(Auto, local) == local;
  }

  /**
   In every reachable state in which local ownership is not selected yet, an outage in automatic mode is answered
   locally if and only if no negotiation is live and no stricter scope was ever granted.
   */
  lemma OutageFallsBackIff<H>(states: seq<State>, steps: seq<Step>, i: nat, result: Result<H, Failure>)
    requires Run(states, steps) && i < |states| && !states[i].local
    requires result.Err? && (result.error.Unavailable? || result.error.BootstrapRequired?)
    ensures FinishSearch(states[i].book, states[i].local, Auto, true, result).2 ==
              if states[i].tokens == {} && !states[i].stricterGranted then FromLocal else Failed(result.error)
  {
    FallBackSucceedsIff(states, steps, i);
    SearchAnswersExactly(states[i].book, false, Auto, true, result);
    RunKeepsInv(states, steps, i);
  }

  /** A search in automatic mode that yields daemon hits ends before local ownership was ever selected. */
  lemma DaemonHitsPrecedeLocal<H>(states: seq<State>, steps: seq<Step>, i: nat, j: nat, canFallBack: bool, result: Result<H, Failure>)
    requires Run(states, steps) && i <= j < |states|
    requires FinishSearch(states[j].book, states[j].local, Auto, canFallBack, result).2.FromDaemon?
    ensures !states[i].local
  {
    if states[i].local {
      LocalForever(states, steps, i, j);
    }
  }

  /** A failed daemon search that is answered locally did not bypass a negotiation or a stricter grant, and was an outage. */
  lemma LocalAnswersRespectOwners<H>(states: seq<State>, steps: seq<Step>, i: nat, canFallBack: bool, result: Result<H, Failure>)
    requires Run(states, steps) && i < |states|
    requires FinishSearch(states[i].book, states[i].local, Auto, canFallBack, result).2.FromLocal?
    ensures states[i].tokens == {} && !states[i].stricterGranted
    ensures states[i].local || (result.Err? && !result.error.OtherFailure?)
  {
    RunKeepsInv(states, steps, i);
  }
}
