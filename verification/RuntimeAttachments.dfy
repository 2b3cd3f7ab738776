/**
 The mutable side of `src/tools/mod.rs`: the shared attachment table, its slots and the flag that selects
 local ownership. Each method is one critical section and does what the function of that name in
 `OwnerArbitration` does to the book.
 */
module RuntimeAttachments {
  import opened Wrappers
  import OwnerArbitration

  type Key = OwnerArbitration.Key
  type TaskId = OwnerArbitration.TaskId
  type AttachmentId = OwnerArbitration.AttachmentId

  class AttachmentWork {
    var held: Option<AttachmentId>
    var acquisition: Option<TaskId>

    constructor ()
      ensures Work() == OwnerArbitration.Work(None, None)
    {
      held, acquisition := None, None;
    }

    function Work(): OwnerArbitration.Work
      reads this
    {
      OwnerArbitration.Work(held, acquisition)
    }
  }

  /** The atomic that the runtime and every handler share. */
  class LocalFlag {
    var selected: bool

    constructor ()
      ensures !selected
    {
      selected := false;
    }
  }

  class RuntimeAttachments {
    var slots: map<Key, AttachmentWork>
    var negotiating: int
    var stricterSeen: bool

    constructor ()
      ensures Book() == OwnerArbitration.Book(map[], 0, false)
    {
      slots, negotiating, stricterSeen := map[], 0, false;
    }

    function Book(): OwnerArbitration.Book<AttachmentWork>
      reads this
    {
      OwnerArbitration.Book(slots, negotiating, stricterSeen)
    }

    method SlotFor(key: Key, local: LocalFlag) returns (slot: Option<AttachmentWork>)
      modifies this`slots
      ensures exists spare: AttachmentWork :: fresh(spare) && spare.Work() == OwnerArbitration.Work(None, None) &&
                (Book(), slot) == OwnerArbitration.SlotFor(old(Book()), local.selected, key, spare)
      ensures slot.Some? <==> !local.selected
      ensures slot.Some? ==> key in slots && slots[key] == slot.value && (key in old(slots) ==> slots == old(slots))
      ensures slot.Some? && key !in old(slots) ==> fresh(slot.value) && slots == old(slots)[key := slot.value]
      ensures slot.None? ==> slots == old(slots)
    {
      var spare := new AttachmentWork();
      if local.selected {
        slot := None;
      } else {
        if key !in slots {
          slots := slots[key := spare];
        }
        slot := Some(slots[key]);
      }
      assert (Book(), slot) == OwnerArbitration.SlotFor(old(Book()), local.selected, key, spare);
    }

    method Decide(work: AttachmentWork, local: LocalFlag, expired: Option<AttachmentId>, next: TaskId)
      returns (decision: OwnerArbitration.Decision)
      modifies this`negotiating, work
      ensures (Book(), work.Work(), decision) == OwnerArbitration.Decide(old(Book()), local.selected, old(work.Work()), expired, next)
      // What is decided, and exactly when.
      ensures decision.Refuse? <==> local.selected
      ensures decision.Reuse? <==> !local.selected && old(work.held).Some? && old(work.held) != expired
      ensures decision.Reuse? ==> Some(decision.id) == old(work.held)
      ensures decision.Join? <==>
        !local.selected && (old(work.held).None? || old(work.held) == expired) && old(work.acquisition).Some?
      ensures decision.Join? ==> Some(decision.task) == old(work.acquisition) && work.acquisition == old(work.acquisition)
      ensures decision.Start? ==> decision.task == next && work.acquisition == Some(next)
      ensures decision.Refuse? || decision.Reuse? ==> work.held == old(work.held) && work.acquisition == old(work.acquisition)
      // An attachment that was reported expired is neither handed out nor kept.
      ensures decision.Reuse? ==> expired != Some(decision.id) && work.held == Some(decision.id)
      ensures !decision.Refuse? && expired.Some? ==> work.held != expired
      // A negotiation is counted exactly when an acquisition starts, and never beside another one.
      ensures negotiating == old(negotiating) + (if decision.Start? then 1 else 0)
      ensures decision.Start? ==> old(work.acquisition).None?
      ensures decision.Start? || decision.Join? ==> work.held.None? && work.acquisition.Some?
    {
      if local.selected {
        return OwnerArbitration.Refuse;
      }
      if work.held.Some? && expired != work.held {
        return OwnerArbitration.Reuse(work.held.value);
      }
      work.held := None;
      if work.acquisition.Some? {
        return OwnerArbitration.Join(work.acquisition.value);
      }
      negotiating := negotiating + 1;
      work.acquisition := Some(next);
      return OwnerArbitration.Start(next);
    }

    /** The waiter that sees the acquisition end clears it and keeps what it brought. */
    method Harvest(work: AttachmentWork, result: Option<AttachmentId>)
      modifies work
      ensures work.Work() == OwnerArbitration.Work(if result.Some? then result else old(work.held), None)
    {
      work.acquisition := None;
      if result.Some? {
        work.held := result;
      }
    }

    method DropToken(stricterScope: bool)
      modifies this`negotiating, this`stricterSeen
      ensures Book() == OwnerArbitration.DropToken(old(Book()), stricterScope)
      ensures negotiating == old(negotiating) - 1 && (stricterSeen <==> old(stricterSeen) || stricterScope)
    {
      stricterSeen := stricterSeen || stricterScope;
      negotiating := negotiating - 1;
    }

    method SelectLocal(local: LocalFlag) returns (selected: bool)
      modifies this`slots, local
      ensures (Book(), local.selected, selected) == OwnerArbitration.SelectLocal(old(Book()), old(local.selected))
      ensures old(local.selected) ==> local.selected && slots == old(slots)
      ensures selected <==> !stricterSeen && negotiating <= 0
      ensures selected ==> local.selected && (!old(local.selected) ==> slots == map[])
      ensures !selected ==> local.selected == old(local.selected) && slots == old(slots)
    {
      if stricterSeen || negotiating > 0 {
        return false;
      }
      if !local.selected {
        local.selected := true;
        slots := map[];
      }
      return true;
    }

    /** The end of `search_semantic`: the flag is read again after the daemon answered, and an outage may select local ownership. */
    method FinishSearch<H>(mode: OwnerArbitration.Mode, local: LocalFlag, canFallBack: bool, result: Result<H, OwnerArbitration.Failure>)
      returns (answer: OwnerArbitration.Answer<H>)
      modifies this`slots, local
      ensures (Book(), local.selected, answer) ==
              OwnerArbitration.FinishSearch(old(Book()), old(local.selected), mode, canFallBack, result)
      // A local answer is given by choice, or for an outage that no negotiation and no stricter owner speaks against.
      ensures answer.FromLocal? <==>
        || mode.LocalMode?
        || (mode.Auto? && old(local.selected))
        || (mode.Auto? && canFallBack && result.Err? && (result.error.Unavailable? || result.error.BootstrapRequired?)
            && !stricterSeen && negotiating <= 0)
      ensures answer.FromDaemon? <==> result.Ok? && !mode.LocalMode? && !(mode.Auto? && old(local.selected))
      ensures answer.FromDaemon? ==> answer.hits == result.value
      ensures answer.Failed? ==> result.Err? && answer.error == result.error
      ensures mode.Auto? && answer.FromLocal? ==> local.selected && (!old(local.selected) ==> slots == map[])
      ensures !(mode.Auto? && answer.FromLocal?) ==> local.selected == old(local.selected) && slots == old(slots)
      ensures answer.FromDaemon? ==> result.Ok? && !(mode.Auto? && local.selected) && local.selected == old(local.selected)
      ensures local.selected && !old(local.selected) ==> mode.Auto? && result.Err? && !result.error.OtherFailure? && answer.FromLocal?
    {
      if OwnerArbitration.UsesLocalBackend(mode, local.selected) {
        return OwnerArbitration.FromLocal;
      }
      match result
      case Ok(hits) =>
        return OwnerArbitration.FromDaemon(hits);
      case Err(error) =>
        if canFallBack && mode.Auto? && !error.OtherFailure? {
          var selected := SelectLocal(local);
          if selected {
            return OwnerArbitration.FromLocal;
          }
        }
        return OwnerArbitration.Failed(error);
    }
  }
}
