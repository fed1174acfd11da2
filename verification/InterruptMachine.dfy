/**
 The interrupt hardware as an object: counters, mode and a linked list of pending interrupts, changed in place.
 */
module InterruptMachine {
  import opened Options
  import opened SortedLists
  import opened Interrupts
  import Spec = Interrupts

  class Interrupt {
    var total: int
    var idle: int
    var system: int
    var user: int
    var mode: Mode
    var nextId: int
    var fired: seq<Firing>
    const pending: List<Pending>

    ghost predicate Valid()
      reads this, pending, pending.repr
    {
      pending.Valid() && this !in pending.repr
    }

    ghost function State(): Clock
      reads this, pending
    {
      Clock(total, idle, system, user, mode, pending.Contents(), nextId, fired)
    }

    constructor ()
      ensures Valid() && fresh(pending.repr) && State() == Clock(0, 0, 0, 0, SystemMode, [], 0, []) && ClockOk(State())
    {
      total, idle, system, user, mode, nextId, fired := 0, 0, 0, 0, SystemMode, 0, [];
      pending := new List();
    }

    method Schedule(plan: Plan)
      requires Valid()
      modifies this, pending.repr
      ensures Valid() && State() == Spec.Schedule(old(State()), plan)
      ensures fresh(pending.repr - old(pending.repr))
    {
      var when, toOccur := total + plan.fromNow, Pending(nextId, plan.kind);
      nextId := nextId + 1;
      pending.SortedInsert(toOccur, when);
    }

    /** The handler of one interrupt, as far as it concerns this object. */
    method RunHandler(id: int, handlers: Handlers)
      requires Valid()
      modifies this, pending.repr
      ensures Valid() && State() == ScheduleAll(old(State()), handlers(id))
      ensures fresh(pending.repr - old(pending.repr))
    {
      var plans := handlers(id);
      while plans != []
        invariant Valid() && ScheduleAll(State(), plans) == ScheduleAll(old(State()), handlers(id))
        invariant fresh(pending.repr - old(pending.repr))
        decreases |plans|
      {
        Schedule(plans[0]);
        plans := plans[1..];
      }
    }

    /** Takes the first pending interrupt off the list. */
    method Take() returns (toOccur: Option<Elem<Pending>>)
      requires Valid()
      modifies pending.repr
      ensures Valid() && fresh(pending.repr - old(pending.repr))
      ensures toOccur == None <==> old(State()).queue == []
      ensures State() == if toOccur == None then old(State()) else old(State()).(queue := old(State()).queue[1..])
      ensures toOccur.Some? ==> toOccur.value == old(State()).queue[0]
    {
      toOccur := pending.SortedRemove();
    }

    method PutBack(e: Elem<Pending>)
      requires Valid()
      modifies pending.repr
      ensures Valid() && fresh(pending.repr - old(pending.repr)) && State() == Restored(old(State()), e)
    {
      pending.SortedInsert(e.item, e.key);
    }

    method AdvanceTo(when: int)
      requires Valid()
      modifies this
      ensures Valid() && State() == Advanced(old(State()), when)
    {
      if when > total {
        idle := idle + (when - total);
        total := when;
      }
    }

    method Deliver(e: Elem<Pending>, handlers: Handlers)
      requires Valid()
      modifies this, pending.repr
      ensures Valid() && fresh(pending.repr - old(pending.repr)) && State() == Fire(old(State()), e, handlers)
    {
      fired := fired + [Firing(e.item.id, e.key, total)];
      RunHandler(e.item.id, handlers);
    }

    method Decide(e: Elem<Pending>, advanceClock: bool, handlers: Handlers) returns (ran: bool)
      requires Valid()
      modifies this, pending.repr
      ensures Valid() && fresh(pending.repr - old(pending.repr))
      ensures (State(), ran) == Spec.Decide(old(State()), e, advanceClock, handlers)
    {
      if advanceClock {
        AdvanceTo(e.key);
      } else if e.key > total {
        PutBack(e);
        return false;
      }
      var empty := pending.IsEmpty();
      if mode == IdleMode && e.item.kind == TimerInt && empty {
        PutBack(e);
        return false;
      }
      Deliver(e, handlers);
      return true;
    }

    method CheckIfDue(advanceClock: bool, handlers: Handlers) returns (ran: bool)
      requires Valid()
      modifies this, pending.repr
      ensures Valid() && fresh(pending.repr - old(pending.repr))
      ensures (State(), ran) == Spec.CheckIfDue(old(State()), advanceClock, handlers)
    {
      var toOccur := Take();
      if toOccur == None { return false; }
      ran := Decide(toOccur.value, advanceClock, handlers);
    }

    /** The loop that runs everything due. */
    method Drain(handlers: Handlers)
      requires Valid()
      modifies this, pending.repr
      ensures Valid() && State() == Spec.Drain(old(State()), handlers)
      ensures fresh(pending.repr - old(pending.repr))
    {
      DueShrinks(State(), handlers);
      var more := CheckIfDue(false, handlers);
      while more
        invariant Valid() && Spec.Drain(old(State()), handlers) == if more then Spec.Drain(State(), handlers) else State()
        invariant fresh(pending.repr - old(pending.repr))
        decreases more, Due(pending.Contents(), total)
      {
        DueShrinks(State(), handlers);
        more := CheckIfDue(false, handlers);
      }
    }

    method AdvanceClock()
      requires Valid()
      modifies this
      ensures Valid() && State() == Ticked(old(State()))
    {
      if mode == SystemMode {
        total := total + SystemTick;
        system := system + SystemTick;
      } else {
        total := total + UserTick;
        user := user + UserTick;
      }
    }

    method OneTick(handlers: Handlers)
      requires Valid()
      modifies this, pending.repr
      ensures Valid() && State() == Spec.OneTick(old(State()), handlers)
    {
      AdvanceClock();
      Drain(handlers);
    }

    /** False when there is nothing to wait for and the machine halts. */
    method Idle(handlers: Handlers) returns (resumed: bool)
      requires Valid()
      modifies this, pending.repr
      ensures Valid() && resumed == Spec.Idle(old(State()), handlers).Some?
      ensures resumed ==> State() == Spec.Idle(old(State()), handlers).value
    {
      mode := IdleMode;
      resumed := CheckIfDue(true, handlers);
      if resumed {
        Drain(handlers);
        mode := SystemMode;
      }
    }
  }
}
