/**
 Who is charged for time, and what is scheduled for when.
 */
module InterruptLaws {
  import opened Options
  import opened SortedLists
  import opened Interrupts

  // ---------------------------------------------------------------- scheduling

  /** The interrupts that the plans stand for, numbered from id on. */
  function Planned(plans: seq<Plan>, now: int, id: int): (r: seq<Elem<Pending>>)
    ensures |r| == |plans| && forall i :: 0 <= i < |r| ==> r[i] == Elem(Pending(id + i, plans[i].kind), now + plans[i].fromNow)
  {
    seq(|plans|, i requires 0 <= i < |plans| => Elem(Pending(id + i, plans[i].kind), now + plans[i].fromNow))
  }

  /** r holds what q and added hold, and no more. */
  ghost predicate Gains(q: Queue, r: Queue, added: Queue) {
    |r| == |q| + |added| && forall e :: e in r <==> e in q || e in added
  }

  lemma InsertGains(q: Queue, e: Elem<Pending>)
    ensures Gains(q, Inserted(q, e), [e])
  {
    var r, p := Inserted(q, e), Place(q, e.key);
    assert r == q[..p] + [e] + q[p..];
    assert q == q[..p] + q[p..];
  }

  lemma GainsMore(q: Queue, r: Queue, u: Queue, x: Elem<Pending>, added: Queue)
    requires Gains(q, r, [x]) && Gains(r, u, added)
    ensures Gains(q, u, [x] + added)
  {
  }

  /** Scheduling adds one interrupt, due as far in the future as asked, with a new number, and changes nothing else. */
  lemma ScheduleAdds(c: Clock, plan: Plan)
    ensures var d := Schedule(c, plan);
            && Gains(c.queue, d.queue, [Elem(Pending(c.nextId, plan.kind), c.total + plan.fromNow)])
            && d == c.(queue := d.queue, nextId := c.nextId + 1)
  {
    InsertGains(c.queue, Elem(Pending(c.nextId, plan.kind), c.total + plan.fromNow));
  }

  /** So do all that a handler asks for. */
  lemma {:induction false} ScheduleAllAdds(c: Clock, plans: seq<Plan>)
    ensures var d := ScheduleAll(c, plans);
            && Gains(c.queue, d.queue, Planned(plans, c.total, c.nextId))
            && d == c.(queue := d.queue, nextId := c.nextId + |plans|)
    decreases |plans|
  {
    if plans != [] {
      var d := Schedule(c, plans[0]);
      ScheduleAdds(c, plans[0]);
      ScheduleAllAdds(d, plans[1..]);
      AddsNext(c, plans, d, ScheduleAll(d, plans[1..]));
    }
  }

  lemma AddsNext(c: Clock, plans: seq<Plan>, d: Clock, u: Clock)
    requires plans != [] && Gains(c.queue, d.queue, [Elem(Pending(c.nextId, plans[0].kind), c.total + plans[0].fromNow)])
    requires Gains(d.queue, u.queue, Planned(plans[1..], d.total, d.nextId))
    requires d == c.(queue := d.queue, nextId := c.nextId + 1) && u == d.(queue := u.queue, nextId := d.nextId + |plans| - 1)
    ensures Gains(c.queue, u.queue, Planned(plans, c.total, c.nextId)) && u == c.(queue := u.queue, nextId := c.nextId + |plans|)
  {
    var e := Elem(Pending(c.nextId, plans[0].kind), c.total + plans[0].fromNow);
    assert Planned(plans, c.total, c.nextId) == [e] + Planned(plans[1..], c.total, c.nextId + 1);
    GainsMore(c.queue, d.queue, u.queue, e, Planned(plans[1..], c.total, c.nextId + 1));
  }

  /** An interrupt that runs is recorded with its time and the present one, and everything its handler asks for is
      pending afterwards. */
  lemma FireRecords(c: Clock, e: Elem<Pending>, handlers: Handlers)
    ensures var d, plans := Fire(c, e, handlers), handlers(e.item.id);
            && d.fired == c.fired + [Firing(e.item.id, e.key, c.total)]
            && Gains(c.queue, d.queue, Planned(plans, c.total, c.nextId))
            && d == c.(fired := d.fired, queue := d.queue, nextId := c.nextId + |plans|)
  {
    ScheduleAllAdds(c.(fired := c.fired + [Firing(e.item.id, e.key, c.total)]), handlers(e.item.id));
  }

  // ---------------------------------------------------------------- charging time

  /** The counters and the mode of the two are the same. */
  predicate SameTime(c: Clock, d: Clock) { d.total == c.total && d.idle == c.idle && d.system == c.system && d.user == c.user && d.mode == c.mode }

  lemma CheckTime(c: Clock, handlers: Handlers)
    ensures SameTime(c, CheckIfDue(c, false, handlers).0)
  {
    if c.queue != [] { FireRecords(c.(queue := c.queue[1..]), c.queue[0], handlers); }
  }

  lemma {:induction false} DrainTime(c: Clock, handlers: Handlers)
    ensures SameTime(c, Drain(c, handlers))
    decreases Due(c.queue, c.total)
  {
    DueShrinks(c, handlers);
    CheckTime(c, handlers);
    var (d, more) := CheckIfDue(c, false, handlers);
    if more { DrainTime(d, handlers); }
  }

  /** A tick in system mode takes ten units of system time, one in any other mode one unit of user time; nothing else is
      charged, whatever handlers run. */
  lemma TickCharges(c: Clock, handlers: Handlers)
    ensures var d := OneTick(c, handlers);
            && d.idle == c.idle && d.mode == c.mode
            && if c.mode == SystemMode then d.total == c.total + 10 && d.system == c.system + 10 && d.user == c.user
               else d.total == c.total + 1 && d.user == c.user + 1 && d.system == c.system
  {
    DrainTime(Ticked(c), handlers);
  }

  /** An idle period takes idle time alone, up to the first due time if that is in the future; the machine halts exactly
      when nothing, or nothing but a timer, is pending. */
  lemma IdleCharges(c: Clock, handlers: Handlers)
    ensures Idle(c, handlers) == None <==> c.queue == [] || (|c.queue| == 1 && c.queue[0].item.kind == TimerInt)
    ensures Idle(c, handlers).Some? ==>
              var d := Idle(c, handlers).value;
              && d.system == c.system && d.user == c.user && d.mode == SystemMode
              && d.total == (if c.queue[0].key > c.total then c.queue[0].key else c.total) && d.idle == c.idle + (d.total - c.total)
  {
    if c.queue != [] {
      var i := c.(mode := IdleMode);
      var b := Advanced(i.(queue := c.queue[1..]), c.queue[0].key);
      FireRecords(b, c.queue[0], handlers);
      DrainTime(Fire(b, c.queue[0], handlers), handlers);
    }
  }
}
