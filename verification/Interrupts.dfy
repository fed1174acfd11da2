/**
 Simulated time and the queue of pending interrupts.
 */
module Interrupts {
  import opened Options
  import opened SortedLists

  const SystemTick: int := 10
  const UserTick: int := 1

  datatype Kind = TimerInt | DiskInt | ConsoleWriteInt | ConsoleReadInt | NetworkSendInt | NetworkRecvInt

  datatype Mode = IdleMode | SystemMode | UserMode

  /** A pending interrupt; its number tells it from all others. */
  datatype Pending = Pending(id: int, kind: Kind)

  type Queue = seq<Elem<Pending>>

  /** Schedule asserts that interrupts lie in the future. */
  type Delay = d: int | d > 0 witness 1

  datatype Plan = Plan(fromNow: Delay, kind: Kind)

  /** What the handler of each interrupt schedules when it runs. */
  type Handlers = int -> seq<Plan>

  datatype Firing = Firing(id: int, when: int, at: int)

  datatype Clock = Clock(total: int, idle: int, system: int, user: int, mode: Mode, queue: Queue, nextId: int, fired: seq<Firing>)

  // ---------------------------------------------------------------- the operations

  function Schedule(c: Clock, plan: Plan): Clock {
    c.(queue := Inserted(c.queue, Elem(Pending(c.nextId, plan.kind), c.total + plan.fromNow)), nextId := c.nextId + 1)
  }

  function ScheduleAll(c: Clock, plans: seq<Plan>): Clock
    decreases |plans|
  {
    if plans == [] then c else ScheduleAll(Schedule(c, plans[0]), plans[1..])
  }

  /** The handler runs: it is recorded, and schedules what it schedules. */
  function Fire(c: Clock, e: Elem<Pending>, handlers: Handlers): Clock {
    ScheduleAll(c.(fired := c.fired + [Firing(e.item.id, e.key, c.total)]), handlers(e.item.id))
  }

  /** The clock moved on to the next interrupt, as idle time. */
  function Advanced(c: Clock, when: int): Clock {
    if when > c.total then c.(idle := c.idle + (when - c.total), total := when) else c
  }

  function Restored(c: Clock, e: Elem<Pending>): Clock { c.(queue := Inserted(c.queue, e)) }

  /** What happens to the interrupt taken off the queue: it runs, or goes back. */
  function Decide(c: Clock, e: Elem<Pending>, advanceClock: bool, handlers: Handlers): (r: (Clock, bool)) {
    if !advanceClock && e.key > c.total then (Restored(c, e), false)
    else
      var d := if advanceClock then Advanced(c, e.key) else c;
      if d.mode == IdleMode && e.item.kind == TimerInt && d.queue == [] then (Restored(d, e), false)
      else (Fire(d, e, handlers), true)
  }

  function CheckIfDue(c: Clock, advanceClock: bool, handlers: Handlers): (r: (Clock, bool)) {
    if c.queue == [] then (c, false) else Decide(c.(queue := c.queue[1..]), c.queue[0], advanceClock, handlers)
  }

  /** How many pending interrupts are due. */
  function Due(q: Queue, now: int): nat {
    if q == [] then 0 else Due(q[1..], now) + if q[0].key <= now then 1 else 0
  }

  /** The loop of OneTick and of Idle; it ends because what handlers schedule is never due yet. */
  function Drain(c: Clock, handlers: Handlers): Clock
    decreases Due(c.queue, c.total)
  {
    DueShrinks(c, handlers);
    var (d, more) := CheckIfDue(c, false, handlers);
    if more then Drain(d, handlers) else d
  }

  function Ticked(c: Clock): Clock {
    if c.mode == SystemMode then c.(total := c.total + SystemTick, system := c.system + SystemTick)
    else c.(total := c.total + UserTick, user := c.user + UserTick)
  }

  function OneTick(c: Clock, handlers: Handlers): Clock { Drain(Ticked(c), handlers) }

  /** Nobody can run: move on to the next interrupt. None: there is nothing left to wait for, and the machine halts. */
  function Idle(c: Clock, handlers: Handlers): Option<Clock> {
    var (d, fired) := CheckIfDue(c.(mode := IdleMode), true, handlers);
    if fired then Some(Drain(d, handlers).(mode := SystemMode)) else None
  }

  // ---------------------------------------------------------------- termination

  lemma {:induction false} DueInserted(q: Queue, e: Elem<Pending>, p: nat, now: int)
    requires p <= |q|
    ensures Due(q[..p] + [e] + q[p..], now) == Due(q, now) + if e.key <= now then 1 else 0
    decreases p
  {
    var r := q[..p] + [e] + q[p..];
    if p == 0 {
      assert r[1..] == q;
    } else {
      DueInserted(q[1..], e, p - 1, now);
      assert r[1..] == q[1..][..p - 1] + [e] + q[1..][p - 1..];
    }
  }

  lemma {:induction false} ScheduleAllDue(c: Clock, plans: seq<Plan>)
    ensures Due(ScheduleAll(c, plans).queue, c.total) == Due(c.queue, c.total) && ScheduleAll(c, plans).total == c.total
    ensures ScheduleAll(c, plans).mode == c.mode
    decreases |plans|
  {
    if plans != [] {
      var e := Elem(Pending(c.nextId, plans[0].kind), c.total + plans[0].fromNow);
      DueInserted(c.queue, e, Place(c.queue, e.key), c.total);
      ScheduleAllDue(Schedule(c, plans[0]), plans[1..]);
    }
  }

  lemma DueShrinks(c: Clock, handlers: Handlers)
    ensures var r := CheckIfDue(c, false, handlers);
            && r.0.total == c.total && (r.1 ==> Due(r.0.queue, r.0.total) < Due(c.queue, c.total))
  {
    if c.queue != [] && c.queue[0].key <= c.total {
      var e, d := c.queue[0], c.(queue := c.queue[1..]);
      ScheduleAllDue(d.(fired := d.fired + [Firing(e.item.id, e.key, d.total)]), handlers(e.item.id));
    }
  }

  // ---------------------------------------------------------------- the invariant

  /** The pending interrupts are in order of time, all numbered differently, none of them with the number of one fired. */
  ghost predicate QueueOk(q: Queue, nextId: int, fired: seq<Firing>) {
    && Sorted(q)
    && (forall i :: 0 <= i < |q| ==> q[i].item.id < nextId)
    && (forall i, j :: 0 <= i < j < |q| ==> q[i].item.id != q[j].item.id)
    && (forall i, j :: 0 <= i < |q| && 0 <= j < |fired| ==> q[i].item.id != fired[j].id)
  }

  /** Each fired once, not before its time, in order of time. */
  ghost predicate FiredOk(fired: seq<Firing>, nextId: int, now: int) {
    && (forall i :: 0 <= i < |fired| ==> fired[i].when <= fired[i].at <= now && fired[i].id < nextId)
    && (forall i, j :: 0 <= i < j < |fired| ==> fired[i].id != fired[j].id && fired[i].when <= fired[j].when)
  }

  /** Nothing pending was due before something already fired. */
  ghost predicate NoneMissed(q: Queue, fired: seq<Firing>) {
    forall i, j :: 0 <= i < |q| && 0 <= j < |fired| ==> fired[j].when <= q[i].key
  }

  ghost predicate TimeOk(c: Clock) { c.total == c.idle + c.system + c.user }

  ghost predicate ClockOk(c: Clock) {
    QueueOk(c.queue, c.nextId, c.fired) && FiredOk(c.fired, c.nextId, c.total) && NoneMissed(c.queue, c.fired) && TimeOk(c)
  }

  /** r is q with e put in at p. */
  ghost predicate PutAt(q: Queue, r: Queue, e: Elem<Pending>, p: int) {
    && |r| == |q| + 1 && 0 <= p <= |q| && r[p] == e
    && (forall i :: 0 <= i < p ==> r[i] == q[i])
    && (forall i :: p < i < |r| ==> r[i] == q[i - 1])
  }

  lemma InsertedPutAt(q: Queue, e: Elem<Pending>)
    ensures PutAt(q, Inserted(q, e), e, Place(q, e.key))
  {
  }

  lemma PutIds(q: Queue, r: Queue, e: Elem<Pending>, p: int, nextId: int, fired: seq<Firing>)
    requires PutAt(q, r, e, p) && QueueOk(q, nextId, fired) && e.item.id < nextId
    requires forall i :: 0 <= i < |q| ==> q[i].item.id != e.item.id
    requires forall j :: 0 <= j < |fired| ==> fired[j].id != e.item.id
    ensures forall i :: 0 <= i < |r| ==> r[i].item.id < nextId
    ensures forall i, j :: 0 <= i < j < |r| ==> r[i].item.id != r[j].item.id
    ensures forall i, j :: 0 <= i < |r| && 0 <= j < |fired| ==> r[i].item.id != fired[j].id
  {
  }

  lemma PutNoneMissed(q: Queue, r: Queue, e: Elem<Pending>, p: int, fired: seq<Firing>)
    requires PutAt(q, r, e, p) && NoneMissed(q, fired) && forall j :: 0 <= j < |fired| ==> fired[j].when <= e.key
    ensures NoneMissed(r, fired)
  {
  }

  lemma InsertOk(q: Queue, e: Elem<Pending>, r: Queue, nextId: int, fired: seq<Firing>)
    requires QueueOk(q, nextId, fired) && NoneMissed(q, fired) && e.item.id < nextId && r == Inserted(q, e)
    requires forall i :: 0 <= i < |q| ==> q[i].item.id != e.item.id
    requires forall j :: 0 <= j < |fired| ==> fired[j].id != e.item.id && fired[j].when <= e.key
    ensures QueueOk(r, nextId, fired) && NoneMissed(r, fired)
  {
    InsertSorted(q, e);
    InsertedPutAt(q, e);
    PutIds(q, r, e, Place(q, e.key), nextId, fired);
    PutNoneMissed(q, r, e, Place(q, e.key), fired);
  }

  lemma ScheduleOk(c: Clock, plan: Plan)
    requires ClockOk(c)
    ensures ClockOk(Schedule(c, plan))
  {
    var e := Elem(Pending(c.nextId, plan.kind), c.total + plan.fromNow);
    LaterIds(c);
    InsertOk(c.queue, e, Schedule(c, plan).queue, c.nextId + 1, c.fired);
  }

  lemma LaterIds(c: Clock)
    requires ClockOk(c)
    ensures QueueOk(c.queue, c.nextId + 1, c.fired) && FiredOk(c.fired, c.nextId + 1, c.total)
  {
  }

  lemma {:induction false} ScheduleAllOk(c: Clock, plans: seq<Plan>)
    requires ClockOk(c)
    ensures ClockOk(ScheduleAll(c, plans))
    decreases |plans|
  {
    if plans != [] {
      ScheduleOk(c, plans[0]);
      ScheduleAllOk(Schedule(c, plans[0]), plans[1..]);
    }
  }

  lemma FireOk(c: Clock, e: Elem<Pending>, handlers: Handlers)
    requires ClockOk(c.(queue := [e] + c.queue)) && e.key <= c.total
    ensures ClockOk(Fire(c, e, handlers))
  {
    var q := [e] + c.queue;
    assert forall i :: 0 <= i < |c.queue| ==> c.queue[i] == q[i + 1];
    assert q[0] == e;
    ScheduleAllOk(c.(fired := c.fired + [Firing(e.item.id, e.key, c.total)]), handlers(e.item.id));
  }

  /** Without its first interrupt the queue is as good, and that interrupt may go anywhere in it by number. */
  lemma TailOk(q: Queue, r: Queue, nextId: int, fired: seq<Firing>)
    requires QueueOk(q, nextId, fired) && NoneMissed(q, fired) && q != [] && r == q[1..]
    ensures QueueOk(r, nextId, fired) && NoneMissed(r, fired) && q[0].item.id < nextId
    ensures forall i :: 0 <= i < |r| ==> r[i].item.id != q[0].item.id
    ensures forall j :: 0 <= j < |fired| ==> fired[j].id != q[0].item.id && fired[j].when <= q[0].key
  {
    assert forall i :: 0 <= i < |r| ==> r[i] == q[i + 1];
  }

  lemma PutBackOk(c: Clock)
    requires ClockOk(c) && c.queue != []
    ensures ClockOk(c.(queue := Inserted(c.queue[1..], c.queue[0])))
  {
    TailOk(c.queue, c.queue[1..], c.nextId, c.fired);
    InsertOk(c.queue[1..], c.queue[0], Inserted(c.queue[1..], c.queue[0]), c.nextId, c.fired);
  }

  /** A clock whose next interrupt has been taken off the queue. */
  ghost predicate TakenOk(c: Clock, e: Elem<Pending>) { ClockOk(c.(queue := [e] + c.queue)) }

  lemma RestoredOk(c: Clock, e: Elem<Pending>)
    requires TakenOk(c, e)
    ensures ClockOk(Restored(c, e))
  {
    var d := c.(queue := [e] + c.queue);
    assert d.queue[1..] == c.queue && d.queue[0] == e;
    PutBackOk(d);
  }

  lemma AdvancedOk(c: Clock, e: Elem<Pending>)
    requires TakenOk(c, e)
    ensures TakenOk(Advanced(c, e.key), e) && e.key <= Advanced(c, e.key).total
  {
  }

  lemma DecideOk(c: Clock, e: Elem<Pending>, advanceClock: bool, handlers: Handlers)
    requires TakenOk(c, e)
    ensures ClockOk(Decide(c, e, advanceClock, handlers).0)
  {
    if !advanceClock && e.key > c.total {
      RestoredOk(c, e);
    } else {
      AdvancedOk(c, e);
      var d := if advanceClock then Advanced(c, e.key) else c;
      if d.mode == IdleMode && e.item.kind == TimerInt && d.queue == [] { RestoredOk(d, e); } else { FireOk(d, e, handlers); }
    }
  }

  lemma CheckOk(c: Clock, advanceClock: bool, handlers: Handlers)
    requires ClockOk(c)
    ensures ClockOk(CheckIfDue(c, advanceClock, handlers).0)
  {
    if c.queue != [] {
      assert [c.queue[0]] + c.queue[1..] == c.queue;
      DecideOk(c.(queue := c.queue[1..]), c.queue[0], advanceClock, handlers);
    }
  }

  lemma {:induction false} DrainOk(c: Clock, handlers: Handlers)
    requires ClockOk(c)
    ensures ClockOk(Drain(c, handlers))
    decreases Due(c.queue, c.total)
  {
    DueShrinks(c, handlers);
    CheckOk(c, false, handlers);
    var (d, more) := CheckIfDue(c, false, handlers);
    if more { DrainOk(d, handlers); }
  }

  // ---------------------------------------------------------------- when the loop ends

  /** Nothing is left overdue, except that an idle machine does not run a timer that is alone in the queue. */
  ghost predicate Settled(c: Clock) {
    || (forall i :: 0 <= i < |c.queue| ==> c.queue[i].key > c.total)
    || (c.mode == IdleMode && |c.queue| == 1 && c.queue[0].item.kind == TimerInt)
  }

  lemma CheckSettles(c: Clock, handlers: Handlers)
    requires ClockOk(c) && !CheckIfDue(c, false, handlers).1
    ensures Settled(CheckIfDue(c, false, handlers).0)
  {
    if c.queue != [] && c.queue[0].key > c.total {
      var rest, e := c.queue[1..], c.queue[0];
      forall i | 0 <= i <= |rest| ensures Inserted(rest, e)[i].key > c.total { AtInserted(rest, e, i); }
    }
  }

  lemma {:induction false} DrainSettles(c: Clock, handlers: Handlers)
    requires ClockOk(c)
    ensures Settled(Drain(c, handlers)) && Drain(c, handlers).mode == c.mode && Drain(c, handlers).total == c.total
    decreases Due(c.queue, c.total)
  {
    DueShrinks(c, handlers);
    CheckOk(c, false, handlers);
    CheckMode(c, handlers);
    var (d, more) := CheckIfDue(c, false, handlers);
    if more { DrainSettles(d, handlers); } else { CheckSettles(c, handlers); }
  }

  lemma CheckMode(c: Clock, handlers: Handlers)
    ensures CheckIfDue(c, false, handlers).0.mode == c.mode
  {
    if c.queue != [] {
      var e, d := c.queue[0], c.(queue := c.queue[1..]);
      ScheduleAllDue(d.(fired := d.fired + [Firing(e.item.id, e.key, d.total)]), handlers(e.item.id));
    }
  }

  /** After an idle period nothing is overdue, but for a timer alone in the queue. */
  lemma IdleSettles(c: Clock, handlers: Handlers)
    requires ClockOk(c) && Idle(c, handlers).Some?
    ensures var d := Idle(c, handlers).value;
            && d.mode == SystemMode
            && ((forall i :: 0 <= i < |d.queue| ==> d.queue[i].key > d.total) || (|d.queue| == 1 && d.queue[0].item.kind == TimerInt))
  {
    CheckOk(c.(mode := IdleMode), true, handlers);
    DrainSettles(CheckIfDue(c.(mode := IdleMode), true, handlers).0, handlers);
  }

  // ---------------------------------------------------------------- every run

  datatype Step = Tick | IdleStep | Request(plan: Plan) | Enter(mode: Mode)

  /** None when the machine halts. */
  function Run(c: Clock, steps: seq<Step>, handlers: Handlers): Option<Clock>
    decreases |steps|
  {
    if steps == [] then Some(c)
    else
      var next := match steps[0]
        case Tick => Some(OneTick(c, handlers))
        case IdleStep => Idle(c, handlers)
        case Request(plan) => Some(Schedule(c, plan))
        case Enter(mode) => Some(c.(mode := mode));
      if next.None? then None else Run(next.value, steps[1..], handlers)
  }

  lemma TickOk(c: Clock, handlers: Handlers)
    requires ClockOk(c)
    ensures ClockOk(OneTick(c, handlers))
    ensures c.mode != IdleMode ==> forall i :: 0 <= i < |OneTick(c, handlers).queue| ==> OneTick(c, handlers).queue[i].key > OneTick(c, handlers).total
  {
    DrainOk(Ticked(c), handlers);
    DrainSettles(Ticked(c), handlers);
  }

  lemma IdleOk(c: Clock, handlers: Handlers)
    requires ClockOk(c)
    ensures Idle(c, handlers).Some? ==> ClockOk(Idle(c, handlers).value)
  {
    CheckOk(c.(mode := IdleMode), true, handlers);
    var (d, fired) := CheckIfDue(c.(mode := IdleMode), true, handlers);
    if fired { DrainOk(d, handlers); }
  }

  /** In every run: no handler runs before its due time, due times of fired handlers never decrease, no interrupt fires
      twice, and total time is idle plus system plus user time. */
  lemma {:induction false} AlwaysOrdered(c: Clock, steps: seq<Step>, handlers: Handlers)
    requires ClockOk(c)
    ensures Run(c, steps, handlers).Some? ==> ClockOk(Run(c, steps, handlers).value)
    decreases |steps|
  {
    if steps != [] {
      match steps[0]
      case Tick =>
        TickOk(c, handlers);
        AlwaysOrdered(OneTick(c, handlers), steps[1..], handlers);
      case IdleStep =>
        IdleOk(c, handlers);
        if Idle(c, handlers).Some? { AlwaysOrdered(Idle(c, handlers).value, steps[1..], handlers); }
      case Request(plan) =>
        ScheduleOk(c, plan);
        AlwaysOrdered(Schedule(c, plan), steps[1..], handlers);
      case Enter(mode) =>
        AlwaysOrdered(c.(mode := mode), steps[1..], handlers);
    }
  }

  // ---------------------------------------------------------------- no interrupt is lost

  ghost predicate IsPending(q: Queue, id: int) { exists i :: 0 <= i < |q| && q[i].item.id == id }

  ghost predicate HasFired(fired: seq<Firing>, id: int) { exists i :: 0 <= i < |fired| && fired[i].id == id }

  /** Every interrupt ever scheduled is pending or has fired. */
  ghost predicate Accounted(c: Clock) {
    forall id :: 0 <= id < c.nextId ==> IsPending(c.queue, id) || HasFired(c.fired, id)
  }

  lemma PendingInserted(q: Queue, e: Elem<Pending>, id: int)
    ensures IsPending(Inserted(q, e), id) <==> id == e.item.id || IsPending(q, id)
  {
    var r, p := Inserted(q, e), Place(q, e.key);
    InsertedPutAt(q, e);
    if i :| 0 <= i < |q| && q[i].item.id == id { assert r[if i < p then i else i + 1].item.id == id; }
    if id == e.item.id { assert r[p].item.id == id; }
    if i :| 0 <= i < |r| && r[i].item.id == id { assert i != p ==> q[if i < p then i else i - 1].item.id == id; }
  }

  lemma ScheduleAccounted(c: Clock, plan: Plan)
    requires Accounted(c)
    ensures Accounted(Schedule(c, plan)) && IsPending(Schedule(c, plan).queue, c.nextId)
  {
    var e := Elem(Pending(c.nextId, plan.kind), c.total + plan.fromNow);
    PendingInserted(c.queue, e, c.nextId);
    forall id | 0 <= id < c.nextId + 1 ensures IsPending(Schedule(c, plan).queue, id) || HasFired(c.fired, id) {
      PendingInserted(c.queue, e, id);
    }
  }

  lemma {:induction false} ScheduleAllAccounted(c: Clock, plans: seq<Plan>)
    requires Accounted(c)
    ensures Accounted(ScheduleAll(c, plans))
    decreases |plans|
  {
    if plans != [] {
      ScheduleAccounted(c, plans[0]);
      ScheduleAllAccounted(Schedule(c, plans[0]), plans[1..]);
    }
  }

  lemma CheckAccounted(c: Clock, advanceClock: bool, handlers: Handlers)
    requires Accounted(c)
    ensures Accounted(CheckIfDue(c, advanceClock, handlers).0)
  {
    if c.queue != [] {
      var e, rest := c.queue[0], c.queue[1..];
      forall id | IsPending(c.queue, id) ensures id == e.item.id || IsPending(rest, id) { HeadOrRest(c.queue, id); }
      forall id | 0 <= id < c.nextId ensures IsPending(Inserted(rest, e), id) || HasFired(c.fired, id) { PendingInserted(rest, e, id); }
      FireAccounted((if advanceClock then Advanced(c, e.key) else c).(queue := rest), e, handlers);
    }
  }

  lemma HeadOrRest(q: Queue, id: int)
    requires q != [] && IsPending(q, id)
    ensures id == q[0].item.id || IsPending(q[1..], id)
  {
    var i :| 0 <= i < |q| && q[i].item.id == id;
    if i > 0 { assert q[1..][i - 1].item.id == id; }
  }

  lemma FireAccounted(c: Clock, e: Elem<Pending>, handlers: Handlers)
    requires forall id :: 0 <= id < c.nextId ==> id == e.item.id || IsPending(c.queue, id) || HasFired(c.fired, id)
    ensures Accounted(Fire(c, e, handlers))
  {
    var fired := c.fired + [Firing(e.item.id, e.key, c.total)];
    assert fired[|c.fired|].id == e.item.id;
    forall id | HasFired(c.fired, id) ensures HasFired(fired, id) {
      var i :| 0 <= i < |c.fired| && c.fired[i].id == id;
      assert fired[i].id == id;
    }
    ScheduleAllAccounted(c.(fired := fired), handlers(e.item.id));
  }

  lemma {:induction false} DrainAccounted(c: Clock, handlers: Handlers)
    requires Accounted(c)
    ensures Accounted(Drain(c, handlers))
    decreases Due(c.queue, c.total)
  {
    DueShrinks(c, handlers);
    CheckAccounted(c, false, handlers);
    var (d, more) := CheckIfDue(c, false, handlers);
    if more { DrainAccounted(d, handlers); }
  }

  /** In every run, what has been scheduled is pending or has fired; with the other invariant, exactly one of the two. */
  lemma {:induction false} NoneLost(c: Clock, steps: seq<Step>, handlers: Handlers)
    requires Accounted(c)
    ensures Run(c, steps, handlers).Some? ==> Accounted(Run(c, steps, handlers).value)
    decreases |steps|
  {
    if steps != [] {
      match steps[0]
      case Tick =>
        DrainAccounted(Ticked(c), handlers);
        NoneLost(OneTick(c, handlers), steps[1..], handlers);
      case IdleStep =>
        CheckAccounted(c.(mode := IdleMode), true, handlers);
        if Idle(c, handlers).Some? {
          DrainAccounted(CheckIfDue(c.(mode := IdleMode), true, handlers).0, handlers);
          NoneLost(Idle(c, handlers).value, steps[1..], handlers);
        }
      case Request(plan) =>
        ScheduleAccounted(c, plan);
        NoneLost(Schedule(c, plan), steps[1..], handlers);
      case Enter(mode) =>
        NoneLost(c.(mode := mode), steps[1..], handlers);
    }
  }
}
