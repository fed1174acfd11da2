/**
 In which order interrupts of one time fire: every check before that time takes the first of them and puts it back
 behind the others, so the group turns by one place at each check.
 */
module InterruptOrder {
  import opened Options
  import opened SortedLists
  import opened Interrupts

  // ---------------------------------------------------------------- one unsuccessful check

  /** The first interrupt is taken off and inserted again. */
  function PutBack(q: Queue): (r: Queue)
    requires q != []
    ensures |r| == |q|
  {
    Inserted(q[1..], q[0])
  }

  /** How many interrupts share the first time. */
  function GroupSize(q: Queue): (g: nat)
    requires q != []
    ensures 0 < g <= |q| && forall i :: 0 <= i < g ==> q[i].key <= q[0].key
  {
    Place(q, q[0].key)
  }

  lemma {:induction false} PlaceTail(q: Queue, key: int, i: nat)
    requires 1 <= i <= |q|
    ensures Place(q[1..], key, i - 1) == Place(q, key, i) - 1
    decreases |q| - i
  {
    if i < |q| && q[i].key <= key { PlaceTail(q, key, i + 1); }
  }

  /** The group of the first time turns by one; what is due later stays. */
  lemma PutBackTurns(q: Queue)
    requires q != []
    ensures PutBack(q) == q[1..GroupSize(q)] + [q[0]] + q[GroupSize(q)..]
  {
    var g := GroupSize(q);
    PlaceTail(q, q[0].key, 1);
    assert q[1..][..g - 1] == q[1..g] && q[1..][g - 1..] == q[g..];
  }

  /** Going back changes nothing exactly when the first interrupt is alone in its time. */
  lemma PutBackExact(c: Clock)
    requires ClockOk(c) && c.queue != []
    ensures PutBack(c.queue) == c.queue <==> |c.queue| == 1 || c.queue[0].key < c.queue[1].key
  {
    var q := c.queue;
    PutBackTurns(q);
    if |q| > 1 && q[0].key == q[1].key {
      assert GroupSize(q) > 1;
      assert PutBack(q)[0] == q[1] && q[0].item.id != q[1].item.id;
    } else {
      assert GroupSize(q) == 1;
      assert PutBack(q) == q;
    }
  }

  // ---------------------------------------------------------------- any number of unsuccessful checks

  function PutBacks(q: Queue, k: nat): (r: Queue)
    requires q != []
    ensures |r| == |q|
  {
    if k == 0 then q else PutBack(PutBacks(q, k - 1))
  }

  function Turned(s: Queue, k: nat): (r: Queue)
    requires k <= |s|
    ensures |r| == |s|
  {
    s[k..] + s[..k]
  }

  /** Counting up to g over and over. */
  function Phase(k: nat, g: nat): (p: nat)
    requires 0 < g
    ensures p < g
  {
    if k == 0 then 0 else if Phase(k - 1, g) + 1 == g then 0 else Phase(k - 1, g) + 1
  }

  lemma {:induction false} PhaseIs(k: nat, g: nat)
    requires 0 < g
    ensures Phase(k, g) == k % g
  {
    if k > 0 {
      PhaseIs(k - 1, g);
      NextTurn(k - 1, k, g, Phase(k - 1, g));
    }
  }

  lemma NextTurn(k: nat, n: nat, g: nat, r: nat)
    requires 0 < g && n == k + 1 && r == k % g
    ensures n % g == if r + 1 == g then 0 else r + 1
  {
    assert k == g * (k / g) + r;
    if r + 1 == g {
      assert n == g * (k / g + 1) + 0;
      Remainder(n, g, k / g + 1, 0);
    } else {
      Remainder(n, g, k / g, r + 1);
    }
  }

  lemma Remainder(n: int, g: int, q: int, r: int)
    requires n == g * q + r && 0 <= r < g
    ensures n % g == r
  {
    var d := n / g - q;
    assert g * (n / g) + n % g == g * q + r;
    assert g * d == r - n % g;
    Multiples(g, d);
  }

  lemma Multiples(g: int, d: int)
    requires g > 0
    ensures (d > 0 ==> g * d >= g) && (d < 0 ==> g * d <= -g)
  {
  }

  /** After k unsuccessful checks the first group has turned by k modulo its size. */
  lemma PutBacksTurn(q: Queue, k: nat)
    requires q != [] && Sorted(q)
    ensures var g := GroupSize(q);
            k % g < g && PutBacks(q, k) == Turned(q[..g], k % g) + q[g..]
  {
    PutBacksPhase(q, k);
    PhaseIs(k, GroupSize(q));
  }

  lemma {:induction false} PutBacksPhase(q: Queue, k: nat)
    requires q != [] && Sorted(q)
    ensures PutBacks(q, k) == Turned(q[..GroupSize(q)], Phase(k, GroupSize(q))) + q[GroupSize(q)..]
  {
    if k == 0 {
      NotTurned(q, GroupSize(q));
    } else {
      PutBacksPhase(q, k - 1);
      TurnOnce(q, PutBacks(q, k - 1), Phase(k - 1, GroupSize(q)));
    }
  }

  lemma NotTurned(q: Queue, g: nat)
    requires 0 < g <= |q|
    ensures Turned(q[..g], 0) + q[g..] == q
  {
  }

  lemma TurnOnce(q: Queue, r: Queue, j: nat)
    requires q != [] && Sorted(q) && j < GroupSize(q) && r == Turned(q[..GroupSize(q)], j) + q[GroupSize(q)..]
    ensures PutBack(r) == Turned(q[..GroupSize(q)], if j + 1 == GroupSize(q) then 0 else j + 1) + q[GroupSize(q)..]
  {
    var g := GroupSize(q);
    SameTime(q);
    TurnedGroup(q, r, j);
    PutBackTurns(r);
    TurnSeq(q[..g], j, q[g..], r);
  }

  lemma SameTime(q: Queue)
    requires q != [] && Sorted(q)
    ensures forall i :: 0 <= i < GroupSize(q) ==> q[i].key == q[0].key
  {
  }

  lemma TurnSeq(s: Queue, j: nat, tail: Queue, r: Queue)
    requires j < |s| && r == Turned(s, j) + tail
    ensures r[1..|s|] + [r[0]] + r[|s|..] == Turned(s, if j + 1 == |s| then 0 else j + 1) + tail
  {
    assert r[0] == s[j] && r[|s|..] == tail;
    assert r[1..|s|] == s[j + 1..] + s[..j];
    assert s[..j] + [s[j]] == s[..j + 1];
    if j + 1 == |s| { assert s[j + 1..] == [] && s[..j + 1] == s; }
  }

  lemma TurnedGroup(q: Queue, r: Queue, j: nat)
    requires q != [] && j < GroupSize(q) && r == Turned(q[..GroupSize(q)], j) + q[GroupSize(q)..]
    requires forall i :: 0 <= i < GroupSize(q) ==> q[i].key == q[0].key
    ensures GroupSize(r) == GroupSize(q)
  {
    var g := GroupSize(q);
    assert r[0] == q[j];
    assert forall i :: 0 <= i < g ==> r[i].key == q[0].key;
    assert g < |r| ==> r[g] == q[g];
  }

  // ---------------------------------------------------------------- the order in which due interrupts fire

  function Firings(q: Queue, at: int): (f: seq<Firing>)
    ensures |f| == |q|
  {
    seq(|q|, i requires 0 <= i < |q| => Firing(q[i].item.id, q[i].key, at))
  }

  lemma InsertLater(q: Queue, e: Elem<Pending>, now: int)
    requires e.key > now
    ensures Place(Inserted(q, e), now) == Place(q, now) && Inserted(q, e)[..Place(q, now)] == q[..Place(q, now)]
  {
    var r, p, d := Inserted(q, e), Place(q, e.key), Place(q, now);
    InsertedPutAt(q, e);
    assert d <= p;
    assert forall i :: 0 <= i < d ==> r[i] == q[i];
    assert d < |r| && r[d].key > now;
  }

  lemma {:induction false} ScheduleLater(c: Clock, plans: seq<Plan>)
    ensures var d := ScheduleAll(c, plans);
            && Place(d.queue, c.total) == Place(c.queue, c.total) && d.queue[..Place(c.queue, c.total)] == c.queue[..Place(c.queue, c.total)]
            && d.fired == c.fired && d.total == c.total && d.mode == c.mode
    decreases |plans|
  {
    if plans != [] {
      var d := Schedule(c, plans[0]);
      ScheduleOneLater(c, plans[0]);
      ScheduleLater(d, plans[1..]);
    }
  }

  lemma ScheduleOneLater(c: Clock, plan: Plan)
    ensures var d := Schedule(c, plan);
            && Place(d.queue, c.total) == Place(c.queue, c.total) && d.queue[..Place(c.queue, c.total)] == c.queue[..Place(c.queue, c.total)]
            && d.fired == c.fired && d.total == c.total && d.mode == c.mode
  {
    InsertLater(c.queue, Elem(Pending(c.nextId, plan.kind), c.total + plan.fromNow), c.total);
  }

  /** Outside idle mode the loop fires exactly what is due, in the order of the queue. */
  lemma {:induction false} DrainInOrder(c: Clock, handlers: Handlers)
    requires c.mode != IdleMode
    ensures Drain(c, handlers).fired == c.fired + Firings(c.queue[..Place(c.queue, c.total)], c.total)
    decreases Due(c.queue, c.total)
  {
    if c.queue != [] && c.queue[0].key <= c.total {
      FireFirst(c, handlers);
      var d := CheckIfDue(c, false, handlers).0;
      DueShrinks(c, handlers);
      DrainInOrder(d, handlers);
      DrainMore(c, d, handlers);
      FiringsMore(c.fired, c.queue[0], d.queue[..Place(d.queue, d.total)], c.total);
    } else {
      DrainDone(c, handlers);
    }
  }

  lemma DrainMore(c: Clock, d: Clock, handlers: Handlers)
    requires CheckIfDue(c, false, handlers) == (d, true)
    ensures Drain(c, handlers) == Drain(d, handlers)
  {
    DueShrinks(c, handlers);
  }

  lemma DrainDone(c: Clock, handlers: Handlers)
    requires c.queue == [] || c.queue[0].key > c.total
    ensures Drain(c, handlers).fired == c.fired && Place(c.queue, c.total) == 0
  {
  }

  lemma FiringsMore(fired: seq<Firing>, e: Elem<Pending>, q: Queue, at: int)
    ensures fired + [Firing(e.item.id, e.key, at)] + Firings(q, at) == fired + Firings([e] + q, at)
  {
  }

  lemma FireFirst(c: Clock, handlers: Handlers)
    requires c.queue != [] && c.queue[0].key <= c.total && c.mode != IdleMode
    ensures var (d, more) := CheckIfDue(c, false, handlers);
            && more && d.mode == c.mode && d.total == c.total && d.fired == c.fired + [Firing(c.queue[0].item.id, c.queue[0].key, c.total)]
            && c.queue[..Place(c.queue, c.total)] == [c.queue[0]] + d.queue[..Place(d.queue, d.total)]
  {
    var e, rest := c.queue[0], c.queue[1..];
    var a := c.(queue := rest, fired := c.fired + [Firing(e.item.id, e.key, c.total)]);
    ScheduleLater(a, handlers(e.item.id));
    PlaceTail(c.queue, c.total, 1);
    assert c.queue[..Place(c.queue, c.total)] == [e] + rest[..Place(rest, c.total)];
  }

  // ---------------------------------------------------------------- ticks

  /** The clock after n ticks in which nothing runs. */
  function TickedBy(c: Clock, n: nat): Clock { if n == 0 then c else Ticked(TickedBy(c, n - 1)) }

  function Ticks(c: Clock, n: nat, handlers: Handlers): Clock { if n == 0 then c else OneTick(Ticks(c, n - 1, handlers), handlers) }

  lemma {:induction false} TickedByKeeps(c: Clock, n: nat)
    ensures var d := TickedBy(c, n);
            && d.queue == c.queue && d.fired == c.fired && d.mode == c.mode && d.nextId == c.nextId && c.total <= d.total
  {
    if n > 0 { TickedByKeeps(c, n - 1); }
  }

  /** The clock after n ticks that only turn the first group. */
  function Turning(c: Clock, n: nat): Clock
    requires c.queue != []
  {
    TickedBy(c, n).(queue := PutBacks(c.queue, n))
  }

  /** The first interrupt is still not due after n ticks. */
  ghost predicate StillQuiet(c: Clock, n: nat) { c.queue != [] && Sorted(c.queue) && TickedBy(c, n).total < c.queue[0].key }

  lemma QuietBefore(c: Clock, n: nat)
    requires StillQuiet(c, n + 1)
    ensures StillQuiet(c, n)
  {
  }

  /** While the first interrupt is not due, ticks only turn its group. */
  lemma {:induction false} QuietTicks(c: Clock, n: nat, handlers: Handlers)
    requires StillQuiet(c, n)
    ensures Ticks(c, n, handlers) == Turning(c, n)
  {
    if n == 0 {
      QuietNone(c, handlers);
    } else {
      QuietBefore(c, n - 1);
      QuietTicks(c, n - 1, handlers);
      QuietNext(c, n - 1, handlers);
    }
  }

  lemma QuietNone(c: Clock, handlers: Handlers)
    requires c.queue != []
    ensures Ticks(c, 0, handlers) == Turning(c, 0)
  {
  }

  lemma QuietNext(c: Clock, n: nat, handlers: Handlers)
    requires StillQuiet(c, n + 1) && Ticks(c, n, handlers) == Turning(c, n)
    ensures Ticks(c, n + 1, handlers) == Turning(c, n + 1)
  {
    FirstTime(c.queue, n);
    QuietTick(TickedBy(c, n), PutBacks(c.queue, n), handlers);
  }

  lemma QuietTick(e: Clock, q: Queue, handlers: Handlers)
    requires q != [] && Ticked(e).total < q[0].key
    ensures OneTick(e.(queue := q), handlers) == Ticked(e).(queue := PutBack(q))
  {
    QuietDrain(Ticked(e).(queue := q), handlers);
  }

  lemma QuietDrain(c: Clock, handlers: Handlers)
    requires c.queue != [] && c.total < c.queue[0].key
    ensures Drain(c, handlers) == c.(queue := PutBack(c.queue))
  {
  }

  lemma FirstTime(q: Queue, k: nat)
    requires q != [] && Sorted(q)
    ensures PutBacks(q, k)[0].key == q[0].key
  {
    PutBacksTurn(q, k);
    SameTime(q);
  }

  /** The tick that makes the first group due, with the group turned by n. */
  lemma FiringAfter(q: Queue, n: nat, d: Clock, now: int, handlers: Handlers)
    requires q != [] && Sorted(q) && d.queue == PutBacks(q, n) && d.mode != IdleMode && d.total == now && q[0].key <= now
    ensures var g := GroupSize(q);
            && n % g < g && g <= Place(q, now)
            && Drain(d, handlers).fired == d.fired + Firings(Turned(q[..g], n % g) + q[g..Place(q, now)], now)
  {
    PutBacksTurn(q, n);
    DrainInOrder(d, handlers);
    DueTogether(q, d.queue, n % GroupSize(q), now);
  }

  /** After n ticks without anything due, the tick that makes the first group due fires it turned by n modulo its size,
      and behind it, in order, whatever else is due by then. */
  lemma FiringOrder(c: Clock, n: nat, d: Clock, handlers: Handlers)
    requires c.queue != [] && Sorted(c.queue) && c.mode != IdleMode && d == Ticks(c, n, handlers)
    requires TickedBy(c, n).total < c.queue[0].key <= Ticked(TickedBy(c, n)).total
    ensures var g, now := GroupSize(c.queue), Ticked(TickedBy(c, n)).total;
            && n % g < g && g <= Place(c.queue, now)
            && OneTick(d, handlers).fired == c.fired + Firings(Turned(c.queue[..g], n % g) + c.queue[g..Place(c.queue, now)], now)
  {
    QuietTicks(c, n, handlers);
    TickedByKeeps(c, n);
    FiringAfter(c.queue, n, Ticked(d), Ticked(TickedBy(c, n)).total, handlers);
  }

  lemma DueTogether(q: Queue, r: Queue, j: nat, now: int)
    requires q != [] && Sorted(q) && j < GroupSize(q) && r == Turned(q[..GroupSize(q)], j) + q[GroupSize(q)..] && q[0].key <= now
    ensures GroupSize(q) <= Place(q, now) == Place(r, now)
    ensures r[..Place(r, now)] == Turned(q[..GroupSize(q)], j) + q[GroupSize(q)..Place(q, now)]
  {
    DuePlace(q, r, j, now);
    TakeTail(Turned(q[..GroupSize(q)], j), q[GroupSize(q)..], Place(q, now));
    SliceSlice(q, GroupSize(q), Place(q, now));
  }

  lemma SliceSlice(q: Queue, g: nat, p: nat)
    requires g <= p <= |q|
    ensures q[g..][..p - g] == q[g..p]
  {
  }

  lemma DuePlace(q: Queue, r: Queue, j: nat, now: int)
    requires q != [] && Sorted(q) && j < GroupSize(q) && r == Turned(q[..GroupSize(q)], j) + q[GroupSize(q)..] && q[0].key <= now
    ensures GroupSize(q) <= Place(q, now) == Place(r, now)
  {
    SameTime(q);
    assert GroupSize(q) <= Place(q, now);
    TurnedKeys(q, r, j, GroupSize(q));
    PlaceIs(r, now, Place(q, now));
  }

  lemma TurnedKeys(q: Queue, r: Queue, j: nat, g: nat)
    requires j < g <= |q| && r == Turned(q[..g], j) + q[g..] && forall i :: 0 <= i < g ==> q[i].key == q[0].key
    ensures forall i :: 0 <= i < |q| ==> r[i].key == q[i].key
  {
    forall i | 0 <= i < |q| ensures r[i].key == q[i].key {
      assert r[i] == if i < g - j then q[j + i] else if i < g then q[i - (g - j)] else q[i];
    }
  }

  lemma PlaceIs(r: Queue, now: int, p: nat)
    requires p <= |r| && (p < |r| ==> now < r[p].key) && forall i :: 0 <= i < p ==> r[i].key <= now
    ensures Place(r, now) == p
  {
  }

  lemma TakeTail(a: Queue, b: Queue, n: nat)
    requires |a| <= n <= |a| + |b|
    ensures (a + b)[..n] == a + b[..n - |a|]
  {
  }

  /** The group fires in the order in which it stood in the queue exactly when the number of ticks is a multiple of its size. */
  lemma OrderKept(c: Clock, k: nat)
    requires ClockOk(c) && c.queue != []
    ensures k % GroupSize(c.queue) < GroupSize(c.queue)
    ensures Turned(c.queue[..GroupSize(c.queue)], k % GroupSize(c.queue)) == c.queue[..GroupSize(c.queue)] <==> k % GroupSize(c.queue) == 0
  {
    var s := c.queue[..GroupSize(c.queue)];
    NextTurn(k, k + 1, |s|, k % |s|);
    var j := k % |s|;
    if j > 0 { assert Turned(s, j)[0] == c.queue[j] && c.queue[j].item.id != c.queue[0].item.id; }
  }

  /** Two interrupts for the same time, four user ticks away, the first scheduled first. */
  function TwoAtFour(): Clock {
    Schedule(Schedule(Clock(0, 0, 0, 0, UserMode, [], 0, []), Plan(4, DiskInt)), Plan(4, DiskInt))
  }

  lemma TwoAtFourIs(c: Clock)
    requires c == TwoAtFour()
    ensures c == Clock(0, 0, 0, 0, UserMode, [Elem(Pending(0, DiskInt), 4), Elem(Pending(1, DiskInt), 4)], 2, [])
  {
    var x, y := Elem(Pending(0, DiskInt), 4), Elem(Pending(1, DiskInt), 4);
    assert Inserted([], x) == [x];
    PlaceIs([x], 4, 1);
    assert Inserted([x], y) == [x, y];
  }

  /** A pair of one time fires in reverse after an odd number of ticks without anything due. */
  lemma PairReversed(c: Clock, n: nat, d: Clock, handlers: Handlers)
    requires c.mode != IdleMode && |c.queue| == 2 && c.queue[0].key == c.queue[1].key && n % 2 == 1 && d == Ticks(c, n, handlers)
    requires TickedBy(c, n).total < c.queue[0].key <= Ticked(TickedBy(c, n)).total
    ensures OneTick(d, handlers).fired == c.fired + Firings([c.queue[1], c.queue[0]], Ticked(TickedBy(c, n)).total)
  {
    PairTurned(c.queue, n, GroupSize(c.queue), Ticked(TickedBy(c, n)).total);
    FiringOrder(c, n, d, handlers);
  }

  lemma PairTurned(q: Queue, n: nat, g: nat, now: int)
    requires |q| == 2 && q[0].key == q[1].key <= now && n % 2 == 1 && g == GroupSize(q)
    ensures g == 2 && Turned(q[..g], n % g) + q[g..Place(q, now)] == [q[1], q[0]]
  {
    PlaceIs(q, q[0].key, 2);
    PlaceIs(q, now, 2);
  }

  /** So those two fire in reverse at the tick after three. */
  lemma EqualTimesReversed(c: Clock, n: nat, d: Clock, handlers: Handlers)
    requires c == TwoAtFour() && n == 3 && d == Ticks(c, n, handlers)
    ensures |c.queue| == 2 && c.queue[0].item.id == 0 && c.queue[1].item.id == 1
    ensures OneTick(d, handlers).fired == Firings([c.queue[1], c.queue[0]], 4)
  {
    TwoAtFourIs(c);
    UserTicks(c, n);
    PairReversed(c, n, d, handlers);
  }

  lemma {:induction false} UserTicks(c: Clock, n: nat)
    requires c.mode == UserMode
    ensures TickedBy(c, n).total == c.total + n && TickedBy(c, n).mode == UserMode
  {
    if n > 0 { UserTicks(c, n - 1); }
  }

  // ---------------------------------------------------------------- the timer that an idle machine leaves

  ghost predicate NoneDue(q: Queue, now: int) { forall i :: 0 <= i < |q| ==> q[i].key > now }

  /** Everything pending is due, a timer is the last of it, and no handler before it schedules anything. */
  ghost predicate TimerLeft(q: Queue, now: int, handlers: Handlers) {
    && q != [] && Place(q, now) == |q| && q[|q| - 1].item.kind == TimerInt
    && forall i :: 0 <= i < |q| - 1 ==> handlers(q[i].item.id) == []
  }

  lemma {:induction false} ScheduleGrows(c: Clock, plans: seq<Plan>)
    ensures |ScheduleAll(c, plans).queue| == |c.queue| + |plans|
    decreases |plans|
  {
    if plans != [] {
      InsertedPutAt(c.queue, Elem(Pending(c.nextId, plans[0].kind), c.total + plans[0].fromNow));
      ScheduleGrows(Schedule(c, plans[0]), plans[1..]);
    }
  }

  lemma TailLeft(q: Queue, now: int, handlers: Handlers)
    requires |q| > 1 && q[0].key <= now && handlers(q[0].item.id) == []
    ensures TimerLeft(q, now, handlers) <==> TimerLeft(q[1..], now, handlers)
  {
    var r := q[1..];
    PlaceTail(q, now, 1);
    assert r[|r| - 1] == q[|q| - 1];
    assert forall i :: 0 <= i < |r| ==> r[i] == q[i + 1];
    if TimerLeft(r, now, handlers) {
      forall i | 0 <= i < |q| - 1 ensures handlers(q[i].item.id) == [] { assert i > 0 ==> q[i] == r[i - 1]; }
    }
  }

  /** Running the first of the due interrupts does not change whether a timer will be left, nor which. */
  lemma FiredLeft(c: Clock, handlers: Handlers)
    requires c.queue != [] && c.queue[0].key <= c.total && !(|c.queue| == 1 && c.queue[0].item.kind == TimerInt)
    ensures var q := Fire(c.(queue := c.queue[1..]), c.queue[0], handlers).queue;
            && (TimerLeft(c.queue, c.total, handlers) <==> TimerLeft(q, c.total, handlers))
            && (TimerLeft(q, c.total, handlers) ==> q == c.queue[1..])
  {
    var e, rest := c.queue[0], c.queue[1..];
    var a, plans := c.(queue := rest, fired := c.fired + [Firing(e.item.id, e.key, c.total)]), handlers(e.item.id);
    ScheduleGrows(a, plans);
    ScheduleLater(a, plans);
    if plans == [] && |c.queue| > 1 { TailLeft(c.queue, c.total, handlers); }
  }

  lemma NotYetDue(c: Clock, handlers: Handlers)
    requires Sorted(c.queue) && c.queue != [] && c.queue[0].key > c.total
    ensures NoneDue(Drain(c, handlers).queue, c.total) && !TimerLeft(c.queue, c.total, handlers)
  {
    var rest, e := c.queue[1..], c.queue[0];
    QuietDrain(c, handlers);
    forall i | 0 <= i <= |rest| ensures Inserted(rest, e)[i].key > c.total { AtInserted(rest, e, i); }
  }

  lemma {:induction false} DrainExact(c: Clock, handlers: Handlers)
    requires ClockOk(c) && c.mode == IdleMode
    ensures NoneDue(Drain(c, handlers).queue, c.total) <==> !TimerLeft(c.queue, c.total, handlers)
    ensures TimerLeft(c.queue, c.total, handlers) ==> Drain(c, handlers).queue == [c.queue[|c.queue| - 1]]
    decreases Due(c.queue, c.total)
  {
    if c.queue == [] {
    } else if c.queue[0].key > c.total {
      NotYetDue(c, handlers);
    } else if |c.queue| == 1 && c.queue[0].item.kind == TimerInt {
      LoneTimer(c, c.queue[0], handlers);
    } else {
      DrainNext(c, handlers);
      var d := CheckIfDue(c, false, handlers).0;
      DueShrinks(c, handlers);
      DrainExact(d, handlers);
    }
  }

  /** The loop runs the first interrupt and goes on. */
  lemma DrainNext(c: Clock, handlers: Handlers)
    requires ClockOk(c) && c.mode == IdleMode
    requires c.queue != [] && c.queue[0].key <= c.total && !(|c.queue| == 1 && c.queue[0].item.kind == TimerInt)
    ensures var (d, more) := CheckIfDue(c, false, handlers);
            && more && ClockOk(d) && d.mode == IdleMode && d.total == c.total && Drain(c, handlers) == Drain(d, handlers)
            && (TimerLeft(c.queue, c.total, handlers) <==> TimerLeft(d.queue, c.total, handlers))
            && (TimerLeft(d.queue, c.total, handlers) ==> d.queue == c.queue[1..])
  {
    var d := CheckIfDue(c, false, handlers).0;
    FiredLeft(c, handlers);
    CheckOk(c, false, handlers);
    CheckMode(c, handlers);
    DueShrinks(c, handlers);
    DrainMore(c, d, handlers);
  }

  /** After an idle period nothing is overdue, except when all that was pending was due by then, a timer the last of it,
      and no handler before it scheduled anything: then that timer is left, overdue and alone. */
  lemma IdleExact(c: Clock, handlers: Handlers)
    requires ClockOk(c) && Idle(c, handlers).Some?
    ensures c.queue != []
    ensures var d, now := Idle(c, handlers).value, Advanced(c, c.queue[0].key).total;
            && d.total == now && d.mode == SystemMode
            && (NoneDue(d.queue, now) <==> !TimerLeft(c.queue, now, handlers))
            && (TimerLeft(c.queue, now, handlers) ==> d.queue == [c.queue[|c.queue| - 1]])
  {
    IdleFires(c, handlers);
    var d := CheckIfDue(c.(mode := IdleMode), true, handlers).0;
    DrainExact(d, handlers);
    DrainSettles(d, handlers);
  }

  /** The check that starts an idle period moves the clock and runs the first interrupt. */
  lemma IdleFires(c: Clock, handlers: Handlers)
    requires ClockOk(c) && CheckIfDue(c.(mode := IdleMode), true, handlers).1
    ensures c.queue != []
    ensures var d, now := CheckIfDue(c.(mode := IdleMode), true, handlers).0, Advanced(c, c.queue[0].key).total;
            && ClockOk(d) && d.mode == IdleMode && d.total == now
            && (TimerLeft(c.queue, now, handlers) <==> TimerLeft(d.queue, now, handlers))
            && (TimerLeft(d.queue, now, handlers) ==> d.queue == c.queue[1..])
  {
    CheckOk(c.(mode := IdleMode), true, handlers);
    var b := IdleCheck(c, handlers);
    FiredLeft(b, handlers);
    FireKeeps(b.(queue := b.queue[1..]), b.queue[0], handlers);
  }

  lemma IdleCheck(c: Clock, handlers: Handlers) returns (b: Clock)
    requires CheckIfDue(c.(mode := IdleMode), true, handlers).1
    ensures c.queue != [] && b.queue == c.queue && b.mode == IdleMode && b.total == Advanced(c, c.queue[0].key).total && c.queue[0].key <= b.total
    ensures !(|c.queue| == 1 && c.queue[0].item.kind == TimerInt)
    ensures CheckIfDue(c.(mode := IdleMode), true, handlers).0 == Fire(b.(queue := b.queue[1..]), b.queue[0], handlers)
  {
    b := Advanced(c.(mode := IdleMode), c.queue[0].key);
    assert Advanced(c.(mode := IdleMode, queue := c.queue[1..]), c.queue[0].key) == b.(queue := b.queue[1..]);
  }

  lemma FireKeeps(c: Clock, e: Elem<Pending>, handlers: Handlers)
    ensures Fire(c, e, handlers).mode == c.mode && Fire(c, e, handlers).total == c.total
  {
    ScheduleLater(c.(fired := c.fired + [Firing(e.item.id, e.key, c.total)]), handlers(e.item.id));
  }

  /** An instance: a device and a timer due at one time, nobody to run. The device's handler runs, and the timer, now
      alone, stays in the queue although it is due. */
  lemma LoneTimerStays(c: Clock, handlers: Handlers)
    requires |c.queue| == 2 && c.queue[0].item.kind != TimerInt && c.queue[1].item.kind == TimerInt
    requires c.queue[1].key <= Advanced(c, c.queue[0].key).total && handlers(c.queue[0].item.id) == []
    ensures var d := Idle(c, handlers);
            && d.Some? && d.value.queue == [c.queue[1]] && d.value.queue[0].key <= d.value.total && d.value.mode == SystemMode
            && d.value.fired == c.fired + [Firing(c.queue[0].item.id, c.queue[0].key, d.value.total)]
  {
    var i := c.(mode := IdleMode);
    var e, timer := c.queue[0], c.queue[1];
    var d := Advanced(i, e.key).(queue := [timer], fired := c.fired + [Firing(e.item.id, e.key, Advanced(i, e.key).total)]);
    assert c.queue[1..] == [timer];
    assert CheckIfDue(i, true, handlers) == (d, true);
    LoneTimer(d, timer, handlers);
  }

  lemma LoneTimer(d: Clock, timer: Elem<Pending>, handlers: Handlers)
    requires d.mode == IdleMode && d.queue == [timer] && timer.item.kind == TimerInt && timer.key <= d.total
    ensures Drain(d, handlers) == d
  {
    assert d.queue[1..] == [] && Inserted(d.queue[1..], timer) == [timer];
  }
}
