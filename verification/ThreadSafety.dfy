/**
 What every schedule keeps: each thread in exactly one place, ownership handed over with the lock, no wakeup lost.
 */
module ThreadSafety {
  import opened Options
  import opened Threads
  import opened Counting

  // ---------------------------------------------------------------- each thread in exactly one place

  /** The queue lists exactly the threads at that place, each once. */
  ghost predicate Lists(threads: seq<Thread>, q: seq<int>, p: Place) {
    Distinct(q) && forall t :: t in q <==> 0 <= t < |threads| && PlaceOf(threads[t]) == p
  }

  ghost predicate Placed(k: Kernel) {
    forall p :: p != Nowhere && Exists(k, p) ==> Lists(k.threads, QueueAt(k, p), p)
  }

  lemma JoinedList(threads: seq<Thread>, q: seq<int>, t: int, x: Thread, p: Place)
    requires Lists(threads, q, p) && 0 <= t < |threads| && PlaceOf(threads[t]) != p && PlaceOf(x) == p
    ensures Lists(threads[t := x], q + [t], p)
  {
  }

  lemma LeftList(threads: seq<Thread>, q: seq<int>, t: int, x: Thread, p: Place)
    requires Lists(threads, q, p) && 0 <= t < |threads| && q != [] && q[0] == t && PlaceOf(x) != p
    ensures Lists(threads[t := x], q[1..], p)
  {
    assert forall u :: u in q <==> u == t || u in q[1..];
    assert t !in q[1..];
  }

  lemma OtherList(threads: seq<Thread>, q: seq<int>, t: int, x: Thread, p: Place)
    requires Lists(threads, q, p) && 0 <= t < |threads| && PlaceOf(threads[t]) != p && PlaceOf(x) != p
    ensures Lists(threads[t := x], q, p)
  {
  }

  lemma QueueJoined(k: Kernel, t: int, to: Place, p: Place)
    requires Exists(k, to) && Exists(k, p) && (to == Cpu ==> k.current == None) && p != Nowhere
    ensures Exists(Join(k, to, t), p) && QueueAt(Join(k, to, t), p) == QueueAt(k, p) + if p == to then [t] else []
  {
  }

  lemma QueueLeft(k: Kernel, from: Place, p: Place)
    requires Exists(k, from) && Exists(k, p) && (from != Nowhere ==> QueueAt(k, from) != []) && p != Nowhere
    ensures Exists(Leave(k, from), p) && QueueAt(Leave(k, from), p) == if p == from then QueueAt(k, p)[1..] else QueueAt(k, p)
  {
  }

  lemma QueueMoved(k: Kernel, t: int, from: Place, to: Place, x: Thread, p: Place)
    requires CanMove(k, t, from, to) && Exists(k, p) && p != Nowhere
    ensures Exists(Move(k, t, from, to, x), p)
    ensures QueueAt(Move(k, t, from, to, x), p) ==
            if p == to then QueueAt(k, p) + [t] else if p == from then QueueAt(k, p)[1..] else QueueAt(k, p)
  {
    QueueLeft(k, from, p);
    var left := Leave(k, from).(threads := k.threads[t := x]);
    assert QueueAt(left, p) == QueueAt(Leave(k, from), p);
    assert Exists(left, to) by { assert Exists(k, to); }
    QueueJoined(left, t, to, p);
  }

  lemma MovePlaced(k: Kernel, t: int, from: Place, to: Place, x: Thread)
    requires Placed(k) && CanMove(k, t, from, to) && PlaceOf(k.threads[t]) == from && PlaceOf(x) == to
    ensures Placed(Move(k, t, from, to, x))
  {
    var m := Move(k, t, from, to, x);
    forall p | p != Nowhere && Exists(m, p) ensures Lists(m.threads, QueueAt(m, p), p) {
      assert Exists(k, p);
      QueueMoved(k, t, from, to, x, p);
      if p == to { JoinedList(k.threads, QueueAt(k, p), t, x, p); }
      else if p == from { LeftList(k.threads, QueueAt(k, p), t, x, p); }
      else { OtherList(k.threads, QueueAt(k, p), t, x, p); }
    }
  }

  /** Nothing moves. */
  ghost predicate SamePlaces(k: Kernel, m: Kernel) {
    && |m.threads| == |k.threads| && (forall t :: 0 <= t < |k.threads| ==> PlaceOf(m.threads[t]) == PlaceOf(k.threads[t]))
    && m.current == k.current && m.ready == k.ready && SameQueues(k, m)
  }

  ghost predicate SameQueues(k: Kernel, m: Kernel) {
    && |m.locks| == |k.locks| && (forall l :: 0 <= l < |k.locks| ==> m.locks[l].queue == k.locks[l].queue)
    && |m.sems| == |k.sems| && (forall s :: 0 <= s < |k.sems| ==> m.sems[s].queue == k.sems[s].queue)
    && |m.conds| == |k.conds| && (forall c :: 0 <= c < |k.conds| ==> m.conds[c].queue == k.conds[c].queue)
  }

  lemma StayPlaced(k: Kernel, m: Kernel)
    requires Placed(k) && SamePlaces(k, m)
    ensures Placed(m)
  {
    forall p | p != Nowhere && Exists(m, p) ensures Lists(m.threads, QueueAt(m, p), p) {
      assert Exists(k, p) && QueueAt(m, p) == QueueAt(k, p);
      assert Lists(k.threads, QueueAt(k, p), p);
    }
  }

  // ---------------------------------------------------------------- threads, locks, semaphores, conditions

  ghost predicate ThreadOk(k: Kernel, x: Thread) {
    ResumeOk(k, x.resume) && (x.status.Blocked? ==> !InterruptsOn(x)) && (x.status.JustCreated? ==> x.resume.Go?)
  }

  ghost predicate ThreadsOk(k: Kernel) { forall t :: 0 <= t < |k.threads| ==> ThreadOk(k, k.threads[t]) }

  /** Free exactly when nobody owns it, and then nobody waits; who waited is served in order of arrival. */
  ghost predicate LockOk(lock: Lock) {
    && (lock.busy <==> lock.owner.Some?) && (!lock.busy ==> lock.queue == []) && lock.arrived == lock.granted + lock.queue
  }

  ghost predicate LocksOk(k: Kernel) { forall l :: 0 <= l < |k.locks| ==> LockOk(k.locks[l]) }

  predicate Awake(x: Thread) { x.status.Ready? || x.status.Running? }

  /** A thread that has been woken inside Acquire already owns the lock. */
  ghost predicate HandedOver(k: Kernel) {
    forall t :: 0 <= t < |k.threads| && Awake(k.threads[t]) && k.threads[t].resume.InAcquire? ==>
      var l := k.threads[t].resume.lock;
      LockIndex(k, l) && k.locks[l].owner == Some(t)
  }

  /** How many threads have been woken from the semaphore and have not looked at it again. */
  function Woken(threads: seq<Thread>, s: int): nat {
    if threads == [] then 0
    else Woken(threads[..|threads| - 1], s) + if IsWoken(threads[|threads| - 1], s) then 1 else 0
  }

  predicate IsWoken(x: Thread, s: int) { Awake(x) && x.resume == InP(s) }

  lemma {:induction false} WokenUpdate(threads: seq<Thread>, t: int, x: Thread, s: int)
    requires 0 <= t < |threads|
    ensures Woken(threads[t := x], s) ==
            Woken(threads, s) + (if IsWoken(x, s) then 1 else 0) - (if IsWoken(threads[t], s) then 1 else 0)
  {
    var n := |threads| - 1;
    if t < n {
      WokenUpdate(threads[..n], t, x, s);
      assert threads[t := x][..n] == threads[..n][t := x];
    } else {
      assert threads[t := x][..n] == threads[..n];
    }
  }

  /** The value counts; while threads sleep, it is no more than the number of woken threads still to look. */
  ghost predicate SemOk(sem: Semaphore, woken: nat) {
    && sem.value == sem.initial + sem.ups - sem.downs && 0 <= sem.value
    && (sem.queue != [] ==> sem.value <= woken)
  }

  ghost predicate SemsOk(k: Kernel) { forall s :: 0 <= s < |k.sems| ==> SemOk(k.sems[s], Woken(k.threads, s)) }

  /** No lock is recorded exactly when nobody waits; all who wait do so with the recorded lock. */
  ghost predicate CondOk(cond: Condition) { cond.waitingLock == None <==> cond.queue == [] }

  ghost predicate CondsOk(k: Kernel) {
    && (forall c :: 0 <= c < |k.conds| ==> CondOk(k.conds[c]))
    && (forall t :: 0 <= t < |k.threads| && k.threads[t].status.Blocked? && k.threads[t].resume.InWait? ==>
          var r := k.threads[t].resume;
          0 <= r.cond < |k.conds| && k.conds[r.cond].waitingLock == Some(r.lock))
  }

  /** The invariant of the thread system. */
  ghost predicate Safe(k: Kernel) {
    Placed(k) && ThreadsOk(k) && LocksOk(k) && HandedOver(k) && SemsOk(k) && CondsOk(k)
  }

  lemma SafeSane(k: Kernel)
    requires Placed(k) && ThreadsOk(k)
    ensures Sane(k) && (forall t :: k.current == Some(t) ==> 0 <= t < |k.threads| && k.threads[t].status.Running?)
  {
    forall p | Exists(k, p) && QueueAt(k, p) != [] ensures 0 <= QueueAt(k, p)[0] < |k.threads| {
      assert Lists(k.threads, QueueAt(k, p), p) && QueueAt(k, p)[0] in QueueAt(k, p);
    }
    assert Lists(k.threads, QueueAt(k, Cpu), Cpu);
    forall t | k.current == Some(t) ensures 0 <= t < |k.threads| && k.threads[t].status.Running? {
      assert t in QueueAt(k, Cpu);
      assert PlaceOf(k.threads[t]) == Cpu;
    }
  }

  lemma HeadIs(k: Kernel, p: Place)
    requires Placed(k) && Exists(k, p) && QueueAt(k, p) != []
    ensures 0 <= QueueAt(k, p)[0] < |k.threads| && PlaceOf(k.threads[QueueAt(k, p)[0]]) == p
  {
    assert p != Nowhere;
    assert Lists(k.threads, QueueAt(k, p), p) && QueueAt(k, p)[0] in QueueAt(k, p);
  }

  /** Being woken and sleeping change places; nothing else. */
  lemma WakePlaced(k: Kernel, p: Place)
    requires Placed(k) && Exists(k, p) && p != Nowhere && p != Cpu && p != ReadyList && QueueAt(k, p) != []
    ensures 0 <= QueueAt(k, p)[0] < |k.threads| && Placed(WakeFirst(k, p))
  {
    HeadIs(k, p);
    var t := QueueAt(k, p)[0];
    MovePlaced(k, t, p, ReadyList, k.threads[t].(status := Ready));
  }

  lemma CurrentPlace(k: Kernel, t: int)
    requires Placed(k) && k.current == Some(t)
    ensures 0 <= t < |k.threads| && PlaceOf(k.threads[t]) == Cpu && k.threads[t].status.Running?
  {
    assert QueueAt(k, Cpu) == [t];
    HeadIs(k, Cpu);
  }

  lemma SleepPlaced(k: Kernel, p: Place, resume: Resume)
    requires Placed(k) && k.current.Some? && Exists(k, p) && PlaceOf(Thread(Blocked, resume)) == p && p != Nowhere
    ensures 0 <= k.current.value < |k.threads| && p != Cpu && Placed(SleepAt(k, p, resume))
  {
    CurrentPlace(k, k.current.value);
    MovePlaced(k, k.current.value, Cpu, p, Thread(Blocked, resume));
  }

  // ---------------------------------------------------------------- locks

  lemma OwnerSet(k: Kernel, l: int, busy: bool, owner: Option<int>)
    requires Placed(k) && LockIndex(k, l)
    ensures Placed(SetOwner(k, l, busy, owner))
  {
    StayPlaced(k, SetOwner(k, l, busy, owner));
  }

  /** The semaphores and conditions see no difference. */
  ghost predicate SameRest(k: Kernel, m: Kernel) { m.sems == k.sems && m.conds == k.conds && |m.locks| == |k.locks| && |m.threads| == |k.threads| }

  /** One thread changed, and it was not and is not woken from a semaphore, nor blocked in a wait. */
  ghost predicate Changed(k: Kernel, m: Kernel, t: int, x: Thread) {
    0 <= t < |k.threads| && m.threads == k.threads[t := x]
  }

  lemma CondsKept(k: Kernel, m: Kernel, t: int, x: Thread)
    requires CondsOk(k) && SameRest(k, m) && Changed(k, m, t, x) && !(x.status.Blocked? && x.resume.InWait?)
    ensures CondsOk(m)
  {
  }

  lemma AcquireSafe(k: Kernel, t: int, l: int)
    requires Safe(k) && k.current == Some(t) && 0 <= t < |k.threads| && k.threads[t].resume.Go? && LockIndex(k, l)
    ensures Safe(Acquire(k, t, l))
    ensures Acquire(k, t, l).current == Some(t) ==> Acquire(k, t, l).locks[l].owner == Some(t)
    ensures Acquire(k, t, l).current != Some(t) ==> Acquire(k, t, l).threads[t] == Thread(Blocked, InAcquire(l))
  {
    CurrentPlace(k, t);
    var m := Acquire(k, t, l);
    if k.locks[l].owner == Some(t) {
    } else if !k.locks[l].busy {
      OwnerSet(k, l, true, Some(t));
      assert Changed(k, m, t, k.threads[t]);
      FreeHandedOver(k, m, l);
    } else {
      SleepPlaced(k, AtLock(l), InAcquire(l));
      SemsSame(k, m, t, Thread(Blocked, InAcquire(l)));
      CondsKept(k, m, t, Thread(Blocked, InAcquire(l)));
      assert m.locks[l].arrived == m.locks[l].granted + m.locks[l].queue;
    }
  }

  lemma FreeHandedOver(k: Kernel, m: Kernel, l: int)
    requires HandedOver(k) && LocksOk(k) && LockIndex(k, l) && k.locks[l].owner == None && m.threads == k.threads
    requires |m.locks| == |k.locks| && forall i :: 0 <= i < |k.locks| && i != l ==> m.locks[i] == k.locks[i]
    ensures HandedOver(m)
  {
  }

  /** The releasing thread is in its own code, so nobody else was being handed the lock. */
  lemma ReleaseSafe(k: Kernel, t: int, l: int)
    requires Safe(k) && k.current == Some(t) && 0 <= t < |k.threads| && k.threads[t].resume.Go? && LockIndex(k, l)
    requires k.locks[l].queue != [] ==> 0 <= k.locks[l].queue[0] < |k.threads|
    ensures Safe(Release(k, t, l)) && Release(k, t, l).current == Some(t) && Release(k, t, l).threads[t] == k.threads[t]
  {
    CurrentPlace(k, t);
    var m := Release(k, t, l);
    if k.locks[l].owner == Some(t) {
      if k.locks[l].queue != [] {
        PassOn(k, t, l);
      } else {
        OwnerSet(k, l, false, None);
        assert Changed(k, m, t, k.threads[t]);
        assert m.threads == k.threads;
      }
    }
  }

  lemma PassOn(k: Kernel, t: int, l: int)
    requires Safe(k) && k.current == Some(t) && 0 <= t < |k.threads| && k.threads[t].resume.Go? && LockIndex(k, l)
    requires k.locks[l].owner == Some(t) && k.locks[l].queue != [] && 0 <= k.locks[l].queue[0] < |k.threads| && k.threads[t].status.Running?
    ensures Safe(Release(k, t, l)) && Release(k, t, l).current == Some(t) && Release(k, t, l).threads[t] == k.threads[t]
  {
    var u := k.locks[l].queue[0];
    var o := SetOwner(k, l, true, Some(u));
    OwnerSet(k, l, true, Some(u));
    WakePlaced(o, AtLock(l));
    HeadIs(k, AtLock(l));
    assert k.threads[u] == Thread(Blocked, InAcquire(l));
    var m := WakeFirst(o, AtLock(l));
    assert Changed(k, m, u, Thread(Ready, InAcquire(l)));
    SemsSame(k, m, u, Thread(Ready, InAcquire(l)));
    CondsKept(k, m, u, Thread(Ready, InAcquire(l)));
    assert m.locks[l] == k.locks[l].(owner := Some(u), busy := true, queue := k.locks[l].queue[1..], granted := k.locks[l].granted + [u]);
    assert m.locks[l].arrived == m.locks[l].granted + m.locks[l].queue;
  }

  // ---------------------------------------------------------------- semaphores

  lemma PSafe(k: Kernel, t: int, s: int)
    requires Safe(k) && k.current == Some(t) && 0 <= t < |k.threads| && 0 <= s < |k.sems|
    requires k.threads[t].resume.Go? || k.threads[t].resume == InP(s)
    ensures Safe(P(k, t, s))
  {
    CurrentPlace(k, t);
    var m := P(k, t, s);
    if k.sems[s].value == 0 {
      SleepPlaced(k, AtSem(s), InP(s));
      var x := Thread(Blocked, InP(s));
      forall i | 0 <= i < |m.sems| ensures SemOk(m.sems[i], Woken(m.threads, i)) { WokenUpdate(k.threads, t, x, i); }
    } else {
      StayPlaced(k, m);
      var x := Thread(Running, Go);
      assert m.threads == k.threads[t := x];
      forall i | 0 <= i < |m.sems| ensures SemOk(m.sems[i], Woken(m.threads, i)) { WokenUpdate(k.threads, t, x, i); }
    }
  }

  lemma VSafe(k: Kernel, s: int)
    requires Safe(k) && 0 <= s < |k.sems| && (k.sems[s].queue != [] ==> 0 <= k.sems[s].queue[0] < |k.threads|)
    ensures Safe(V(k, s))
  {
    var m := V(k, s);
    if k.sems[s].queue != [] {
      WakePlaced(k, AtSem(s));
      HeadIs(k, AtSem(s));
      var u := k.sems[s].queue[0];
      var x := Thread(Ready, InP(s));
      assert k.threads[u] == Thread(Blocked, InP(s)) && m.threads == k.threads[u := x];
      StayPlaced(WakeFirst(k, AtSem(s)), m);
      forall i | 0 <= i < |m.sems| ensures SemOk(m.sems[i], Woken(m.threads, i)) { WokenUpdate(k.threads, u, x, i); }
    } else {
      StayPlaced(k, m);
    }
  }

  // ---------------------------------------------------------------- conditions

  lemma SignalSafe(k: Kernel, c: int, lock: Option<int>)
    requires Safe(k) && 0 <= c < |k.conds| && (k.conds[c].queue != [] ==> 0 <= k.conds[c].queue[0] < |k.threads|)
    ensures Safe(Signal(k, c, lock))
  {
    if lock != None && k.conds[c].queue != [] && lock == k.conds[c].waitingLock {
      var u := k.conds[c].queue[0];
      WakePlaced(k, AtCond(c));
      HeadIs(k, AtCond(c));
      var w := WakeFirst(k, AtCond(c));
      var m := Signal(k, c, lock);
      var x := k.threads[u].(status := Ready);
      assert m.threads == k.threads[u := x];
      StayPlaced(w, m);
      SemsSame(k, m, u, x);
      SignalConds(k, m, c);
    }
  }

  /** When the last waiter leaves, the recorded lock goes; nobody who still waits is left without one. */
  lemma SignalConds(k: Kernel, m: Kernel, c: int)
    requires Safe(k) && 0 <= c < |k.conds| && k.conds[c].queue != [] && 0 <= k.conds[c].queue[0] < |k.threads| && Placed(m)
    requires m == Signal(k, c, k.conds[c].waitingLock) && k.conds[c].waitingLock != None
    ensures CondsOk(m)
  {
    var u := k.conds[c].queue[0];
    HeadIs(k, AtCond(c));
    forall t | 0 <= t < |m.threads| && m.threads[t].status.Blocked? && m.threads[t].resume.InWait?
      ensures m.conds[m.threads[t].resume.cond].waitingLock == Some(m.threads[t].resume.lock)
    {
      var r := m.threads[t].resume;
      assert t != u && m.threads[t] == k.threads[t];
      assert Lists(m.threads, QueueAt(m, AtCond(r.cond)), AtCond(r.cond));
      assert t in m.conds[r.cond].queue;
    }
  }

  /** The thread joins the condition with the lock already released. */
  lemma SleepInWait(k: Kernel, t: int, c: int, l: int)
    requires Safe(k) && k.current == Some(t) && 0 <= t < |k.threads| && k.threads[t].resume.Go? && CondIndex(k, c, Some(l))
    requires k.conds[c].waitingLock == None || k.conds[c].waitingLock == Some(l)
    ensures Safe(SleepAt(SetWaitingLock(k, c, Some(l)), AtCond(c), InWait(c, l)))
  {
    CurrentPlace(k, t);
    var b, x := SetWaitingLock(k, c, Some(l)), Thread(Blocked, InWait(c, l));
    StayPlaced(k, b);
    SleepPlaced(b, AtCond(c), InWait(c, l));
    var m := SleepAt(b, AtCond(c), InWait(c, l));
    SemsSame(k, m, t, x);
    SleepConds(k, m, t, c, l);
  }

  lemma SemsSame(k: Kernel, m: Kernel, t: int, x: Thread)
    requires SemsOk(k) && m.sems == k.sems && Changed(k, m, t, x)
    requires forall s :: !IsWoken(x, s) && !IsWoken(k.threads[t], s)
    ensures SemsOk(m)
  {
    forall s | 0 <= s < |m.sems| ensures SemOk(m.sems[s], Woken(m.threads, s)) { WokenUpdate(k.threads, t, x, s); }
  }

  lemma SleepConds(k: Kernel, m: Kernel, t: int, c: int, l: int)
    requires Placed(k) && CondsOk(k) && 0 <= t < |k.threads| && 0 <= c < |k.conds|
    requires k.conds[c].waitingLock == None || k.conds[c].waitingLock == Some(l)
    requires m.threads == k.threads[t := Thread(Blocked, InWait(c, l))] && m.conds == k.conds[c := Condition(Some(l), k.conds[c].queue + [t])]
    ensures CondsOk(m)
  {
    if k.conds[c].waitingLock == None { NoWaiterElse(k, c); }
  }

  lemma WaitSafe(k: Kernel, t: int, c: int, lock: Option<int>)
    requires Safe(k) && k.current == Some(t) && 0 <= t < |k.threads| && k.threads[t].resume.Go? && CondIndex(k, c, lock)
    requires lock.Some? && k.locks[lock.value].queue != [] ==> 0 <= k.locks[lock.value].queue[0] < |k.threads|
    ensures Safe(Wait(k, t, c, lock))
  {
    if lock != None && (k.conds[c].waitingLock == None || k.conds[c].waitingLock == lock) {
      ReleaseSafe(k, t, lock.value);
      ReleaseCommutes(k, t, lock.value, c, lock);
      SleepInWait(Release(k, t, lock.value), t, c, lock.value);
    }
  }

  lemma ReleaseCommutes(k: Kernel, t: int, l: int, c: int, lock: Option<int>)
    requires LockIndex(k, l) && (k.locks[l].queue != [] ==> 0 <= k.locks[l].queue[0] < |k.threads|) && 0 <= c < |k.conds|
    ensures Release(SetWaitingLock(k, c, lock), t, l) == SetWaitingLock(Release(k, t, l), c, lock)
    ensures Release(k, t, l).conds == k.conds
  {
  }

  /** With no lock recorded, nobody waits. */
  lemma NoWaiterElse(k: Kernel, c: int)
    requires Placed(k) && CondsOk(k) && 0 <= c < |k.conds| && k.conds[c].waitingLock == None
    ensures forall t :: 0 <= t < |k.threads| && k.threads[t].status.Blocked? && k.threads[t].resume.InWait? ==> k.threads[t].resume.cond != c
  {
  }

  // ---------------------------------------------------------------- the other steps

  /** A thread changes only in ways that do not touch locks, semaphores or conditions. */
  lemma MoveSafe(k: Kernel, t: int, from: Place, to: Place, x: Thread)
    requires Safe(k) && CanMove(k, t, from, to) && PlaceOf(k.threads[t]) == from && PlaceOf(x) == to && x.resume == k.threads[t].resume
    requires (from == Cpu || from == ReadyList || from == Nowhere) && (to == Cpu || to == ReadyList || to == Nowhere)
    requires from == Nowhere ==> x.resume.Go?
    requires to == Nowhere ==> x.resume.Go? && x.status.Dead?
    ensures Safe(Move(k, t, from, to, x))
  {
    MovePlaced(k, t, from, to, x);
    var m := Move(k, t, from, to, x);
    forall s | 0 <= s < |m.sems| ensures SemOk(m.sems[s], Woken(m.threads, s)) { WokenUpdate(k.threads, t, x, s); }
  }

  /** Passing between user code and the loop of Broadcast, or leaving Acquire. */
  lemma ResumeSafe(k: Kernel, t: int, resume: Resume)
    requires Safe(k) && k.current == Some(t) && 0 <= t < |k.threads| && !k.threads[t].resume.InP?
    requires ResumeOk(k, resume) && (resume.Go? || resume.InBroadcast?)
    ensures Safe(SetResume(k, t, resume))
  {
    CurrentPlace(k, t);
    var m := SetResume(k, t, resume);
    StayPlaced(k, m);
    SemsSame(k, m, t, Thread(Running, resume));
  }

  lemma ContinueSafe(k: Kernel, t: int)
    requires Safe(k) && k.current == Some(t) && 0 <= t < |k.threads| && ResumeOk(k, k.threads[t].resume)
    ensures Safe(Continue(k, t))
  {
    CurrentPlace(k, t);
    match k.threads[t].resume
    case InAcquire(l) => ResumeSafe(k, t, Go);
    case InP(s) => PSafe(k, t, s);
    case InWait(c, l) =>
      ResumeSafe(k, t, Go);
      AcquireSafe(SetResume(k, t, Go), t, l);
    case Go =>
    case InBroadcast(_, _) =>
  }

  lemma DispatchSafe(k: Kernel)
    requires Safe(k) && k.current == None && k.ready != []
    ensures 0 <= k.ready[0] < |k.threads| && Safe(Move(k, k.ready[0], ReadyList, Cpu, k.threads[k.ready[0]].(status := Running)))
  {
    assert QueueAt(k, ReadyList) == k.ready;
    HeadIs(k, ReadyList);
    MoveSafe(k, k.ready[0], ReadyList, Cpu, k.threads[k.ready[0]].(status := Running));
  }

  lemma YieldSafe(k: Kernel, t: int)
    requires Safe(k) && k.current == Some(t) && 0 <= t < |k.threads| && HeadsOk(k)
    ensures Safe(Yield(k, t))
  {
    if k.ready != [] {
      CurrentPlace(k, t);
      assert QueueAt(k, Cpu) == [t];
      MoveSafe(k, t, Cpu, ReadyList, k.threads[t].(status := Ready));
      var parted := Move(k, t, Cpu, ReadyList, k.threads[t].(status := Ready));
      assert parted.ready == k.ready + [t];
      DispatchSafe(parted);
    }
  }

  lemma BroadcastSafe(k: Kernel, t: int, c: int, lock: Option<int>)
    requires Safe(k) && k.current == Some(t) && 0 <= t < |k.threads| && CondIndex(k, c, lock) && k.threads[t].resume.Go?
    ensures Safe(Broadcast(k, t, c, lock))
  {
    if lock != None && lock == k.conds[c].waitingLock { ResumeSafe(k, t, InBroadcast(c, lock.value)); }
  }

  lemma BroadcastTurnSafe(k: Kernel, t: int, c: int, l: int)
    requires Safe(k) && k.current == Some(t) && 0 <= t < |k.threads| && k.threads[t].resume == InBroadcast(c, l) && 0 <= c < |k.conds|
    requires k.conds[c].queue != [] ==> 0 <= k.conds[c].queue[0] < |k.threads|
    ensures Safe(BroadcastTurn(k, t, c, l))
  {
    if k.conds[c].queue == [] { ResumeSafe(k, t, Go); } else { SignalSafe(k, c, Some(l)); }
  }

  // ---------------------------------------------------------------- every run

  lemma StepSafe(k: Kernel, e: Event)
    requires Safe(k) && Sane(k) && Enabled(k, e)
    ensures Safe(Step(k, e))
  {
    if e.Dispatch? {
      DispatchSafe(k);
    } else if e.Interrupt? {
      HeadOk(k, AtSem(e.s));
      VSafe(k, e.s);
    } else {
      ThreadStepSafe(k, e, k.current.value);
    }
  }

  lemma ThreadStepSafe(k: Kernel, e: Event, t: int)
    requires Safe(k) && Sane(k) && Enabled(k, e) && !e.Dispatch? && !e.Interrupt? && k.current == Some(t)
    ensures Safe(Step(k, e))
  {
    CurrentPlace(k, t);
    match e
    case Fork(u) => MoveSafe(k, u, Nowhere, ReadyList, k.threads[u].(status := Ready));
    case AcquireLock(l) => AcquireSafe(k, t, l);
    case ReleaseLock(l) =>
      HeadOk(k, AtLock(l));
      ReleaseSafe(k, t, l);
    case Down(s) => PSafe(k, t, s);
    case Up(s) =>
      HeadOk(k, AtSem(s));
      VSafe(k, s);
    case WaitOn(c, l) =>
      HeadOk(k, if l.Some? then AtLock(l.value) else Nowhere);
      WaitSafe(k, t, c, l);
    case SignalOn(c, l) =>
      HeadOk(k, AtCond(c));
      SignalSafe(k, c, l);
    case BroadcastOn(c, l) => BroadcastSafe(k, t, c, l);
    case BroadcastMore =>
      HeadOk(k, AtCond(k.threads[t].resume.cond));
      BroadcastTurnSafe(k, t, k.threads[t].resume.cond, k.threads[t].resume.lock);
    case Return => ContinueSafe(k, t);
    case YieldCpu => YieldSafe(k, t);
    case Finish => MoveSafe(k, t, Cpu, Nowhere, k.threads[t].(status := Dead));
  }

  /** One running thread, the others not started; locks free, nobody waiting. */
  ghost predicate Initial(k: Kernel) {
    && k.current == Some(0) && k.ready == [] && |k.threads| > 0 && k.threads[0] == Thread(Running, Go)
    && (forall t :: 0 < t < |k.threads| ==> k.threads[t] == Thread(JustCreated, Go))
    && (forall l :: 0 <= l < |k.locks| ==> k.locks[l] == Lock(false, None, [], [], []))
    && (forall s :: 0 <= s < |k.sems| ==> k.sems[s].value == k.sems[s].initial >= 0 && k.sems[s].ups == k.sems[s].downs == 0 && k.sems[s].queue == [])
    && (forall c :: 0 <= c < |k.conds| ==> k.conds[c] == Condition(None, []))
  }

  lemma InitialSafe(k: Kernel)
    requires Initial(k)
    ensures Safe(k)
  {
    forall p | p != Nowhere && Exists(k, p) ensures Lists(k.threads, QueueAt(k, p), p) {
      assert QueueAt(k, p) == if p == Cpu then [0] else [];
    }
  }

  /** The events are possible one after the other and lead from k to m. */
  ghost predicate Runs(k: Kernel, events: seq<Event>, m: Kernel)
    decreases |events|
  {
    if events == [] then m == k
    else Sane(k) && Enabled(k, events[0]) && Runs(Step(k, events[0]), events[1..], m)
  }

  /** Every state that any schedule reaches is safe. */
  lemma {:induction false} AlwaysSafe(k: Kernel, events: seq<Event>, m: Kernel)
    requires Safe(k) && Runs(k, events, m)
    ensures Safe(m)
    decreases |events|
  {
    if events != [] {
      StepSafe(k, events[0]);
      AlwaysSafe(Step(k, events[0]), events[1..], m);
    }
  }

  // ---------------------------------------------------------------- what safety means

  ghost predicate IsAt(k: Kernel, t: int, p: Place) { Exists(k, p) && t in QueueAt(k, p) }

  /** Every started, unfinished thread is running, on the ready list or in one wait queue, and in one of these only. */
  lemma OnePlace(k: Kernel, t: int)
    requires Safe(k) && 0 <= t < |k.threads| && !k.threads[t].status.JustCreated? && !k.threads[t].status.Dead?
    ensures IsAt(k, t, PlaceOf(k.threads[t])) && forall p :: IsAt(k, t, p) ==> p == PlaceOf(k.threads[t])
  {
    var p := PlaceOf(k.threads[t]);
    assert ThreadOk(k, k.threads[t]);
    assert Lists(k.threads, QueueAt(k, p), p);
    forall q | IsAt(k, t, q) ensures q == p {
      assert q != Nowhere;
      assert Lists(k.threads, QueueAt(k, q), q);
    }
  }

  /** Back in its own code from Acquire, or from a wait, a thread owns the lock. */
  lemma ReturnsOwner(k: Kernel, e: Event, t: int, l: int)
    requires Safe(k) && Sane(k) && Enabled(k, e) && k.current == Some(t)
    requires e == AcquireLock(l) || (e == Return && (k.threads[t].resume == InAcquire(l) || exists c :: k.threads[t].resume == InWait(c, l)))
    ensures var m := Step(k, e);
            && LockIndex(m, l) && m.threads[t] == (if m.current == Some(t) then Thread(Running, Go) else Thread(Blocked, InAcquire(l)))
            && (m.current == Some(t) ==> m.locks[l].owner == Some(t))
            && (k.locks[l].owner == None || k.locks[l].owner == Some(t) ==> m.current == Some(t))
  {
    CurrentPlace(k, t);
    assert LockOk(k.locks[l]);
    if e == AcquireLock(l) {
      AcquireSafe(k, t, l);
    } else if k.threads[t].resume.InWait? {
      ResumeSafe(k, t, Go);
      AcquireSafe(SetResume(k, t, Go), t, l);
    }
  }

  /** Waiters are granted the lock in the order in which they came. */
  lemma GrantsInOrder(k: Kernel, l: int, i: int)
    requires Safe(k) && LockIndex(k, l) && 0 <= i < |k.locks[l].granted|
    ensures i < |k.locks[l].arrived| && k.locks[l].granted[i] == k.locks[l].arrived[i]
  {
    assert LockOk(k.locks[l]);
  }

  // ---------------------------------------------------------------- who is woken

  /** The first of a queue goes to the end of the ready list, and the queue moves up. */
  ghost predicate FirstWoken(k: Kernel, m: Kernel, p: Place) {
    && Exists(k, p) && Exists(m, p) && QueueAt(k, p) != [] && 0 <= QueueAt(k, p)[0] < |m.threads| == |k.threads|
    && QueueAt(m, p) == QueueAt(k, p)[1..] && m.ready == k.ready + [QueueAt(k, p)[0]]
    && m.threads == k.threads[QueueAt(k, p)[0] := k.threads[QueueAt(k, p)[0]].(status := Ready)]
  }

  /** V, Signal and Release wake the longest waiter if there is one, and nobody else. */
  lemma WakesFirst(k: Kernel, e: Event)
    requires Safe(k) && Sane(k) && Enabled(k, e)
    ensures e.Up? || e.Interrupt? ==> if k.sems[e.s].queue == [] then Step(k, e).ready == k.ready else FirstWoken(k, Step(k, e), AtSem(e.s))
    ensures e.SignalOn? && e.lock.Some? && e.lock == k.conds[e.c].waitingLock ==> FirstWoken(k, Step(k, e), AtCond(e.c))
    ensures e.ReleaseLock? && k.locks[e.l].owner == k.current ==>
              if k.locks[e.l].queue == [] then Step(k, e).ready == k.ready && !Step(k, e).locks[e.l].busy else FirstWoken(k, Step(k, e), AtLock(e.l))
  {
    if e.SignalOn? { assert CondOk(k.conds[e.c]); }
  }

  /** A wait that is not refused ends with the thread asleep on the condition and the lock no longer its own. */
  lemma WaitSleeps(k: Kernel, t: int, c: int, l: int)
    requires Safe(k) && Sane(k) && k.current == Some(t) && Enabled(k, WaitOn(c, Some(l)))
    requires k.conds[c].waitingLock == None || k.conds[c].waitingLock == Some(l)
    ensures var m := Step(k, WaitOn(c, Some(l)));
            && |m.threads| == |k.threads| && |m.conds| == |k.conds| && |m.locks| == |k.locks|
            && m.current == None && m.threads[t] == Thread(Blocked, InWait(c, l)) && m.conds[c].queue == k.conds[c].queue + [t]
            && m.locks[l].owner != Some(t) && m.conds[c].waitingLock == Some(l)
  {
    HeadOk(k, AtLock(l));
    ReleaseSafe(k, t, l);
    ReleaseCommutes(k, t, l, c, Some(l));
    ReleaseGives(k, t, l);
  }

  lemma ReleaseGives(k: Kernel, t: int, l: int)
    requires Safe(k) && k.current == Some(t) && 0 <= t < |k.threads| && LockIndex(k, l)
    requires k.locks[l].queue != [] ==> 0 <= k.locks[l].queue[0] < |k.threads|
    ensures Release(k, t, l).locks[l].owner != Some(t)
  {
    CurrentPlace(k, t);
    if k.locks[l].queue != [] { HeadIs(k, AtLock(l)); }
  }
}
