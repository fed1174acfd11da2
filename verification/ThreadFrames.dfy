/**
 What a step leaves alone: seen from one lock, one condition and one semaphore that the step does not name.
 */
module ThreadFrames {
  import opened Options
  import opened Threads
  import opened ThreadSafety

  /** Nothing visible from these changes, except perhaps in thread t. */
  ghost predicate Quiet(k: Kernel, n: Kernel, t: int) {
    && |n.threads| == |k.threads| && |n.locks| == |k.locks| && |n.conds| == |k.conds| && |n.sems| == |k.sems|
    && forall u :: 0 <= u < |k.threads| && u != t ==> n.threads[u].resume == k.threads[u].resume
  }

  ghost predicate OwnersKept(k: Kernel, n: Kernel, but: int)
    requires |n.locks| == |k.locks|
  {
    forall l :: 0 <= l < |k.locks| && l != but ==> n.locks[l].owner == k.locks[l].owner
  }

  ghost predicate CondsUntouched(k: Kernel, n: Kernel, but: int)
    requires |n.conds| == |k.conds|
  {
    forall c :: 0 <= c < |k.conds| && c != but ==> n.conds[c] == k.conds[c]
  }

  ghost predicate SemsUntouched(k: Kernel, n: Kernel, but: int)
    requires |n.sems| == |k.sems|
  {
    forall s :: 0 <= s < |k.sems| && s != but ==> n.sems[s] == k.sems[s]
  }

  lemma WakeFrame(k: Kernel, p: Place)
    requires Exists(k, p) && (p.AtLock? || p.AtSem? || p.AtCond?) && QueueAt(k, p) != [] && 0 <= QueueAt(k, p)[0] < |k.threads|
    ensures var n := WakeFirst(k, p);
            && Quiet(k, n, -1) && OwnersKept(k, n, -1) && CondsUntouched(k, n, if p.AtCond? then p.c else -1)
            && SemsUntouched(k, n, if p.AtSem? then p.s else -1) && n.current == k.current
  {
  }

  lemma SleepFrame(k: Kernel, p: Place, resume: Resume)
    requires Exists(k, p) && (p.AtLock? || p.AtSem? || p.AtCond?) && k.current.Some? && 0 <= k.current.value < |k.threads|
    ensures var n, t := SleepAt(k, p, resume), k.current.value;
            && Quiet(k, n, t) && OwnersKept(k, n, -1) && CondsUntouched(k, n, if p.AtCond? then p.c else -1)
            && SemsUntouched(k, n, if p.AtSem? then p.s else -1) && n.threads[t] == Thread(Blocked, resume)
  {
  }

  lemma AcquireFrame(k: Kernel, t: int, l: int)
    requires Threads.Runs(k, t) && LockIndex(k, l)
    ensures var n := Acquire(k, t, l);
            && Quiet(k, n, t) && OwnersKept(k, n, l) && CondsUntouched(k, n, -1) && SemsUntouched(k, n, -1)
            && (n.threads[t].resume == k.threads[t].resume || n.threads[t].resume == InAcquire(l))
  {
    if k.locks[l].owner != Some(t) && k.locks[l].busy { SleepFrame(k, AtLock(l), InAcquire(l)); }
  }

  lemma ReleaseFrame(k: Kernel, t: int, l: int)
    requires LockIndex(k, l) && (k.locks[l].queue != [] ==> 0 <= k.locks[l].queue[0] < |k.threads|)
    ensures var n := Release(k, t, l);
            && Quiet(k, n, -1) && OwnersKept(k, n, l) && CondsUntouched(k, n, -1) && SemsUntouched(k, n, -1) && n.current == k.current
  {
    if k.locks[l].owner == Some(t) && k.locks[l].queue != [] {
      WakeFrame(SetOwner(k, l, true, Some(k.locks[l].queue[0])), AtLock(l));
    }
  }

  lemma PFrame(k: Kernel, t: int, s: int)
    requires Threads.Runs(k, t) && 0 <= s < |k.sems|
    ensures var n := P(k, t, s);
            && Quiet(k, n, t) && OwnersKept(k, n, -1) && CondsUntouched(k, n, -1) && SemsUntouched(k, n, s)
            && (n.threads[t].resume == Go || n.threads[t].resume == InP(s))
  {
    if k.sems[s].value == 0 { SleepFrame(k, AtSem(s), InP(s)); }
  }

  lemma VFrame(k: Kernel, s: int)
    requires 0 <= s < |k.sems| && (k.sems[s].queue != [] ==> 0 <= k.sems[s].queue[0] < |k.threads|)
    ensures var n := V(k, s);
            && Quiet(k, n, -1) && OwnersKept(k, n, -1) && CondsUntouched(k, n, -1) && SemsUntouched(k, n, s)
  {
    if k.sems[s].queue != [] { WakeFrame(k, AtSem(s)); }
  }

  lemma SignalFrame(k: Kernel, c: int, lock: Option<int>)
    requires 0 <= c < |k.conds| && (k.conds[c].queue != [] ==> 0 <= k.conds[c].queue[0] < |k.threads|)
    ensures var n := Signal(k, c, lock);
            && Quiet(k, n, -1) && OwnersKept(k, n, -1) && CondsUntouched(k, n, c) && SemsUntouched(k, n, -1)
  {
    if k.conds[c].queue != [] { WakeFrame(k, AtCond(c)); }
  }

  lemma WaitFrame(k: Kernel, t: int, c: int, lock: Option<int>)
    requires Threads.Runs(k, t) && 0 <= c < |k.conds| && (lock.Some? ==> LockIndex(k, lock.value))
    requires lock.Some? && k.locks[lock.value].queue != [] ==> 0 <= k.locks[lock.value].queue[0] < |k.threads|
    ensures var n := Wait(k, t, c, lock);
            && Quiet(k, n, t) && OwnersKept(k, n, if lock.Some? then lock.value else -1) && CondsUntouched(k, n, c) && SemsUntouched(k, n, -1)
            && (n.threads[t].resume == k.threads[t].resume || (lock.Some? && n.threads[t].resume == InWait(c, lock.value)))
  {
    if lock != None && (k.conds[c].waitingLock == None || k.conds[c].waitingLock == lock) {
      var b := SetWaitingLock(k, c, lock);
      ReleaseFrame(b, t, lock.value);
      SleepFrame(Release(b, t, lock.value), AtCond(c), InWait(c, lock.value));
    }
  }

  /** Between processor and ready list, only the thread's status changes. */
  lemma MoveFrame(k: Kernel, t: int, from: Place, to: Place, x: Thread)
    requires CanMove(k, t, from, to) && (from == Cpu || from == ReadyList) && (to == Cpu || to == ReadyList)
    ensures var n := Move(k, t, from, to, x);
            && n.threads == k.threads[t := x] && n.locks == k.locks && n.conds == k.conds && n.sems == k.sems
  {
  }

  lemma YieldFrame(k: Kernel, t: int)
    requires Threads.Runs(k, t) && HeadsOk(k)
    ensures var n := Yield(k, t);
            && Quiet(k, n, -1) && OwnersKept(k, n, -1) && CondsUntouched(k, n, -1) && SemsUntouched(k, n, -1)
  {
    if k.ready != [] {
      HeadOk(k, ReadyList);
      MoveFrame(k, t, Cpu, ReadyList, k.threads[t].(status := Ready));
      var parted := Move(k, t, Cpu, ReadyList, k.threads[t].(status := Ready));
      MoveFrame(parted, k.ready[0], ReadyList, Cpu, parted.threads[k.ready[0]].(status := Running));
    }
  }

  // ---------------------------------------------------------------- whole steps

  /** The lock, condition and semaphore that a step of the running thread names; -1 where it names none. */
  function NamedLock(k: Kernel, e: Event): int {
    match e
    case AcquireLock(l) => l
    case ReleaseLock(l) => l
    case WaitOn(c, l) => if l.Some? then l.value else -1
    case _ => -1
  }

  function NamedCond(k: Kernel, e: Event): int {
    match e
    case WaitOn(c, _) => c
    case SignalOn(c, _) => c
    case BroadcastOn(c, _) => c
    case BroadcastMore =>
      if k.current.Some? && 0 <= k.current.value < |k.threads| && k.threads[k.current.value].resume.InBroadcast?
      then k.threads[k.current.value].resume.cond else -1
    case _ => -1
  }

  function NamedSem(e: Event): int {
    match e
    case Down(s) => s
    case Up(s) => s
    case Interrupt(s) => s
    case _ => -1
  }

  /** What a thread is doing after a step of its own, other than a return. */
  ghost predicate ResumeNamed(k: Kernel, e: Event, was: Resume, r: Resume) {
    || r == was || r == Go
    || (e.AcquireLock? && r == InAcquire(e.l))
    || (e.Down? && r == InP(e.s))
    || (e.WaitOn? && e.lock.Some? && r == InWait(e.c, e.lock.value))
    || (e.BroadcastOn? && e.lock.Some? && r == InBroadcast(e.c, e.lock.value))
  }

  /** A step that is not a return changes only what it names, and only its own thread's plans. */
  lemma StepFrame(k: Kernel, e: Event)
    requires Safe(k) && Sane(k) && Enabled(k, e) && !e.Return?
    ensures var n := Step(k, e);
            && Quiet(k, n, if k.current.Some? && !e.Interrupt? then k.current.value else -1)
            && OwnersKept(k, n, NamedLock(k, e)) && CondsUntouched(k, n, NamedCond(k, e)) && SemsUntouched(k, n, NamedSem(e))
            && (k.current.Some? ==> ResumeNamed(k, e, k.threads[k.current.value].resume, n.threads[k.current.value].resume))
  {
    if e.Interrupt? {
      HeadOk(k, AtSem(e.s));
      VFrame(k, e.s);
    } else if k.current.Some? {
      OwnStepFrame(k, e, k.current.value);
    } else {
      HeadOk(k, ReadyList);
      MoveFrame(k, k.ready[0], ReadyList, Cpu, k.threads[k.ready[0]].(status := Running));
    }
  }

  /** The running thread t is about to do e, which is neither a return nor an interrupt. */
  ghost predicate OwnStep(k: Kernel, e: Event, t: int) {
    Safe(k) && Sane(k) && Enabled(k, e) && !e.Return? && !e.Interrupt? && k.current == Some(t)
  }

  ghost predicate OwnFrame(k: Kernel, e: Event, t: int, n: Kernel) {
    && Quiet(k, n, t) && OwnersKept(k, n, NamedLock(k, e)) && CondsUntouched(k, n, NamedCond(k, e)) && SemsUntouched(k, n, NamedSem(e))
    && 0 <= t < |k.threads| && ResumeNamed(k, e, k.threads[t].resume, n.threads[t].resume)
  }

  lemma OwnLockFrame(k: Kernel, e: Event, t: int)
    requires OwnStep(k, e, t) && (e.AcquireLock? || e.ReleaseLock?)
    ensures OwnFrame(k, e, t, Step(k, e))
  {
    CurrentPlace(k, t);
    HeadOk(k, AtLock(e.l));
    if e.AcquireLock? { AcquireFrame(k, t, e.l); } else { ReleaseFrame(k, t, e.l); }
  }

  lemma OwnSemFrame(k: Kernel, e: Event, t: int)
    requires OwnStep(k, e, t) && (e.Down? || e.Up?)
    ensures OwnFrame(k, e, t, Step(k, e))
  {
    CurrentPlace(k, t);
    HeadOk(k, AtSem(e.s));
    if e.Down? { PFrame(k, t, e.s); } else { VFrame(k, e.s); }
  }

  lemma OwnWaitFrame(k: Kernel, e: Event, t: int)
    requires OwnStep(k, e, t) && e.WaitOn?
    ensures OwnFrame(k, e, t, Step(k, e))
  {
    CurrentPlace(k, t);
    HeadOk(k, if e.lock.Some? then AtLock(e.lock.value) else Nowhere);
    WaitFrame(k, t, e.c, e.lock);
  }

  lemma OwnSignalFrame(k: Kernel, e: Event, t: int)
    requires OwnStep(k, e, t) && (e.SignalOn? || e.BroadcastOn? || e.BroadcastMore?)
    ensures OwnFrame(k, e, t, Step(k, e))
  {
    CurrentPlace(k, t);
    if e.SignalOn? {
      HeadOk(k, AtCond(e.c));
      SignalFrame(k, e.c, e.lock);
    } else if e.BroadcastMore? {
      HeadOk(k, AtCond(k.threads[t].resume.cond));
      SignalFrame(k, k.threads[t].resume.cond, Some(k.threads[t].resume.lock));
    }
  }

  lemma OwnYieldFrame(k: Kernel, t: int)
    requires OwnStep(k, YieldCpu, t)
    ensures OwnFrame(k, YieldCpu, t, Step(k, YieldCpu))
  {
    CurrentPlace(k, t);
    YieldFrame(k, t);
  }

  lemma OwnLifeFrame(k: Kernel, e: Event, t: int)
    requires OwnStep(k, e, t) && (e.Fork? || e.Finish? || e.Dispatch?)
    ensures OwnFrame(k, e, t, Step(k, e))
  {
    CurrentPlace(k, t);
  }

  lemma OwnStepFrame(k: Kernel, e: Event, t: int)
    requires OwnStep(k, e, t)
    ensures OwnFrame(k, e, t, Step(k, e))
  {
    if e.AcquireLock? || e.ReleaseLock? { OwnLockFrame(k, e, t); }
    else if e.Down? || e.Up? { OwnSemFrame(k, e, t); }
    else if e.WaitOn? { OwnWaitFrame(k, e, t); }
    else if e.YieldCpu? { OwnYieldFrame(k, t); }
    else if e.SignalOn? || e.BroadcastOn? || e.BroadcastMore? { OwnSignalFrame(k, e, t); }
    else { OwnLifeFrame(k, e, t); }
  }

  /** A return touches the lock of the wait it ends, or the semaphore it looks at. */
  lemma ReturnFrame(k: Kernel, t: int)
    requires Safe(k) && Sane(k) && k.current == Some(t) && Enabled(k, Return)
    ensures var n, r := Step(k, Return), k.threads[t].resume;
            && Quiet(k, n, t) && CondsUntouched(k, n, -1)
            && OwnersKept(k, n, if r.InWait? then r.lock else -1) && SemsUntouched(k, n, if r.InP? then r.sem else -1)
            && (n.threads[t].resume == Go || (r.InP? && n.threads[t].resume == r) || (r.InWait? && n.threads[t].resume == InAcquire(r.lock)))
  {
    CurrentPlace(k, t);
    match k.threads[t].resume
    case InP(s) => PFrame(k, t, s);
    case InWait(c, l) => AcquireFrame(SetResume(k, t, Go), t, l);
    case _ =>
  }

  /** Ownership ends only by the owner's own Release or Wait, and then goes to the longest waiter, if any. */
  lemma OwnershipEnds(k: Kernel, e: Event, l: int, t: int)
    requires Safe(k) && Sane(k) && Enabled(k, e) && LockIndex(k, l) && k.locks[l].owner == Some(t)
    ensures var m := Step(k, e);
            && |m.locks| == |k.locks|
            && (m.locks[l].owner != Some(t) ==>
                  && k.current == Some(t) && (e == ReleaseLock(l) || exists c :: e == WaitOn(c, Some(l)))
                  && m.locks[l].owner == if k.locks[l].queue == [] then None else Some(k.locks[l].queue[0]))
  {
    if e.Return? {
      ReturnFrame(k, k.current.value);
      OwnedLockStays(k, k.current.value, l);
    } else {
      StepFrame(k, e);
      HeadOk(k, AtLock(l));
      assert LockOk(k.locks[l]);
      if e == ReleaseLock(l) { ReleasedOwner(k, k.current.value, l); }
      if e.WaitOn? && e.lock == Some(l) {
        assert e == WaitOn(e.c, Some(l));
        WaitedOwner(k, k.current.value, e.c, l);
      }
    }
  }

  lemma OwnedLockStays(k: Kernel, t: int, l: int)
    requires Safe(k) && Sane(k) && k.current == Some(t) && Enabled(k, Return) && LockIndex(k, l) && k.locks[l].owner.Some?
    ensures Step(k, Return).locks[l].owner == k.locks[l].owner
  {
    ReturnFrame(k, t);
    assert LockOk(k.locks[l]);
  }

  lemma ReleasedOwner(k: Kernel, t: int, l: int)
    requires LockIndex(k, l) && (k.locks[l].queue != [] ==> 0 <= k.locks[l].queue[0] < |k.threads|)
    ensures var o := Release(k, t, l).locks[l].owner;
            o == k.locks[l].owner || (k.locks[l].owner == Some(t) && o == if k.locks[l].queue == [] then None else Some(k.locks[l].queue[0]))
  {
  }

  lemma WaitedOwner(k: Kernel, t: int, c: int, l: int)
    requires Threads.Runs(k, t) && CondIndex(k, c, Some(l)) && (k.locks[l].queue != [] ==> 0 <= k.locks[l].queue[0] < |k.threads|)
    ensures var o := Wait(k, t, c, Some(l)).locks[l].owner;
            o == k.locks[l].owner || (k.locks[l].owner == Some(t) && o == if k.locks[l].queue == [] then None else Some(k.locks[l].queue[0]))
  {
    ReleasedOwner(k, t, l);
    ReleaseCommutes(k, t, l, c, Some(l));
    ReleaseFrame(k, t, l);
  }
}
