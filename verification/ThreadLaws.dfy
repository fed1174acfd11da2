/**
 What each operation of the thread system does to the whole kernel, and what Broadcast does in all its turns.
 */
module ThreadLaws {
  import opened Options
  import opened Threads
  import opened ThreadSafety
  import opened ThreadFrames

  // ---------------------------------------------------------------- the processor

  /** Yield: the thread goes to the end of the ready list and the first of it runs; alone, it just goes on. */
  lemma YieldTurns(k: Kernel, t: int)
    requires Safe(k) && Sane(k) && k.current == Some(t) && Enabled(k, YieldCpu)
    ensures var m := Step(k, YieldCpu);
            if k.ready == [] then m == k
            else && m.current == Some(k.ready[0]) && m.ready == k.ready[1..] + [t]
                 && m.locks == k.locks && m.sems == k.sems && m.conds == k.conds && |m.threads| == |k.threads|
                 && (forall u :: 0 <= u < |k.threads| ==>
                       m.threads[u] == k.threads[u].(status := if u == t then Ready else if u == k.ready[0] then Running else k.threads[u].status))
  {
    CurrentPlace(k, t);
    if k.ready != [] { HeadIs(k, ReadyList); }
  }

  /** Starting, ending and dispatching threads. */
  lemma LifeSteps(k: Kernel, e: Event)
    requires Safe(k) && Sane(k) && Enabled(k, e)
    ensures e.Fork? ==> Step(k, e) == k.(ready := k.ready + [e.thread], threads := k.threads[e.thread := Thread(Ready, Go)])
    ensures e.Finish? ==> Step(k, e) == k.(current := None, threads := k.threads[k.current.value := Thread(Dead, Go)])
    ensures e.Dispatch? ==> 0 <= k.ready[0] < |k.threads|
    ensures e.Dispatch? ==>
              Step(k, e) == k.(current := Some(k.ready[0]), ready := k.ready[1..], threads := k.threads[k.ready[0] := k.threads[k.ready[0]].(status := Running)])
  {
    if e.Dispatch? { HeadOk(k, ReadyList); }
  }

  // ---------------------------------------------------------------- locks

  /** Acquire: nothing for the owner, the lock at once if it is free, otherwise sleep at the end of its queue. */
  lemma AcquireTakes(k: Kernel, t: int, l: int)
    requires Safe(k) && Sane(k) && k.current == Some(t) && Enabled(k, AcquireLock(l))
    ensures var m, lock := Step(k, AcquireLock(l)), k.locks[l];
            if lock.owner == Some(t) then m == k
            else if lock.owner == None then m == k.(locks := k.locks[l := lock.(busy := true, owner := Some(t))])
            else m == k.(current := None, threads := k.threads[t := Thread(Blocked, InAcquire(l))],
                         locks := k.locks[l := lock.(queue := lock.queue + [t], arrived := lock.arrived + [t])])
  {
    assert LockOk(k.locks[l]);
  }

  /** Release by anybody but the owner changes nothing; the owner's passes the lock to the first waiter, or frees it. */
  lemma ReleasePasses(k: Kernel, t: int, l: int)
    requires Safe(k) && Sane(k) && k.current == Some(t) && Enabled(k, ReleaseLock(l))
    ensures var m, lock := Step(k, ReleaseLock(l)), k.locks[l];
            if lock.owner != Some(t) then m == k
            else if lock.queue == [] then m == k.(locks := k.locks[l := lock.(busy := false, owner := None)])
            else var u := lock.queue[0];
                 && 0 <= u < |k.threads|
                 && m == k.(ready := k.ready + [u], threads := k.threads[u := k.threads[u].(status := Ready)],
                            locks := k.locks[l := lock.(busy := true, owner := Some(u), queue := lock.queue[1..], granted := lock.granted + [u])])
  {
    HeadOk(k, AtLock(l));
  }

  // ---------------------------------------------------------------- semaphores

  /** P takes one from the value and goes on, or sleeps at the end of the queue when there is nothing to take. */
  lemma PTakes(k: Kernel, t: int, s: int)
    requires Safe(k) && Sane(k) && k.current == Some(t) && Enabled(k, Event.Down(s))
    ensures var m, sem := Step(k, Event.Down(s)), k.sems[s];
            if sem.value > 0 then m == k.(sems := k.sems[s := sem.(value := sem.value - 1, downs := sem.downs + 1)])
            else m == k.(current := None, threads := k.threads[t := Thread(Blocked, InP(s))], sems := k.sems[s := sem.(queue := sem.queue + [t])])
  {
    assert SemOk(k.sems[s], Woken(k.threads, s));
    if k.sems[s].value > 0 { assert k.threads[t := k.threads[t]] == k.threads; }
  }

  /** V, from a thread or a handler, adds one to the value and wakes the first waiter, if any. */
  lemma VGives(k: Kernel, e: Event)
    requires Safe(k) && Sane(k) && Enabled(k, e) && (e.Up? || e.Interrupt?)
    ensures var m, sem := Step(k, e), k.sems[e.s];
            if sem.queue == [] then m == k.(sems := k.sems[e.s := sem.(value := sem.value + 1, ups := sem.ups + 1)])
            else var u := sem.queue[0];
                 && 0 <= u < |k.threads|
                 && m == k.(ready := k.ready + [u], threads := k.threads[u := k.threads[u].(status := Ready)],
                            sems := k.sems[e.s := sem.(value := sem.value + 1, ups := sem.ups + 1, queue := sem.queue[1..])])
  {
    HeadOk(k, AtSem(e.s));
  }

  // ---------------------------------------------------------------- conditions

  /** Without the lock that the condition is waited on with, Signal changes nothing; with it, the first waiter wakes. */
  lemma SignalWakes(k: Kernel, c: int, lock: Option<int>)
    requires Safe(k) && Sane(k) && Enabled(k, SignalOn(c, lock))
    ensures var m, cond := Step(k, SignalOn(c, lock)), k.conds[c];
            if lock == None || lock != cond.waitingLock then m == k
            else && cond.queue != [] && 0 <= cond.queue[0] < |k.threads|
                 && var u := cond.queue[0];
                    m == k.(ready := k.ready + [u], threads := k.threads[u := k.threads[u].(status := Ready)],
                            conds := k.conds[c := Condition(if |cond.queue| == 1 then None else lock, cond.queue[1..])])
  {
    HeadOk(k, AtCond(c));
    assert CondOk(k.conds[c]);
  }

  /** A wait without a lock, or with another lock than the others', changes nothing. */
  lemma WaitRefused(k: Kernel, c: int, lock: Option<int>)
    requires Safe(k) && Sane(k) && Enabled(k, WaitOn(c, lock))
    requires lock == None || (k.conds[c].waitingLock != None && k.conds[c].waitingLock != lock)
    ensures Step(k, WaitOn(c, lock)) == k
  {
  }

  /** A thread woken inside the kernel goes on there: it is back from Acquire, looks at the semaphore again, or
      reobtains the lock of its wait. */
  lemma ReturnGoesOn(k: Kernel, t: int)
    requires Safe(k) && Sane(k) && k.current == Some(t) && Enabled(k, Return)
    ensures var m, r, awake := Step(k, Return), k.threads[t].resume, k.(threads := k.threads[t := k.threads[t].(resume := Go)]);
            && (r.InAcquire? ==> m == awake)
            && (r.InP? && k.sems[r.sem].value > 0 ==> m == awake.(sems := k.sems[r.sem := k.sems[r.sem].(value := k.sems[r.sem].value - 1, downs := k.sems[r.sem].downs + 1)]))
            && (r.InP? && k.sems[r.sem].value <= 0 ==> m.current == None && m.threads[t] == Thread(Blocked, r) && m.sems[r.sem].queue == k.sems[r.sem].queue + [t])
            && (r.InWait? ==> m == Acquire(awake, t, r.lock))
  {
    if k.threads[t].resume.InP? { assert SemOk(k.sems[k.threads[t].resume.sem], Woken(k.threads, k.threads[t].resume.sem)); }
  }

  // ---------------------------------------------------------------- Broadcast

  /** Without the lock that the condition is waited on with, Broadcast changes nothing; with it, the loop begins. */
  lemma BroadcastBegins(k: Kernel, t: int, c: int, lock: Option<int>)
    requires Safe(k) && Sane(k) && k.current == Some(t) && Enabled(k, BroadcastOn(c, lock))
    ensures Step(k, BroadcastOn(c, lock)) ==
            if lock == None || lock != k.conds[c].waitingLock then k
            else k.(threads := k.threads[t := k.threads[t].(resume := InBroadcast(c, lock.value))])
  {
  }

  /** One turn: back in its own code when nobody waits; otherwise the first waiter wakes, as long as they wait with the
      same lock. */
  lemma BroadcastTurns(k: Kernel, t: int, c: int, l: int)
    requires Safe(k) && Sane(k) && k.current == Some(t) && 0 <= t < |k.threads| && k.threads[t].resume == InBroadcast(c, l)
    ensures Enabled(k, BroadcastMore) && 0 <= c < |k.conds|
    ensures var m, cond := Step(k, BroadcastMore), k.conds[c];
            && (cond.queue == [] ==> m == k.(threads := k.threads[t := k.threads[t].(resume := Go)]))
            && (cond.queue != [] && cond.waitingLock != Some(l) ==> m == k)
            && (cond.queue != [] && cond.waitingLock == Some(l) ==>
                  && 0 <= cond.queue[0] < |k.threads|
                  && m == k.(ready := k.ready + [cond.queue[0]],
                             threads := k.threads[cond.queue[0] := k.threads[cond.queue[0]].(status := Ready)],
                             conds := k.conds[c := Condition(if |cond.queue| == 1 then None else Some(l), cond.queue[1..])]))
  {
    assert ThreadOk(k, k.threads[t]);
    HeadOk(k, AtCond(c));
  }

  /** The threads with all of q made ready. */
  function MadeReady(threads: seq<Thread>, q: seq<int>): (r: seq<Thread>)
    ensures |r| == |threads| && forall u :: 0 <= u < |threads| ==> r[u] == if u in q then threads[u].(status := Ready) else threads[u]
  {
    seq(|threads|, u requires 0 <= u < |threads| => if u in q then threads[u].(status := Ready) else threads[u])
  }

  /** Everybody who waited on the condition is at the end of the ready list, in order, and nothing else has changed. */
  function AllWoken(k: Kernel, c: int): Kernel
    requires 0 <= c < |k.conds|
  {
    k.(ready := k.ready + k.conds[c].queue, threads := MadeReady(k.threads, k.conds[c].queue), conds := k.conds[c := Condition(None, [])])
  }

  function Turns(n: nat): (r: seq<Event>)
    ensures |r| == n && forall i :: 0 <= i < n ==> r[i] == BroadcastMore
  {
    seq(n, i => BroadcastMore)
  }

  lemma {:induction false} LoopWakesAll(k: Kernel, t: int, c: int, l: int)
    requires Safe(k) && Sane(k) && k.current == Some(t) && 0 <= t < |k.threads| && k.threads[t].resume == InBroadcast(c, l)
    requires 0 <= c < |k.conds| && (k.conds[c].queue != [] ==> k.conds[c].waitingLock == Some(l))
    ensures ThreadSafety.Runs(k, Turns(|k.conds[c].queue| + 1), AllWoken(SetResume(k, t, Go), c))
    decreases |k.conds[c].queue|
  {
    var n, all := |k.conds[c].queue|, AllWoken(SetResume(k, t, Go), c);
    if n == 0 {
      LastTurn(k, t, c, l);
      NoTurns(all);
    } else {
      NextTurn(k, t, c, l);
      LoopWakesAll(Step(k, BroadcastMore), t, c, l);
    }
    OneTurn(k, n, all);
  }

  lemma OneTurn(k: Kernel, n: nat, m: Kernel)
    requires Sane(k) && Enabled(k, BroadcastMore) && ThreadSafety.Runs(Step(k, BroadcastMore), Turns(n), m)
    ensures ThreadSafety.Runs(k, Turns(n + 1), m)
  {
    assert Turns(n + 1)[1..] == Turns(n);
  }

  lemma NoTurns(k: Kernel)
    ensures ThreadSafety.Runs(k, Turns(0), k)
  {
  }

  lemma LastTurn(k: Kernel, t: int, c: int, l: int)
    requires Safe(k) && Sane(k) && k.current == Some(t) && 0 <= t < |k.threads| && k.threads[t].resume == InBroadcast(c, l)
    requires 0 <= c < |k.conds| && k.conds[c].queue == []
    ensures Enabled(k, BroadcastMore) && Step(k, BroadcastMore) == AllWoken(SetResume(k, t, Go), c)
  {
    BroadcastTurns(k, t, c, l);
    assert CondOk(k.conds[c]);
  }

  lemma NextTurn(k: Kernel, t: int, c: int, l: int)
    requires Safe(k) && Sane(k) && k.current == Some(t) && 0 <= t < |k.threads| && k.threads[t].resume == InBroadcast(c, l)
    requires 0 <= c < |k.conds| && k.conds[c].queue != [] && k.conds[c].waitingLock == Some(l)
    ensures Enabled(k, BroadcastMore)
    ensures var m := Step(k, BroadcastMore);
            && Safe(m) && Sane(m) && m.current == Some(t) && t < |m.threads| && m.threads[t].resume == InBroadcast(c, l) && c < |m.conds|
            && m.conds[c].queue == k.conds[c].queue[1..] && (m.conds[c].queue != [] ==> m.conds[c].waitingLock == Some(l))
            && AllWoken(SetResume(m, t, Go), c) == AllWoken(SetResume(k, t, Go), c)
  {
    var m := Step(k, BroadcastMore);
    BroadcastTurns(k, t, c, l);
    StepSafe(k, BroadcastMore);
    SafeSane(m);
    HeadIs(k, AtCond(c));
    CurrentPlace(k, t);
    TurnWakesAll(k, m, t, c, l);
  }

  lemma TurnWakesAll(k: Kernel, m: Kernel, t: int, c: int, l: int)
    requires 0 <= t < |k.threads| && 0 <= c < |k.conds| && k.conds[c].queue != [] && 0 <= k.conds[c].queue[0] < |k.threads| && k.conds[c].queue[0] != t
    requires m == k.(ready := k.ready + [k.conds[c].queue[0]],
                     threads := k.threads[k.conds[c].queue[0] := k.threads[k.conds[c].queue[0]].(status := Ready)],
                     conds := k.conds[c := Condition(if |k.conds[c].queue| == 1 then None else Some(l), k.conds[c].queue[1..])])
    ensures AllWoken(SetResume(m, t, Go), c) == AllWoken(SetResume(k, t, Go), c)
  {
    var q := k.conds[c].queue;
    assert q == [q[0]] + q[1..];
    assert k.ready + [q[0]] + q[1..] == k.ready + q;
    var a, b := MadeReady(SetResume(m, t, Go).threads, q[1..]), MadeReady(SetResume(k, t, Go).threads, q);
    assert forall u :: u in q <==> u == q[0] || u in q[1..];
    assert a == b;
    assert m.conds[c := Condition(None, [])] == k.conds[c := Condition(None, [])];
  }

  /** Left to itself, Broadcast wakes everybody who waits, in order, and returns. */
  lemma BroadcastWakesAll(k: Kernel, t: int, c: int, l: int)
    requires Safe(k) && Sane(k) && k.current == Some(t) && Enabled(k, BroadcastOn(c, Some(l))) && k.conds[c].waitingLock == Some(l)
    ensures ThreadSafety.Runs(k, [BroadcastOn(c, Some(l))] + Turns(|k.conds[c].queue| + 1), AllWoken(k, c))
  {
    var m := Step(k, BroadcastOn(c, Some(l)));
    BroadcastBegins(k, t, c, Some(l));
    StepSafe(k, BroadcastOn(c, Some(l)));
    SafeSane(m);
    LoopWakesAll(m, t, c, l);
    assert SetResume(m, t, Go).threads == k.threads;
    assert ([BroadcastOn(c, Some(l))] + Turns(|k.conds[c].queue| + 1))[1..] == Turns(|k.conds[c].queue| + 1);
  }

  /** Under any schedule a thread stays in the loop of Broadcast until, in its own turn, nobody waits any more. */
  lemma BroadcastLeaves(k: Kernel, e: Event, t: int)
    requires Safe(k) && Sane(k) && Enabled(k, e) && 0 <= t < |k.threads| && k.threads[t].resume.InBroadcast?
    ensures var m, r := Step(k, e), k.threads[t].resume;
            && |m.threads| == |k.threads| && 0 <= r.cond < |k.conds|
            && m.threads[t].resume == if k.current == Some(t) && e == BroadcastMore && k.conds[r.cond].queue == [] then Go else r
  {
    assert ThreadOk(k, k.threads[t]);
    if k.current == Some(t) && e == BroadcastMore {
      BroadcastTurns(k, t, k.threads[t].resume.cond, k.threads[t].resume.lock);
    } else if e.Return? {
      ReturnFrame(k, k.current.value);
    } else {
      StepFrame(k, e);
      if k.current == Some(t) && !e.Interrupt? && e.YieldCpu? { YieldTurns(k, t); }
    }
  }
}
