/**
 The synchronised list: producers and consumers run its code on the thread machine, under any schedule.
 */
module SynchLists {
  import opened Options
  import opened Words
  import Counting
  import opened Threads
  import opened ThreadSafety
  import opened ThreadFrames

  /** Items are addresses. */
  const Null: int := 0

  /** Where a thread is in the code of the list. woken: it has slept since it looked at the list last. */
  datatype Pc =
    | Outside
    | AppendItem(item: int)
    | AppendSignal
    | AppendRelease
    | RemoveCheck(woken: bool)
    | RemoveWait
    | RemoveTake(woken: bool)
    | RemoveRelease(item: int)

  /** lock and cond name the list's own lock and condition in the kernel; appended, with its producers, and delivered
      record the traffic. */
  datatype Machine = Machine(k: Kernel, lock: int, cond: int, pcs: seq<Pc>, list: seq<int>,
                             appended: seq<int>, producers: seq<int>, delivered: seq<int>)

  datatype Move = CallAppend(item: int) | CallRemove | Advance | Other(e: Event)

  /** The list's lock and condition are used by its own code only. */
  predicate Foreign(m: Machine, e: Event) {
    match e
    case AcquireLock(l) => l != m.lock
    case ReleaseLock(l) => l != m.lock
    case WaitOn(c, l) => c != m.cond && l != Some(m.lock)
    case SignalOn(c, l) => c != m.cond
    case BroadcastOn(c, l) => c != m.cond
    case _ => true
  }

  predicate Passive(e: Event) { e.Return? || e.YieldCpu? || e.Dispatch? || e.Interrupt? }

  /** The current thread is in code of its own, with interrupts on. */
  predicate AtPc(m: Machine, t: int) {
    m.k.current == Some(t) && 0 <= t < |m.k.threads| && t < |m.pcs| && m.k.threads[t].resume.Go?
  }

  ghost predicate CanStep(m: Machine, s: Move) {
    && Sane(m.k) && LockIndex(m.k, m.lock) && 0 <= m.cond < |m.k.conds| && |m.pcs| == |m.k.threads|
    && match s
       case CallAppend(_) => m.k.current.Some? && AtPc(m, m.k.current.value) && m.pcs[m.k.current.value] == Outside
       case CallRemove => m.k.current.Some? && AtPc(m, m.k.current.value) && m.pcs[m.k.current.value] == Outside
       case Advance => m.k.current.Some? && AtPc(m, m.k.current.value) && m.pcs[m.k.current.value] != Outside
       case Other(e) =>
         && Enabled(m.k, e) && Foreign(m, e)
         && (Passive(e) || (m.k.current.Some? && 0 <= m.k.current.value < |m.pcs| && m.pcs[m.k.current.value] == Outside))
  }

  function SetPc(m: Machine, t: int, pc: Pc): Machine
    requires 0 <= t < |m.pcs|
  {
    m.(pcs := m.pcs[t := pc])
  }

  /** One line of the list's code; None when its assertion fails: there is an item, and it is not null. */
  ghost function Line(m: Machine, t: int): (r: Option<Machine>)
    requires Sane(m.k) && LockIndex(m.k, m.lock) && 0 <= m.cond < |m.k.conds| && AtPc(m, t)
  {
    HeadOk(m.k, AtLock(m.lock));
    HeadOk(m.k, AtCond(m.cond));
    match m.pcs[t]
    case Outside => Some(m)
    case AppendItem(item) => Some(SetPc(m.(list := m.list + [item], appended := m.appended + [item], producers := m.producers + [t]), t, AppendSignal))
    case AppendSignal => Some(SetPc(m.(k := Signal(m.k, m.cond, Option.Some(m.lock))), t, AppendRelease))
    case AppendRelease => Some(SetPc(m.(k := Release(m.k, t, m.lock)), t, Outside))
    case RemoveCheck(woken) => Some(SetPc(m, t, if m.list == [] then RemoveWait else RemoveTake(woken)))
    case RemoveWait => Some(SetPc(m.(k := Wait(m.k, t, m.cond, Option.Some(m.lock))), t, RemoveCheck(true)))
    case RemoveTake(_) =>
      if m.list == [] || m.list[0] == Null then None
      else Some(SetPc(m.(list := m.list[1..], delivered := m.delivered + [m.list[0]]), t, RemoveRelease(m.list[0])))
    case RemoveRelease(_) => Some(SetPc(m.(k := Release(m.k, t, m.lock)), t, Outside))
  }

  ghost function Next(m: Machine, s: Move): Option<Machine>
    requires CanStep(m, s)
  {
    match s
    case CallAppend(item) => Some(SetPc(m.(k := Acquire(m.k, m.k.current.value, m.lock)), m.k.current.value, AppendItem(item)))
    case CallRemove => Some(SetPc(m.(k := Acquire(m.k, m.k.current.value, m.lock)), m.k.current.value, RemoveCheck(false)))
    case Advance => Line(m, m.k.current.value)
    case Other(e) => Some(m.(k := Step(m.k, e)))
  }

  // ---------------------------------------------------------------- counting

  /** A woken consumer that has yet to look or to take, or a producer that has yet to signal. */
  function Credit(pc: Pc, asleep: bool): nat {
    if pc == AppendSignal || (!asleep && (pc == RemoveCheck(true) || pc == RemoveTake(true))) then 1 else 0
  }

  function Credits(pcs: seq<Pc>, q: seq<int>): (w: seq<nat>)
    ensures |w| == |pcs|
  {
    seq(|pcs|, t requires 0 <= t < |pcs| => Credit(pcs[t], t in q))
  }

  lemma CreditsChange(pcs: seq<Pc>, q: seq<int>, t: int, pc: Pc, r: seq<int>)
    requires 0 <= t < |pcs| && forall u :: u != t ==> (u in q <==> u in r)
    ensures Sum(Credits(pcs[t := pc], r)) == Sum(Credits(pcs, q)) - Credit(pcs[t], t in q) + Credit(pc, t in r)
  {
    assert Credits(pcs[t := pc], r) == Credits(pcs, q)[t := Credit(pc, t in r)];
    SumUpdate(Credits(pcs, q), t, Credit(pc, t in r));
  }

  // ---------------------------------------------------------------- the invariant

  /** A thread in the list's code owns the lock, or is on its way to it. */
  ghost predicate InsideOk(m: Machine, t: int)
    requires LockIndex(m.k, m.lock) && |m.pcs| == |m.k.threads| && 0 <= t < |m.pcs|
  {
    var pc, r := m.pcs[t], m.k.threads[t].resume;
    if pc == Outside then
      && m.k.locks[m.lock].owner != Some(t) && r != InAcquire(m.lock)
      && (r.InWait? ==> r.cond != m.cond && r.lock != m.lock) && (r.InBroadcast? ==> r.cond != m.cond)
    else
      || (r.Go? && m.k.locks[m.lock].owner == Some(t))
      || (r == InAcquire(m.lock) && (pc.AppendItem? || pc.RemoveCheck?))
      || (r == InWait(m.cond, m.lock) && pc == RemoveCheck(true))
  }

  ghost predicate Shape(m: Machine) {
    LockIndex(m.k, m.lock) && 0 <= m.cond < |m.k.conds| && |m.pcs| == |m.k.threads|
  }

  ghost predicate AllInside(m: Machine)
    requires Shape(m)
  {
    forall t :: 0 <= t < |m.pcs| ==> InsideOk(m, t)
  }

  ghost predicate ListOk(m: Machine) {
    && m.appended == m.delivered + m.list
    && (forall t :: 0 <= t < |m.pcs| && m.pcs[t] == RemoveWait ==> m.list == [])
    && (forall t :: 0 <= t < |m.pcs| && m.pcs[t].RemoveTake? ==> m.list != [])
  }

  /** While consumers sleep, every item is spoken for. */
  ghost predicate Promised(m: Machine)
    requires 0 <= m.cond < |m.k.conds|
  {
    var q := m.k.conds[m.cond].queue;
    q != [] ==> |m.list| <= Sum(Credits(m.pcs, q))
  }

  ghost predicate OwnLock(m: Machine)
    requires 0 <= m.cond < |m.k.conds|
  {
    m.k.conds[m.cond].waitingLock == None || m.k.conds[m.cond].waitingLock == Some(m.lock)
  }

  ghost predicate ListSafe(m: Machine) {
    Safe(m.k) && Shape(m) && AllInside(m) && ListOk(m) && Promised(m) && OwnLock(m)
  }

  /** Mutual exclusion: two threads past the lock are one. */
  lemma Exclusive(m: Machine, t: int, u: int)
    requires ListSafe(m) && 0 <= t < |m.pcs| && 0 <= u < |m.pcs| && m.pcs[t] != Outside && m.pcs[u] != Outside
    requires m.k.threads[t].resume.Go? && m.k.threads[u].resume.Go?
    ensures t == u
  {
    assert InsideOk(m, t) && InsideOk(m, u);
  }

  // ---------------------------------------------------------------- steps that are not the list's

  /** The kernel moves on; the list's own data stay, and so does all that the invariant says of them. */
  lemma KernelMoves(m: Machine, n: Kernel)
    requires ListSafe(m) && Safe(n) && |n.threads| == |m.k.threads| && |n.locks| == |m.k.locks| && |n.conds| == |m.k.conds|
    requires n.conds[m.cond] == m.k.conds[m.cond] && AllInside(m.(k := n))
    ensures ListSafe(m.(k := n))
  {
  }

  lemma ReturnInside(m: Machine, t: int)
    requires ListSafe(m) && m.k.current == Some(t) && 0 <= t < |m.pcs| && Sane(m.k) && Enabled(m.k, Return)
    ensures var n := Step(m.k, Return);
            && |n.threads| == |m.k.threads| && |n.locks| == |m.k.locks| && |n.conds| == |m.k.conds|
            && n.conds[m.cond] == m.k.conds[m.cond] && AllInside(m.(k := n))
  {
    var n, r := Step(m.k, Return), m.k.threads[t].resume;
    ReturnFrame(m.k, t);
    assert InsideOk(m, t);
    if r.InAcquire? || r.InWait? {
      ReturnsOwner(m.k, Return, t, r.lock);
    }
    var l := m.lock;
    assert n.locks[l].owner == m.k.locks[l].owner || (n.locks[l].owner == Some(t) && r == InWait(m.cond, l) && m.k.locks[l].owner == None) by {
      if r.InWait? && r.lock == l { OwnerAfterWait(m.k, t, l); }
    }
    forall u | 0 <= u < |m.pcs| ensures InsideOk(m.(k := n), u) { assert InsideOk(m, u); }
  }

  lemma OwnerAfterWait(k: Kernel, t: int, l: int)
    requires Safe(k) && Sane(k) && k.current == Some(t) && Enabled(k, Return) && k.threads[t].resume.InWait? && k.threads[t].resume.lock == l
    ensures var n := Step(k, Return);
            && (n.locks[l].owner == k.locks[l].owner || (k.locks[l].owner == None && n.locks[l].owner == Some(t)))
  {
    assert LockOk(k.locks[l]);
  }

  lemma OtherInside(m: Machine, e: Event)
    requires ListSafe(m) && CanStep(m, Other(e)) && !e.Return?
    ensures var n := Step(m.k, e);
            && |n.threads| == |m.k.threads| && |n.locks| == |m.k.locks| && |n.conds| == |m.k.conds|
            && n.conds[m.cond] == m.k.conds[m.cond] && AllInside(m.(k := n))
  {
    var n := Step(m.k, e);
    StepFrame(m.k, e);
    if m.k.current.Some? { assert InsideOk(m, m.k.current.value); }
    forall u | 0 <= u < |m.pcs| ensures InsideOk(m.(k := n), u) { assert InsideOk(m, u); }
  }

  lemma OtherSafe(m: Machine, e: Event)
    requires ListSafe(m) && CanStep(m, Other(e))
    ensures ListSafe(m.(k := Step(m.k, e)))
  {
    StepSafe(m.k, e);
    if e.Return? { ReturnInside(m, m.k.current.value); } else { OtherInside(m, e); }
    KernelMoves(m, Step(m.k, e));
  }

  // ---------------------------------------------------------------- the list's own steps

  /** A step that leaves the condition, the items and everybody's credit alone. */
  lemma EnterSafe(m: Machine, t: int, pc: Pc)
    requires ListSafe(m) && AtPc(m, t) && m.pcs[t] == Outside && (pc.AppendItem? || pc == RemoveCheck(false))
    ensures ListSafe(SetPc(m.(k := Acquire(m.k, t, m.lock)), t, pc))
  {
    var n := Acquire(m.k, t, m.lock);
    AcquireSafe(m.k, t, m.lock);
    AcquireFrame(m.k, t, m.lock);
    var a := SetPc(m.(k := n), t, pc);
    EnterOwner(m.k, t, m.lock);
    forall u | 0 <= u < |a.pcs| ensures InsideOk(a, u) { assert InsideOk(m, u); }
    CreditsChange(m.pcs, m.k.conds[m.cond].queue, t, pc, m.k.conds[m.cond].queue);
  }

  lemma EnterOwner(k: Kernel, t: int, l: int)
    requires Safe(k) && Threads.Runs(k, t) && LockIndex(k, l)
    ensures var n := Acquire(k, t, l);
            && (n.locks[l].owner == k.locks[l].owner || (k.locks[l].owner == None && n.locks[l].owner == Some(t)))
  {
    assert LockOk(k.locks[l]);
  }

  /** A line that does not enter the kernel. */
  lemma LocalSafe(m: Machine, t: int)
    requires ListSafe(m) && Sane(m.k) && AtPc(m, t) && (m.pcs[t].AppendItem? || m.pcs[t].RemoveCheck? || m.pcs[t].RemoveTake?)
    ensures m.pcs[t].RemoveTake? ==> m.list != []
    ensures Line(m, t).Some? <==> !(m.pcs[t].RemoveTake? && m.list[0] == Null)
    ensures Line(m, t).Some? ==> ListSafe(Line(m, t).value)
  {
    assert InsideOk(m, t);
    NotAsleep(m, t);
    var q := m.k.conds[m.cond].queue;
    if Line(m, t).Some? {
      var a := Line(m, t).value;
      CreditsChange(m.pcs, q, t, a.pcs[t], q);
      LocalInside(m, t, a);
      LocalListOk(m, t);
    }
  }

  lemma LocalInside(m: Machine, t: int, a: Machine)
    requires ListSafe(m) && Sane(m.k) && AtPc(m, t) && (m.pcs[t].AppendItem? || m.pcs[t].RemoveCheck? || m.pcs[t].RemoveTake?)
    requires Line(m, t) == Some(a)
    ensures AllInside(a)
  {
    assert InsideOk(m, t);
    forall u | 0 <= u < |a.pcs| ensures InsideOk(a, u) { assert InsideOk(m, u); }
  }

  lemma NotAsleep(m: Machine, t: int)
    requires ListSafe(m) && AtPc(m, t)
    ensures t !in m.k.conds[m.cond].queue
  {
    CurrentPlace(m.k, t);
    assert Lists(m.k.threads, QueueAt(m.k, AtCond(m.cond)), AtCond(m.cond));
  }

  lemma LocalListOk(m: Machine, t: int)
    requires ListSafe(m) && Sane(m.k) && AtPc(m, t) && (m.pcs[t].AppendItem? || m.pcs[t].RemoveCheck? || m.pcs[t].RemoveTake?)
    requires Line(m, t).Some?
    ensures ListOk(Line(m, t).value)
  {
    var a := Line(m, t).value;
    assert InsideOk(m, t);
    forall u | 0 <= u < |a.pcs| && u != t ensures a.pcs[u] != RemoveWait && !a.pcs[u].RemoveTake? {
      assert InsideOk(m, u);
    }
    assert a.appended == a.delivered + a.list;
  }

  /** Leaving: the lock passes to the longest waiter, who is in the list's code, or becomes free. */
  lemma LeaveSafe(m: Machine, t: int)
    requires ListSafe(m) && Sane(m.k) && AtPc(m, t) && (m.pcs[t].AppendRelease? || m.pcs[t].RemoveRelease?)
    ensures Line(m, t).Some? && ListSafe(Line(m, t).value)
  {
    HeadOk(m.k, AtLock(m.lock));
    ReleaseSafe(m.k, t, m.lock);
    ReleaseFrame(m.k, t, m.lock);
    var n := Release(m.k, t, m.lock);
    var a := SetPc(m.(k := n), t, Outside);
    LeaveInside(m, t, a);
    LeavePromise(m, t, a);
  }

  lemma LeavePromise(m: Machine, t: int, a: Machine)
    requires Shape(m) && ListOk(m) && Promised(m) && OwnLock(m) && 0 <= t < |m.pcs| && (m.pcs[t].AppendRelease? || m.pcs[t].RemoveRelease?)
    requires a == SetPc(m.(k := a.k), t, Outside) && |a.k.conds| == |m.k.conds| && a.k.conds[m.cond] == m.k.conds[m.cond]
    ensures ListOk(a) && Promised(a) && OwnLock(a)
  {
    var q := m.k.conds[m.cond].queue;
    CreditsChange(m.pcs, q, t, Outside, q);
  }

  lemma LeaveInside(m: Machine, t: int, a: Machine)
    requires ListSafe(m) && Sane(m.k) && AtPc(m, t) && (m.pcs[t].AppendRelease? || m.pcs[t].RemoveRelease?)
    requires Line(m, t) == Some(a) && Quiet(m.k, a.k, -1)
    ensures AllInside(a)
  {
    assert InsideOk(m, t);
    HeadOk(m.k, AtLock(m.lock));
    NewOwnerInside(m, t);
    forall u | 0 <= u < |a.pcs| ensures InsideOk(a, u) { assert InsideOk(m, u); }
  }

  /** Whoever is given the lock by a release was waiting for it in the list's code. */
  lemma NewOwnerInside(m: Machine, t: int)
    requires ListSafe(m) && Sane(m.k) && AtPc(m, t) && m.k.locks[m.lock].owner == Some(t)
    requires m.k.locks[m.lock].queue != [] ==> 0 <= m.k.locks[m.lock].queue[0] < |m.k.threads|
    ensures var o := Release(m.k, t, m.lock).locks[m.lock].owner;
            && o != Some(t) && (o.Some? ==> 0 <= o.value < |m.pcs| && m.k.threads[o.value].resume == InAcquire(m.lock) && m.pcs[o.value] != Outside)
  {
    if m.k.locks[m.lock].queue != [] {
      var u := m.k.locks[m.lock].queue[0];
      HeadIs(m.k, AtLock(m.lock));
      assert InsideOk(m, u);
    }
  }

  lemma SignalLineSafe(m: Machine, t: int)
    requires ListSafe(m) && Sane(m.k) && AtPc(m, t) && m.pcs[t] == AppendSignal
    ensures Line(m, t).Some? && ListSafe(Line(m, t).value)
  {
    var k, q := m.k, m.k.conds[m.cond].queue;
    HeadOk(k, AtCond(m.cond));
    SignalSafe(k, m.cond, Some(m.lock));
    SignalFrame(k, m.cond, Some(m.lock));
    var a := Line(m, t).value;
    forall u | 0 <= u < |a.pcs| ensures InsideOk(a, u) { assert InsideOk(m, u); }
    SignalPromise(m, t, a);
  }

  lemma SignalPromise(m: Machine, t: int, a: Machine)
    requires ListSafe(m) && Sane(m.k) && AtPc(m, t) && m.pcs[t] == AppendSignal && Line(m, t) == Some(a)
    ensures Promised(a) && OwnLock(a)
  {
    var k, q := m.k, m.k.conds[m.cond].queue;
    NotAsleep(m, t);
    assert CondOk(k.conds[m.cond]);
    if q != [] {
      HeadIs(k, AtCond(m.cond));
      assert InsideOk(m, q[0]);
      assert a.k.conds[m.cond].queue == q[1..];
      assert Lists(k.threads, QueueAt(k, AtCond(m.cond)), AtCond(m.cond));
      SignalCredits(m.pcs, q, t);
    }
  }

  /** The producer's credit passes to the consumer it wakes. */
  lemma SignalCredits(pcs: seq<Pc>, q: seq<int>, t: int)
    requires q != [] && 0 <= t < |pcs| && pcs[t] == AppendSignal && t !in q && Counting.Distinct(q)
    requires 0 <= q[0] < |pcs| && pcs[q[0]] == RemoveCheck(true)
    ensures Sum(Credits(pcs[t := AppendRelease], q[1..])) == Sum(Credits(pcs, q))
  {
    var u := q[0];
    assert u !in q[1..] && forall v :: v != u ==> (v in q <==> v in q[1..]);
    CreditsChange(pcs, q, t, AppendRelease, q);
    CreditsChange(pcs[t := AppendRelease], q, u, RemoveCheck(true), q[1..]);
    assert pcs[t := AppendRelease][u := RemoveCheck(true)] == pcs[t := AppendRelease];
  }

  lemma WaitLineSafe(m: Machine, t: int)
    requires ListSafe(m) && Sane(m.k) && AtPc(m, t) && m.pcs[t] == RemoveWait
    ensures Line(m, t).Some? && ListSafe(Line(m, t).value)
  {
    var k := m.k;
    HeadOk(k, AtLock(m.lock));
    WaitSafe(k, t, m.cond, Some(m.lock));
    WaitFrame(k, t, m.cond, Some(m.lock));
    var a := Line(m, t).value;
    assert InsideOk(m, t);
    WaitOwner(k, t, m.cond, m.lock);
    NewOwnerInside(m, t);
    forall u | 0 <= u < |a.pcs| ensures InsideOk(a, u) { assert InsideOk(m, u); }
  }

  /** A consumer that finds the list empty goes to sleep on the condition and gives up the lock. */
  lemma RemoveSleeps(m: Machine, t: int)
    requires ListSafe(m) && Sane(m.k) && AtPc(m, t) && m.pcs[t] == RemoveWait
    ensures m.list == [] && Line(m, t).Some?
    ensures var n := Line(m, t).value.k;
            && |n.conds| == |m.k.conds| && |n.locks| == |m.k.locks| && n.current == None
            && n.conds[m.cond].queue == m.k.conds[m.cond].queue + [t] && n.locks[m.lock].owner != Some(t)
  {
    WaitSleeps(m.k, t, m.cond, m.lock);
  }

  lemma WaitOwner(k: Kernel, t: int, c: int, l: int)
    requires Threads.Runs(k, t) && CondIndex(k, c, Some(l)) && (k.conds[c].waitingLock == None || k.conds[c].waitingLock == Some(l))
    requires k.locks[l].queue != [] ==> 0 <= k.locks[l].queue[0] < |k.threads|
    ensures var n := Wait(k, t, c, Some(l));
            && n.locks[l].owner == Release(k, t, l).locks[l].owner && n.threads[t].resume == InWait(c, l)
            && n.conds[c].waitingLock == Some(l)
  {
    ReleaseCommutes(k, t, l, c, Some(l));
    var b := Release(SetWaitingLock(k, c, Some(l)), t, l);
    ReleaseFrame(SetWaitingLock(k, c, Some(l)), t, l);
    SleepFrame(b, AtCond(c), InWait(c, l));
  }

  // ---------------------------------------------------------------- every run

  /** A null item has been appended and is about to be taken. */
  predicate TakesNull(m: Machine, s: Move) {
    && s.Advance? && m.k.current.Some? && 0 <= m.k.current.value < |m.pcs| && m.pcs[m.k.current.value].RemoveTake?
    && m.list != [] && m.list[0] == Null
  }

  /** Every step keeps the invariant; there is always an item to take, so the assertion fails only on a null one. */
  lemma NextSafe(m: Machine, s: Move)
    requires ListSafe(m) && CanStep(m, s)
    ensures Next(m, s).Some? <==> !TakesNull(m, s)
    ensures Next(m, s).Some? ==> ListSafe(Next(m, s).value)
  {
    match s
    case CallAppend(item) => EnterSafe(m, m.k.current.value, AppendItem(item));
    case CallRemove => EnterSafe(m, m.k.current.value, RemoveCheck(false));
    case Other(e) => OtherSafe(m, e);
    case Advance =>
      var t := m.k.current.value;
      match m.pcs[t] {
        case AppendSignal => SignalLineSafe(m, t);
        case RemoveWait => WaitLineSafe(m, t);
        case AppendRelease => LeaveSafe(m, t);
        case RemoveRelease(_) => LeaveSafe(m, t);
        case _ => LocalSafe(m, t);
      }
  }

  /** The moves are possible one after the other; r is where they lead, or None if the assertion failed on the way. */
  ghost predicate RunsTo(m: Machine, moves: seq<Move>, r: Option<Machine>)
    decreases |moves|
  {
    if moves == [] then r == Some(m)
    else CanStep(m, moves[0]) && match Next(m, moves[0])
                                 case None => r == None
                                 case Some(n) => RunsTo(n, moves[1..], r)
  }

  ghost predicate Start(m: Machine) {
    && Initial(m.k) && Shape(m) && m.list == m.appended == m.producers == m.delivered == []
    && forall t :: 0 <= t < |m.pcs| ==> m.pcs[t] == Outside
  }

  lemma StartSafe(m: Machine)
    requires Start(m)
    ensures ListSafe(m)
  {
    InitialSafe(m.k);
  }

  lemma {:induction false} AlwaysListSafe(m: Machine, moves: seq<Move>, r: Option<Machine>)
    requires ListSafe(m) && RunsTo(m, moves, r)
    ensures r.Some? ==> ListSafe(r.value)
    decreases |moves|
  {
    if moves != [] {
      NextSafe(m, moves[0]);
      if Next(m, moves[0]).Some? { AlwaysListSafe(Next(m, moves[0]).value, moves[1..], r); }
    }
  }

  ghost predicate NoNulls(m: Machine) {
    && (forall i :: 0 <= i < |m.list| ==> m.list[i] != Null)
    && forall t :: 0 <= t < |m.pcs| && m.pcs[t].AppendItem? ==> m.pcs[t].item != Null
  }

  lemma NextNoNulls(m: Machine, s: Move)
    requires CanStep(m, s) && Next(m, s).Some? && NoNulls(m) && s != CallAppend(Null)
    ensures NoNulls(Next(m, s).value)
  {
  }

  /** If nobody appends null, the assertion never fails. */
  lemma {:induction false} NeverFails(m: Machine, moves: seq<Move>, r: Option<Machine>)
    requires ListSafe(m) && RunsTo(m, moves, r) && NoNulls(m) && forall k :: 0 <= k < |moves| ==> moves[k] != CallAppend(Null)
    ensures r.Some?
    decreases |moves|
  {
    if moves != [] {
      NextSafe(m, moves[0]);
      NextNoNulls(m, moves[0]);
      NeverFails(Next(m, moves[0]).value, moves[1..], r);
    }
  }

  /** The consumers that have been woken and have yet to look at the list. */
  function WokenFlags(pcs: seq<Pc>, q: seq<int>): (w: seq<nat>)
    ensures |w| == |pcs|
  {
    seq(|pcs|, t requires 0 <= t < |pcs| => if pcs[t] == RemoveCheck(true) && t !in q then 1 else 0)
  }

  function WokenConsumers(pcs: seq<Pc>, q: seq<int>): nat { Sum(WokenFlags(pcs, q)) }

  lemma FreeLock(n: Machine)
    requires ListSafe(n) && n.k.locks[n.lock].owner == None && n.k.conds[n.cond].queue != []
    ensures |n.list| <= WokenConsumers(n.pcs, n.k.conds[n.cond].queue)
  {
    var q := n.k.conds[n.cond].queue;
    var c, w := Credits(n.pcs, q), WokenFlags(n.pcs, q);
    forall t | 0 <= t < |n.pcs| ensures c[t] == w[t] { assert InsideOk(n, t); }
    assert c == w;
  }

  /** Under any schedule: if nobody appends null, the assertion holds throughout; what is delivered is a prefix of what
      was appended, in that order and each item once; and whenever the lock is free while consumers sleep, there are no
      more items than consumers already woken. */
  lemma Delivery(m: Machine, moves: seq<Move>, r: Option<Machine>)
    requires Start(m) && RunsTo(m, moves, r)
    ensures (forall k :: 0 <= k < |moves| ==> moves[k] != CallAppend(Null)) ==> r.Some?
    ensures r.Some? ==> r.value.appended == r.value.delivered + r.value.list
    ensures r.Some? ==>
              var n := r.value;
              && LockIndex(n.k, n.lock) && 0 <= n.cond < |n.k.conds|
              && (n.k.locks[n.lock].owner == None && n.k.conds[n.cond].queue != [] ==>
                    |n.list| <= WokenConsumers(n.pcs, n.k.conds[n.cond].queue))
  {
    StartSafe(m);
    AlwaysListSafe(m, moves, r);
    if forall k :: 0 <= k < |moves| ==> moves[k] != CallAppend(Null) { NeverFails(m, moves, r); }
    if r.Some? {
      var n := r.value;
      if n.k.locks[n.lock].owner == None && n.k.conds[n.cond].queue != [] { FreeLock(n); }
    }
  }
}
