/**
 Threads, the ready list, locks, semaphores and conditions as one machine whose steps are the stretches of code
 that run with interrupts off.
 */
module Threads {
  import opened Options

  datatype Status = JustCreated | Running | Ready | Blocked | Dead

  /** What a thread still has to do, inside the kernel, before it is back in its own code. */
  datatype Resume =
    | Go                                          // nothing: interrupts are on
    | InAcquire(lock: int)                        // return from Lock::Acquire
    | InP(sem: int)                               // look at the semaphore again
    | InWait(cond: int, lock: int)                // reobtain the lock of a wait
    | InBroadcast(cond: int, lock: int)           // go on signalling; interrupts are on

  datatype Thread = Thread(status: Status, resume: Resume)

  /** arrived and granted record who has joined the queue and who has been taken from it. */
  datatype Lock = Lock(busy: bool, owner: Option<int>, queue: seq<int>, arrived: seq<int>, granted: seq<int>)

  datatype Semaphore = Semaphore(value: int, queue: seq<int>, initial: int, ups: int, downs: int)

  datatype Condition = Condition(waitingLock: Option<int>, queue: seq<int>)

  datatype Kernel = Kernel(current: Option<int>, ready: seq<int>, threads: seq<Thread>,
                           locks: seq<Lock>, sems: seq<Semaphore>, conds: seq<Condition>)

  // ---------------------------------------------------------------- where a thread is

  datatype Place = Nowhere | Cpu | ReadyList | AtLock(l: int) | AtSem(s: int) | AtCond(c: int)

  function PlaceOf(x: Thread): Place {
    match x.status
    case JustCreated => Nowhere
    case Dead => Nowhere
    case Running => Cpu
    case Ready => ReadyList
    case Blocked =>
      match x.resume
      case InAcquire(l) => AtLock(l)
      case InP(s) => AtSem(s)
      case InWait(c, _) => AtCond(c)
      case Go => Nowhere
      case InBroadcast(_, _) => Nowhere
  }

  predicate Exists(k: Kernel, p: Place) {
    match p
    case AtLock(l) => 0 <= l < |k.locks|
    case AtSem(s) => 0 <= s < |k.sems|
    case AtCond(c) => 0 <= c < |k.conds|
    case Nowhere => true
    case Cpu => true
    case ReadyList => true
  }

  /** The threads at a place, in order. */
  function QueueAt(k: Kernel, p: Place): seq<int>
    requires Exists(k, p)
  {
    match p
    case Nowhere => []
    case Cpu => (match k.current case None => [] case Some(t) => [t])
    case ReadyList => k.ready
    case AtLock(l) => k.locks[l].queue
    case AtSem(s) => k.sems[s].queue
    case AtCond(c) => k.conds[c].queue
  }

  function Join(k: Kernel, p: Place, t: int): Kernel
    requires Exists(k, p)
  {
    match p
    case Nowhere => k
    case Cpu => k.(current := Some(t))
    case ReadyList => k.(ready := k.ready + [t])
    case AtLock(l) => k.(locks := k.locks[l := k.locks[l].(queue := k.locks[l].queue + [t], arrived := k.locks[l].arrived + [t])])
    case AtSem(s) => k.(sems := k.sems[s := k.sems[s].(queue := k.sems[s].queue + [t])])
    case AtCond(c) => k.(conds := k.conds[c := k.conds[c].(queue := k.conds[c].queue + [t])])
  }

  /** The first thread of a place leaves it. */
  function Leave(k: Kernel, p: Place): Kernel
    requires Exists(k, p) && (p != Nowhere ==> QueueAt(k, p) != [])
  {
    match p
    case Nowhere => k
    case Cpu => k.(current := None)
    case ReadyList => k.(ready := k.ready[1..])
    case AtLock(l) =>
      var lock := k.locks[l];
      k.(locks := k.locks[l := lock.(queue := lock.queue[1..], granted := lock.granted + [lock.queue[0]])])
    case AtSem(s) => k.(sems := k.sems[s := k.sems[s].(queue := k.sems[s].queue[1..])])
    case AtCond(c) => k.(conds := k.conds[c := k.conds[c].(queue := k.conds[c].queue[1..])])
  }

  predicate CanMove(k: Kernel, t: int, from: Place, to: Place) {
    && 0 <= t < |k.threads| && Exists(k, from) && Exists(k, to) && from != to
    && (from != Nowhere ==> QueueAt(k, from) != [] && QueueAt(k, from)[0] == t)
    && (to == Cpu ==> k.current == None)
  }

  /** A thread goes from one place to another and becomes x. */
  function Move(k: Kernel, t: int, from: Place, to: Place, x: Thread): Kernel
    requires CanMove(k, t, from, to)
  {
    Join(Leave(k, from).(threads := k.threads[t := x]), to, t)
  }

  // ---------------------------------------------------------------- the scheduler

  /** Scheduler::ReadyToRun for the first thread in a queue. */
  function WakeFirst(k: Kernel, p: Place): Kernel
    requires Exists(k, p) && p != ReadyList && QueueAt(k, p) != [] && 0 <= QueueAt(k, p)[0] < |k.threads|
  {
    var t := QueueAt(k, p)[0];
    Move(k, t, p, ReadyList, k.threads[t].(status := Ready))
  }

  /** Thread::Sleep of the current thread: it joins a queue and gives up the processor. */
  function SleepAt(k: Kernel, p: Place, resume: Resume): Kernel
    requires Exists(k, p) && p != Cpu && k.current.Some? && 0 <= k.current.value < |k.threads|
  {
    Move(k, k.current.value, Cpu, p, Thread(Blocked, resume))
  }

  function SetResume(k: Kernel, t: int, resume: Resume): Kernel
    requires 0 <= t < |k.threads|
  {
    k.(threads := k.threads[t := k.threads[t].(resume := resume)])
  }

  // ---------------------------------------------------------------- what the running thread can do

  predicate Runs(k: Kernel, t: int) { k.current == Some(t) && 0 <= t < |k.threads| }

  predicate LockIndex(k: Kernel, l: int) { 0 <= l < |k.locks| }

  function SetOwner(k: Kernel, l: int, busy: bool, owner: Option<int>): Kernel
    requires LockIndex(k, l)
  {
    k.(locks := k.locks[l := k.locks[l].(busy := busy, owner := owner)])
  }

  function Acquire(k: Kernel, t: int, l: int): Kernel
    requires Runs(k, t) && LockIndex(k, l)
  {
    if k.locks[l].owner == Some(t) then k
    else if !k.locks[l].busy then SetOwner(k, l, true, Some(t))
    else SleepAt(k, AtLock(l), InAcquire(l))
  }

  function Release(k: Kernel, t: int, l: int): Kernel
    requires LockIndex(k, l) && (k.locks[l].queue != [] ==> 0 <= k.locks[l].queue[0] < |k.threads|)
  {
    if k.locks[l].owner != Some(t) then k
    else if k.locks[l].queue != [] then WakeFirst(SetOwner(k, l, true, Some(k.locks[l].queue[0])), AtLock(l))
    else SetOwner(k, l, false, None)
  }

  function Down(k: Kernel, s: int): Kernel
    requires 0 <= s < |k.sems|
  {
    k.(sems := k.sems[s := k.sems[s].(value := k.sems[s].value - 1, downs := k.sems[s].downs + 1)])
  }

  /** One look of P at the semaphore. */
  function P(k: Kernel, t: int, s: int): Kernel
    requires Runs(k, t) && 0 <= s < |k.sems|
  {
    if k.sems[s].value == 0 then SleepAt(k, AtSem(s), InP(s)) else SetResume(Down(k, s), t, Go)
  }

  function V(k: Kernel, s: int): Kernel
    requires 0 <= s < |k.sems| && (k.sems[s].queue != [] ==> 0 <= k.sems[s].queue[0] < |k.threads|)
  {
    var woken := if k.sems[s].queue != [] then WakeFirst(k, AtSem(s)) else k;
    woken.(sems := woken.sems[s := woken.sems[s].(value := woken.sems[s].value + 1, ups := woken.sems[s].ups + 1)])
  }

  function SetWaitingLock(k: Kernel, c: int, l: Option<int>): Kernel
    requires 0 <= c < |k.conds|
  {
    k.(conds := k.conds[c := k.conds[c].(waitingLock := l)])
  }

  ghost predicate HeadsOk(k: Kernel) {
    forall p :: Exists(k, p) && QueueAt(k, p) != [] ==> 0 <= QueueAt(k, p)[0] < |k.threads|
  }

  /** Joining the condition's queue, releasing the lock and sleeping are one step. */
  function Wait(k: Kernel, t: int, c: int, lock: Option<int>): Kernel
    requires Runs(k, t) && 0 <= c < |k.conds| && (lock.Some? ==> LockIndex(k, lock.value))
    requires lock.Some? && k.locks[lock.value].queue != [] ==> 0 <= k.locks[lock.value].queue[0] < |k.threads|
  {
    if lock == None then k
    else if k.conds[c].waitingLock != None && k.conds[c].waitingLock != lock then k
    else SleepAt(Release(SetWaitingLock(k, c, lock), t, lock.value), AtCond(c), InWait(c, lock.value))
  }

  function Signal(k: Kernel, c: int, lock: Option<int>): Kernel
    requires 0 <= c < |k.conds| && (k.conds[c].queue != [] ==> 0 <= k.conds[c].queue[0] < |k.threads|)
  {
    if lock == None || k.conds[c].queue == [] || lock != k.conds[c].waitingLock then k
    else
      var woken := WakeFirst(k, AtCond(c));
      if woken.conds[c].queue == [] then SetWaitingLock(woken, c, None) else woken
  }

  /** The checks of Broadcast; interrupts are on again before the first signal. */
  function Broadcast(k: Kernel, t: int, c: int, lock: Option<int>): Kernel
    requires Runs(k, t) && 0 <= c < |k.conds|
  {
    if lock == None || lock != k.conds[c].waitingLock then k else SetResume(k, t, InBroadcast(c, lock.value))
  }

  /** One turn of the loop of Broadcast. */
  function BroadcastTurn(k: Kernel, t: int, c: int, l: int): Kernel
    requires Runs(k, t) && 0 <= c < |k.conds| && (k.conds[c].queue != [] ==> 0 <= k.conds[c].queue[0] < |k.threads|)
  {
    if k.conds[c].queue == [] then SetResume(k, t, Go) else Signal(k, c, Some(l))
  }

  // ---------------------------------------------------------------- the steps

  datatype Event =
    | Fork(thread: int)
    | AcquireLock(l: int)
    | ReleaseLock(l: int)
    | Down(s: int)
    | Up(s: int)
    | WaitOn(c: int, lock: Option<int>)
    | SignalOn(c: int, lock: Option<int>)
    | BroadcastOn(c: int, lock: Option<int>)
    | BroadcastMore
    | Return
    | YieldCpu
    | Finish
    | Dispatch
    | Interrupt(s: int)

  predicate InterruptsOn(x: Thread) { x.resume.Go? || x.resume.InBroadcast? }

  predicate CondIndex(k: Kernel, c: int, lock: Option<int>) {
    0 <= c < |k.conds| && (lock.Some? ==> LockIndex(k, lock.value))
  }

  /** Which steps are possible: a thread in its own code does as it likes; one inside the kernel goes on there; a
      handler runs while interrupts are on or while nobody can run. */
  predicate Enabled(k: Kernel, e: Event) {
    match k.current
    case None =>
      (match e
       case Dispatch => k.ready != []
       case Interrupt(s) => k.ready == [] && 0 <= s < |k.sems|
       case _ => false)
    case Some(t) =>
      && 0 <= t < |k.threads|
      && var x := k.threads[t];
         match e
         case Return => !InterruptsOn(x)
         case BroadcastMore => x.resume.InBroadcast?
         case YieldCpu => InterruptsOn(x)
         case Interrupt(s) => InterruptsOn(x) && 0 <= s < |k.sems|
         case Dispatch => false
         case Fork(u) => x.resume.Go? && 0 <= u < |k.threads| && k.threads[u] == Thread(JustCreated, Go)
         case AcquireLock(l) => x.resume.Go? && LockIndex(k, l)
         case ReleaseLock(l) => x.resume.Go? && LockIndex(k, l)
         case Down(s) => x.resume.Go? && 0 <= s < |k.sems|
         case Up(s) => x.resume.Go? && 0 <= s < |k.sems|
         case WaitOn(c, l) => x.resume.Go? && CondIndex(k, c, l)
         case SignalOn(c, l) => x.resume.Go? && CondIndex(k, c, l)
         case BroadcastOn(c, l) => x.resume.Go? && CondIndex(k, c, l)
         case Finish => x.resume.Go?
  }

  /** The thread continues where it slept. */
  function Continue(k: Kernel, t: int): Kernel
    requires Runs(k, t) && ResumeOk(k, k.threads[t].resume)
  {
    match k.threads[t].resume
    case InAcquire(l) => SetResume(k, t, Go)
    case InP(s) => P(k, t, s)
    case InWait(c, l) => Acquire(SetResume(k, t, Go), t, l)
    case Go => k
    case InBroadcast(_, _) => k
  }

  predicate ResumeOk(k: Kernel, r: Resume) {
    match r
    case Go => true
    case InAcquire(l) => LockIndex(k, l)
    case InP(s) => 0 <= s < |k.sems|
    case InWait(c, l) => 0 <= c < |k.conds| && LockIndex(k, l)
    case InBroadcast(c, l) => 0 <= c < |k.conds| && LockIndex(k, l)
  }

  ghost predicate Sane(k: Kernel) {
    HeadsOk(k) && forall t :: 0 <= t < |k.threads| ==> ResumeOk(k, k.threads[t].resume)
  }

  function Yield(k: Kernel, t: int): Kernel
    requires Runs(k, t) && HeadsOk(k)
  {
    if k.ready == [] then k
    else
      var next := k.ready[0];
      var parted := Move(k, t, Cpu, ReadyList, k.threads[t].(status := Ready));
      Move(parted, next, ReadyList, Cpu, parted.threads[next].(status := Running))
  }

  function Step(k: Kernel, e: Event): Kernel
    requires Sane(k) && Enabled(k, e)
  {
    if e.Dispatch? then assert QueueAt(k, ReadyList) != []; Move(k, k.ready[0], ReadyList, Cpu, k.threads[k.ready[0]].(status := Running))
    else if e.Interrupt? then HeadOk(k, AtSem(e.s)); V(k, e.s)
    else
      var t := k.current.value;
      match e
      case Fork(u) => Move(k, u, Nowhere, ReadyList, k.threads[u].(status := Ready))
      case AcquireLock(l) => Acquire(k, t, l)
      case ReleaseLock(l) => HeadOk(k, AtLock(l)); Release(k, t, l)
      case Down(s) => P(k, t, s)
      case Up(s) => HeadOk(k, AtSem(s)); V(k, s)
      case WaitOn(c, l) => HeadOk(k, if l.Some? then AtLock(l.value) else Nowhere); Wait(k, t, c, l)
      case SignalOn(c, l) => HeadOk(k, AtCond(c)); Signal(k, c, l)
      case BroadcastOn(c, l) => Broadcast(k, t, c, l)
      case BroadcastMore => HeadOk(k, AtCond(k.threads[t].resume.cond)); BroadcastTurn(k, t, k.threads[t].resume.cond, k.threads[t].resume.lock)
      case Return => Continue(k, t)
      case YieldCpu => Yield(k, t)
      case Finish => Move(k, t, Cpu, Nowhere, k.threads[t].(status := Dead))
  }

  lemma HeadOk(k: Kernel, p: Place)
    requires HeadsOk(k) && Exists(k, p)
    ensures QueueAt(k, p) != [] ==> 0 <= QueueAt(k, p)[0] < |k.threads|
  {
  }
}
