/**
 The lock and condition server, as the only server: one message at a time over tables of locks and conditions.
 */
module LockServers {
  type Name = seq<int>

  /** An answer owed to a client: where to, for which request, and the byte it carries. */
  datatype Reply = Reply(machine: int, box: int, request: int, value: int)

  /** grants and releases count; joined and served record who has entered the queue and who has been taken from it. */
  datatype ServerLock = ServerLock(name: Name, available: bool, owner: int, numWaiters: int, waitQueue: seq<Reply>,
                                   grants: int, releases: int, joined: seq<Reply>, served: seq<Reply>)

  datatype ServerCV = ServerCV(name: Name, serverLockIndex: int, numWaiters: int, waitQueue: seq<Reply>)

  /** requests and sent record all messages in and out. */
  datatype Server = Server(locks: seq<ServerLock>, cvs: seq<ServerCV>, requests: seq<Reply>, sent: seq<Reply>)

  datatype Request =
    | CreateLock(name: Name)
    | AcquireLock(lock: int)
    | ReleaseLock(lock: int)
    | CreateCV(name: Name)
    | SignalCV(cv: int, lock: int)
    | BroadcastCV(cv: int, lock: int)
    | WaitCV(cv: int, lock: int)

  /** What a char holds of a number. */
  function Char(n: int): int { (n + 128) % 256 - 128 }

  const Ack: int := 255

  predicate HasLock(s: Server, l: int) { 0 <= l < |s.locks| }

  predicate HasCV(s: Server, c: int) { 0 <= c < |s.cvs| }

  // ---------------------------------------------------------------- the operations on the tables

  function SetLock(s: Server, l: int, lock: ServerLock): Server
    requires HasLock(s, l)
  {
    s.(locks := s.locks[l := lock])
  }

  function Send(s: Server, reply: Reply): Server { s.(sent := s.sent + [reply]) }

  function Enqueue(lock: ServerLock, reply: Reply): ServerLock {
    lock.(numWaiters := lock.numWaiters + 1, waitQueue := lock.waitQueue + [reply], joined := lock.joined + [reply])
  }

  /** A lock taken by a client that found it available. */
  function Taken(lock: ServerLock, machine: int): ServerLock {
    lock.(available := false, owner := machine, grants := lock.grants + 1)
  }

  /** The lock after its owner lets go: to the first waiter, or available again. */
  function PassedOn(lock: ServerLock): ServerLock {
    if lock.numWaiters > 0 && lock.waitQueue != [] then
      var next := lock.waitQueue[0];
      lock.(numWaiters := lock.numWaiters - 1, waitQueue := lock.waitQueue[1..], owner := next.machine,
            grants := lock.grants + 1, releases := lock.releases + 1, served := lock.served + [next])
    else lock.(owner := -1, available := true, releases := lock.releases + 1)
  }

  /** Release, also as part of Wait: the new owner's answer goes out. */
  function Release(s: Server, l: int): Server
    requires HasLock(s, l)
  {
    var lock := s.locks[l];
    var passed := SetLock(s, l, PassedOn(lock));
    if lock.numWaiters > 0 && lock.waitQueue != [] then Send(passed, lock.waitQueue[0]) else passed
  }

  function Acquire(s: Server, l: int, reply: Reply): Server {
    if !HasLock(s, l) then Send(s, reply)
    else if s.locks[l].available then Send(SetLock(s, l, Taken(s.locks[l], reply.machine)), reply)
    else SetLock(s, l, Enqueue(s.locks[l], reply))
  }

  /** The first waiter moves to the lock's queue. */
  function MoveFirst(s: Server, c: int, l: int): Server
    requires HasLock(s, l) && HasCV(s, c) && s.cvs[c].waitQueue != []
  {
    var cv := s.cvs[c];
    SetLock(s, l, Enqueue(s.locks[l], cv.waitQueue[0])).(cvs := s.cvs[c := cv.(numWaiters := cv.numWaiters - 1, waitQueue := cv.waitQueue[1..])])
  }

  function Signal(s: Server, c: int, l: int): Server
    requires HasLock(s, l)
  {
    if HasCV(s, c) && s.cvs[c].serverLockIndex == l && s.cvs[c].numWaiters > 0 && s.cvs[c].waitQueue != [] then MoveFirst(s, c, l) else s
  }

  function MoveAll(s: Server, c: int, l: int): Server
    requires HasLock(s, l) && HasCV(s, c)
    decreases |s.cvs[c].waitQueue|
  {
    if s.cvs[c].numWaiters > 0 && s.cvs[c].waitQueue != [] then MoveAll(MoveFirst(s, c, l), c, l) else s
  }

  function Broadcast(s: Server, c: int, l: int): Server
    requires HasLock(s, l)
  {
    if HasCV(s, c) && s.cvs[c].serverLockIndex == l then MoveAll(s, c, l) else s
  }

  function Bind(s: Server, c: int, l: int): Server
    requires HasCV(s, c)
  {
    s.(cvs := s.cvs[c := s.cvs[c].(serverLockIndex := l)])
  }

  /** The answer is kept until a signal. */
  function Park(s: Server, c: int, reply: Reply): Server
    requires HasCV(s, c)
  {
    s.(cvs := s.cvs[c := s.cvs[c].(numWaiters := s.cvs[c].numWaiters + 1, waitQueue := s.cvs[c].waitQueue + [reply])])
  }

  function Wait(s: Server, c: int, l: int, reply: Reply): Server
    requires HasLock(s, l) && HasCV(s, c)
  {
    Park(Release(Bind(s, c, l), l), c, reply)
  }

  /** The index of the entry with that name, or the size of the table. */
  function LockNamed(locks: seq<ServerLock>, name: Name, i: nat := 0): (r: nat)
    requires i <= |locks|
    ensures i <= r <= |locks| && (r < |locks| ==> locks[r].name == name) && forall j :: i <= j < r ==> locks[j].name != name
    decreases |locks| - i
  {
    if i == |locks| || locks[i].name == name then i else LockNamed(locks, name, i + 1)
  }

  function CVNamed(cvs: seq<ServerCV>, name: Name, i: nat := 0): (r: nat)
    requires i <= |cvs|
    ensures i <= r <= |cvs| && (r < |cvs| ==> cvs[r].name == name) && forall j :: i <= j < r ==> cvs[j].name != name
    decreases |cvs| - i
  {
    if i == |cvs| || cvs[i].name == name then i else CVNamed(cvs, name, i + 1)
  }

  predicate Owns(s: Server, l: int, machine: int) { HasLock(s, l) && s.locks[l].owner == machine }

  function AddLock(s: Server, name: Name): Server {
    if LockNamed(s.locks, name) < |s.locks| then s else s.(locks := s.locks + [ServerLock(name, true, -1, 0, [], 0, 0, [], [])])
  }

  function AddCV(s: Server, name: Name): Server {
    if CVNamed(s.cvs, name) < |s.cvs| then s else s.(cvs := s.cvs + [ServerCV(name, -1, 0, [])])
  }

  /** What a request that is answered at once does to the tables. */
  function Change(s: Server, machine: int, request: Request): Server {
    match request
    case CreateLock(name) => AddLock(s, name)
    case CreateCV(name) => AddCV(s, name)
    case ReleaseLock(l) => if Owns(s, l, machine) then Release(s, l) else s
    case SignalCV(c, l) => if Owns(s, l, machine) then Signal(s, c, l) else s
    case BroadcastCV(c, l) => if Owns(s, l, machine) then Broadcast(s, c, l) else s
    case AcquireLock(_) => s
    case WaitCV(_, _) => s
  }

  predicate CanWait(s: Server, c: int, l: int, machine: int) {
    Owns(s, l, machine) && HasCV(s, c) && (s.cvs[c].serverLockIndex == l || s.cvs[c].serverLockIndex == -1)
  }

  /** One turn of the server's loop: log the request, then answer it or keep the answer for later. */
  function Handle(s: Server, machine: int, box: int, request: Request): Server {
    var reply := Logged(s, machine, box, request);
    Act(s.(requests := s.requests + [reply]), machine, request, reply)
  }

  function Act(s: Server, machine: int, request: Request, reply: Reply): Server {
    if request.AcquireLock? then Acquire(s, request.lock, reply)
    else if request.WaitCV? && CanWait(s, request.cv, request.lock, machine) then Wait(s, request.cv, request.lock, reply)
    else Send(Change(s, machine, request), reply)
  }

  /** The answer that a request is owed. */
  function Logged(s: Server, machine: int, box: int, request: Request): Reply {
    Reply(machine, box, |s.requests|,
          match request
          case CreateLock(name) => Char(LockNamed(s.locks, name))
          case CreateCV(name) => Char(CVNamed(s.cvs, name))
          case _ => Char(Ack))
  }

  // ---------------------------------------------------------------- the invariant

  ghost predicate LockOk(lock: ServerLock) {
    && (lock.available <==> lock.owner == -1)
    && (lock.available ==> lock.waitQueue == [])
    && lock.numWaiters == |lock.waitQueue|
    && lock.grants - lock.releases == (if lock.available then 0 else 1)
    && lock.joined == lock.served + lock.waitQueue
    && (forall k :: 0 <= k < |lock.waitQueue| ==> lock.waitQueue[k].machine >= 0)
  }

  ghost predicate CVOk(s: Server, cv: ServerCV) {
    && cv.numWaiters == |cv.waitQueue| && -1 <= cv.serverLockIndex < |s.locks|
    && (cv.waitQueue != [] ==> cv.serverLockIndex != -1)
    && (forall k :: 0 <= k < |cv.waitQueue| ==> cv.waitQueue[k].machine >= 0)
  }

  ghost predicate NamesOk(s: Server) {
    && (forall i, j :: 0 <= i < j < |s.locks| ==> s.locks[i].name != s.locks[j].name)
    && (forall i, j :: 0 <= i < j < |s.cvs| ==> s.cvs[i].name != s.cvs[j].name)
  }

  ghost predicate TablesOk(s: Server) {
    && (forall l :: 0 <= l < |s.locks| ==> LockOk(s.locks[l]))
    && (forall c :: 0 <= c < |s.cvs| ==> CVOk(s, s.cvs[c]))
  }

  lemma PassedOnOk(lock: ServerLock)
    requires LockOk(lock) && lock.owner != -1
    ensures LockOk(PassedOn(lock))
  {
    if lock.waitQueue != [] {
      assert lock.served + lock.waitQueue == (lock.served + [lock.waitQueue[0]]) + lock.waitQueue[1..];
    }
  }

  lemma EnqueueOk(lock: ServerLock, reply: Reply)
    requires LockOk(lock) && !lock.available && reply.machine >= 0
    ensures LockOk(Enqueue(lock, reply))
  {
  }

  lemma SetLockOk(s: Server, l: int, lock: ServerLock)
    requires TablesOk(s) && HasLock(s, l) && LockOk(lock)
    ensures TablesOk(SetLock(s, l, lock))
  {
  }

  lemma ReleaseOk(s: Server, l: int)
    requires TablesOk(s) && HasLock(s, l) && s.locks[l].owner != -1
    ensures TablesOk(Release(s, l))
  {
    PassedOnOk(s.locks[l]);
    SetLockOk(s, l, PassedOn(s.locks[l]));
  }

  lemma MoveFirstOk(s: Server, c: int, l: int)
    requires TablesOk(s) && HasLock(s, l) && HasCV(s, c) && !s.locks[l].available && s.cvs[c].waitQueue != []
    ensures TablesOk(MoveFirst(s, c, l)) && !MoveFirst(s, c, l).locks[l].available
  {
    EnqueueOk(s.locks[l], s.cvs[c].waitQueue[0]);
  }

  lemma {:induction false} MoveAllOk(s: Server, c: int, l: int)
    requires TablesOk(s) && HasLock(s, l) && HasCV(s, c) && !s.locks[l].available
    ensures TablesOk(MoveAll(s, c, l))
    decreases |s.cvs[c].waitQueue|
  {
    if s.cvs[c].numWaiters > 0 && s.cvs[c].waitQueue != [] {
      MoveFirstOk(s, c, l);
      MoveAllOk(MoveFirst(s, c, l), c, l);
    }
  }

  lemma WaitOk(s: Server, c: int, l: int, reply: Reply)
    requires TablesOk(s) && HasLock(s, l) && HasCV(s, c) && s.locks[l].owner != -1 && reply.machine >= 0
    ensures TablesOk(Wait(s, c, l, reply))
  {
    assert TablesOk(Bind(s, c, l));
    ReleaseOk(Bind(s, c, l), l);
  }

  lemma ChangeOk(s: Server, machine: int, request: Request)
    requires TablesOk(s) && machine >= 0
    ensures TablesOk(Change(s, machine, request))
  {
    match request
    case CreateLock(_) =>
    case AcquireLock(_) =>
    case ReleaseLock(l) => if Owns(s, l, machine) { ReleaseOk(s, l); }
    case CreateCV(_) =>
    case SignalCV(c, l) => if Owns(s, l, machine) && HasCV(s, c) && s.cvs[c].waitQueue != [] { MoveFirstOk(s, c, l); }
    case BroadcastCV(c, l) => if Owns(s, l, machine) && HasCV(s, c) { MoveAllOk(s, c, l); }
    case WaitCV(_, _) =>
  }

  lemma AcquireOk(s: Server, l: int, reply: Reply)
    requires TablesOk(s) && reply.machine >= 0
    ensures TablesOk(Acquire(s, l, reply))
  {
    if HasLock(s, l) && !s.locks[l].available { EnqueueOk(s.locks[l], reply); }
  }

  /** Every message keeps the tables in order. */
  lemma HandleOk(s: Server, machine: int, box: int, request: Request)
    requires TablesOk(s) && machine >= 0
    ensures TablesOk(Handle(s, machine, box, request))
  {
    var reply := Logged(s, machine, box, request);
    var t := s.(requests := s.requests + [reply]);
    assert TablesOk(t);
    if request.AcquireLock? { AcquireOk(t, request.lock, reply); }
    else if request.WaitCV? && CanWait(t, request.cv, request.lock, machine) { WaitOk(t, request.cv, request.lock, reply); }
    else { ChangeOk(t, machine, request); }
  }

  // ---------------------------------------------------------------- no answer is lost or doubled

  function Count(q: seq<Reply>, x: Reply): nat {
    if q == [] then 0 else Count(q[..|q| - 1], x) + if q[|q| - 1] == x then 1 else 0
  }

  lemma CountAppend(q: seq<Reply>, r: Reply, x: Reply)
    ensures Count(q + [r], x) == Count(q, x) + if r == x then 1 else 0
  {
    assert (q + [r])[..|q|] == q;
  }

  lemma {:induction false} CountHead(q: seq<Reply>, x: Reply)
    requires q != []
    ensures Count(q, x) == Count(q[1..], x) + if q[0] == x then 1 else 0
  {
    var n := |q| - 1;
    if n > 0 {
      CountHead(q[..n], x);
      assert q[..n][1..] == q[1..][..n - 1];
    }
  }

  function InLocks(locks: seq<ServerLock>, x: Reply): nat {
    if locks == [] then 0 else InLocks(locks[..|locks| - 1], x) + Count(locks[|locks| - 1].waitQueue, x)
  }

  function InCVs(cvs: seq<ServerCV>, x: Reply): nat {
    if cvs == [] then 0 else InCVs(cvs[..|cvs| - 1], x) + Count(cvs[|cvs| - 1].waitQueue, x)
  }

  /** How often an answer has been sent or sits in a queue of a lock or of a condition. */
  function Owed(s: Server, x: Reply): nat { Count(s.sent, x) + InLocks(s.locks, x) + InCVs(s.cvs, x) }

  lemma {:induction false} LockQueueChange(locks: seq<ServerLock>, l: int, lock: ServerLock, x: Reply)
    requires 0 <= l < |locks|
    ensures InLocks(locks[l := lock], x) == InLocks(locks, x) - Count(locks[l].waitQueue, x) + Count(lock.waitQueue, x)
  {
    var n := |locks| - 1;
    if l < n {
      LockQueueChange(locks[..n], l, lock, x);
      assert locks[l := lock][..n] == locks[..n][l := lock];
    } else {
      assert locks[l := lock][..n] == locks[..n];
    }
  }

  lemma {:induction false} CVQueueChange(cvs: seq<ServerCV>, c: int, cv: ServerCV, x: Reply)
    requires 0 <= c < |cvs|
    ensures InCVs(cvs[c := cv], x) == InCVs(cvs, x) - Count(cvs[c].waitQueue, x) + Count(cv.waitQueue, x)
  {
    var n := |cvs| - 1;
    if c < n {
      CVQueueChange(cvs[..n], c, cv, x);
      assert cvs[c := cv][..n] == cvs[..n][c := cv];
    } else {
      assert cvs[c := cv][..n] == cvs[..n];
    }
  }

  lemma ReleaseOwed(s: Server, l: int, x: Reply)
    requires HasLock(s, l)
    ensures Owed(Release(s, l), x) == Owed(s, x)
  {
    var lock := s.locks[l];
    LockQueueChange(s.locks, l, PassedOn(lock), x);
    if lock.numWaiters > 0 && lock.waitQueue != [] {
      CountHead(lock.waitQueue, x);
      CountAppend(s.sent, lock.waitQueue[0], x);
    }
  }

  lemma AcquireOwed(s: Server, l: int, reply: Reply, x: Reply)
    ensures Owed(Acquire(s, l, reply), x) == Owed(s, x) + if reply == x then 1 else 0
  {
    CountAppend(s.sent, reply, x);
    if HasLock(s, l) {
      CountAppend(s.locks[l].waitQueue, reply, x);
      LockQueueChange(s.locks, l, if s.locks[l].available then Taken(s.locks[l], reply.machine) else Enqueue(s.locks[l], reply), x);
    }
  }

  lemma MoveFirstOwed(s: Server, c: int, l: int, x: Reply)
    requires HasLock(s, l) && HasCV(s, c) && s.cvs[c].waitQueue != []
    ensures Owed(MoveFirst(s, c, l), x) == Owed(s, x)
  {
    var m, q := MoveFirst(s, c, l), s.cvs[c].waitQueue;
    LockQueueChange(s.locks, l, m.locks[l], x);
    CVQueueChange(s.cvs, c, m.cvs[c], x);
    CountHead(q, x);
    CountAppend(s.locks[l].waitQueue, q[0], x);
  }

  lemma {:induction false} MoveAllOwed(s: Server, c: int, l: int, x: Reply)
    requires HasLock(s, l) && HasCV(s, c)
    ensures Owed(MoveAll(s, c, l), x) == Owed(s, x)
    decreases |s.cvs[c].waitQueue|
  {
    if s.cvs[c].numWaiters > 0 && s.cvs[c].waitQueue != [] {
      MoveFirstOwed(s, c, l, x);
      MoveAllOwed(MoveFirst(s, c, l), c, l, x);
    }
  }

  lemma CVOwed(s: Server, c: int, cv: ServerCV, x: Reply)
    requires HasCV(s, c)
    ensures Owed(s.(cvs := s.cvs[c := cv]), x) == Owed(s, x) - Count(s.cvs[c].waitQueue, x) + Count(cv.waitQueue, x)
  {
    CVQueueChange(s.cvs, c, cv, x);
  }

  lemma BindOwed(s: Server, c: int, l: int, x: Reply)
    requires HasCV(s, c)
    ensures Owed(Bind(s, c, l), x) == Owed(s, x)
  {
    CVOwed(s, c, s.cvs[c].(serverLockIndex := l), x);
  }

  lemma ParkOwed(s: Server, c: int, reply: Reply, x: Reply)
    requires HasCV(s, c)
    ensures Owed(Park(s, c, reply), x) == Owed(s, x) + if reply == x then 1 else 0
  {
    var q := s.cvs[c].waitQueue;
    CountAppend(q, reply, x);
    CVOwed(s, c, s.cvs[c].(numWaiters := s.cvs[c].numWaiters + 1, waitQueue := q + [reply]), x);
  }

  lemma WaitOwed(s: Server, c: int, l: int, reply: Reply, x: Reply)
    requires HasLock(s, l) && HasCV(s, c)
    ensures Owed(Wait(s, c, l, reply), x) == Owed(s, x) + if reply == x then 1 else 0
  {
    BindOwed(s, c, l, x);
    ReleaseOwed(Bind(s, c, l), l, x);
    ParkOwed(Release(Bind(s, c, l), l), c, reply, x);
  }

  lemma CreateOwed(s: Server, name: Name, x: Reply)
    ensures InLocks(s.locks + [ServerLock(name, true, -1, 0, [], 0, 0, [], [])], x) == InLocks(s.locks, x)
    ensures InCVs(s.cvs + [ServerCV(name, -1, 0, [])], x) == InCVs(s.cvs, x)
  {
    assert (s.locks + [ServerLock(name, true, -1, 0, [], 0, 0, [], [])])[..|s.locks|] == s.locks;
    assert (s.cvs + [ServerCV(name, -1, 0, [])])[..|s.cvs|] == s.cvs;
  }

  lemma SendOwed(s: Server, reply: Reply, x: Reply)
    ensures Owed(Send(s, reply), x) == Owed(s, x) + if reply == x then 1 else 0
  {
    CountAppend(s.sent, reply, x);
  }

  lemma ChangeOwed(s: Server, machine: int, request: Request, x: Reply)
    ensures Owed(Change(s, machine, request), x) == Owed(s, x) && Change(s, machine, request).requests == s.requests
  {
    match request
    case CreateLock(name) => CreateOwed(s, name, x);
    case CreateCV(name) => CreateOwed(s, name, x);
    case ReleaseLock(l) => if Owns(s, l, machine) { ReleaseOwed(s, l, x); }
    case SignalCV(c, l) => if Owns(s, l, machine) && HasCV(s, c) && s.cvs[c].waitQueue != [] { MoveFirstOwed(s, c, l, x); }
    case BroadcastCV(c, l) => if Owns(s, l, machine) && HasCV(s, c) { BroadcastLog(s, c, l, x); }
    case AcquireLock(_) =>
    case WaitCV(_, _) =>
  }

  /** Each message adds its own answer, once, and nothing else. */
  lemma HandleOwed(s: Server, machine: int, box: int, request: Request, x: Reply)
    ensures Owed(Handle(s, machine, box, request), x) == Owed(s, x) + if Logged(s, machine, box, request) == x then 1 else 0
    ensures Handle(s, machine, box, request).requests == s.requests + [Logged(s, machine, box, request)]
  {
    var reply := Logged(s, machine, box, request);
    var t := s.(requests := s.requests + [reply]);
    assert Owed(t, x) == Owed(s, x);
    ActOwed(t, machine, request, reply, x);
  }

  lemma ActOwed(s: Server, machine: int, request: Request, reply: Reply, x: Reply)
    ensures Owed(Act(s, machine, request, reply), x) == Owed(s, x) + if reply == x then 1 else 0
    ensures Act(s, machine, request, reply).requests == s.requests
  {
    if request.AcquireLock? {
      AcquireOwed(s, request.lock, reply, x);
    } else if request.WaitCV? && CanWait(s, request.cv, request.lock, machine) {
      WaitOwed(s, request.cv, request.lock, reply, x);
    } else {
      ChangeOwed(s, machine, request, x);
      SendOwed(Change(s, machine, request), reply, x);
    }
  }

  lemma BroadcastLog(s: Server, c: int, l: int, x: Reply)
    requires HasLock(s, l) && HasCV(s, c)
    ensures Owed(MoveAll(s, c, l), x) == Owed(s, x) && MoveAll(s, c, l).requests == s.requests
  {
    MoveAllOwed(s, c, l, x);
    MoveAllKeeps(s, c, l);
  }

  // ---------------------------------------------------------------- signals only move answers, in order

  lemma {:induction false} MoveAllKeeps(s: Server, c: int, l: int)
    requires HasLock(s, l) && HasCV(s, c)
    ensures var m := MoveAll(s, c, l);
            && m.requests == s.requests && m.sent == s.sent && |m.locks| == |s.locks| && |m.cvs| == |s.cvs|
            && (forall i :: 0 <= i < |s.locks| && i != l ==> m.locks[i] == s.locks[i])
            && (forall i :: 0 <= i < |s.cvs| && i != c ==> m.cvs[i] == s.cvs[i])
            && m.locks[l].name == s.locks[l].name && m.cvs[c].name == s.cvs[c].name && m.cvs[c].serverLockIndex == s.cvs[c].serverLockIndex
    decreases |s.cvs[c].waitQueue|
  {
    if s.cvs[c].numWaiters > 0 && s.cvs[c].waitQueue != [] { MoveAllKeeps(MoveFirst(s, c, l), c, l); }
  }

  /** Broadcast appends the whole queue of the condition, in its order, to the queue of the lock it is bound to. */
  lemma {:induction false} MoveAllInOrder(s: Server, c: int, l: int)
    requires HasLock(s, l) && HasCV(s, c) && s.cvs[c].numWaiters == |s.cvs[c].waitQueue|
    ensures var m := MoveAll(s, c, l);
            && |m.locks| == |s.locks| && |m.cvs| == |s.cvs|
            && m.locks[l].waitQueue == s.locks[l].waitQueue + s.cvs[c].waitQueue && m.cvs[c].waitQueue == []
            && m.locks[l].owner == s.locks[l].owner && m.locks[l].available == s.locks[l].available
            && m.locks[l].grants == s.locks[l].grants && m.locks[l].releases == s.locks[l].releases
    decreases |s.cvs[c].waitQueue|
  {
    if s.cvs[c].waitQueue != [] {
      MoveAllInOrder(MoveFirst(s, c, l), c, l);
      assert s.cvs[c].waitQueue == [s.cvs[c].waitQueue[0]] + s.cvs[c].waitQueue[1..];
    }
  }

  lemma SignalInOrder(s: Server, c: int, l: int)
    requires TablesOk(s) && HasLock(s, l) && HasCV(s, c) && s.cvs[c].serverLockIndex == l && s.cvs[c].waitQueue != []
    ensures var m, q := Signal(s, c, l), s.cvs[c].waitQueue;
            && m.locks[l].waitQueue == s.locks[l].waitQueue + [q[0]] && m.cvs[c].waitQueue == q[1..] && m.sent == s.sent
  {
  }

  // ---------------------------------------------------------------- every message sequence

  datatype Message = Message(machine: nat, box: int, request: Request)

  ghost function Serve(messages: seq<Message>): Server {
    if messages == [] then Server([], [], [], [])
    else
      var m := messages[|messages| - 1];
      Handle(Serve(messages[..|messages| - 1]), m.machine, m.box, m.request)
  }

  /** Mutual exclusion: after any messages, on each lock the grants exceed the releases by one exactly while it is
      taken, it is available exactly when it has no owner, an available lock has no waiters, counts are queue lengths,
      and waiters have been served in the order in which they joined. */
  lemma {:induction false} AlwaysExclusive(messages: seq<Message>)
    ensures TablesOk(Serve(messages))
  {
    if messages != [] {
      var n := |messages| - 1;
      AlwaysExclusive(messages[..n]);
      HandleOk(Serve(messages[..n]), messages[n].machine, messages[n].box, messages[n].request);
    }
  }

  /** Every request has been answered exactly once, or its answer sits in exactly one queue, once; and nothing else has
      been answered or sits anywhere. */
  ghost predicate Conserved(s: Server, x: Reply) {
    (forall k :: 0 <= k < |s.requests| ==> s.requests[k].request == k) && Owed(s, x) == if x in s.requests then 1 else 0
  }

  lemma ConservedStep(s: Server, t: Server, r: Reply, x: Reply)
    requires Conserved(s, x) && t.requests == s.requests + [r] && r.request == |s.requests|
    requires Owed(t, x) == Owed(s, x) + if r == x then 1 else 0
    ensures Conserved(t, x)
  {
    assert x in s.requests + [r] <==> x in s.requests || x == r;
  }

  lemma HandleConserved(s: Server, machine: int, box: int, request: Request, x: Reply)
    requires Conserved(s, x)
    ensures Conserved(Handle(s, machine, box, request), x) && |Handle(s, machine, box, request).requests| == |s.requests| + 1
  {
    HandleOwed(s, machine, box, request, x);
    ConservedStep(s, Handle(s, machine, box, request), Logged(s, machine, box, request), x);
  }

  /** Conservation of answers, after any messages. */
  lemma {:induction false} AnswersConserved(messages: seq<Message>, x: Reply)
    ensures Conserved(Serve(messages), x) && |Serve(messages).requests| == |messages|
  {
    if messages != [] {
      var n := |messages| - 1;
      AnswersConserved(messages[..n], x);
      HandleConserved(Serve(messages[..n]), messages[n].machine, messages[n].box, messages[n].request, x);
    }
  }

  // ---------------------------------------------------------------- names

  ghost predicate SameNames(s: Server, t: Server) {
    && |t.locks| == |s.locks| && (forall i :: 0 <= i < |s.locks| ==> t.locks[i].name == s.locks[i].name)
    && |t.cvs| == |s.cvs| && (forall i :: 0 <= i < |s.cvs| ==> t.cvs[i].name == s.cvs[i].name)
  }

  lemma SameNamesOk(s: Server, t: Server)
    requires NamesOk(s) && SameNames(s, t)
    ensures NamesOk(t)
  {
  }

  lemma ChangeNames(s: Server, machine: int, request: Request)
    requires NamesOk(s)
    ensures NamesOk(Change(s, machine, request))
  {
    match request
    case CreateLock(_) =>
    case CreateCV(_) =>
    case ReleaseLock(_) => SameNamesOk(s, Change(s, machine, request));
    case SignalCV(_, _) => SameNamesOk(s, Change(s, machine, request));
    case BroadcastCV(c, l) =>
      if Owns(s, l, machine) && HasCV(s, c) { MoveAllKeeps(s, c, l); }
      SameNamesOk(s, Change(s, machine, request));
    case AcquireLock(_) =>
    case WaitCV(_, _) =>
  }

  lemma ActNames(s: Server, machine: int, request: Request, reply: Reply)
    requires NamesOk(s)
    ensures NamesOk(Act(s, machine, request, reply))
  {
    if request.AcquireLock? {
      SameNamesOk(s, Acquire(s, request.lock, reply));
    } else if request.WaitCV? && CanWait(s, request.cv, request.lock, machine) {
      SameNamesOk(s, Wait(s, request.cv, request.lock, reply));
    } else {
      ChangeNames(s, machine, request);
    }
  }

  /** No two locks, and no two conditions, ever have one name. */
  lemma {:induction false} AlwaysNamed(messages: seq<Message>)
    ensures NamesOk(Serve(messages))
  {
    if messages != [] {
      var n := |messages| - 1;
      var s, m := Serve(messages[..n]), messages[n];
      AlwaysNamed(messages[..n]);
      var reply := Logged(s, m.machine, m.box, m.request);
      ActNames(s.(requests := s.requests + [reply]), m.machine, m.request, reply);
    }
  }

  // ---------------------------------------------------------------- conditions stay bound

  lemma ActBound(s: Server, machine: int, request: Request, reply: Reply, c: int)
    requires HasCV(s, c) && s.cvs[c].serverLockIndex != -1
    ensures var t := Act(s, machine, request, reply);
            HasCV(t, c) && t.cvs[c].serverLockIndex == s.cvs[c].serverLockIndex
  {
    if request.BroadcastCV? && Owns(s, request.lock, machine) && HasCV(s, request.cv) { MoveAllKeeps(s, request.cv, request.lock); }
  }

  lemma HandleBound(s: Server, m: Message, c: int)
    requires HasCV(s, c) && s.cvs[c].serverLockIndex != -1
    ensures var t := Handle(s, m.machine, m.box, m.request);
            HasCV(t, c) && t.cvs[c].serverLockIndex == s.cvs[c].serverLockIndex
  {
    var reply := Logged(s, m.machine, m.box, m.request);
    ActBound(s.(requests := s.requests + [reply]), m.machine, m.request, reply, c);
  }

  /** The condition is bound to lock l. */
  ghost predicate Bound(s: Server, c: int, l: int) { HasCV(s, c) && s.cvs[c].serverLockIndex == l && l != -1 }

  lemma ServeBound(messages: seq<Message>, m: Message, c: int, l: int)
    requires Bound(Serve(messages), c, l)
    ensures Bound(Serve(messages + [m]), c, l)
  {
    assert (messages + [m])[..|messages|] == messages;
    HandleBound(Serve(messages), m, c);
  }

  /** Once a condition has been waited on with a lock, no later messages bind it to another. */
  lemma {:induction false} StaysBound(messages: seq<Message>, later: seq<Message>, c: int, l: int)
    requires Bound(Serve(messages), c, l)
    ensures Bound(Serve(messages + later), c, l)
    decreases |later|
  {
    if later == [] {
      assert messages + later == messages;
    } else {
      ServeBound(messages, later[0], c, l);
      StaysBound(messages + [later[0]], later[1..], c, l);
      assert messages + [later[0]] + later[1..] == messages + later;
    }
  }
}
