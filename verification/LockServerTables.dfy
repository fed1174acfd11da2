/**
 The lock server's tables, changed in place message by message.
 */
module LockServerTables {
  import opened LockServers
  import Spec = LockServers

  class LockServer {
    var locks: seq<ServerLock>
    var cvs: seq<ServerCV>
    var requests: seq<Reply>
    var sent: seq<Reply>

    ghost function State(): Server
      reads this
    {
      Server(locks, cvs, requests, sent)
    }

    constructor ()
      ensures State() == Spec.Serve([])
    {
      locks, cvs, requests, sent := [], [], [], [];
    }

    method FindLock(name: Name) returns (index: int)
      ensures index == if LockNamed(locks, name) < |locks| then LockNamed(locks, name) else -1
    {
      var i := 0;
      while i < |locks|
        invariant 0 <= i <= |locks| && LockNamed(locks, name) == LockNamed(locks, name, i)
      {
        if name == locks[i].name { return i; }
        i := i + 1;
      }
      return -1;
    }

    method CreateLock(name: Name) returns (id: int)
      modifies this
      ensures State() == AddLock(old(State()), name) && id == LockNamed(old(locks), name)
    {
      id := FindLock(name);
      if id == -1 {
        id := |locks|;
        locks := locks + [ServerLock(name, true, -1, 0, [], 0, 0, [], [])];
      }
    }

    method CreateCV(name: Name) returns (id: int)
      modifies this
      ensures State() == AddCV(old(State()), name) && id == CVNamed(old(cvs), name)
    {
      var i := 0;
      while i < |cvs|
        invariant 0 <= i <= |cvs| && CVNamed(cvs, name) == CVNamed(cvs, name, i) && State() == old(State())
      {
        if name == cvs[i].name { return i; }
        i := i + 1;
      }
      id := |cvs|;
      cvs := cvs + [ServerCV(name, -1, 0, [])];
    }

    /** The first waiter becomes the owner and gets its answer, or the lock is available again. */
    method Release(index: int)
      requires 0 <= index < |locks| && locks[index].numWaiters == |locks[index].waitQueue|
      modifies this
      ensures State() == Spec.Release(old(State()), index)
    {
      var lock := locks[index];
      if lock.numWaiters > 0 {
        var next := lock.waitQueue[0];
        locks := locks[index := lock.(numWaiters := lock.numWaiters - 1, waitQueue := lock.waitQueue[1..], owner := next.machine,
                                      grants := lock.grants + 1, releases := lock.releases + 1, served := lock.served + [next])];
        sent := sent + [next];
      } else {
        locks := locks[index := lock.(owner := -1, available := true, releases := lock.releases + 1)];
      }
    }

    method Acquire(index: int, reply: Reply)
      modifies this
      ensures State() == Spec.Acquire(old(State()), index, reply)
    {
      if !(index > -1 && index < |locks|) {
        sent := sent + [reply];
      } else if locks[index].available {
        locks := locks[index := locks[index].(available := false, owner := reply.machine, grants := locks[index].grants + 1)];
        sent := sent + [reply];
      } else {
        var lock := locks[index];
        locks := locks[index := lock.(numWaiters := lock.numWaiters + 1, waitQueue := lock.waitQueue + [reply], joined := lock.joined + [reply])];
      }
    }

    method Shift(condIndex: int, lockIndex: int)
      requires 0 <= condIndex < |cvs| && 0 <= lockIndex < |locks| && cvs[condIndex].waitQueue != []
      modifies this
      ensures State() == MoveFirst(old(State()), condIndex, lockIndex)
    {
      var cv, lock := cvs[condIndex], locks[lockIndex];
      var moved := cv.waitQueue[0];
      cvs := cvs[condIndex := cv.(numWaiters := cv.numWaiters - 1, waitQueue := cv.waitQueue[1..])];
      locks := locks[lockIndex := lock.(numWaiters := lock.numWaiters + 1, waitQueue := lock.waitQueue + [moved], joined := lock.joined + [moved])];
    }

    method Signal(condIndex: int, lockIndex: int)
      requires 0 <= lockIndex < |locks| && TablesOk(State())
      modifies this
      ensures State() == Spec.Signal(old(State()), condIndex, lockIndex)
    {
      if condIndex > -1 && condIndex < |cvs| {
        assert CVOk(State(), cvs[condIndex]);
        if cvs[condIndex].serverLockIndex == lockIndex && cvs[condIndex].numWaiters > 0 { Shift(condIndex, lockIndex); }
      }
    }

    method Broadcast(condIndex: int, lockIndex: int)
      requires 0 <= lockIndex < |locks| && TablesOk(State())
      modifies this
      ensures State() == Spec.Broadcast(old(State()), condIndex, lockIndex)
    {
      if condIndex > -1 && condIndex < |cvs| && cvs[condIndex].serverLockIndex == lockIndex {
        assert CVOk(State(), cvs[condIndex]);
        while cvs[condIndex].numWaiters > 0
          invariant 0 <= lockIndex < |locks| && 0 <= condIndex < |cvs| && cvs[condIndex].numWaiters == |cvs[condIndex].waitQueue|
          invariant MoveAll(State(), condIndex, lockIndex) == MoveAll(old(State()), condIndex, lockIndex)
          decreases |cvs[condIndex].waitQueue|
        {
          Shift(condIndex, lockIndex);
        }
      }
    }

    method Wait(condIndex: int, lockIndex: int, reply: Reply)
      requires 0 <= condIndex < |cvs| && 0 <= lockIndex < |locks| && TablesOk(State())
      modifies this
      ensures State() == Spec.Wait(old(State()), condIndex, lockIndex, reply)
    {
      assert LockOk(locks[lockIndex]);
      cvs := cvs[condIndex := cvs[condIndex].(serverLockIndex := lockIndex)];
      Release(lockIndex);
      var cv := cvs[condIndex];
      cvs := cvs[condIndex := cv.(numWaiters := cv.numWaiters + 1, waitQueue := cv.waitQueue + [reply])];
    }

    method Dispatch(machine: int, request: Request, reply: Reply)
      requires TablesOk(State()) && machine >= 0
      modifies this
      ensures State() == Change(old(State()), machine, request)
    {
      match request
      case CreateLock(name) =>
        var id := CreateLock(name);
      case CreateCV(name) =>
        var id := CreateCV(name);
      case ReleaseLock(l) =>
        if l > -1 && l < |locks| && locks[l].owner == machine {
          assert LockOk(locks[l]);
          Release(l);
        }
      case SignalCV(c, l) => if l > -1 && l < |locks| && locks[l].owner == machine { Signal(c, l); }
      case BroadcastCV(c, l) => if l > -1 && l < |locks| && locks[l].owner == machine { Broadcast(c, l); }
      case AcquireLock(_) =>
      case WaitCV(_, _) =>
    }

    /** One message: what the tables and the mail become, and the order the tables stay in. */
    method Answer(machine: int, box: int, request: Request)
      requires TablesOk(State()) && machine >= 0
      modifies this
      ensures State() == Handle(old(State()), machine, box, request) && TablesOk(State())
    {
      HandleOk(State(), machine, box, request);
      var value := Char(Ack);
      if request.CreateLock? {
        var found := FindLock(request.name);
        value := Char(if found == -1 then |locks| else found);
      } else if request.CreateCV? {
        value := Char(CVNamed(cvs, request.name));
      }
      var reply := Reply(machine, box, |requests|, value);
      requests := requests + [reply];
      assert TablesOk(State());
      if request.AcquireLock? {
        Acquire(request.lock, reply);
      } else if request.WaitCV? && request.lock > -1 && request.lock < |locks| && locks[request.lock].owner == machine
                && request.cv > -1 && request.cv < |cvs|
                && (cvs[request.cv].serverLockIndex == request.lock || cvs[request.cv].serverLockIndex == -1) {
        Wait(request.cv, request.lock, reply);
      } else {
        Dispatch(machine, request, reply);
        sent := sent + [reply];
      }
    }
  }
}
