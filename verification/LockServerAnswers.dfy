/**
 What each message does to the tables of the lock server, and whom it answers.
 */
module LockServerAnswers {
  import opened LockServers

  /** The answer of a request that carries no index. */
  function Acknowledged(s: Server, machine: int, box: int): Reply { Reply(machine, box, |s.requests|, Char(Ack)) }

  /** No lock but l changes, and no condition but c; -1 names none. */
  ghost predicate Only(s: Server, t: Server, l: int, c: int) {
    && |t.locks| == |s.locks| && (forall j :: 0 <= j < |s.locks| && j != l ==> t.locks[j] == s.locks[j])
    && |t.cvs| == |s.cvs| && (forall j :: 0 <= j < |s.cvs| && j != c ==> t.cvs[j] == s.cvs[j])
  }

  /** The owner has let the lock go: the first waiter has it and is answered, or it is available and nobody is. */
  ghost predicate LetGo(s: Server, t: Server, l: int, answered: seq<Reply>)
    requires HasLock(s, l) && HasLock(t, l)
  {
    var q := s.locks[l].waitQueue;
    if q == [] then t.locks[l].available && t.locks[l].owner == -1 && t.locks[l].waitQueue == [] && answered == []
    else !t.locks[l].available && t.locks[l].owner == q[0].machine && t.locks[l].waitQueue == q[1..] && answered == [q[0]]
  }

  /** The byte of an answer, read as a signed char. */
  lemma CharExact(n: int)
    ensures -128 <= Char(n) < 128 && (n - Char(n)) % 256 == 0 && (0 <= n < 128 ==> Char(n) == n) && Char(Ack) == -1
  {
  }

  // ---------------------------------------------------------------- locks

  /** An existing name gives the index of its lock; a new one a free lock of its own at the end. */
  lemma CreateLockAnswers(s: Server, machine: int, box: int, name: Name)
    ensures var t := Handle(s, machine, box, CreateLock(name));
            && t.cvs == s.cvs
            && (forall i :: 0 <= i < |s.locks| && s.locks[i].name == name && (forall j :: 0 <= j < i ==> s.locks[j].name != name) ==>
                  t.locks == s.locks && t.sent == s.sent + [Reply(machine, box, |s.requests|, Char(i))])
            && ((forall j :: 0 <= j < |s.locks| ==> s.locks[j].name != name) ==>
                  && |t.locks| == |s.locks| + 1 && t.locks[..|s.locks|] == s.locks
                  && t.locks[|s.locks|].name == name && t.locks[|s.locks|].available && t.locks[|s.locks|].owner == -1 && t.locks[|s.locks|].waitQueue == []
                  && t.sent == s.sent + [Reply(machine, box, |s.requests|, Char(|s.locks|))])
  {
  }

  /** The same for conditions, which start bound to no lock. */
  lemma CreateCVAnswers(s: Server, machine: int, box: int, name: Name)
    ensures var t := Handle(s, machine, box, CreateCV(name));
            && t.locks == s.locks
            && (forall i :: 0 <= i < |s.cvs| && s.cvs[i].name == name && (forall j :: 0 <= j < i ==> s.cvs[j].name != name) ==>
                  t.cvs == s.cvs && t.sent == s.sent + [Reply(machine, box, |s.requests|, Char(i))])
            && ((forall j :: 0 <= j < |s.cvs| ==> s.cvs[j].name != name) ==>
                  && |t.cvs| == |s.cvs| + 1 && t.cvs[..|s.cvs|] == s.cvs
                  && t.cvs[|s.cvs|].name == name && t.cvs[|s.cvs|].serverLockIndex == -1 && t.cvs[|s.cvs|].waitQueue == []
                  && t.sent == s.sent + [Reply(machine, box, |s.requests|, Char(|s.cvs|))])
  {
  }

  /** A request for an available lock is granted and answered at once; for a taken one it waits at the end; for a lock
      that does not exist it is answered without effect. */
  lemma AcquireAnswers(s: Server, machine: int, box: int, l: int)
    requires TablesOk(s) && machine >= 0
    ensures var t, r := Handle(s, machine, box, AcquireLock(l)), Acknowledged(s, machine, box);
            && Only(s, t, l, -1)
            && (!HasLock(s, l) ==> t.sent == s.sent + [r])
            && (HasLock(s, l) && s.locks[l].owner == -1 ==>
                  t.locks[l].owner == machine && !t.locks[l].available && t.locks[l].waitQueue == [] && t.sent == s.sent + [r])
            && (HasLock(s, l) && s.locks[l].owner != -1 ==>
                  t.locks[l].owner == s.locks[l].owner && t.locks[l].waitQueue == s.locks[l].waitQueue + [r] && t.sent == s.sent)
  {
    if HasLock(s, l) { assert LockOk(s.locks[l]); }
  }

  /** The owner's release lets the lock go; anybody else's changes nothing. The sender is answered in any case. */
  lemma ReleaseAnswers(s: Server, machine: int, box: int, l: int)
    requires TablesOk(s) && machine >= 0
    ensures var t, r := Handle(s, machine, box, ReleaseLock(l)), Acknowledged(s, machine, box);
            && Only(s, t, l, -1)
            && (!Owns(s, l, machine) ==> t.locks == s.locks && t.sent == s.sent + [r])
            && (Owns(s, l, machine) ==> exists answered :: LetGo(s, t, l, answered) && t.sent == s.sent + answered + [r])
  {
    if Owns(s, l, machine) {
      assert LockOk(s.locks[l]);
      var t, q := Handle(s, machine, box, ReleaseLock(l)), s.locks[l].waitQueue;
      var answered := if q == [] then [] else [q[0]];
      assert LetGo(s, t, l, answered);
      assert s.sent + [] == s.sent;
    }
  }

  // ---------------------------------------------------------------- conditions

  /** An accepted wait lets the lock go as a release does, binds the condition to it and parks the answer at the end of
      the condition's queue. */
  lemma WaitAnswers(s: Server, machine: int, box: int, c: int, l: int)
    requires TablesOk(s) && machine >= 0 && Owns(s, l, machine) && HasCV(s, c)
    requires s.cvs[c].serverLockIndex == l || s.cvs[c].serverLockIndex == -1
    ensures var t, r := Handle(s, machine, box, WaitCV(c, l)), Acknowledged(s, machine, box);
            && Only(s, t, l, c)
            && t.cvs[c].serverLockIndex == l && t.cvs[c].name == s.cvs[c].name && t.cvs[c].waitQueue == s.cvs[c].waitQueue + [r]
            && exists answered :: LetGo(s, t, l, answered) && t.sent == s.sent + answered
  {
    assert LockOk(s.locks[l]);
    var t, q := Handle(s, machine, box, WaitCV(c, l)), s.locks[l].waitQueue;
    var answered := if q == [] then [] else [q[0]];
    assert LetGo(s, t, l, answered);
    assert s.sent + [] == s.sent;
  }

  /** Any other wait is answered at once and changes nothing. */
  lemma WaitRefused(s: Server, machine: int, box: int, c: int, l: int)
    requires !Owns(s, l, machine) || !HasCV(s, c) || (s.cvs[c].serverLockIndex != l && s.cvs[c].serverLockIndex != -1)
    ensures var t := Handle(s, machine, box, WaitCV(c, l));
            t.locks == s.locks && t.cvs == s.cvs && t.sent == s.sent + [Acknowledged(s, machine, box)]
  {
  }

  /** The sender is answered; if it owns the lock that the condition is bound to, the first n answers kept there have
      moved to the end of the lock's queue, in order, and otherwise nothing has changed. */
  ghost predicate Moved(s: Server, t: Server, machine: int, box: int, c: int, l: int, n: int) {
    && t.sent == s.sent + [Acknowledged(s, machine, box)]
    && if Owns(s, l, machine) && HasCV(s, c) && s.cvs[c].serverLockIndex == l then
         && Only(s, t, l, c) && 0 <= n <= |s.cvs[c].waitQueue|
         && t.locks[l].waitQueue == s.locks[l].waitQueue + s.cvs[c].waitQueue[..n]
         && t.locks[l].owner == s.locks[l].owner && t.locks[l].available == s.locks[l].available
         && t.cvs[c].waitQueue == s.cvs[c].waitQueue[n..] && t.cvs[c].serverLockIndex == l
       else t.locks == s.locks && t.cvs == s.cvs
  }

  /** Signal moves one answer, if there is one. */
  lemma SignalAnswers(s: Server, machine: int, box: int, c: int, l: int)
    requires TablesOk(s)
    ensures Moved(s, Handle(s, machine, box, SignalCV(c, l)), machine, box, c, l, if HasCV(s, c) && s.cvs[c].waitQueue != [] then 1 else 0)
  {
    if Owns(s, l, machine) && HasCV(s, c) && s.cvs[c].serverLockIndex == l {
      assert s.locks[l].waitQueue + [] == s.locks[l].waitQueue;
    }
  }

  /** Broadcast moves them all. */
  lemma BroadcastAnswers(s: Server, machine: int, box: int, c: int, l: int)
    requires TablesOk(s)
    ensures Moved(s, Handle(s, machine, box, BroadcastCV(c, l)), machine, box, c, l, if HasCV(s, c) then |s.cvs[c].waitQueue| else 0)
  {
    if Owns(s, l, machine) && HasCV(s, c) && s.cvs[c].serverLockIndex == l {
      var b := s.(requests := s.requests + [Logged(s, machine, box, BroadcastCV(c, l))]);
      MoveAllInOrder(b, c, l);
      MoveAllKeeps(b, c, l);
      assert s.cvs[c].waitQueue[..|s.cvs[c].waitQueue|] == s.cvs[c].waitQueue;
    }
  }
}
