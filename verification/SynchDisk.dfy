/**
 The synchronous disk: a lock and a semaphore turn an interrupt-driven disk into calls that return when they are done.
 */
module SynchDisks {
  import opened Options
  import opened Threads
  import opened ThreadSafety
  import opened ThreadFrames

  type Sector = seq<int>

  datatype Request = ReadSector(sector: int) | WriteSector(sector: int, data: Sector)

  /** A request and what is in the caller's buffer after it. */
  datatype Served = Served(request: Request, buffer: Sector)

  /** Where a thread is in ReadSector or WriteSector; since is how many requests the disk had taken when the call began,
      and id the number of the call's own request. */
  datatype Pc = Outside | Asking(q: Request, since: int) | AwaitDone(id: int, served: Served, since: int) | Unlock(id: int, served: Served, since: int)

  /** lock and sem name the disk's own lock and semaphore in the kernel; history records the requests as the disk took
      them, and finished counts interrupts. */
  datatype Machine = Machine(k: Kernel, lock: int, sem: int, pcs: seq<Pc>, active: bool, sectors: seq<Sector>, history: seq<Served>, finished: int)

  datatype Move = Call(q: Request) | Advance | DiskDone | Other(e: Event)

  // ---------------------------------------------------------------- a disk that does one request at a time

  predicate InRange(sectors: seq<Sector>, q: Request) { 0 <= q.sector < |sectors| }

  function Applied(sectors: seq<Sector>, q: Request): (r: seq<Sector>)
    ensures |r| == |sectors|
  {
    if q.WriteSector? && InRange(sectors, q) then sectors[q.sector := q.data] else sectors
  }

  function Answered(sectors: seq<Sector>, q: Request): Served
    requires InRange(sectors, q)
  {
    Served(q, if q.ReadSector? then sectors[q.sector] else q.data)
  }

  /** The disk's lock and semaphore are used by its own code only. */
  predicate Foreign(m: Machine, e: Event) {
    match e
    case AcquireLock(l) => l != m.lock
    case ReleaseLock(l) => l != m.lock
    case WaitOn(c, l) => l != Some(m.lock)
    case Down(s) => s != m.sem
    case Up(s) => s != m.sem
    case Interrupt(s) => s != m.sem
    case _ => true
  }

  predicate Passive(e: Event) { e.Return? || e.YieldCpu? || e.Dispatch? || e.Interrupt? }

  predicate AtPc(m: Machine, t: int) {
    m.k.current == Some(t) && 0 <= t < |m.k.threads| && t < |m.pcs| && m.k.threads[t].resume.Go?
  }

  ghost predicate Shape(m: Machine) {
    LockIndex(m.k, m.lock) && 0 <= m.sem < |m.k.sems| && |m.pcs| == |m.k.threads|
  }

  ghost predicate CanStep(m: Machine, s: Move) {
    && Sane(m.k) && Shape(m)
    && match s
       case Call(_) => m.k.current.Some? && AtPc(m, m.k.current.value) && m.pcs[m.k.current.value] == Outside
       case Advance => m.k.current.Some? && AtPc(m, m.k.current.value) && m.pcs[m.k.current.value] != Outside
       case DiskDone => m.active && Enabled(m.k, Interrupt(m.sem))
       case Other(e) =>
         && Enabled(m.k, e) && Foreign(m, e)
         && (Passive(e) || (m.k.current.Some? && 0 <= m.k.current.value < |m.pcs| && m.pcs[m.k.current.value] == Outside))
  }

  function SetPc(m: Machine, t: int, pc: Pc): Machine
    requires 0 <= t < |m.pcs|
  {
    m.(pcs := m.pcs[t := pc])
  }

  /** One line of the call; None when the disk's assertions fail: it is not active, and the sector exists. The transfer
      itself is done with the request; only the interrupt comes later. */
  ghost function Line(m: Machine, t: int): Option<Machine>
    requires Sane(m.k) && Shape(m) && AtPc(m, t)
  {
    HeadOk(m.k, AtLock(m.lock));
    match m.pcs[t]
    case Outside => Some(m)
    case Asking(q, since) =>
      if m.active || !InRange(m.sectors, q) then None
      else
        var served := Answered(m.sectors, q);
        Some(SetPc(m.(active := true, sectors := Applied(m.sectors, q), history := m.history + [served]), t, AwaitDone(|m.history| + 1, served, since)))
    case AwaitDone(id, served, since) => Some(SetPc(m.(k := P(m.k, t, m.sem)), t, Unlock(id, served, since)))
    case Unlock(_, _, _) => Some(SetPc(m.(k := Release(m.k, t, m.lock)), t, Outside))
  }

  ghost function Next(m: Machine, s: Move): Option<Machine>
    requires CanStep(m, s)
  {
    match s
    case Call(q) => Some(SetPc(m.(k := Acquire(m.k, m.k.current.value, m.lock)), m.k.current.value, Asking(q, |m.history|)))
    case Advance => Line(m, m.k.current.value)
    case DiskDone => HeadOk(m.k, AtSem(m.sem)); Some(m.(k := V(m.k, m.sem), active := false, finished := m.finished + 1))
    case Other(e) => Some(m.(k := Step(m.k, e)))
  }

  // ---------------------------------------------------------------- the invariant

  ghost predicate InsideOk(m: Machine, t: int)
    requires Shape(m) && 0 <= t < |m.pcs|
  {
    var r, owns := m.k.threads[t].resume, m.k.locks[m.lock].owner == Some(t);
    match m.pcs[t]
    case Outside => !owns && r != InAcquire(m.lock) && r != InP(m.sem) && (r.InWait? ==> r.lock != m.lock)
    case Asking(_, _) => (r.Go? && owns) || r == InAcquire(m.lock)
    case AwaitDone(_, _, _) => r.Go? && owns
    case Unlock(_, _, _) => owns && (r.Go? || r == InP(m.sem))
  }

  ghost predicate AllInside(m: Machine)
    requires Shape(m)
  {
    forall t :: 0 <= t < |m.pcs| ==> InsideOk(m, t)
  }

  /** The thread has issued its request and has not got past the semaphore. */
  predicate Waits(m: Machine, t: int)
    requires 0 <= t < |m.pcs| && t < |m.k.threads|
  {
    m.pcs[t].AwaitDone? || (m.pcs[t].Unlock? && m.k.threads[t].resume == InP(m.sem))
  }

  /** A request is under way, or its interrupt is still to be noticed, exactly while its thread waits. */
  ghost predicate Outstanding(m: Machine)
    requires Shape(m)
  {
    && |m.history| == m.finished + (if m.active then 1 else 0)
    && (forall t :: 0 <= t < |m.pcs| && Waits(m, t) ==> m.k.sems[m.sem].value + (if m.active then 1 else 0) == 1 && m.pcs[t].id == |m.history|)
    && (m.active || m.k.sems[m.sem].value != 0 ==> exists t :: 0 <= t < |m.pcs| && Waits(m, t))
    && (forall t :: 0 <= t < |m.pcs| && m.pcs[t].Unlock? && !Waits(m, t) ==> m.pcs[t].id == m.finished)
  }

  ghost predicate DiskSafe(m: Machine) { Safe(m.k) && Shape(m) && AllInside(m) && Outstanding(m) }

  // ---------------------------------------------------------------- steps that are not the disk's

  /** Nobody's plans at the disk change, nor its semaphore. */
  lemma Undisturbed(m: Machine, n: Kernel)
    requires DiskSafe(m) && Safe(n) && |n.threads| == |m.k.threads| && |n.locks| == |m.k.locks| && |n.sems| == |m.k.sems|
    requires n.sems[m.sem].value == m.k.sems[m.sem].value && AllInside(m.(k := n))
    requires forall t :: 0 <= t < |m.pcs| && m.pcs[t].Unlock? ==> n.threads[t].resume == m.k.threads[t].resume
    ensures DiskSafe(m.(k := n))
  {
    var a := m.(k := n);
    assert forall t :: 0 <= t < |m.pcs| ==> Waits(a, t) == Waits(m, t);
  }

  lemma OtherInside(m: Machine, e: Event)
    requires DiskSafe(m) && CanStep(m, Other(e)) && !e.Return?
    ensures var n := Step(m.k, e);
            && |n.threads| == |m.k.threads| && |n.locks| == |m.k.locks| && |n.sems| == |m.k.sems|
            && n.sems[m.sem] == m.k.sems[m.sem] && AllInside(m.(k := n))
            && (forall t :: 0 <= t < |m.pcs| && m.pcs[t] != Outside ==> n.threads[t].resume == m.k.threads[t].resume)
  {
    var n := Step(m.k, e);
    StepFrame(m.k, e);
    forall u | 0 <= u < |m.pcs|
      ensures InsideOk(m.(k := n), u) && (m.pcs[u] != Outside ==> n.threads[u].resume == m.k.threads[u].resume)
    {
      OtherStays(m, e, u);
    }
  }

  lemma OtherStays(m: Machine, e: Event, u: int)
    requires DiskSafe(m) && CanStep(m, Other(e)) && !e.Return? && 0 <= u < |m.pcs|
    ensures var n := Step(m.k, e);
            && |n.threads| == |m.k.threads| && |n.locks| == |m.k.locks| && |n.sems| == |m.k.sems|
            && InsideOk(m.(k := n), u) && (m.pcs[u] != Outside ==> n.threads[u].resume == m.k.threads[u].resume)
  {
    StepFrame(m.k, e);
    assert InsideOk(m, u);
  }

  lemma ReturnInside(m: Machine, t: int)
    requires DiskSafe(m) && m.k.current == Some(t) && 0 <= t < |m.pcs| && Sane(m.k) && Enabled(m.k, Return) && m.k.threads[t].resume != InP(m.sem)
    ensures var n := Step(m.k, Return);
            && |n.threads| == |m.k.threads| && |n.locks| == |m.k.locks| && |n.sems| == |m.k.sems|
            && n.sems[m.sem] == m.k.sems[m.sem] && AllInside(m.(k := n))
            && (forall u :: 0 <= u < |m.pcs| && m.pcs[u].Unlock? ==> n.threads[u].resume == m.k.threads[u].resume)
  {
    var n, r := Step(m.k, Return), m.k.threads[t].resume;
    ReturnFrame(m.k, t);
    assert InsideOk(m, t);
    if r.InAcquire? { ReturnsOwner(m.k, Return, t, r.lock); }
    forall u | 0 <= u < |m.pcs| ensures InsideOk(m.(k := n), u) { assert InsideOk(m, u); }
  }

  /** One look at the semaphore, the first or a later one. */
  lemma LookEffect(k: Kernel, t: int, s: int)
    requires Threads.Runs(k, t) && 0 <= s < |k.sems| && k.sems[s].value >= 0
    ensures var n := P(k, t, s);
            && Quiet(k, n, t) && OwnersKept(k, n, -1)
            && (k.sems[s].value == 0 ==> n.sems[s].value == 0 && n.threads[t].resume == InP(s))
            && (k.sems[s].value > 0 ==> n.sems[s].value == k.sems[s].value - 1 && n.threads[t].resume == Go)
  {
    PFrame(k, t, s);
  }

  lemma LookSafe(m: Machine, t: int)
    requires DiskSafe(m) && m.k.current == Some(t) && 0 <= t < |m.pcs| && Waits(m, t)
    requires m.k.threads[t].resume.Go? || m.k.threads[t].resume == InP(m.sem)
    ensures DiskSafe(SetPc(m.(k := P(m.k, t, m.sem)), t, Unlock(m.pcs[t].id, m.pcs[t].served, m.pcs[t].since)))
  {
    assert InsideOk(m, t) && SemOk(m.k.sems[m.sem], Woken(m.k.threads, m.sem));
    PSafe(m.k, t, m.sem);
    LookEffect(m.k, t, m.sem);
    var a := SetPc(m.(k := P(m.k, t, m.sem)), t, Unlock(m.pcs[t].id, m.pcs[t].served, m.pcs[t].since));
    forall u | 0 <= u < |a.pcs| ensures InsideOk(a, u) { assert InsideOk(m, u); }
    LookOutstanding(m, t, a);
  }

  lemma LookOutstanding(m: Machine, t: int, a: Machine)
    requires DiskSafe(m) && 0 <= t < |m.pcs| && Waits(m, t) && Shape(a) && AllInside(a)
    requires a == SetPc(m.(k := a.k), t, Unlock(m.pcs[t].id, m.pcs[t].served, m.pcs[t].since)) && Quiet(m.k, a.k, t)
    requires m.k.sems[m.sem].value == 0 ==> a.k.sems[m.sem].value == 0 && a.k.threads[t].resume == InP(m.sem)
    requires m.k.sems[m.sem].value > 0 ==> a.k.sems[m.sem].value == m.k.sems[m.sem].value - 1 && a.k.threads[t].resume == Go
    ensures Outstanding(a)
  {
    assert InsideOk(m, t);
    forall u | 0 <= u < |a.pcs| && u != t ensures !Waits(a, u) && !a.pcs[u].Unlock? { assert InsideOk(m, u); }
    assert Waits(a, t) <==> m.k.sems[m.sem].value == 0;
  }

  // ---------------------------------------------------------------- the disk's own steps

  lemma CallSafe(m: Machine, t: int, q: Request)
    requires DiskSafe(m) && AtPc(m, t) && m.pcs[t] == Outside
    ensures DiskSafe(SetPc(m.(k := Acquire(m.k, t, m.lock)), t, Asking(q, |m.history|)))
  {
    var n := Acquire(m.k, t, m.lock);
    AcquireSafe(m.k, t, m.lock);
    AcquireFrame(m.k, t, m.lock);
    var a := SetPc(m.(k := n), t, Asking(q, |m.history|));
    assert LockOk(m.k.locks[m.lock]);
    assert n.locks[m.lock].owner == m.k.locks[m.lock].owner || (m.k.locks[m.lock].owner == None && n.locks[m.lock].owner == Some(t));
    forall u | 0 <= u < |a.pcs| ensures InsideOk(a, u) { assert InsideOk(m, u); }
    forall u | 0 <= u < |a.pcs| ensures Waits(a, u) == Waits(m, u) { assert InsideOk(m, u); }
    forall u | 0 <= u < |a.pcs| && a.pcs[u].Unlock? ensures u != t && a.pcs[u] == m.pcs[u] { }
  }

  /** The owner has not issued a request yet, so none is outstanding and the disk is idle. */
  lemma RequestSafe(m: Machine, t: int)
    requires DiskSafe(m) && Sane(m.k) && AtPc(m, t) && m.pcs[t].Asking?
    ensures Line(m, t).Some? <==> InRange(m.sectors, m.pcs[t].q)
    ensures Line(m, t).Some? ==> DiskSafe(Line(m, t).value)
  {
    assert InsideOk(m, t);
    forall u | 0 <= u < |m.pcs| ensures !Waits(m, u) && !m.pcs[u].Unlock? { assert InsideOk(m, u); }
    if InRange(m.sectors, m.pcs[t].q) {
      var a := Line(m, t).value;
      forall u | 0 <= u < |a.pcs| ensures InsideOk(a, u) { assert InsideOk(m, u); }
      assert Waits(a, t);
    }
  }

  lemma UnlockSafe(m: Machine, t: int)
    requires DiskSafe(m) && Sane(m.k) && AtPc(m, t) && m.pcs[t].Unlock?
    ensures Line(m, t).Some? && DiskSafe(Line(m, t).value)
  {
    HeadOk(m.k, AtLock(m.lock));
    ReleaseSafe(m.k, t, m.lock);
    ReleaseFrame(m.k, t, m.lock);
    var a := SetPc(m.(k := Release(m.k, t, m.lock)), t, Outside);
    UnlockInside(m, t, a);
    assert InsideOk(m, t);
    forall u | 0 <= u < |m.pcs| ensures !Waits(m, u) && !Waits(a, u) && !a.pcs[u].Unlock? { assert InsideOk(m, u); }
  }

  lemma UnlockInside(m: Machine, t: int, a: Machine)
    requires DiskSafe(m) && Sane(m.k) && AtPc(m, t) && m.pcs[t].Unlock? && Line(m, t) == Some(a) && Quiet(m.k, a.k, -1)
    ensures AllInside(a)
  {
    assert InsideOk(m, t);
    if m.k.locks[m.lock].queue != [] {
      HeadIs(m.k, AtLock(m.lock));
      assert InsideOk(m, m.k.locks[m.lock].queue[0]);
    }
    forall u | 0 <= u < |a.pcs| ensures InsideOk(a, u) { assert InsideOk(m, u); }
  }

  lemma DoneSafe(m: Machine)
    requires DiskSafe(m) && CanStep(m, DiskDone)
    ensures DiskSafe(Next(m, DiskDone).value)
  {
    HeadOk(m.k, AtSem(m.sem));
    VSafe(m.k, m.sem);
    VFrame(m.k, m.sem);
    var a := Next(m, DiskDone).value;
    forall u | 0 <= u < |a.pcs| ensures InsideOk(a, u) { assert InsideOk(m, u); }
    assert forall u :: 0 <= u < |a.pcs| ==> Waits(a, u) == Waits(m, u);
    forall u | 0 <= u < |a.pcs| && a.pcs[u].Unlock? ensures Waits(a, u) { DoneWaiter(m, u); }
  }

  /** While the disk is active, the thread past the semaphore call is the one that waits. */
  lemma DoneWaiter(m: Machine, u: int)
    requires DiskSafe(m) && m.active && 0 <= u < |m.pcs| && m.pcs[u].Unlock?
    ensures Waits(m, u)
  {
    var t :| 0 <= t < |m.pcs| && Waits(m, t);
    assert InsideOk(m, t) && InsideOk(m, u);
  }

  // ---------------------------------------------------------------- every run

  lemma OtherSafe(m: Machine, e: Event)
    requires DiskSafe(m) && CanStep(m, Other(e))
    ensures DiskSafe(m.(k := Step(m.k, e)))
  {
    StepSafe(m.k, e);
    if !e.Return? {
      OtherInside(m, e);
      Undisturbed(m, Step(m.k, e));
    } else {
      var t := m.k.current.value;
      if m.k.threads[t].resume == InP(m.sem) {
        assert InsideOk(m, t);
        LookSafe(m, t);
        assert m.pcs[t := m.pcs[t]] == m.pcs;
      } else {
        ReturnInside(m, t);
        Undisturbed(m, Step(m.k, e));
      }
    }
  }

  /** The disk is about to be asked for a sector that it does not have. */
  predicate NoSuchSector(m: Machine, s: Move) {
    && s.Advance? && m.k.current.Some? && 0 <= m.k.current.value < |m.pcs|
    && m.pcs[m.k.current.value].Asking? && !InRange(m.sectors, m.pcs[m.k.current.value].q)
  }

  /** Every step keeps the invariant; the disk is never asked while active, so its assertions fail only on a sector that
      does not exist. */
  lemma NextSafe(m: Machine, s: Move)
    requires DiskSafe(m) && CanStep(m, s)
    ensures Next(m, s).Some? <==> !NoSuchSector(m, s)
    ensures Next(m, s).Some? ==> DiskSafe(Next(m, s).value)
  {
    match s
    case Call(q) => CallSafe(m, m.k.current.value, q);
    case Other(e) => OtherSafe(m, e);
    case DiskDone => DoneSafe(m);
    case Advance =>
      var t := m.k.current.value;
      match m.pcs[t] {
        case Asking(_, _) => RequestSafe(m, t);
        case AwaitDone(_, _, _) => LookSafe(m, t);
        case _ => UnlockSafe(m, t);
      }
  }

  /** The moves are possible one after the other; r is where they lead, or None if an assertion failed on the way. */
  ghost predicate RunsTo(m: Machine, moves: seq<Move>, r: Option<Machine>)
    decreases |moves|
  {
    if moves == [] then r == Some(m)
    else CanStep(m, moves[0]) && match Next(m, moves[0])
                                 case None => r == None
                                 case Some(n) => RunsTo(n, moves[1..], r)
  }

  ghost predicate Start(m: Machine) {
    && Initial(m.k) && Shape(m) && m.k.sems[m.sem].value == 0 && !m.active && m.history == [] && m.finished == 0
    && forall t :: 0 <= t < |m.pcs| ==> m.pcs[t] == Outside
  }

  lemma {:induction false} AlwaysDiskSafe(m: Machine, moves: seq<Move>, r: Option<Machine>)
    requires DiskSafe(m) && RunsTo(m, moves, r)
    ensures r.Some? ==> DiskSafe(r.value)
    decreases |moves|
  {
    if moves != [] {
      NextSafe(m, moves[0]);
      if Next(m, moves[0]).Some? { AlwaysDiskSafe(Next(m, moves[0]).value, moves[1..], r); }
    }
  }

  /** Between its request and its release. */
  predicate Busy(pc: Pc) { pc.AwaitDone? || pc.Unlock? }

  ghost predicate OneAtATime(n: Machine) {
    && |n.pcs| == |n.k.threads| && 0 <= |n.history| - n.finished <= 1
    && (forall t, u :: 0 <= t < |n.pcs| && 0 <= u < |n.pcs| && Busy(n.pcs[t]) && Busy(n.pcs[u]) ==> t == u)
    && (forall t :: 0 <= t < |n.pcs| && n.pcs[t].Unlock? && n.k.threads[t].resume.Go? ==> n.pcs[t].id <= n.finished && !n.active)
  }

  lemma SafeOneAtATime(n: Machine)
    requires DiskSafe(n)
    ensures OneAtATime(n)
  {
    forall t, u | 0 <= t < |n.pcs| && 0 <= u < |n.pcs| && Busy(n.pcs[t]) && Busy(n.pcs[u]) ensures t == u { OneBusy(n, t, u); }
    if n.active {
      forall t | 0 <= t < |n.pcs| && n.pcs[t].Unlock? ensures Waits(n, t) { DoneWaiter(n, t); }
    }
  }

  lemma OneBusy(n: Machine, t: int, u: int)
    requires DiskSafe(n) && 0 <= t < |n.pcs| && 0 <= u < |n.pcs| && Busy(n.pcs[t]) && Busy(n.pcs[u])
    ensures t == u
  {
    assert InsideOk(n, t) && InsideOk(n, u);
  }

  /** Under any schedule and interrupt timing: at most one request is outstanding, at most one thread is between its
      request and its release, and a thread about to return has seen its own interrupt. */
  lemma AtomicCalls(m: Machine, moves: seq<Move>, r: Option<Machine>)
    requires Start(m) && RunsTo(m, moves, r)
    ensures r.Some? ==> OneAtATime(r.value)
  {
    StartSafe(m);
    AlwaysDiskSafe(m, moves, r);
    if r.Some? { SafeOneAtATime(r.value); }
  }

  lemma StartSafe(m: Machine)
    requires Start(m)
    ensures DiskSafe(m)
  {
    InitialSafe(m.k);
  }

  // ---------------------------------------------------------------- the assertions hold

  /** Every call under way names a sector of the disk. */
  ghost predicate AllInRange(m: Machine) { forall t :: 0 <= t < |m.pcs| && m.pcs[t].Asking? ==> InRange(m.sectors, m.pcs[t].q) }

  ghost predicate CallsInRange(m: Machine, moves: seq<Move>) { forall k :: 0 <= k < |moves| && moves[k].Call? ==> InRange(m.sectors, moves[k].q) }

  /** If every call names a sector of the disk, no assertion of the disk ever fails. */
  lemma {:induction false} NeverFails(m: Machine, moves: seq<Move>, r: Option<Machine>)
    requires DiskSafe(m) && RunsTo(m, moves, r) && AllInRange(m) && CallsInRange(m, moves)
    ensures r.Some?
    decreases |moves|
  {
    if moves != [] {
      NextSafe(m, moves[0]);
      NextInRange(m, moves[0]);
      NeverFails(Next(m, moves[0]).value, moves[1..], r);
    }
  }

  lemma NextInRange(m: Machine, s: Move)
    requires CanStep(m, s) && Next(m, s).Some? && AllInRange(m) && (s.Call? ==> InRange(m.sectors, s.q))
    ensures AllInRange(Next(m, s).value) && |Next(m, s).value.sectors| == |m.sectors|
  {
  }

  // ---------------------------------------------------------------- the data

  /** The disk after the requests of a history, one at a time. */
  function Replay(start: seq<Sector>, history: seq<Served>): (r: seq<Sector>)
    ensures |r| == |start|
  {
    if history == [] then start else Applied(Replay(start, history[..|history| - 1]), history[|history| - 1].request)
  }

  /** Each request was answered from what the ones before it had left. */
  ghost predicate Sequential(start: seq<Sector>, history: seq<Served>) {
    forall k :: 0 <= k < |history| ==> InRange(start, history[k].request) && history[k] == Answered(Replay(start, history[..k]), history[k].request)
  }

  /** The disk holds what its history says, and every caller has in its buffer what its own request was answered with. */
  ghost predicate DataOk(m: Machine, start: seq<Sector>) {
    m.sectors == Replay(start, m.history) && Sequential(start, m.history) && BuffersOk(m.pcs, m.history)
  }

  /** Every call's own request was taken since the call began. */
  ghost predicate BuffersOk(pcs: seq<Pc>, history: seq<Served>) {
    && (forall t :: 0 <= t < |pcs| && pcs[t] != Outside ==> 0 <= pcs[t].since <= |history|)
    && forall t :: 0 <= t < |pcs| && Busy(pcs[t]) ==> pcs[t].since < pcs[t].id <= |history| && history[pcs[t].id - 1] == pcs[t].served
  }

  lemma BuffersNext(pcs: seq<Pc>, history: seq<Served>, t: int, served: Served)
    requires BuffersOk(pcs, history) && 0 <= t < |pcs| && pcs[t].Asking?
    ensures BuffersOk(pcs[t := AwaitDone(|history| + 1, served, pcs[t].since)], history + [served])
  {
  }

  lemma SequentialNext(start: seq<Sector>, history: seq<Served>, q: Request)
    requires Sequential(start, history) && InRange(start, q)
    ensures var longer := history + [Answered(Replay(start, history), q)];
            Sequential(start, longer) && Replay(start, longer) == Applied(Replay(start, history), q)
  {
    var longer := history + [Answered(Replay(start, history), q)];
    assert longer[..|history|] == history;
    forall k | 0 <= k < |longer|
      ensures InRange(start, longer[k].request) && longer[k] == Answered(Replay(start, longer[..k]), longer[k].request)
    {
      assert longer[..k] == history[..k];
    }
  }

  lemma RequestData(m: Machine, t: int, start: seq<Sector>)
    requires Sane(m.k) && Shape(m) && AtPc(m, t) && m.pcs[t].Asking? && Line(m, t).Some? && DataOk(m, start)
    ensures DataOk(Line(m, t).value, start)
  {
    SequentialNext(start, m.history, m.pcs[t].q);
    BuffersNext(m.pcs, m.history, t, Answered(m.sectors, m.pcs[t].q));
  }

  lemma NextData(m: Machine, s: Move, start: seq<Sector>)
    requires CanStep(m, s) && Next(m, s).Some? && DataOk(m, start)
    ensures DataOk(Next(m, s).value, start)
  {
    if s.Advance? && m.pcs[m.k.current.value].Asking? {
      RequestData(m, m.k.current.value, start);
    } else {
      KeepsBuffers(m, s);
    }
  }

  /** Only a request moves data. */
  lemma KeepsBuffers(m: Machine, s: Move)
    requires CanStep(m, s) && !(s.Advance? && m.pcs[m.k.current.value].Asking?)
    ensures Next(m, s).Some?
    ensures var n := Next(m, s).value;
            && n.sectors == m.sectors && n.history == m.history && |n.pcs| == |m.pcs|
            && (forall t :: 0 <= t < |m.pcs| && Busy(n.pcs[t]) ==>
                  Busy(m.pcs[t]) && n.pcs[t].id == m.pcs[t].id && n.pcs[t].served == m.pcs[t].served && n.pcs[t].since == m.pcs[t].since)
            && (forall t :: 0 <= t < |m.pcs| && n.pcs[t].Asking? ==> n.pcs[t] == m.pcs[t] || n.pcs[t].since == |m.history|)
  {
  }

  /** Under any schedule and interrupt timing, the calls have the effect of one call at a time, in the order in which
      the disk took them: each buffer and the disk itself are those of the sequential disk. */
  lemma {:induction false} CallsAreSequential(m: Machine, moves: seq<Move>, r: Option<Machine>, start: seq<Sector>)
    requires DataOk(m, start) && RunsTo(m, moves, r)
    ensures r.Some? ==> DataOk(r.value, start)
    decreases |moves|
  {
    if moves != [] && Next(m, moves[0]).Some? {
      NextData(m, moves[0], start);
      CallsAreSequential(Next(m, moves[0]).value, moves[1..], r, start);
    }
  }

  /** The request of the last call that thread t makes in a run, or of the one before the run. */
  ghost function AskedBy(m: Machine, moves: seq<Move>, t: int, before: Option<Request>): Option<Request>
    decreases |moves|
  {
    if moves == [] || !CanStep(m, moves[0]) then before
    else match Next(m, moves[0])
      case None => before
      case Some(n) => AskedBy(n, moves[1..], t, Asked(m, moves[0], t, before))
  }

  function Asked(m: Machine, s: Move, t: int, before: Option<Request>): Option<Request> {
    if s.Call? && m.k.current == Some(t) then Some(s.q) else before
  }

  /** The request that a call under way is about. */
  function RequestOf(pc: Pc): Request
    requires pc != Outside
  {
    if pc.Asking? then pc.q else pc.served.request
  }

  ghost predicate Remembers(m: Machine, t: int, asked: Option<Request>) {
    0 <= t < |m.pcs| && (m.pcs[t] != Outside ==> asked == Some(RequestOf(m.pcs[t])))
  }

  lemma NextRemembers(m: Machine, s: Move, t: int, before: Option<Request>)
    requires CanStep(m, s) && Next(m, s).Some? && Remembers(m, t, before)
    ensures Remembers(Next(m, s).value, t, Asked(m, s, t, before))
  {
  }

  lemma {:induction false} RunRemembers(m: Machine, moves: seq<Move>, n: Machine, t: int, before: Option<Request>)
    requires RunsTo(m, moves, Some(n)) && Remembers(m, t, before)
    ensures Remembers(n, t, AskedBy(m, moves, t, before))
    decreases |moves|
  {
    if moves != [] {
      NextRemembers(m, moves[0], t, before);
      RunRemembers(Next(m, moves[0]).value, moves[1..], n, t, Asked(m, moves[0], t, before));
    }
  }

  lemma {:induction false} SamePcs(m: Machine, moves: seq<Move>, n: Machine)
    requires RunsTo(m, moves, Some(n))
    ensures |n.pcs| == |m.pcs|
    decreases |moves|
  {
    if moves != [] { SamePcs(Next(m, moves[0]).value, moves[1..], n); }
  }

  /** At its return a call's own request is the last that the disk has taken, was taken since the call began, and is
      done; and it is what the thread asked for. So the calls take effect one after the other, each between its beginning
      and its end. */
  lemma AnsweredInside(m: Machine, moves: seq<Move>, r: Option<Machine>, t: int)
    requires Start(m) && RunsTo(m, moves, r) && r.Some?
    requires var n := r.value; 0 <= t < |n.pcs| && t < |n.k.threads| && n.pcs[t].Unlock? && n.k.threads[t].resume.Go?
    ensures var n, pc := r.value, r.value.pcs[t];
            && 0 <= pc.since < pc.id == |n.history| == n.finished && !n.active
            && n.history[pc.id - 1] == pc.served && n.sectors == Replay(m.sectors, n.history)
            && AskedBy(m, moves, t, None) == Some(pc.served.request)
  {
    SamePcs(m, moves, r.value);
    RunRemembers(m, moves, r.value, t, None);
    StartSafe(m);
    AlwaysDiskSafe(m, moves, r);
    CallsAreSequential(m, moves, r, m.sectors);
    LastToReturn(r.value, t);
  }

  lemma LastToReturn(n: Machine, t: int)
    requires DiskSafe(n) && 0 <= t < |n.pcs| && n.pcs[t].Unlock? && n.k.threads[t].resume.Go?
    ensures n.pcs[t].id == |n.history| == n.finished && !n.active
  {
    if n.active { DoneWaiter(n, t); }
  }

  /** None of the requests from j on, up to k, writes the sector. */
  ghost predicate Unwritten(history: seq<Served>, sector: int, j: int, k: int) {
    forall i :: 0 <= j <= i < k <= |history| ==> !(history[i].request.WriteSector? && history[i].request.sector == sector)
  }

  lemma {:induction false} SectorKept(start: seq<Sector>, history: seq<Served>, sector: int, j: nat, k: nat)
    requires j <= k <= |history| && 0 <= sector < |start| && Unwritten(history, sector, j, k)
    ensures Replay(start, history[..k])[sector] == Replay(start, history[..j])[sector]
    decreases k
  {
    if j < k {
      SectorKept(start, history, sector, j, k - 1);
      assert history[..k][..k - 1] == history[..k - 1];
    }
  }

  /** A read returns what the last write to its sector wrote. */
  lemma ReadsLastWrite(start: seq<Sector>, history: seq<Served>, j: nat, k: nat)
    requires Sequential(start, history) && j < k < |history| && history[k].request.ReadSector?
    requires history[j].request.WriteSector? && history[j].request.sector == history[k].request.sector
    requires Unwritten(history, history[k].request.sector, j + 1, k)
    ensures history[k].buffer == history[j].request.data
  {
    SectorKept(start, history, history[k].request.sector, j + 1, k);
    assert history[..j + 1][..j] == history[..j];
  }

  /** And what the disk held at first when nothing has written it. */
  lemma ReadsFirst(start: seq<Sector>, history: seq<Served>, k: nat)
    requires Sequential(start, history) && k < |history| && history[k].request.ReadSector?
    requires Unwritten(history, history[k].request.sector, 0, k)
    ensures history[k].buffer == start[history[k].request.sector]
  {
    SectorKept(start, history, history[k].request.sector, 0, k);
  }
}
