/**
 Any number of programs share the frames, the TLB and the swap file: when each of them sees a memory of its own.
 */
module ManyPrograms {
  import opened Words
  import opened Paging
  import opened Coherence
  import opened NoLostWrite
  import opened FlatMemory
  import opened LostWrite

  /** One flat memory for each program. */
  type Memories = map<SpaceId, seq<Byte>>

  // ---------------------------------------------------------------- what the programs should see

  ghost predicate Sized(s: VM, m: Memories) {
    m.Keys == s.spaces.Keys && forall sp :: sp in m ==> |m[sp]| == NumPages(s, sp) * PageSize
  }

  /** Paging is invisible so far: each program would find its own memory. */
  ghost predicate Shows(s: VM, m: Memories) {
    Coherent(s) && Sized(s, m) && forall sp :: sp in m ==> Image(s, sp) == m[sp]
  }

  /** The event can happen, stays in the program's address space, and grows no stack that has pages in the swap file. */
  ghost predicate Admitted(s: VM, e: Event)
    requires Shape(s)
  {
    Legal(s, e) && Careful(s, e) && (e.Memory? ==> InSpace(e.a, NumPages(s)))
  }

  /** The memory of a program just started: its executable after the header of forty bytes, then zeros. */
  function FreshMemory(executable: seq<Byte>, numPages: nat): (flat: seq<Byte>)
    ensures |flat| == numPages * PageSize
  {
    seq(numPages * PageSize, a requires 0 <= a < numPages * PageSize => if 40 + a < |executable| then executable[40 + a] else 0)
  }

  function Zeros(n: nat): seq<Byte> { seq(n, i => 0) }

  /** The memories after the event: an access touches the current program's alone. */
  ghost function Expected(s: VM, m: Memories, e: Event): Memories
    requires Shape(s) && Sized(s, m) && Admitted(s, e)
  {
    match e
    case Memory(a, _) => m[s.current := FlatAccess(m[s.current], a).0]
    case Switch(_) => m
    case Exit(_) => m - {s.current}
    case Exec(id, executable, numPages) => m[id := FreshMemory(executable, numPages)]
    case Grow(_) => m[s.current := m[s.current] + Zeros(8 * 128)]
  }

  /** Who runs after an event, and who is still there. */
  lemma StepCurrent(s: VM, e: Event)
    requires Coherent(s, false) && !s.halted && Legal(s, e)
    ensures var t := Step(s, e);
            && t.current == (match e case Switch(to) => to case Exit(next) => next case _ => s.current)
            && t.spaces.Keys == (match e case Exit(_) => s.spaces.Keys - {s.current} case Exec(id, _, _) => s.spaces.Keys + {id} case _ => s.spaces.Keys)
  {
    if e.Memory? { MemoryStepSizes(s, e.a, e.rnd); }
    if e.Exit? { ClearMemCoherent(s, 0, false); }
  }

  lemma MemoryStepSizes(s: VM, a: Access, rnd: nat)
    requires Coherent(s, false) && !s.halted && a.Sized() && IsPage(s, s.current, a.Vpn())
    ensures SameSizes(s, MemoryStep(s, a, rnd).0)
  {
  }

  lemma FlatAccessSize(flat: seq<Byte>, a: Access)
    requires a.Sized() && 0 <= a.addr && a.addr + a.Size() <= |flat|
    ensures |FlatAccess(flat, a).0| == |flat|
  {
  }

  lemma StepSized(s: VM, m: Memories, e: Event)
    requires Coherent(s) && !s.halted && Sized(s, m) && Admitted(s, e)
    ensures Sized(Step(s, e), Expected(s, m, e))
  {
    if e.Memory? {
      MemoryStepSizes(s, e.a, e.rnd);
      FlatAccessSize(m[s.current], e.a);
    }
    if e.Exit? { ExitSized(s, m, e.next); }
  }

  lemma ExitSized(s: VM, m: Memories, next: SpaceId)
    requires Coherent(s) && !s.halted && Sized(s, m) && Legal(s, Exit(next))
    ensures Sized(Step(s, Exit(next)), m - {s.current})
  {
    ClearMemCoherent(s, 0);
    assert SameSizes(s, ClearMem(s));
  }

  // ---------------------------------------------------------------- one step

  /** Every program but x keeps its pages and its memory. */
  ghost predicate OthersSame(s: VM, t: VM, m: Memories, n: Memories, x: SpaceId) {
    forall sp :: sp in n && sp != x ==> sp in m && n[sp] == m[sp] && SamePages(s, t, sp)
  }

  lemma CarriesOver(s: VM, t: VM, m: Memories, n: Memories, x: SpaceId)
    requires Shows(s, m) && Coherent(t) && Sized(t, n) && OthersSame(s, t, m, n, x)
    requires x in n ==> Image(t, x) == n[x]
    ensures Shows(t, n)
  {
    forall sp | sp in n ensures Image(t, sp) == n[sp] {
      if sp != x { SameImage(s, t, sp); }
    }
  }

  /** An access changes no page of another program. */
  lemma AccessElsewhere(s: VM, a: Access, rnd: nat, sp: SpaceId)
    requires Coherent(s) && !s.halted && a.Sized() && IsPage(s, s.current, a.Vpn()) && SafeFault(s, a.Vpn(), rnd)
    requires sp in s.spaces && sp != s.current
    ensures var t := MemoryStep(s, a, rnd).0; !t.halted ==> SamePages(s, t, sp)
  {
    FullIsEvictable(s);
    MemoryStepSizes(s, a, rnd);
    var t := MemoryStep(s, a, rnd).0;
    if !t.halted {
      forall v | IsPage(s, sp, v) ensures Content(t, sp, v) == Content(s, sp, v) { ElsewherePage(s, a, rnd, sp, v); }
    }
  }

  lemma AttemptElsewhere(s: VM, a: Access, sp: SpaceId, v: int)
    requires Coherent(s) && a.Sized() && IsPage(s, s.current, a.Vpn()) && IsPage(s, sp, v) && sp != s.current
    ensures var t := Attempt(s, a).0; IsPage(t, sp, v) && Content(t, sp, v) == Content(s, sp, v)
  {
    if Attempt(s, a).1 == NoException { AttemptContent(s, a, sp, v); }
  }

  lemma ElsewherePage(s: VM, a: Access, rnd: nat, sp: SpaceId, v: int)
    requires Coherent(s) && !s.halted && a.Sized() && IsPage(s, s.current, a.Vpn()) && SafeFault(s, a.Vpn(), rnd)
    requires IsPage(s, sp, v) && sp != s.current
    ensures var t := MemoryStep(s, a, rnd).0; !t.halted ==> IsPage(t, sp, v) && Content(t, sp, v) == Content(s, sp, v)
  {
    FullIsEvictable(s);
    if Attempt(s, a).1 != PageFault {
      AttemptElsewhere(s, a, sp, v);
    } else {
      FaultContent(s, a.Vpn(), rnd);
      FaultCoherent(s, a.Vpn(), rnd);
      var u := HandlePageFault(s, a.Vpn(), rnd);
      if !u.halted { AttemptElsewhere(u, a, sp, v); }
    }
  }

  lemma AccessShows(s: VM, m: Memories, a: Access, rnd: nat)
    requires Shows(s, m) && !s.halted && InSpace(a, NumPages(s)) && SafeFault(s, a.Vpn(), rnd)
    ensures IsPage(s, s.current, a.Vpn())
    ensures var (t, x, d) := MemoryStep(s, a, rnd);
            !t.halted ==> Shows(t, m[s.current := FlatAccess(m[s.current], a).0]) && d == FlatAccess(m[s.current], a).1
  {
    AccessIsFlat(s, a, rnd);
    FlatAccessSize(m[s.current], a);
    var t, n := MemoryStep(s, a, rnd).0, m[s.current := FlatAccess(m[s.current], a).0];
    if !t.halted {
      MemoryStepSizes(s, a, rnd);
      AccessOthers(s, m, n, a, rnd);
      CarriesOver(s, t, m, n, s.current);
    }
  }

  lemma AccessOthers(s: VM, m: Memories, n: Memories, a: Access, rnd: nat)
    requires Coherent(s) && !s.halted && a.Sized() && IsPage(s, s.current, a.Vpn()) && SafeFault(s, a.Vpn(), rnd) && Sized(s, m)
    requires s.current in m && n.Keys == m.Keys && (forall sp :: sp in m && sp != s.current ==> n[sp] == m[sp])
    ensures var t := MemoryStep(s, a, rnd).0; !t.halted ==> OthersSame(s, t, m, n, s.current)
  {
    var t := MemoryStep(s, a, rnd).0;
    if !t.halted {
      forall sp | sp in n && sp != s.current ensures sp in m && n[sp] == m[sp] && SamePages(s, t, sp) { AccessElsewhere(s, a, rnd, sp); }
    }
  }

  lemma SwitchShows(s: VM, m: Memories, to: SpaceId)
    requires Shows(s, m) && to in s.spaces
    ensures Shows(SaveState(s).(current := to), m)
  {
    SwitchCoherent(s, to);
    var t := SaveState(s).(current := to);
    SameImage(s, t, to);
    CarriesOver(s, t, m, m, to);
  }

  // ---------------------------------------------------------------- programs come and grow

  lemma FreshImage(s: VM, id: SpaceId, executable: seq<Byte>, numPages: nat)
    requires Coherent(s) && id in s.spaces && s.spaces[id] == NewSpace(executable, numPages)
    ensures Image(s, id) == FreshMemory(executable, numPages)
  {
    var flat := FreshMemory(executable, numPages);
    forall i | 0 <= i < numPages * PageSize ensures Image(s, id)[i] == flat[i] {
      AddressSplit(numPages, i);
      assert Image(s, id)[i] == ByteAt(s, i, id);
      assert Content(s, id, i / PageSize) == ReadExecutable(executable, HeaderSize + i / PageSize * PageSize);
    }
  }

  lemma ExecShows(s: VM, m: Memories, id: SpaceId, executable: seq<Byte>, numPages: nat)
    requires Shows(s, m) && id !in s.spaces
    ensures Shows(s.(spaces := s.spaces[id := NewSpace(executable, numPages)]), m[id := FreshMemory(executable, numPages)])
  {
    ExecCoherent(s, id, executable, numPages);
    var t := s.(spaces := s.spaces[id := NewSpace(executable, numPages)]);
    FreshImage(t, id, executable, numPages);
    CarriesOver(s, t, m, m[id := FreshMemory(executable, numPages)], id);
  }

  lemma GrownImage(s: VM, lost: seq<int>)
    requires Coherent(s) && NoneSwapped(s, s.current) && |lost| == |s.spaces[s.current].pageTable|
    ensures Coherent(GrowStack(s, lost)) && Image(GrowStack(s, lost)) == Image(s) + Zeros(8 * 128)
  {
    GrowStackCoherent(s, lost);
    var t, n := GrowStack(s, lost), NumPages(s);
    forall i | 0 <= i < (n + StackPages) * PageSize ensures Image(t)[i] == (Image(s) + Zeros(8 * 128))[i] {
      AddressSplit(n + StackPages, i);
      assert Image(t)[i] == ByteAt(t, i);
      if i < n * PageSize {
        AddressSplit(n, i);
        assert !Swapped(s, s.current, i / PageSize);
        assert Image(s)[i] == ByteAt(s, i);
      }
    }
  }

  lemma GrowShows(s: VM, m: Memories, lost: seq<int>)
    requires Shows(s, m) && NoneSwapped(s, s.current) && |lost| == |s.spaces[s.current].pageTable|
    ensures Shows(GrowStack(s, lost), m[s.current := m[s.current] + Zeros(8 * 128)])
  {
    GrownImage(s, lost);
    var t := GrowStack(s, lost);
    CarriesOver(s, t, m, m[s.current := m[s.current] + Zeros(8 * 128)], s.current);
  }

  // ---------------------------------------------------------------- programs leave

  lemma ClearPageElsewhere(s: VM, v: int, sp: SpaceId)
    requires TablesOk(s, -1) && IsPage(s, s.current, v) && ResidentInRange(s) && sp in s.spaces && sp != s.current
    ensures SamePages(s, ClearPage(s, v), sp)
  {
    assert PageOk(s, s.current, v);
    var t := ClearPage(s, v);
    forall w | IsPage(s, sp, w) ensures Content(t, sp, w) == Content(s, sp, w) { assert PageOk(s, sp, w); }
  }

  lemma {:induction false} ClearMemElsewhere(s: VM, v: nat, sp: SpaceId)
    requires TablesOk(s, -1) && v <= NumPages(s) && ResidentInRange(s) && sp in s.spaces && sp != s.current
    requires forall w :: 0 <= w < v ==> !PTE(s, s.current, w).entry.valid
    ensures SamePages(s, ClearMem(s, v), sp)
    decreases NumPages(s) - v
  {
    if v < NumPages(s) {
      ClearPageCoherent(s, v);
      ClearPageElsewhere(s, v, sp);
      ClearMemElsewhere(ClearPage(s, v), v + 1, sp);
    }
  }

  lemma {:induction false} ClearMemZero(s: VM, v: nat, p: nat)
    requires Shape(s) && ResidentInRange(s) && v <= NumPages(s) && p < |s.ipt| && s.mainMemory[p] == ZeroPage()
    ensures ClearMem(s, v).mainMemory[p] == ZeroPage()
    decreases NumPages(s) - v
  {
    if v < NumPages(s) { ClearMemZero(ClearPage(s, v), v + 1, p); }
  }

  /** A program that ends leaves nothing in the frames it held. */
  lemma {:induction false} ClearMemZeroes(s: VM, v: nat, w: int)
    requires Shape(s) && ResidentInRange(s) && v <= w < NumPages(s) && PTE(s, s.current, w).entry.valid
    ensures ClearMem(s, v).mainMemory[PTE(s, s.current, w).entry.physicalPage] == ZeroPage()
    decreases NumPages(s) - v
  {
    var t := ClearPage(s, v);
    if v == w {
      ClearMemZero(t, v + 1, PTE(s, s.current, w).entry.physicalPage);
    } else {
      assert PTE(t, s.current, w) == PTE(s, s.current, w);
      ClearMemZeroes(t, v + 1, w);
    }
  }

  lemma ClearPageTracked(s: VM, v: int)
    requires TablesOk(s, -1) && IsPage(s, s.current, v) && ResidentInRange(s) && AllTracked(s, -1, true)
    ensures AllTracked(ClearPage(s, v), -1, true)
  {
    assert PageOk(s, s.current, v);
    var t := ClearPage(s, v);
    forall q | 0 <= q < |t.ipt| ensures Tracked(t, q, true) {
      assert Tracked(s, q, true);
      assert forall i :: Names(t, i, q, true) <==> Names(s, i, q, true);
    }
  }

  lemma {:induction false} ClearMemTracked(s: VM, v: nat)
    requires TablesOk(s, -1) && v <= NumPages(s) && ResidentInRange(s) && AllTracked(s, -1, true)
    requires forall w :: 0 <= w < v ==> !PTE(s, s.current, w).entry.valid
    ensures AllTracked(ClearMem(s, v), -1, true)
    decreases NumPages(s) - v
  {
    if v < NumPages(s) {
      ClearPageCoherent(s, v);
      ClearPageTracked(s, v);
      ClearMemTracked(ClearPage(s, v), v + 1);
    }
  }

  lemma ExitElsewhere(s: VM, next: SpaceId, sp: SpaceId)
    requires Coherent(s) && !s.halted && Legal(s, Exit(next)) && sp in s.spaces && sp != s.current
    ensures SamePages(s, Step(s, Exit(next)), sp)
  {
    ClearMemCoherent(s, 0);
    ClearMemElsewhere(s, 0, sp);
    DropElsewhere(ClearMem(s), next, s.current, sp);
  }

  lemma DropElsewhere(s: VM, next: SpaceId, gone: SpaceId, sp: SpaceId)
    requires Shape(s) && next in s.spaces && sp in s.spaces && sp != gone
    ensures var t := SaveState(s).(current := next); SamePages(s, t.(spaces := t.spaces - {gone}), sp)
  {
  }

  lemma ExitShows(s: VM, m: Memories, next: SpaceId)
    requires Shows(s, m) && !s.halted && Legal(s, Exit(next))
    ensures Shows(Step(s, Exit(next)), m - {s.current})
  {
    ExitCoherent(s, next);
    var t := Step(s, Exit(next));
    StepSized(s, m, Exit(next));
    forall sp | sp in m - {s.current} ensures SamePages(s, t, sp) { ExitElsewhere(s, next, sp); }
    CarriesOver(s, t, m, m - {s.current}, s.current);
  }

  // ---------------------------------------------------------------- the dirty bits stay trustworthy

  /** Frames, slots and backing copies are those of s, as far as the pages of s go. */
  lemma SameTracked(s: VM, t: VM)
    requires Coherent(s) && AllTracked(s, -1, true) && Shape(t) && t.ipt == s.ipt && t.mainMemory == s.mainMemory
    requires |t.tlb| == |s.tlb| && forall i :: 0 <= i < |s.tlb| ==> t.tlb[i] == s.tlb[i].(valid := t.tlb[i].valid)
    requires forall sp: SpaceId, v :: IsPage(s, sp, v) && IsPage(t, sp, v) ==> Backing(t, sp, v) == Backing(s, sp, v)
    ensures AllTracked(t, -1, true)
  {
    forall q | 0 <= q < |t.ipt| ensures Tracked(t, q, true) {
      assert Tracked(s, q, true) && FrameOk(s, q);
      assert forall i :: Names(t, i, q, true) <==> Names(s, i, q, true);
    }
  }

  lemma ExitTracked(s: VM, next: SpaceId)
    requires Coherent(s) && !s.halted && AllTracked(s, -1, true) && Legal(s, Exit(next))
    ensures AllTracked(Step(s, Exit(next)), -1, true)
  {
    ClearMemCoherent(s, 0);
    ClearMemTracked(s, 0);
    var u := SaveState(ClearMem(s));
    SaveStateTracked(ClearMem(s));
    SaveStateCoherent(ClearMem(s));
    DropTracked(u, next, s.current);
  }

  lemma DropTracked(s: VM, next: SpaceId, gone: SpaceId)
    requires Coherent(s) && AllTracked(s, -1, true) && next in s.spaces && next != gone
    ensures AllTracked(s.(current := next, spaces := s.spaces - {gone}), -1, true)
  {
    SameTracked(s, s.(current := next, spaces := s.spaces - {gone}));
  }

  lemma StepTracked(s: VM, e: Event)
    requires Coherent(s) && !s.halted && AllTracked(s, -1, true) && Admitted(s, e)
    ensures Step(s, e).halted || AllTracked(Step(s, e), -1, true)
  {
    match e
    case Memory(a, rnd) => AccessTracked(s, a, rnd, true);
    case Switch(to) => SameTracked(s, Step(s, e));
    case Exit(next) => ExitTracked(s, next);
    case Exec(id, executable, numPages) => SameTracked(s, Step(s, e));
    case Grow(lost) => GrowTracked(s, lost);
  }

  lemma GrowTracked(s: VM, lost: seq<int>)
    requires Coherent(s) && AllTracked(s, -1, true) && NoneSwapped(s, s.current) && |lost| == NumPages(s)
    ensures AllTracked(GrowStack(s, lost), -1, true)
  {
    forall v | IsPage(s, s.current, v) ensures !Swapped(s, s.current, v) { }
    SameTracked(s, GrowStack(s, lost));
  }

  lemma OneSlotIsSafe(s: VM, vpn: int, rnd: nat)
    requires Coherent(s) && AllTracked(s, -1, true)
    ensures SafeFault(s, vpn, rnd)
  {
    if MustEvict(s, vpn) {
      assert FrameOk(s, Victim(s, rnd));
      TrackedIsSafe(s, Victim(s, rnd), true);
    }
  }

  // ---------------------------------------------------------------- whole runs

  lemma StepShows(s: VM, m: Memories, e: Event)
    requires Shows(s, m) && !s.halted && AllTracked(s, -1, true) && Admitted(s, e)
    ensures var t := Step(s, e); t.halted || (Shows(t, Expected(s, m, e)) && AllTracked(t, -1, true))
  {
    StepTracked(s, e);
    match e
    case Memory(a, rnd) =>
      OneSlotIsSafe(s, a.Vpn(), rnd);
      AccessShows(s, m, a, rnd);
    case Switch(to) => SwitchShows(s, m, to);
    case Exit(next) => ExitShows(s, m, next);
    case Exec(id, executable, numPages) => ExecShows(s, m, id, executable, numPages);
    case Grow(lost) => GrowShows(s, m, lost);
  }

  ghost predicate SizedOrHalted(r: (VM, Memories)) { r.0.halted || (Coherent(r.0) && Sized(r.0, r.1)) }

  /** The shared machine and the memories that the programs should see, one event on. */
  ghost function Onward(now: (VM, Memories), e: Event): (next: (VM, Memories))
    requires SizedOrHalted(now)
    ensures SizedOrHalted(next)
  {
    var (s, m) := now;
    if s.halted || !Admitted(s, e) then now
    else
      StepCoherent(s, e);
      StepSized(s, m, e);
      (Step(s, e), Expected(s, m, e))
  }

  ghost function Together(start: (VM, Memories), events: seq<Event>): (r: (VM, Memories))
    requires SizedOrHalted(start)
    ensures SizedOrHalted(r)
  {
    if events == [] then start else Onward(Together(start, events[..|events| - 1]), events[|events| - 1])
  }

  ghost predicate ShowsOrHalted(r: (VM, Memories)) { r.0.halted || (Shows(r.0, r.1) && AllTracked(r.0, -1, true)) }

  lemma OnwardShows(now: (VM, Memories), e: Event)
    requires ShowsOrHalted(now)
    ensures ShowsOrHalted(Onward(now, e))
  {
    if !now.0.halted && Admitted(now.0, e) { StepShows(now.0, now.1, e); }
  }

  lemma {:induction false} TogetherShows(start: (VM, Memories), events: seq<Event>)
    requires ShowsOrHalted(start)
    ensures ShowsOrHalted(Together(start, events))
  {
    if events != [] {
      TogetherShows(start, events[..|events| - 1]);
      OnwardShows(Together(start, events[..|events| - 1]), events[|events| - 1]);
    }
  }

  // ---------------------------------------------------------------- exactly one slot

  /** A machine: its sizes and its policy. */
  datatype Sizes = Sizes(frames: nat, slots: nat, swapSlots: nat, randomPolicy: bool) {
    predicate Sane() { 0 < frames && 0 < slots }
  }

  ghost function Booted(z: Sizes, executable: seq<Byte>, numPages: nat): (r: (VM, Memories))
    requires z.Sane()
    ensures SizedOrHalted(r)
  {
    BootCoherent(z.frames, z.slots, z.swapSlots, z.randomPolicy, executable, numPages);
    (Boot(z.frames, z.slots, z.swapSlots, z.randomPolicy, executable, numPages), map[0 := FreshMemory(executable, numPages)])
  }

  /** Every load of the running program returns the bytes of its own memory. */
  ghost predicate ReadsOwn(now: (VM, Memories))
    requires SizedOrHalted(now)
  {
    !now.0.halted ==> forall a: Access, rnd: nat :: InSpace(a, NumPages(now.0)) && a.Load? && a.Aligned() ==> ReadOwn(now, a, rnd)
  }

  ghost predicate ReadOwn(now: (VM, Memories), a: Access, rnd: nat)
    requires SizedOrHalted(now) && !now.0.halted && InSpace(a, NumPages(now.0)) && a.Load?
  {
    InSpaceLegal(now.0, a);
    var (t, x, d) := MemoryStep(now.0, a, rnd);
    t.halted || (x == NoException && d == now.1[now.0.current][a.addr..a.addr + a.size])
  }

  /** Whatever programs are started, switched, grown and ended, each always reads back its own memory. */
  ghost predicate KeepsAll(z: Sizes)
    requires z.Sane()
  {
    forall executable: seq<Byte>, numPages: nat, events: seq<Event> :: ReadsOwn(Together(Booted(z, executable, numPages), events))
  }

  lemma ShowsReads(now: (VM, Memories), a: Access, rnd: nat)
    requires ShowsOrHalted(now) && !now.0.halted && InSpace(a, NumPages(now.0)) && a.Load? && a.Aligned()
    ensures ReadOwn(now, a, rnd)
  {
    InSpaceLegal(now.0, a);
    OneSlotIsSafe(now.0, a.Vpn(), rnd);
    AccessShows(now.0, now.1, a, rnd);
    MemoryStepCoherent(now.0, a, rnd);
  }

  lemma BootedShows(z: Sizes, executable: seq<Byte>, numPages: nat)
    requires z.Sane() && z.slots == 1
    ensures ShowsOrHalted(Booted(z, executable, numPages))
  {
    var c := Config(z.frames, z.slots, z.swapSlots, z.randomPolicy, true, executable, numPages);
    StartTracked(c, true);
    BootCoherent(z.frames, z.slots, z.swapSlots, z.randomPolicy, executable, numPages);
    FreshImage(c.Start(), 0, executable, numPages);
  }

  lemma OneSlotKeepsAll(z: Sizes)
    requires z.Sane() && z.slots == 1
    ensures KeepsAll(z)
  {
    forall executable: seq<Byte>, numPages: nat, events: seq<Event>
      ensures ReadsOwn(Together(Booted(z, executable, numPages), events))
    {
      BootedShows(z, executable, numPages);
      TogetherShows(Booted(z, executable, numPages), events);
      var now := Together(Booted(z, executable, numPages), events);
      if !now.0.halted {
        forall a: Access, rnd: nat | InSpace(a, NumPages(now.0)) && a.Load? && a.Aligned() ensures ReadOwn(now, a, rnd) { ShowsReads(now, a, rnd); }
      }
    }
  }

  lemma AloneOnward(c: Config, s: VM, flat: seq<Byte>, e: Event)
    requires OneProgram(c, s) && !s.halted && Sized(s, map[0 := flat]) && Allowed(c, e)
    ensures Legal(s, e)
    ensures Onward((s, map[0 := flat]), e) == (Step(s, e), map[0 := if e.Memory? then FlatAccess(flat, e.a).0 else flat])
  {
    OneProgramSteps(c, s, e);
    AloneExpected(c, s, flat, e);
  }

  lemma AloneExpected(c: Config, s: VM, flat: seq<Byte>, e: Event)
    requires OneProgram(c, s) && Sized(s, map[0 := flat]) && Allowed(c, e) && Legal(s, e)
    ensures Admitted(s, e) && Expected(s, map[0 := flat], e) == map[0 := if e.Memory? then FlatAccess(flat, e.a).0 else flat]
  {
  }

  /** One program by itself is a case of several. */
  ghost predicate Alone(c: Config, z: Sizes, events: seq<Event>)
    requires c.Sane() && z.Sane() && AllAllowed(c, events)
  {
    Together(Booted(z, c.executable, c.numPages), events) == (After(c, events).0, map[0 := After(c, events).1])
  }

  lemma AloneNone(c: Config, z: Sizes)
    requires c.Sane() && z == Sizes(c.frames, c.slots, c.swapSlots, c.randomPolicy) && z.Sane()
    ensures Alone(c, z, [])
  {
    BootCoherent(c.frames, c.slots, c.swapSlots, c.randomPolicy, c.executable, c.numPages);
    FreshImage(c.Start(), 0, c.executable, c.numPages);
  }

  lemma AloneNext(c: Config, z: Sizes, events: seq<Event>, n: nat)
    requires c.Sane() && z.Sane() && AllAllowed(c, events) && |events| == n + 1 && Alone(c, z, events[..n])
    ensures Alone(c, z, events)
  {
    var (s, flat) := After(c, events[..n]);
    if !s.halted { AloneOnward(c, s, flat, events[n]); }
  }

  lemma {:induction false} AloneTogether(c: Config, z: Sizes, events: seq<Event>)
    requires c.Sane() && z == Sizes(c.frames, c.slots, c.swapSlots, c.randomPolicy) && z.Sane() && AllAllowed(c, events)
    ensures Alone(c, z, events)
  {
    if events == [] {
      AloneNone(c, z);
    } else {
      AloneTogether(c, z, events[..|events| - 1]);
      AloneNext(c, z, events, |events| - 1);
    }
  }

  lemma AloneLoses(c: Config, s: VM, flat: seq<Byte>, a: Access, rnd: nat)
    requires OneProgram(c, s) && !s.halted && Sized(s, map[0 := flat])
    requires InSpace(a, c.numPages) && a.Load? && a.Aligned() && |flat| == c.numPages * PageSize && !ReadsFlat(c, (s, flat), a, rnd)
    ensures !ReadsOwn((s, map[0 := flat]))
  {
    assert !ReadOwn((s, map[0 := flat]), a, rnd);
  }

  lemma MoreSlotsLose(z: Sizes)
    requires z.Sane() && z.slots != 1
    ensures !KeepsAll(z)
  {
    var c := Config(z.frames, z.slots, z.swapSlots, z.randomPolicy, true, [], z.frames + 1);
    PagingExact(c);
    var events: seq<Event>, a: Access, rnd: nat :|
      (forall i :: 0 <= i < |events| ==> Allowed(c, events[i])) && InSpace(a, c.numPages) && a.Load? && a.Aligned()
      && !ReadsFlat(c, After(c, events), a, rnd);
    AloneTogether(c, z, events);
    AloneLoses(c, After(c, events).0, After(c, events).1, a, rnd);
  }

  /** A machine keeps the memories of all programs apart and intact, whatever they do, exactly when its TLB has one slot. */
  lemma SharingExact(z: Sizes)
    requires z.Sane()
    ensures KeepsAll(z) <==> z.slots == 1
  {
    if z.slots == 1 { OneSlotKeepsAll(z); } else { MoreSlotsLose(z); }
  }
}
