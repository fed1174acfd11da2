/**
 Paging refines one flat byte array: when it does, for every run of loads, stores, faults and evictions,
 and (in LostWrite.dfy) that it does not otherwise.
 */
module FlatMemory {
  import opened Words
  import opened Paging
  import opened Counting
  import opened Coherence
  import opened NoLostWrite

  // ---------------------------------------------------------------- the flat memory

  /** What user code should see: a plain array of bytes. */
  function FlatAccess(flat: seq<Byte>, a: Access): (seq<Byte>, seq<Byte>)
    requires a.Sized() && 0 <= a.addr && a.addr + a.Size() <= |flat|
  {
    if !a.Aligned() then (flat, [])
    else match a
      case Load(addr, size) => (flat, flat[addr..addr + size])
      case Store(addr, data) => (Splice(flat, addr, data), [])
  }

  function NumPages(s: VM, sp: SpaceId := s.current): nat
    requires sp in s.spaces
  {
    |s.spaces[sp].pageTable|
  }

  lemma ContentSize(s: VM, v: int, sp: SpaceId := s.current)
    requires Coherent(s) && IsPage(s, sp, v)
    ensures |Content(s, sp, v)| == PageSize
  {
    assert PageOk(s, sp, v);
  }

  lemma AddressSplit(n: nat, a: int)
    requires 0 <= a < n * PageSize
    ensures 0 <= a / PageSize < n && 0 <= a % PageSize < PageSize
  {
  }

  ghost function ByteAt(s: VM, a: int, sp: SpaceId := s.current): Byte
    requires Coherent(s) && sp in s.spaces && 0 <= a < NumPages(s, sp) * PageSize
  {
    AddressSplit(NumPages(s, sp), a);
    ContentSize(s, a / PageSize, sp);
    Content(s, sp, a / PageSize)[a % PageSize]
  }

  /** The address space of a program, the current one unless another is named, page after page. */
  ghost function Image(s: VM, sp: SpaceId := s.current): (flat: seq<Byte>)
    requires Coherent(s) && sp in s.spaces
    ensures |flat| == NumPages(s, sp) * PageSize
    ensures forall a :: 0 <= a < |flat| ==> flat[a] == ByteAt(s, a, sp)
  {
    seq(NumPages(s, sp) * PageSize, a requires 0 <= a < NumPages(s, sp) * PageSize => ByteAt(s, a, sp))
  }

  /** An access that lies in the address space of n pages. */
  ghost predicate InSpace(a: Access, n: nat) {
    a.Sized() && 0 <= a.addr && a.addr + a.Size() <= n * PageSize
  }

  lemma InSpaceLegal(s: VM, a: Access)
    requires Shape(s) && InSpace(a, NumPages(s))
    ensures IsPage(s, s.current, a.Vpn())
  {
    AddressSplit(NumPages(s), a.addr);
  }

  /** Every page of the program has the same content in both states. */
  ghost predicate SamePages(s: VM, t: VM, sp: SpaceId) {
    && sp in s.spaces && sp in t.spaces && NumPages(t, sp) == NumPages(s, sp)
    && forall v :: IsPage(s, sp, v) ==> Content(t, sp, v) == Content(s, sp, v)
  }

  lemma SameImage(s: VM, t: VM, sp: SpaceId)
    requires Coherent(s) && Coherent(t) && SamePages(s, t, sp)
    ensures Image(t, sp) == Image(s, sp)
  {
    forall a | 0 <= a < NumPages(s, sp) * PageSize ensures ByteAt(t, a, sp) == ByteAt(s, a, sp) {
      AddressSplit(NumPages(s, sp), a);
      assert IsPage(s, sp, a / PageSize);
    }
  }

  lemma OffsetIn(a: Access, i: int)
    requires a.Sized() && a.Aligned() && a.addr <= i < a.addr + a.Size()
    ensures i / PageSize == a.Vpn() && i % PageSize == a.Offset() + (i - a.addr)
  {
    FitsInPage(a);
  }

  lemma OffsetOut(a: Access, i: int)
    requires a.Sized() && a.Aligned() && !(a.addr <= i < a.addr + a.Size()) && i / PageSize == a.Vpn()
    ensures !(a.Offset() <= i % PageSize < a.Offset() + a.Size())
  {
  }

  lemma HitByte(s: VM, a: Access, i: int)
    requires Coherent(s) && InSpace(a, NumPages(s)) && Attempt(s, a).1 == NoException
    requires 0 <= i < NumPages(s) * PageSize
    ensures Coherent(Attempt(s, a).0) && ByteAt(Attempt(s, a).0, i) == FlatAccess(Image(s), a).0[i]
  {
    InSpaceLegal(s, a);
    AttemptCoherent(s, a);
    AddressSplit(NumPages(s), i);
    AttemptContent(s, a, s.current, i / PageSize);
    var p := Content(s, s.current, i / PageSize);
    assert Image(s)[i] == p[i % PageSize];
    if a.Store? {
      if a.addr <= i < a.addr + |a.data| {
        OffsetIn(a, i);
      } else if i / PageSize == a.Vpn() {
        OffsetOut(a, i);
      }
    }
  }

  lemma HitDataByte(s: VM, a: Access, k: int)
    requires Coherent(s) && InSpace(a, NumPages(s)) && a.Aligned() && 0 <= k < a.Size()
    ensures IsPage(s, s.current, a.Vpn()) && 0 <= a.Offset() + k < |Content(s, s.current, a.Vpn())| && a.addr + k < |Image(s)|
    ensures Image(s)[a.addr + k] == Content(s, s.current, a.Vpn())[a.Offset() + k]
  {
    InSpaceLegal(s, a);
    OffsetIn(a, a.addr + k);
    assert Image(s)[a.addr + k] == ByteAt(s, a.addr + k);
  }

  lemma HitSlice(s: VM, a: Access)
    requires Coherent(s) && InSpace(a, NumPages(s)) && a.Aligned() && a.addr + a.Size() <= |Image(s)|
    requires IsPage(s, s.current, a.Vpn()) && 0 <= a.Offset() && a.Offset() + a.Size() <= |Content(s, s.current, a.Vpn())|
    ensures Content(s, s.current, a.Vpn())[a.Offset()..a.Offset() + a.Size()] == Image(s)[a.addr..a.addr + a.Size()]
  {
    var read, flat := Content(s, s.current, a.Vpn())[a.Offset()..a.Offset() + a.Size()], Image(s)[a.addr..a.addr + a.Size()];
    forall k | 0 <= k < a.Size() ensures read[k] == flat[k] { HitDataByte(s, a, k); }
  }

  lemma HitData(s: VM, a: Access)
    requires Coherent(s) && InSpace(a, NumPages(s)) && Attempt(s, a).1 == NoException && a.Load?
    ensures Attempt(s, a).2 == FlatAccess(Image(s), a).1
  {
    InSpaceLegal(s, a);
    AttemptContent(s, a, s.current, a.Vpn());
    HitSlice(s, a);
  }

  /** A hit is the flat access. */
  lemma HitIsFlat(s: VM, a: Access)
    requires Coherent(s) && InSpace(a, NumPages(s)) && Attempt(s, a).1 == NoException
    ensures Coherent(Attempt(s, a).0)
    ensures var (t, x, d) := Attempt(s, a); (Image(t), d) == FlatAccess(Image(s), a)
  {
    AttemptCoherent(s, a);
    var t := Attempt(s, a).0;
    var flat := FlatAccess(Image(s), a).0;
    forall i | 0 <= i < |Image(t)| ensures Image(t)[i] == flat[i] { HitByte(s, a, i); }
    assert Image(t) == flat;
    if a.Load? { HitData(s, a); }
  }

  lemma FaultIsFlat(s: VM, a: Access, rnd: nat)
    requires Coherent(s) && !s.halted && InSpace(a, NumPages(s)) && SafeFault(s, a.Vpn(), rnd)
    requires IsPage(s, s.current, a.Vpn()) && Evictable(s) && Attempt(s, a).1 == PageFault
    ensures var u := HandlePageFault(s, a.Vpn(), rnd);
            !u.halted ==> Coherent(u) && NumPages(u) == NumPages(s) && Image(u) == Image(s) && FindSlot(u.tlb, a.Vpn()) < |u.tlb|
  {
    FaultCoherent(s, a.Vpn(), rnd);
    FaultContent(s, a.Vpn(), rnd);
    var u := HandlePageFault(s, a.Vpn(), rnd);
    if !u.halted { SameImage(s, u, s.current); }
  }

  lemma RetryIsFlat(s: VM, a: Access)
    requires Coherent(s) && InSpace(a, NumPages(s)) && FindSlot(s.tlb, a.Vpn()) < |s.tlb|
    ensures var (t, x, d) := Attempt(s, a); Coherent(t) && (a.Aligned() ==> x == NoException && (Image(t), d) == FlatAccess(Image(s), a))
  {
    TranslateCoherent(s, a);
    AttemptCoherent(s, a);
    if a.Aligned() { HitIsFlat(s, a); }
  }

  /** One user access, faults included, is the flat access when its eviction is safe. */
  lemma AccessIsFlat(s: VM, a: Access, rnd: nat)
    requires Coherent(s) && !s.halted && InSpace(a, NumPages(s)) && SafeFault(s, a.Vpn(), rnd)
    ensures IsPage(s, s.current, a.Vpn())
    ensures var (t, x, d) := MemoryStep(s, a, rnd); !t.halted ==> Coherent(t) && (Image(t), d) == FlatAccess(Image(s), a)
  {
    InSpaceLegal(s, a);
    FullIsEvictable(s);
    if Attempt(s, a).1 == PageFault {
      FaultIsFlat(s, a, rnd);
      var u := HandlePageFault(s, a.Vpn(), rnd);
      if !u.halted { RetryIsFlat(u, a); }
    } else if a.Aligned() {
      TranslateCoherent(s, a);
      HitIsFlat(s, a);
    }
  }

  lemma AccessTracked(s: VM, a: Access, rnd: nat, every: bool)
    requires Coherent(s) && !s.halted && a.Sized() && IsPage(s, s.current, a.Vpn()) && AllTracked(s, -1, every)
    ensures var t := MemoryStep(s, a, rnd).0; t.halted || AllTracked(t, -1, every)
  {
    FullIsEvictable(s);
    AttemptTracked(s, a, every);
    if Attempt(s, a).1 == PageFault {
      FaultCoherent(s, a.Vpn(), rnd);
      FaultTracked(s, a.Vpn(), rnd, every);
      var u := HandlePageFault(s, a.Vpn(), rnd);
      if !u.halted { AttemptTracked(u, a, every); }
    }
  }

  // ---------------------------------------------------------------- stale slots go before their frame's turn

  /** Fills since slot i was filled: 0 for the newest, |tlb| - 1 for the one to be replaced next. */
  function Age(s: VM, i: int): int {
    if i < s.currentTLB then s.currentTLB - 1 - i else s.currentTLB - 1 - i + |s.tlb|
  }

  /** Evictions since frame p's own, counting it: |ipt| when p is next in turn. */
  function Turn(s: VM, p: int): int {
    if p < s.currentIPT then s.currentIPT - p else s.currentIPT - p + |s.ipt|
  }

  /** Frames are handed out in order, and an invalid slot is older than its frame's last eviction. */
  ghost predicate InOrder(s: VM)
    requires Shape(s)
  {
    var k := FirstClear(s.memoryMap);
    && !s.randomPolicy
    && (k < |s.ipt| ==> s.currentIPT == 0 && forall p :: k <= p < |s.ipt| ==> !s.memoryMap[p])
    && forall i :: 0 <= i < |s.tlb| && !s.tlb[i].valid ==> Age(s, i) >= if k < |s.ipt| then k else Turn(s, s.tlb[i].physicalPage)
  }

  /** The key: with at least as many frames as slots, no stale slot names the frame about to go. */
  lemma StaleGone(s: VM)
    requires Shape(s) && InOrder(s) && |s.tlb| <= |s.ipt| && FirstClear(s.memoryMap) == |s.ipt|
    ensures NoStale(s, s.currentIPT, false)
  {
  }

  lemma FillInOrder(s: VM, ppn: nat)
    requires Shape(s) && InOrder(s) && ppn < |s.ipt| && s.ipt[ppn].entry.physicalPage == ppn && s.ipt[ppn].entry.valid
    ensures InOrder(UpdateTLB(s, ppn))
  {
    var t := UpdateTLB(s, ppn);
    forall i | 0 <= i < |t.tlb| && !t.tlb[i].valid ensures Age(t, i) == Age(s, i) + 1 && t.tlb[i] == s.tlb[i] { }
  }

  lemma FirstClearIs(bits: seq<bool>, k: nat)
    requires k <= |bits| && (forall j :: 0 <= j < k ==> bits[j]) && (k < |bits| ==> !bits[k])
    ensures FirstClear(bits) == k
  {
  }

  /** What a miss does to the replacement state, with a free frame and with an eviction. */
  lemma MissTables(s: VM, vpn: int, rnd: nat)
    requires Coherent(s) && Evictable(s) && !s.halted
    requires IsPage(s, s.current, vpn) && FindFrame(s.ipt, s.current, vpn) == |s.ipt| && !ChooseFrame(s, rnd).0.halted
    ensures var t := HandlePageFault(s, vpn, rnd);
            var k := FirstClear(s.memoryMap);
            && |t.tlb| == |s.tlb| && |t.ipt| == |s.ipt| && t.randomPolicy == s.randomPolicy
            && t.currentTLB == Next(s.currentTLB, |s.tlb|) && t.tlb[s.currentTLB].valid
            && (k < |s.ipt| ==> t.memoryMap == s.memoryMap[k := true] && t.currentIPT == s.currentIPT)
            && (k == |s.ipt| ==> t.memoryMap == s.memoryMap && (!s.randomPolicy ==> t.currentIPT == Next(s.currentIPT, |s.ipt|)))
            && forall i :: 0 <= i < |s.tlb| && i != s.currentTLB ==>
                 t.tlb[i] == if k == |s.ipt| then Invalidate(s.tlb, Victim(s, rnd))[i] else s.tlb[i]
  {
    var (u, ppn) := ChooseFrame(s, rnd);
    ChooseTables(s, rnd);
    LoadTables(u, vpn, ppn);
  }

  lemma ChooseTables(s: VM, rnd: nat)
    requires Evictable(s) && !s.halted && !ChooseFrame(s, rnd).0.halted
    ensures var u, k := ChooseFrame(s, rnd).0, FirstClear(s.memoryMap);
            && |u.tlb| == |s.tlb| && |u.ipt| == |s.ipt| && u.randomPolicy == s.randomPolicy && u.currentTLB == s.currentTLB
            && u.tlb == (if k == |s.ipt| then Invalidate(s.tlb, Victim(s, rnd)) else s.tlb)
            && (k < |s.ipt| ==> u.memoryMap == s.memoryMap[k := true] && u.currentIPT == s.currentIPT)
            && (k == |s.ipt| ==> u.memoryMap == s.memoryMap && (!s.randomPolicy ==> u.currentIPT == Next(s.currentIPT, |s.ipt|)))
  {
  }

  lemma LoadTables(u: VM, vpn: int, ppn: nat)
    requires Shape(u) && ppn < |u.ipt| && IsPage(u, u.current, vpn)
    ensures var w := IPTMiss(u, vpn, ppn);
            && w.ipt[ppn].entry.physicalPage == ppn
            && var t := UpdateTLB(w, ppn);
               && |t.tlb| == |u.tlb| && |t.ipt| == |u.ipt| && t.randomPolicy == u.randomPolicy && t.memoryMap == u.memoryMap
               && t.currentIPT == u.currentIPT && t.currentTLB == Next(u.currentTLB, |u.tlb|) && t.tlb[u.currentTLB].valid
               && forall i :: 0 <= i < |u.tlb| && i != u.currentTLB ==> t.tlb[i] == u.tlb[i]
  {
  }

  lemma MissInOrder(s: VM, vpn: int, rnd: nat)
    requires Coherent(s) && Evictable(s) && InOrder(s) && |s.tlb| <= |s.ipt| && !s.halted
    requires IsPage(s, s.current, vpn) && FindFrame(s.ipt, s.current, vpn) == |s.ipt| && !ChooseFrame(s, rnd).0.halted
    ensures InOrder(HandlePageFault(s, vpn, rnd))
  {
    MissTables(s, vpn, rnd);
    InOrderMoves(s, HandlePageFault(s, vpn, rnd), Victim(s, rnd));
  }

  lemma InOrderMoves(s: VM, t: VM, victim: nat)
    requires Shape(s) && InOrder(s) && |s.tlb| <= |s.ipt| && Shape(t) && victim == s.currentIPT
    requires |t.tlb| == |s.tlb| && |t.ipt| == |s.ipt| && !t.randomPolicy
    requires t.currentTLB == Next(s.currentTLB, |s.tlb|) && t.tlb[s.currentTLB].valid
    requires var k := FirstClear(s.memoryMap);
      && (k < |s.ipt| ==> t.memoryMap == s.memoryMap[k := true] && t.currentIPT == s.currentIPT)
      && (k == |s.ipt| ==> t.memoryMap == s.memoryMap && t.currentIPT == Next(s.currentIPT, |s.ipt|))
      && forall i :: 0 <= i < |s.tlb| && i != s.currentTLB ==>
           t.tlb[i] == if k == |s.ipt| then Invalidate(s.tlb, victim)[i] else s.tlb[i]
    ensures InOrder(t)
  {
    var k := FirstClear(s.memoryMap);
    FirstClearIs(t.memoryMap, if k < |s.ipt| then k + 1 else k);
    forall i | 0 <= i < |t.tlb| && !t.tlb[i].valid
      ensures Age(t, i) == Age(s, i) + 1 && t.tlb[i].physicalPage == s.tlb[i].physicalPage
      ensures k == |s.ipt| ==> Age(t, i) >= Turn(t, t.tlb[i].physicalPage)
    { }
  }

  lemma AccessInOrder(s: VM, a: Access, rnd: nat)
    requires Coherent(s) && InOrder(s) && |s.tlb| <= |s.ipt| && !s.halted && a.Sized() && IsPage(s, s.current, a.Vpn())
    ensures var t := MemoryStep(s, a, rnd).0; t.halted || (Shape(t) && InOrder(t))
  {
    FullIsEvictable(s);
    if Attempt(s, a).1 == PageFault {
      var p := FindFrame(s.ipt, s.current, a.Vpn());
      if p < |s.ipt| {
        FillInOrder(s, p);
      } else if !ChooseFrame(s, rnd).0.halted {
        MissInOrder(s, a.Vpn(), rnd);
      }
      var u := HandlePageFault(s, a.Vpn(), rnd);
      if !u.halted { HitInOrder(u, a); }
    } else {
      HitInOrder(s, a);
    }
  }

  /** The same frames are handed out, and the same slots name them. */
  ghost predicate SameOrder(s: VM, t: VM) {
    && t.randomPolicy == s.randomPolicy && t.memoryMap == s.memoryMap && t.currentIPT == s.currentIPT && t.currentTLB == s.currentTLB
    && |t.ipt| == |s.ipt| && |t.tlb| == |s.tlb|
    && forall i :: 0 <= i < |t.tlb| ==> t.tlb[i].valid == s.tlb[i].valid && t.tlb[i].physicalPage == s.tlb[i].physicalPage
  }

  lemma SameInOrder(s: VM, t: VM)
    requires Shape(s) && Shape(t) && InOrder(s) && SameOrder(s, t)
    ensures InOrder(t)
  {
  }

  lemma HitInOrder(s: VM, a: Access)
    requires Shape(s) && InOrder(s) && a.Sized()
    ensures InOrder(Attempt(s, a).0)
  {
    assert SameOrder(s, Attempt(s, a).0);
    SameInOrder(s, Attempt(s, a).0);
  }

  // ---------------------------------------------------------------- whole runs of one program

  /** The sizes, the policy, and whether the program can lose the processor. */
  datatype Config = Config(frames: nat, slots: nat, swapSlots: nat, randomPolicy: bool, switches: bool,
                           executable: seq<Byte>, numPages: nat)
  {
    predicate Sane() { 0 < frames && 0 < slots }
    function Start(): VM requires Sane() { Boot(frames, slots, swapSlots, randomPolicy, executable, numPages) }
  }

  /** One step of the run: an access with the random number its eviction would draw, or a switch away and back. */
  ghost predicate Allowed(c: Config, e: Event) {
    match e
    case Memory(a, _) => InSpace(a, c.numPages)
    case Switch(to) => c.switches && to == 0
    case _ => false
  }

  ghost predicate OneProgram(c: Config, s: VM) {
    Coherent(s) && s.current == 0 && NumPages(s) == c.numPages && |s.tlb| == c.slots && |s.ipt| == c.frames && s.randomPolicy == c.randomPolicy
  }

  lemma OneProgramSteps(c: Config, s: VM, e: Event)
    requires OneProgram(c, s) && !s.halted && Allowed(c, e)
    ensures Legal(s, e) && (Step(s, e).halted || OneProgram(c, Step(s, e)))
  {
    if e.Memory? { InSpaceLegal(s, e.a); }
    StepCoherent(s, e);
  }

  /** The paged machine and the flat memory after the same events; both stop when the swap file is full. */
  ghost function After(c: Config, events: seq<Event>): (r: (VM, seq<Byte>))
    requires c.Sane() && forall i :: 0 <= i < |events| ==> Allowed(c, events[i])
    ensures (r.0.halted || OneProgram(c, r.0)) && |r.1| == c.numPages * PageSize
  {
    BootCoherent(c.frames, c.slots, c.swapSlots, c.randomPolicy, c.executable, c.numPages);
    if events == [] then (c.Start(), Image(c.Start()))
    else
      var n := |events| - 1;
      var (s, flat) := After(c, events[..n]);
      if s.halted then (s, flat)
      else
        OneProgramSteps(c, s, events[n]);
        (Step(s, events[n]), if events[n].Memory? then FlatAccess(flat, events[n].a).0 else flat)
  }

  /** Paging is invisible: in every reachable state every load returns the bytes of the flat memory. */
  ghost predicate RefinesFlat(c: Config)
    requires c.Sane()
  {
    forall events: seq<Event>, a: Access, rnd: nat ::
      (forall i :: 0 <= i < |events| ==> Allowed(c, events[i])) && InSpace(a, c.numPages) && a.Load? && a.Aligned()
      ==> ReadsFlat(c, After(c, events), a, rnd)
  }

  ghost predicate ReadsFlat(c: Config, now: (VM, seq<Byte>), a: Access, rnd: nat)
    requires now.0.halted || OneProgram(c, now.0)
    requires |now.1| == c.numPages * PageSize && InSpace(a, c.numPages) && a.Load?
  {
    !now.0.halted ==>
      (InSpaceLegal(now.0, a);
       var (t, x, d) := MemoryStep(now.0, a, rnd);
       t.halted || (x == NoException && d == now.1[a.addr..a.addr + a.size]))
  }

  // ---------------------------------------------------------------- three cases in which every eviction is safe

  /** All pages fit: when memory is full the missing page cannot be missing. */
  lemma AllResident(s: VM, vpn: int)
    requires Coherent(s) && IsPage(s, s.current, vpn) && s.spaces.Keys == {s.current} && NumPages(s) <= |s.ipt|
    ensures !MustEvict(s, vpn)
  {
    if MustEvict(s, vpn) {
      var held := seq(|s.ipt|, p requires 0 <= p < |s.ipt| => s.ipt[p].entry.virtualPage);
      forall p | 0 <= p < |s.ipt| ensures held[p] in UpTo(NumPages(s)) - {vpn} { assert FrameOk(s, p); }
      forall p, q | 0 <= p < q < |held| ensures held[p] != held[q] { assert FrameOk(s, p) && FrameOk(s, q); }
      DistinctCount(held);
      SubsetCount(Elements(held), UpTo(NumPages(s)) - {vpn});
      UpToCount(NumPages(s));
    }
  }

  /** When a run cannot lose a write: all pages fit, or one slot, or slots no more than frames with neither random victims nor switches. */
  predicate CannotLose(c: Config) {
    c.numPages <= c.frames || c.slots == 1 || (c.slots <= c.frames && !c.randomPolicy && !c.switches)
  }

  /** The invariant that links the two machines. */
  ghost predicate Linked(c: Config, s: VM, flat: seq<Byte>) {
    && OneProgram(c, s) && s.spaces.Keys == {0} && Image(s) == flat
    && (c.numPages <= c.frames
        || (c.slots == 1 && AllTracked(s, -1, true))
        || (c.slots <= c.frames && !c.randomPolicy && !c.switches && AllTracked(s, -1, false) && InOrder(s)))
  }

  lemma LinkedIsSafe(c: Config, s: VM, flat: seq<Byte>, vpn: int, rnd: nat)
    requires Linked(c, s, flat) && IsPage(s, s.current, vpn)
    ensures SafeFault(s, vpn, rnd)
  {
    if MustEvict(s, vpn) {
      if c.numPages <= c.frames {
        AllResident(s, vpn);
      } else {
        var p := Victim(s, rnd);
        assert FrameOk(s, p);
        if c.slots == 1 && AllTracked(s, -1, true) {
          TrackedIsSafe(s, p, true);
        } else {
          StaleGone(s);
          TrackedIsSafe(s, p, false);
        }
      }
    }
  }

  lemma SwitchKeeps(s: VM)
    requires Coherent(s)
    ensures Coherent(SaveState(s)) && Image(SaveState(s)) == Image(s)
  {
    SaveStateCoherent(s);
    assert SameContent(s, SaveState(s));
    SameImage(s, SaveState(s), s.current);
  }

  /** Each step of a run that cannot lose keeps the two memories equal. */
  lemma LinkedSteps(c: Config, s: VM, flat: seq<Byte>, e: Event)
    requires Linked(c, s, flat) && !s.halted && Allowed(c, e)
    ensures Legal(s, e)
    ensures var t := Step(s, e); t.halted || Linked(c, t, if e.Memory? then FlatAccess(flat, e.a).0 else flat)
  {
    OneProgramSteps(c, s, e);
    match e
    case Switch(to) =>
      SwitchKeeps(s);
      if c.slots == 1 && AllTracked(s, -1, true) { SaveStateTracked(s); }
    case Memory(a, rnd) =>
      InSpaceLegal(s, a);
      LinkedIsSafe(c, s, flat, a.Vpn(), rnd);
      AccessIsFlat(s, a, rnd);
      if c.slots == 1 && AllTracked(s, -1, true) {
        AccessTracked(s, a, rnd, true);
      } else if c.numPages > c.frames {
        AccessTracked(s, a, rnd, false);
        AccessInOrder(s, a, rnd);
      }
  }

  lemma StartTracked(c: Config, every: bool)
    requires c.Sane() && (every ==> c.slots == 1)
    ensures AllTracked(c.Start(), -1, every) && (!c.randomPolicy ==> InOrder(c.Start()))
  {
    BootCoherent(c.frames, c.slots, c.swapSlots, c.randomPolicy, c.executable, c.numPages);
    FirstClearIs(c.Start().memoryMap, 0);
  }

  /** Whatever the run, the paged machine shows the flat memory. */
  lemma StartLinked(c: Config)
    requires c.Sane() && CannotLose(c)
    ensures c.Start().halted || Linked(c, c.Start(), After(c, []).1)
  {
    BootCoherent(c.frames, c.slots, c.swapSlots, c.randomPolicy, c.executable, c.numPages);
    StartTracked(c, c.slots == 1);
  }

  lemma LinkedOn(c: Config, events: seq<Event>, n: nat)
    requires c.Sane() && CannotLose(c) && |events| == n + 1 && forall i :: 0 <= i < |events| ==> Allowed(c, events[i])
    requires var (s, flat) := After(c, events[..n]); s.halted || Linked(c, s, flat)
    ensures var (s, flat) := After(c, events); s.halted || Linked(c, s, flat)
  {
    var (s, flat) := After(c, events[..n]);
    if !s.halted { LinkedSteps(c, s, flat, events[n]); }
  }

  lemma {:induction false} RunIsFlat(c: Config, events: seq<Event>)
    requires c.Sane() && CannotLose(c) && forall i :: 0 <= i < |events| ==> Allowed(c, events[i])
    ensures var (s, flat) := After(c, events); s.halted || Linked(c, s, flat)
  {
    if events == [] {
      StartLinked(c);
    } else {
      RunIsFlat(c, events[..|events| - 1]);
      LinkedOn(c, events, |events| - 1);
    }
  }

  /** The no-lost-write theorem. */
  lemma NoLostWrites(c: Config)
    requires c.Sane() && CannotLose(c)
    ensures RefinesFlat(c)
  {
    forall events: seq<Event>, a: Access, rnd: nat |
      (forall i :: 0 <= i < |events| ==> Allowed(c, events[i])) && InSpace(a, c.numPages) && a.Load? && a.Aligned()
      ensures ReadsFlat(c, After(c, events), a, rnd)
    {
      RunIsFlat(c, events);
      var (s, flat) := After(c, events);
      if !s.halted {
        InSpaceLegal(s, a);
        LinkedIsSafe(c, s, flat, a.Vpn(), rnd);
        AccessIsFlat(s, a, rnd);
        MemoryStepCoherent(s, a, rnd);
      }
    }
  }
}
