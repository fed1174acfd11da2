/**
 The other half of the paging theorem: outside the three safe cases there is, for every choice of
 sizes, a run whose last load returns the initial byte instead of the one stored.
 */
module LostWrite {
  import opened Words
  import opened Paging
  import opened Coherence
  import opened NoLostWrite
  import opened FlatMemory

  /** The byte a program finds at the start of page v before anything is stored there. */
  function InitialByte(c: Config, v: int): Byte {
    ReadExecutable(c.executable, HeaderSize + v * PageSize)[0]
  }

  function OtherByte(b: Byte): Byte { if b == 0 then 1 else 0 }

  function Touch(v: int): Access { Load(v * PageSize, 1) }

  function Poke(c: Config, v: int): Access { Store(v * PageSize, [OtherByte(InitialByte(c, v))]) }

  // ---------------------------------------------------------------- clean states

  ghost predicate FromExecutable(c: Config, s: VM) {
    forall v :: IsPage(s, 0, v) ==> PTE(s, 0, v).location == Executable && PTE(s, 0, v).byteOffset == HeaderSize + v * PageSize
  }

  /** The program runs, nothing was ever swapped out, and every page is still backed by the executable. */
  ghost predicate Unswapped(c: Config, s: VM) {
    && OneProgram(c, s) && !s.halted && 0 in s.spaces && s.spaces[0].executable == c.executable
    && (forall k :: 0 <= k < |s.swapMap| ==> !s.swapMap[k])
    && FromExecutable(c, s)
  }

  ghost predicate CleanTables(s: VM) {
    (forall i :: 0 <= i < |s.tlb| ==> !s.tlb[i].dirty) && (forall p :: 0 <= p < |s.ipt| ==> !s.ipt[p].entry.dirty)
  }

  /** The frame in which a faulting page ends up. */
  function Target(s: VM, vpn: int, rnd: nat): (f: nat)
    requires Shape(s)
    ensures f < |s.ipt|
  {
    if FindFrame(s.ipt, s.current, vpn) < |s.ipt| then FindFrame(s.ipt, s.current, vpn)
    else if FirstClear(s.memoryMap) < |s.memoryMap| then FirstClear(s.memoryMap)
    else Victim(s, rnd)
  }

  /** t differs from s by page vpn having come into frame f through the next slot. */
  ghost predicate Loaded(s: VM, t: VM, vpn: int, f: nat)
    requires Shape(s) && Shape(t) && f < |s.ipt|
  {
    && SameSizes(s, t)
    && t.currentTLB == Next(s.currentTLB, |s.tlb|)
    && Holds(t.ipt[f], s.current, vpn) && (forall p :: 0 <= p < |s.ipt| && p != f ==> t.ipt[p] == s.ipt[p])
    && t.tlb[s.currentTLB].physicalPage == f && t.tlb[s.currentTLB].virtualPage == vpn && t.tlb[s.currentTLB].valid
    && (forall i :: 0 <= i < |s.tlb| && i != s.currentTLB ==>
          t.tlb[i].physicalPage == s.tlb[i].physicalPage && t.tlb[i].virtualPage == s.tlb[i].virtualPage
          && (t.tlb[i].valid ==> s.tlb[i].valid) && (s.tlb[i].physicalPage != f ==> t.tlb[i].valid == s.tlb[i].valid))
  }

  lemma {:induction false} CleanVerdict(tlb: seq<Translation>, p: int)
    requires forall i :: 0 <= i < |tlb| && tlb[i].physicalPage == p ==> !tlb[i].dirty
    ensures !LastDirty(tlb, p, false)
  {
    if tlb != [] { CleanVerdict(tlb[..|tlb| - 1], p); }
  }

  /** Giving up a clean frame writes nothing out. */
  lemma CleanEvict(s: VM, p: nat)
    requires Coherent(s) && p < |s.ipt| && s.ipt[p].entry.valid && IsPage(s, s.ipt[p].owner, s.ipt[p].entry.virtualPage)
    requires !s.halted && !LastDirty(s.tlb, p, s.ipt[p].entry.dirty)
    ensures var t := Evict(s, p);
            && !t.halted && t.swapMap == s.swapMap && t.memoryMap == s.memoryMap && t.currentTLB == s.currentTLB
            && t.tlb == Invalidate(s.tlb, p) && t.ipt == s.ipt[p := s.ipt[p].(entry := s.ipt[p].entry.(dirty := false))]
            && (!s.randomPolicy ==> t.currentIPT == Next(s.currentIPT, |s.ipt|)) && (s.randomPolicy ==> t.currentIPT == s.currentIPT)
            && SamePlaces(s, t)
  {
  }

  /** Page by page, the backing copies of space 0 are where they were. */
  ghost predicate SamePlaces(s: VM, t: VM) {
    forall v :: IsPage(s, 0, v) ==> IsPage(t, 0, v) && SamePlace(PTE(s, 0, v), PTE(t, 0, v))
  }

  predicate SamePlace(e: PageTableEntry, f: PageTableEntry) {
    e.location == f.location && e.byteOffset == f.byteOffset && e.entry.dirty == f.entry.dirty
  }

  /** u is s with frame f freed, cleanly. */
  ghost predicate Freed(s: VM, u: VM, f: nat)
    requires Shape(s)
  {
    && Shape(u) && SameSizes(s, u) && f < |s.ipt| && !u.halted && u.swapMap == s.swapMap && u.currentTLB == s.currentTLB
    && CleanTables(u)
    && (forall p :: 0 <= p < |s.ipt| && p != f ==> u.ipt[p] == s.ipt[p])
    && (forall i :: 0 <= i < |s.tlb| ==> u.tlb[i] == if s.tlb[i].physicalPage == f && !u.tlb[i].valid then s.tlb[i].(valid := false) else s.tlb[i])
    && SamePlaces(s, u)
  }

  lemma ChooseClean(c: Config, s: VM, vpn: int, rnd: nat)
    requires Unswapped(c, s) && CleanTables(s) && Evictable(s) && FindFrame(s.ipt, 0, vpn) == |s.ipt|
    ensures var (u, f) := ChooseFrame(s, rnd);
            && f == Target(s, vpn, rnd) && Freed(s, u, f)
            && (FirstClear(s.memoryMap) < |s.ipt| ==>
                  u.memoryMap == s.memoryMap[FirstClear(s.memoryMap) := true] && u.currentIPT == s.currentIPT)
            && (FirstClear(s.memoryMap) == |s.ipt| ==> u.memoryMap == s.memoryMap && (s.randomPolicy ==> u.currentIPT == s.currentIPT))
  {
    if FirstClear(s.memoryMap) == |s.ipt| {
      assert FrameOk(s, Victim(s, rnd));
      EvictFreed(s, Victim(s, rnd));
    }
  }

  lemma EvictFreed(s: VM, f: nat)
    requires Coherent(s) && CleanTables(s) && !s.halted && f < |s.ipt| && s.ipt[f].entry.valid
    ensures IsPage(s, s.ipt[f].owner, s.ipt[f].entry.virtualPage)
    ensures var u := Evict(s, f); Freed(s, u, f) && u.memoryMap == s.memoryMap && (s.randomPolicy ==> u.currentIPT == s.currentIPT)
  {
    assert FrameOk(s, f);
    CleanVerdict(s.tlb, f);
    CleanEvict(s, f);
  }

  lemma LoadClean(s: VM, u: VM, vpn: int, f: nat)
    requires Shape(s) && Freed(s, u, f) && s.current == 0 && IsPage(s, 0, vpn) && !PTE(s, 0, vpn).entry.dirty
    requires forall p :: 0 <= p < |u.ipt| ==> u.ipt[p].entry.physicalPage == p
    ensures var t := UpdateTLB(IPTMiss(u, vpn, f), f);
            && Loaded(s, t, vpn, f) && CleanTables(t) && !t.halted && t.swapMap == s.swapMap
            && t.memoryMap == u.memoryMap && t.currentIPT == u.currentIPT
            && SamePlaces(s, t)
  {
    var w := IPTMiss(u, vpn, f);
    assert w.ipt == u.ipt[f := w.ipt[f]] && !w.ipt[f].entry.dirty && w.tlb == u.tlb;
    assert UpdateTLB(w, f).ipt == w.ipt;
  }

  lemma FillClean(s: VM, vpn: int, f: nat)
    requires Shape(s) && CleanTables(s) && f < |s.ipt| && Holds(s.ipt[f], s.current, vpn) && s.ipt[f].entry.physicalPage == f
    ensures var t := UpdateTLB(s, f); Loaded(s, t, vpn, f) && CleanTables(t) && t.ipt == s.ipt
  {
  }

  /** A fault in a clean state: it halts nothing, writes nothing out and stays clean. */
  lemma CleanFault(c: Config, s: VM, vpn: int, rnd: nat)
    requires Unswapped(c, s) && CleanTables(s) && IsPage(s, 0, vpn) && FindSlot(s.tlb, vpn) == |s.tlb|
    ensures Evictable(s)
    ensures var t := HandlePageFault(s, vpn, rnd);
            Unswapped(c, t) && CleanTables(t) && Loaded(s, t, vpn, Target(s, vpn, rnd)) && Moved(s, t, vpn)
  {
    FullIsEvictable(s);
    FaultCoherent(s, vpn, rnd);
    assert PageOk(s, 0, vpn);
    var f := Target(s, vpn, rnd);
    var t := HandlePageFault(s, vpn, rnd);
    if FindFrame(s.ipt, 0, vpn) == |s.ipt| {
      ChooseClean(c, s, vpn, rnd);
      var u := ChooseFrame(s, rnd).0;
      ChooseFrameCoherent(s, rnd);
      LoadClean(s, u, vpn, f);
    } else {
      FillClean(s, vpn, f);
    }
    forall v | IsPage(t, 0, v) ensures PTE(t, 0, v).location == Executable && PTE(t, 0, v).byteOffset == HeaderSize + v * PageSize {
      assert IsPage(s, 0, v);
    }
  }

  // ---------------------------------------------------------------- the losing step

  lemma {:induction false} HiddenDirty(tlb: seq<Translation>, p: int, j: int, initially: bool)
    requires 0 < j < |tlb| && tlb[j].physicalPage == p && forall i :: 0 < i < |tlb| ==> !tlb[i].dirty
    ensures !LastDirty(tlb, p, initially)
  {
    if tlb[|tlb| - 1].physicalPage != p { HiddenDirty(tlb[..|tlb| - 1], p, j, initially); }
  }

  /** Memory is full, frame 0 holds the stored page x, and a clean slot after slot 0 names frame 0 too. */
  ghost predicate Primed(c: Config, s: VM, x: int, y: int) {
    && Unswapped(c, s) && 0 <= x < c.numPages && 0 <= y < c.numPages && x != y
    && FirstClear(s.memoryMap) == |s.ipt| && Holds(s.ipt[0], 0, x) && FindFrame(s.ipt, 0, y) == |s.ipt|
    && Victim(s, 0) == 0
    && Hiding(s)
  }

  /** Only slot 0 can be dirty, and then it names frame 0, as a later slot does; the rows of the other frames are clean. */
  ghost predicate Hiding(s: VM) {
    && 0 < |s.tlb| && (s.tlb[0].dirty ==> s.tlb[0].physicalPage == 0)
    && (forall i :: 0 < i < |s.tlb| ==> !s.tlb[i].dirty)
    && (exists j :: 0 < j < |s.tlb| && s.tlb[j].physicalPage == 0)
    && (forall p :: 0 < p < |s.ipt| ==> !s.ipt[p].entry.dirty)
  }

  /** So no scan finds a dirty frame, whichever the victim. */
  lemma HidingVerdict(s: VM, p: nat)
    requires Shape(s) && Hiding(s) && p < |s.ipt|
    ensures !LastDirty(s.tlb, p, s.ipt[p].entry.dirty)
  {
    if p == 0 {
      var j :| 0 < j < |s.tlb| && s.tlb[j].physicalPage == 0;
      HiddenDirty(s.tlb, 0, j, s.ipt[0].entry.dirty);
    } else {
      CleanVerdict(s.tlb, p);
    }
  }

  lemma HidingChooses(s: VM)
    requires Coherent(s) && !s.halted && Hiding(s) && Evictable(s)
    ensures !ChooseFrame(s, 0).0.halted
  {
    if FirstClear(s.memoryMap) == |s.memoryMap| {
      var p := Victim(s, 0);
      assert FrameOk(s, p);
      HidingVerdict(s, p);
      CleanEvict(s, p);
    }
  }

  lemma LoadHides(u: VM, y: int)
    requires Shape(u) && Hiding(u) && u.current == 0 && IsPage(u, 0, y) && !PTE(u, 0, y).entry.dirty
    ensures Hiding(UpdateTLB(IPTMiss(u, y, 0), 0))
  {
    var t := UpdateTLB(IPTMiss(u, y, 0), 0);
    var j :| 0 < j < |u.tlb| && u.tlb[j].physicalPage == 0;
    assert t.tlb[j].physicalPage == 0;
  }

  lemma ReadHides(s: VM, a: Access)
    requires Shape(s) && Hiding(s) && a.Load? && a.Sized()
    ensures Hiding(Attempt(s, a).0)
  {
    AttemptReads(s, a);
    var t := Attempt(s, a).0;
    var j :| 0 < j < |s.tlb| && s.tlb[j].physicalPage == 0;
    assert t.tlb[j].physicalPage == 0;
  }

  lemma NotMapped(s: VM, y: int)
    requires Coherent(s) && FindFrame(s.ipt, s.current, y) == |s.ipt|
    ensures FindSlot(s.tlb, y) == |s.tlb| && (IsPage(s, s.current, y) ==> !PTE(s, s.current, y).entry.valid)
  {
    assert forall i :: 0 <= i < |s.tlb| ==> SlotOk(s, i);
    if IsPage(s, s.current, y) { assert PageOk(s, s.current, y); }
  }

  lemma TouchInSpace(c: Config, v: int)
    requires 0 <= v < c.numPages
    ensures InSpace(Touch(v), c.numPages) && Touch(v).Aligned() && Touch(v).Vpn() == v && Touch(v).Offset() == 0
    ensures InSpace(Poke(c, v), c.numPages) && Poke(c, v).Aligned() && Poke(c, v).Vpn() == v && Poke(c, v).Offset() == 0
  {
  }

  /** Loading page y drops the stored page x, whose content falls back to the executable. */
  lemma DropsPage(c: Config, s: VM, x: int, y: int)
    requires Primed(c, s, x, y)
    ensures Evictable(s) && IsPage(s, 0, x) && IsPage(s, 0, y)
    ensures var t := HandlePageFault(s, y, 0);
            && !t.halted && Hiding(t) && IsPage(t, 0, x) && !PTE(t, 0, x).entry.valid
            && Content(t, 0, x) == ReadExecutable(c.executable, HeaderSize + x * PageSize)
  {
    FullIsEvictable(s);
    NotMapped(s, y);
    DropsVictim(c, s, x, y);
    ChooseFrameCoherent(s, 0);
    ChooseFrameKeeps(s, y, 0);
    assert PageOk(Evict(s, 0), 0, y);
    LoadOther(Evict(s, 0), y, x);
    LoadHides(Evict(s, 0), y);
  }

  lemma DropsVictim(c: Config, s: VM, x: int, y: int)
    requires Primed(c, s, x, y)
    ensures IsPage(s, 0, x) && s.ipt[0].owner == 0 && s.ipt[0].entry.virtualPage == x
    ensures var u := Evict(s, 0);
            && !u.halted && Hiding(u) && IsPage(u, 0, x) && !PTE(u, 0, x).entry.valid
            && Content(u, 0, x) == ReadExecutable(c.executable, HeaderSize + x * PageSize)
  {
    assert FrameOk(s, 0) && IsPage(s, 0, x);
    HidingVerdict(s, 0);
    CleanEvict(s, 0);
    EvictContent(s, 0, 0, x);
    var j :| 0 < j < |s.tlb| && s.tlb[j].physicalPage == 0;
    assert Evict(s, 0).tlb[j].physicalPage == 0;
  }

  lemma LoadOther(u: VM, y: int, x: int)
    requires CoherentBut(u, 0) && 0 < |u.ipt| && u.current == 0 && IsPage(u, 0, y) && IsPage(u, 0, x) && x != y && !PTE(u, 0, y).entry.valid
    ensures var t := UpdateTLB(IPTMiss(u, y, 0), 0);
            && IsPage(t, 0, x) && PTE(t, 0, x) == PTE(u, 0, x) && Content(t, 0, x) == Content(u, 0, x)
            && t.halted == u.halted
  {
    LoadContent(u, y, 0);
    IPTMissOther(u, y, 0, x);
  }

  lemma IPTMissOther(s: VM, vpn: int, ppn: nat, x: int)
    requires Shape(s) && ppn < |s.ipt| && s.current == 0 && IsPage(s, 0, vpn) && IsPage(s, 0, x) && x != vpn
    ensures var t := UpdateTLB(IPTMiss(s, vpn, ppn), ppn);
            IsPage(t, 0, x) && PTE(t, 0, x) == PTE(s, 0, x) && t.halted == s.halted
  {
  }

  /** A missing page always comes in as its own content, as long as a frame can be had for it. */
  lemma OwnPageKept(s: VM, x: int, rnd: nat)
    requires Coherent(s) && !s.halted && IsPage(s, s.current, x) && !PTE(s, s.current, x).entry.valid
    requires Evictable(s) && !ChooseFrame(s, rnd).0.halted
    ensures FindSlot(s.tlb, x) == |s.tlb|
    ensures var t := HandlePageFault(s, x, rnd);
            !t.halted && IsPage(t, s.current, x) && Content(t, s.current, x) == Content(s, s.current, x)
  {
    var f := FindFrame(s.ipt, s.current, x);
    assert f < |s.ipt| ==> FrameOk(s, f);
    NotMapped(s, x);
    OwnPageChosen(s, x, rnd);
    var (u, p) := ChooseFrame(s, rnd);
    ChooseFrameCoherent(s, rnd);
    LoadContent(u, x, p);
  }

  /** Choosing a frame leaves the content of a page that has none. */
  lemma OwnPageChosen(s: VM, x: int, rnd: nat)
    requires Coherent(s) && !s.halted && IsPage(s, s.current, x) && !PTE(s, s.current, x).entry.valid
    requires Evictable(s) && !ChooseFrame(s, rnd).0.halted && FindSlot(s.tlb, x) == |s.tlb|
    ensures var u := ChooseFrame(s, rnd).0;
            && u.current == s.current && IsPage(u, s.current, x) && !PTE(u, s.current, x).entry.valid
            && Content(u, s.current, x) == Content(s, s.current, x)
  {
    var p := ChooseFrame(s, rnd).1;
    if FirstClear(s.memoryMap) == |s.memoryMap| {
      assert FrameOk(s, p);
      EvictContent(s, p, s.current, x);
    }
    ChooseFrameKeeps(s, x, rnd);
  }

  lemma HidingLoads(s: VM, x: int)
    requires Coherent(s) && !s.halted && Hiding(s) && IsPage(s, s.current, x) && !PTE(s, s.current, x).entry.valid
    ensures Evictable(s) && FindSlot(s.tlb, x) == |s.tlb|
    ensures var t := HandlePageFault(s, x, 0);
            !t.halted && IsPage(t, s.current, x) && Content(t, s.current, x) == Content(s, s.current, x)
  {
    FullIsEvictable(s);
    HidingChooses(s);
    OwnPageKept(s, x, 0);
  }

  lemma OwnRead(c: Config, s: VM, x: int)
    requires OneProgram(c, s) && !s.halted && 0 <= x < c.numPages && !PTE(s, 0, x).entry.valid && Hiding(s)
    ensures IsPage(s, 0, x) && Touch(x).Vpn() == x && Touch(x).Sized()
    ensures var (t, e, d) := MemoryStep(s, Touch(x), 0); !t.halted && |Content(s, 0, x)| == PageSize && d == [Content(s, 0, x)[0]]
  {
    TouchInSpace(c, x);
    ContentSize(s, x);
    HidingLoads(s, x);
    FaultCoherent(s, x, 0);
    AttemptContent(HandlePageFault(s, x, 0), Touch(x), 0, x);
  }

  /** After the eviction and the load of page y are complete, page x still reads as in the executable. */
  lemma DropsPageStep(c: Config, s: VM, x: int, y: int)
    requires Primed(c, s, x, y)
    ensures IsPage(s, 0, y) && Touch(y).Vpn() == y && Touch(y).Sized()
    ensures var t := MemoryStep(s, Touch(y), 0).0;
            && !t.halted && OneProgram(c, t) && Hiding(t) && !PTE(t, 0, x).entry.valid
            && Content(t, 0, x) == ReadExecutable(c.executable, HeaderSize + x * PageSize)
  {
    TouchInSpace(c, y);
    NotMapped(s, y);
    DropsPage(c, s, x, y);
    OneProgramSteps(c, s, Memory(Touch(y), 0));
    FaultCoherent(s, y, 0);
    var u := HandlePageFault(s, y, 0);
    RetryAfterFault(s, Touch(y), 0);
    TouchOther(c, u, x, y);
    ReadHides(u, Touch(y));
  }

  lemma TouchOther(c: Config, u: VM, x: int, y: int)
    requires Coherent(u) && u.current == 0 && 0 <= y < c.numPages && FindSlot(u.tlb, y) < |u.tlb| && IsPage(u, 0, x) && IsPage(u, 0, y)
    ensures Touch(y).Sized()
    ensures var t := Attempt(u, Touch(y)).0;
            && t.halted == u.halted && IsPage(t, 0, x) && PTE(t, 0, x) == PTE(u, 0, x) && Content(t, 0, x) == Content(u, 0, x)
  {
    TouchInSpace(c, y);
    TranslateCoherent(u, Touch(y));
    AttemptContent(u, Touch(y), 0, x);
  }

  ghost predicate AllAllowed(c: Config, events: seq<Event>) {
    forall i :: 0 <= i < |events| ==> Allowed(c, events[i])
  }

  lemma AfterAppend(c: Config, events: seq<Event>, e: Event)
    requires c.Sane() && AllAllowed(c, events) && Allowed(c, e) && !After(c, events).0.halted
    ensures AllAllowed(c, events + [e]) && Legal(After(c, events).0, e)
    ensures var (s, flat) := After(c, events);
            After(c, events + [e]) == (Step(s, e), if e.Memory? then FlatAccess(flat, e.a).0 else flat)
  {
    var longer := events + [e];
    assert longer[..|longer| - 1] == events;
    OneProgramSteps(c, After(c, events).0, e);
  }

  /** The events are allowed and lead to s. Only a proof that mentions the run looks into it. */
  ghost predicate Leads(c: Config, events: seq<Event>, s: VM) {
    c.Sane() && AllAllowed(c, events) && forall e {:trigger After(c, e)} :: e == events && AllAllowed(c, e) ==> After(c, e).0 == s
  }

  lemma Contradicts(c: Config, events: seq<Event>, x: int)
    requires c.Sane() && AllAllowed(c, events) && 0 <= x < c.numPages && InSpace(Touch(x), c.numPages)
    requires Touch(x).Aligned() && !ReadsFlat(c, After(c, events), Touch(x), 0)
    ensures !RefinesFlat(c)
  {
  }

  /** From a primed state the flat memory is contradicted two loads later. */
  lemma PrimedLoses(c: Config, events: seq<Event>, x: int, y: int)
    requires c.Sane() && AllAllowed(c, events) && 0 <= x < c.numPages
    requires Primed(c, After(c, events).0, x, y) && After(c, events).1[x * PageSize] == OtherByte(InitialByte(c, x))
    ensures !RefinesFlat(c)
  {
    var (s, flat) := After(c, events);
    TouchInSpace(c, x);
    TouchInSpace(c, y);
    DropsPageStep(c, s, x, y);
    AfterAppend(c, events, Memory(Touch(y), 0));
    var t := MemoryStep(s, Touch(y), 0).0;
    ReadsInitial(c, t, flat, x);
    Contradicts(c, events + [Memory(Touch(y), 0)], x);
  }

  lemma ReadsInitial(c: Config, t: VM, flat: seq<Byte>, x: int)
    requires OneProgram(c, t) && !t.halted && 0 <= x < c.numPages && !PTE(t, 0, x).entry.valid && |flat| == c.numPages * PageSize
    requires Hiding(t) && flat[x * PageSize] == OtherByte(InitialByte(c, x))
    requires Content(t, 0, x) == ReadExecutable(c.executable, HeaderSize + x * PageSize)
    ensures InSpace(Touch(x), c.numPages) && !ReadsFlat(c, (t, flat), Touch(x), 0)
  {
    TouchInSpace(c, x);
    OwnRead(c, t, x);
    assert flat[Touch(x).addr..Touch(x).addr + 1] == [flat[x * PageSize]];
  }

  // ---------------------------------------------------------------- ways to a primed state

  /** Where a load in a clean state leaves the frame bookkeeping. */
  ghost predicate Moved(s: VM, t: VM, v: int)
    requires Shape(s)
  {
    && (FindFrame(s.ipt, 0, v) < |s.ipt| ==> t.ipt == s.ipt && t.memoryMap == s.memoryMap && t.currentIPT == s.currentIPT)
    && (FindFrame(s.ipt, 0, v) == |s.ipt| && FirstClear(s.memoryMap) < |s.ipt| ==>
          t.memoryMap == s.memoryMap[FirstClear(s.memoryMap) := true] && t.currentIPT == s.currentIPT)
    && (FindFrame(s.ipt, 0, v) == |s.ipt| && FirstClear(s.memoryMap) == |s.ipt| ==>
          t.memoryMap == s.memoryMap && (s.randomPolicy ==> t.currentIPT == s.currentIPT))
  }

  lemma RetryAfterFault(s: VM, a: Access, rnd: nat)
    requires Coherent(s) && !s.halted && a.Sized() && a.Aligned() && IsPage(s, s.current, a.Vpn()) && FindSlot(s.tlb, a.Vpn()) == |s.tlb|
    requires Evictable(s) && !HandlePageFault(s, a.Vpn(), rnd).halted
    ensures MemoryStep(s, a, rnd) == Attempt(HandlePageFault(s, a.Vpn(), rnd), a)
  {
  }

  lemma LoadedUse(s: VM, u: VM, t: VM, v: int, f: nat)
    requires Shape(s) && Shape(u) && Shape(t) && f < |s.ipt| && Loaded(s, u, v, f) && SameSizes(u, t)
    requires t.ipt == u.ipt && t.currentTLB == u.currentTLB && forall i :: 0 <= i < |u.tlb| ==> t.tlb[i] == u.tlb[i].(use := t.tlb[i].use)
    ensures Loaded(s, t, v, f)
  {
  }

  /** One clean load of a page that has no valid slot. */
  lemma TouchClean(c: Config, s: VM, v: int, rnd: nat)
    requires Unswapped(c, s) && CleanTables(s) && 0 <= v < c.numPages && FindSlot(s.tlb, v) == |s.tlb|
    ensures Touch(v).Vpn() == v && Touch(v).Sized()
    ensures var t := MemoryStep(s, Touch(v), rnd).0;
            Unswapped(c, t) && CleanTables(t) && Loaded(s, t, v, Target(s, v, rnd)) && Moved(s, t, v)
  {
    TouchInSpace(c, v);
    CleanFault(c, s, v, rnd);
    var u := HandlePageFault(s, v, rnd);
    TouchTables(c, u, v);
    RetryAfterFault(s, Touch(v), rnd);
    LoadedUse(s, u, Attempt(u, Touch(v)).0, v, Target(s, v, rnd));
  }

  lemma StillUnswapped(c: Config, s: VM, t: VM)
    requires Unswapped(c, s) && OneProgram(c, t) && !t.halted && t.spaces == s.spaces && t.swapMap == s.swapMap
    ensures Unswapped(c, t)
  {
    assert forall v :: IsPage(t, 0, v) ==> IsPage(s, 0, v) && PTE(t, 0, v) == PTE(s, 0, v);
  }

  lemma TouchTables(c: Config, s: VM, v: int)
    requires Unswapped(c, s) && CleanTables(s) && 0 <= v < c.numPages
    ensures Touch(v).Sized()
    ensures var t := Attempt(s, Touch(v)).0;
            && Unswapped(c, t) && CleanTables(t) && t.ipt == s.ipt && t.memoryMap == s.memoryMap && t.currentIPT == s.currentIPT
            && t.currentTLB == s.currentTLB
            && forall i :: 0 <= i < |s.tlb| ==> t.tlb[i] == s.tlb[i].(use := t.tlb[i].use)
  {
    TouchInSpace(c, v);
    AttemptCoherent(s, Touch(v));
    AttemptReads(s, Touch(v));
    StillUnswapped(c, s, Attempt(s, Touch(v)).0);
  }

  /** A store through slot 0 dirties slot 0 only. */
  lemma PokeTables(c: Config, s: VM, v: int)
    requires Unswapped(c, s) && 0 <= v < c.numPages && s.tlb[0].valid && s.tlb[0].virtualPage == v
    ensures Poke(c, v).Sized()
    ensures var t := Attempt(s, Poke(c, v)).0;
            && Attempt(s, Poke(c, v)).1 == NoException
            && Unswapped(c, t) && t.ipt == s.ipt && t.memoryMap == s.memoryMap && t.currentIPT == s.currentIPT
            && t.currentTLB == s.currentTLB && t.tlb[0].physicalPage == s.tlb[0].physicalPage
            && forall i :: 0 < i < |s.tlb| ==> t.tlb[i] == s.tlb[i]
  {
    TouchInSpace(c, v);
    AttemptCoherent(s, Poke(c, v));
    assert SlotOk(s, 0);
    assert FindSlot(s.tlb, v) == 0;
    var t := Attempt(s, Poke(c, v)).0;
    StillUnswapped(c, s, t);
  }

  lemma PokeFlat(c: Config, flat: seq<Byte>, v: int)
    requires 0 <= v < c.numPages && |flat| == c.numPages * PageSize
    ensures InSpace(Poke(c, v), c.numPages) && FlatAccess(flat, Poke(c, v)).0[v * PageSize] == OtherByte(InitialByte(c, v))
  {
    TouchInSpace(c, v);
  }

  // ---- filling the free frames in order

  /** Frames below k hold the pages of the same numbers; slots not filled yet still name frame 0. */
  ghost predicate Filled(c: Config, s: VM, k: nat) {
    && Unswapped(c, s) && CleanTables(s) && s.currentIPT == 0 && k <= |s.ipt|
    && (forall p :: 0 <= p < |s.ipt| ==> s.memoryMap[p] == (p < k))
    && (forall p :: 0 <= p < k ==> Holds(s.ipt[p], 0, p))
    && (k < |s.tlb| ==> s.currentTLB == k && forall i :: k <= i < |s.tlb| ==> s.tlb[i].physicalPage == 0)
    && (0 < k < |s.tlb| ==> s.tlb[0].valid && s.tlb[0].virtualPage == 0 && s.tlb[0].physicalPage == 0)
  }

  lemma FilledMoves(c: Config, s: VM, t: VM, k: nat)
    requires Filled(c, s, k) && k < |s.ipt| && Unswapped(c, t) && CleanTables(t) && Loaded(s, t, k, k)
    requires t.memoryMap == s.memoryMap[k := true] && t.currentIPT == s.currentIPT
    ensures Filled(c, t, k + 1)
  {
  }

  lemma StartFilled(c: Config)
    requires c.Sane()
    ensures Filled(c, c.Start(), 0)
  {
    BootCoherent(c.frames, c.slots, c.swapSlots, c.randomPolicy, c.executable, c.numPages);
  }

  lemma FillNext(c: Config, s: VM, k: nat)
    requires Filled(c, s, k) && k < |s.ipt| && k < c.numPages
    ensures Touch(k).Vpn() == k && Touch(k).Sized() && Filled(c, MemoryStep(s, Touch(k), 0).0, k + 1)
  {
    FirstClearIs(s.memoryMap, k);
    forall p | 0 <= p < |s.ipt| ensures !Holds(s.ipt[p], 0, k) { assert FrameOk(s, p); }
    NotMapped(s, k);
    TouchClean(c, s, k, 0);
    FilledMoves(c, s, MemoryStep(s, Touch(k), 0).0, k);
  }

  /** A run extended by one access. */
  lemma AfterAccess(c: Config, events: seq<Event>, a: Access)
    requires c.Sane() && AllAllowed(c, events) && InSpace(a, c.numPages) && !After(c, events).0.halted
    ensures AllAllowed(c, events + [Memory(a, 0)]) && IsPage(After(c, events).0, 0, a.Vpn())
    ensures After(c, events + [Memory(a, 0)]) == (MemoryStep(After(c, events).0, a, 0).0, FlatAccess(After(c, events).1, a).0)
  {
    InSpaceLegal(After(c, events).0, a);
    AfterAppend(c, events, Memory(a, 0));
  }

  lemma LeadsOn(c: Config, events: seq<Event>, s: VM, a: Access) returns (longer: seq<Event>, t: VM)
    requires Leads(c, events, s) && OneProgram(c, s) && !s.halted && InSpace(a, c.numPages)
    ensures IsPage(s, 0, a.Vpn()) && Leads(c, longer, t) && t == MemoryStep(s, a, 0).0
  {
    AfterAccess(c, events, a);
    longer, t := events + [Memory(a, 0)], MemoryStep(s, a, 0).0;
  }

  lemma FillMore(c: Config, events: seq<Event>, s: VM, k: nat) returns (longer: seq<Event>, t: VM)
    requires Leads(c, events, s) && k < c.frames && k < c.numPages && Filled(c, s, k)
    ensures Leads(c, longer, t) && Filled(c, t, k + 1)
  {
    TouchInSpace(c, k);
    FillNext(c, s, k);
    longer, t := LeadsOn(c, events, s, Touch(k));
  }

  lemma FillNone(c: Config)
    requires c.Sane()
    ensures Leads(c, [], c.Start()) && Filled(c, c.Start(), 0)
  {
    StartFilled(c);
    assert After(c, []).0 == c.Start();
  }

  lemma {:induction false} FillUp(c: Config, k: nat) returns (events: seq<Event>, s: VM)
    requires c.Sane() && k <= c.frames && k <= c.numPages
    ensures Leads(c, events, s) && Filled(c, s, k)
  {
    if k == 0 {
      events, s := [], c.Start();
      FillNone(c);
    } else {
      events, s := FillUp(c, k - 1);
      events, s := FillMore(c, events, s, k - 1);
    }
  }

  lemma BeyondFrames(c: Config, s: VM, y: int)
    requires Coherent(s) && forall p :: 0 <= p < |s.ipt| ==> s.ipt[p].entry.virtualPage != y
    ensures FindFrame(s.ipt, 0, y) == |s.ipt|
  {
  }

  /** More slots than frames: the slots never filled hide the store. */
  lemma MoreSlotsThanFrames(c: Config)
    requires c.Sane() && c.frames < c.numPages && c.frames < c.slots && !c.randomPolicy
    ensures !RefinesFlat(c)
  {
    var events, s := FillUp(c, c.frames);
    TouchInSpace(c, 0);
    FilledPokes(c, s);
    PokeFlat(c, After(c, events).1, 0);
    AfterAccess(c, events, Poke(c, 0));
    PrimedLoses(c, events + [Memory(Poke(c, 0), 0)], 0, c.frames);
  }

  /** With all frames filled and a slot left over, a store to page 0 goes through slot 0 and leaves the last slot stale. */
  lemma FilledPokes(c: Config, s: VM)
    requires Filled(c, s, c.frames) && 0 < c.frames < c.numPages && c.frames < c.slots && !c.randomPolicy
    ensures Poke(c, 0).Vpn() == 0 && Poke(c, 0).Sized() && IsPage(s, 0, 0) && Primed(c, MemoryStep(s, Poke(c, 0), 0).0, 0, c.frames)
  {
    TouchInSpace(c, 0);
    PokeTables(c, s, 0);
    var t := Attempt(s, Poke(c, 0)).0;
    FirstClearIs(t.memoryMap, |t.ipt|);
    BeyondFrames(c, t, c.frames);
    assert t.tlb[c.slots - 1].physicalPage == 0;
  }

  // ---- switches: the slot reloaded after a switch hides the store

  /** Memory is full, frame p holds page p except that frame 0 holds page x. */
  ghost predicate FullWith(c: Config, s: VM, x: int) {
    && Unswapped(c, s) && CleanTables(s) && (s.randomPolicy || s.currentIPT == 0)
    && (forall p :: 0 <= p < |s.ipt| ==> s.memoryMap[p] && Holds(s.ipt[p], 0, if p == 0 then x else p))
  }

  lemma FilledIsFull(c: Config, s: VM)
    requires Filled(c, s, |s.ipt|)
    ensures FullWith(c, s, 0)
  {
  }

  lemma SwitchAway(c: Config, events: seq<Event>)
    requires c.Sane() && c.switches && AllAllowed(c, events) && !After(c, events).0.halted
    ensures AllAllowed(c, events + [Switch(0)])
    ensures After(c, events + [Switch(0)]) == (SaveState(After(c, events).0), After(c, events).1)
  {
    AfterAppend(c, events, Switch(0));
  }

  lemma SavedUnswapped(c: Config, s: VM)
    requires Unswapped(c, s)
    ensures var t := SaveState(s);
            && Unswapped(c, t) && (CleanTables(s) ==> CleanTables(t)) && t.ipt == s.ipt && t.memoryMap == s.memoryMap
            && t.currentTLB == s.currentTLB && t.currentIPT == s.currentIPT
            && (forall v :: FindSlot(t.tlb, v) == |t.tlb|)
            && forall i :: 0 <= i < |s.tlb| ==> t.tlb[i] == s.tlb[i].(valid := false)
  {
    SaveStateCoherent(s);
    var t := SaveState(s);
    assert forall v :: IsPage(t, 0, v) ==> IsPage(s, 0, v) && PTE(t, 0, v) == PTE(s, 0, v);
  }

  lemma FindsFrame0(c: Config, s: VM, x: int)
    requires Shape(s) && Holds(s.ipt[0], 0, x)
    ensures FindFrame(s.ipt, 0, x) == 0
  {
  }

  /** Switch away, come back and load page 0: its frame gets the next slot. */
  lemma SwitchTouch(c: Config, events: seq<Event>)
    requires c.Sane() && c.switches && 0 < c.numPages && AllAllowed(c, events) && FullWith(c, After(c, events).0, 0)
    ensures var longer := events + [Switch(0)] + [Memory(Touch(0), 0)];
            && AllAllowed(c, longer) && FullWith(c, After(c, longer).0, 0)
            && After(c, longer).0.currentTLB == Next(After(c, events).0.currentTLB, c.slots)
  {
    SwitchAway(c, events);
    var s := After(c, events).0;
    SavedUnswapped(c, s);
    var u := SaveState(s);
    TouchInSpace(c, 0);
    FindsFrame0(c, u, 0);
    TouchClean(c, u, 0, 0);
    AfterAccess(c, events + [Switch(0)], Touch(0));
  }

  lemma {:induction false} RotateTo0(c: Config, events: seq<Event>) returns (longer: seq<Event>)
    requires c.Sane() && c.switches && 0 < c.numPages && AllAllowed(c, events) && FullWith(c, After(c, events).0, 0)
    ensures AllAllowed(c, longer) && FullWith(c, After(c, longer).0, 0) && After(c, longer).0.currentTLB == 0
    decreases c.slots - After(c, events).0.currentTLB
  {
    longer := events;
    if After(c, events).0.currentTLB != 0 {
      SwitchTouch(c, events);
      longer := events + [Switch(0)] + [Memory(Touch(0), 0)];
      if After(c, longer).0.currentTLB != 0 { longer := RotateTo0(c, longer); }
    }
  }

  /** A store that faults with slot 0 next: the page ends up behind a dirty slot 0, all other slots clean. */
  lemma PokeFault(c: Config, s: VM, v: int)
    requires Unswapped(c, s) && CleanTables(s) && 0 <= v < c.numPages && FindSlot(s.tlb, v) == |s.tlb| && s.currentTLB == 0
    ensures Poke(c, v).Vpn() == v && Poke(c, v).Sized()
    ensures var t := MemoryStep(s, Poke(c, v), 0).0;
            && Unswapped(c, t) && t.currentTLB == Next(0, |s.tlb|) && Moved(s, t, v)
            && Holds(t.ipt[Target(s, v, 0)], 0, v) && (forall p :: 0 <= p < |s.ipt| && p != Target(s, v, 0) ==> t.ipt[p] == s.ipt[p])
            && (forall p :: 0 <= p < |t.ipt| ==> !t.ipt[p].entry.dirty) && t.tlb[0].physicalPage == Target(s, v, 0)
            && forall i :: 0 < i < |s.tlb| ==> !t.tlb[i].dirty && t.tlb[i].physicalPage == s.tlb[i].physicalPage
  {
    TouchInSpace(c, v);
    CleanFault(c, s, v, 0);
    var u := HandlePageFault(s, v, 0);
    PokeTables(c, u, v);
    RetryAfterFault(s, Poke(c, v), 0);
  }

  /** Reloading page 0 after the switch: slot 1 takes the row's bit, which the store never reached. */
  lemma ReloadHides(c: Config, s: VM)
    requires Unswapped(c, s) && 0 < c.numPages && 1 < |s.tlb| && s.currentTLB == 1 && (forall v :: FindSlot(s.tlb, v) == |s.tlb|)
    requires Holds(s.ipt[0], 0, 0) && !s.ipt[0].entry.dirty && forall i :: 0 < i < |s.tlb| ==> !s.tlb[i].dirty
    ensures Touch(0).Vpn() == 0 && Touch(0).Sized()
    ensures var t := MemoryStep(s, Touch(0), 0).0;
            && Unswapped(c, t) && t.ipt == s.ipt && t.memoryMap == s.memoryMap && t.currentIPT == s.currentIPT
            && t.tlb[0].physicalPage == s.tlb[0].physicalPage && t.tlb[1].physicalPage == 0 && forall i :: 0 < i < |s.tlb| ==> !t.tlb[i].dirty
  {
    TouchInSpace(c, 0);
    FullIsEvictable(s);
    FindsFrame0(c, s, 0);
    OneProgramSteps(c, s, Memory(Touch(0), 0));
    FaultCoherent(s, 0, 0);
    RetryAfterFault(s, Touch(0), 0);
    var u := UpdateTLB(s, 0);
    assert u.tlb == s.tlb[1 := s.ipt[0].entry];
    AttemptReads(u, Touch(0));
    StillUnswapped(c, s, Attempt(u, Touch(0)).0);
  }

  /** A load changes use bits only. */
  lemma AttemptReads(s: VM, a: Access)
    requires Shape(s) && a.Load? && a.Sized()
    ensures var t := Attempt(s, a).0;
            && t == s.(tlb := t.tlb) && |t.tlb| == |s.tlb|
            && forall i :: 0 <= i < |s.tlb| ==> t.tlb[i] == s.tlb[i].(use := t.tlb[i].use)
  {
  }

  /** The store has gone through slot 0 and only slot 0 knows. */
  ghost predicate StoredBehindSlot0(c: Config, s: VM, x: int) {
    && Unswapped(c, s) && (s.randomPolicy || s.currentIPT == 0)
    && (forall p :: 0 <= p < |s.ipt| ==> s.memoryMap[p] && Holds(s.ipt[p], 0, if p == 0 then x else p) && !s.ipt[p].entry.dirty)
    && s.tlb[0].physicalPage == 0 && (forall i :: 0 < i < |s.tlb| ==> !s.tlb[i].dirty)
  }

  lemma SwitchPoke(c: Config, events: seq<Event>)
    requires c.Sane() && c.switches && 1 < c.slots && 0 < c.numPages && AllAllowed(c, events)
    requires FullWith(c, After(c, events).0, 0) && After(c, events).0.currentTLB == 0
    ensures var longer := events + [Switch(0)] + [Memory(Poke(c, 0), 0)];
            && AllAllowed(c, longer) && StoredBehindSlot0(c, After(c, longer).0, 0) && After(c, longer).0.currentTLB == 1
            && After(c, longer).1[0] == OtherByte(InitialByte(c, 0))
  {
    var s := After(c, events).0;
    SwitchAway(c, events);
    SavedUnswapped(c, s);
    TouchInSpace(c, 0);
    FindsFrame0(c, SaveState(s), 0);
    PokeFault(c, SaveState(s), 0);
    PokeFlat(c, After(c, events).1, 0);
    AfterAccess(c, events + [Switch(0)], Poke(c, 0));
  }

  lemma SwitchReload(c: Config, events: seq<Event>)
    requires c.Sane() && c.switches && 1 < c.slots && 0 < c.numPages && AllAllowed(c, events)
    requires StoredBehindSlot0(c, After(c, events).0, 0) && After(c, events).0.currentTLB == 1
    ensures var longer := events + [Switch(0)] + [Memory(Touch(0), 0)];
            && AllAllowed(c, longer) && StoredBehindSlot0(c, After(c, longer).0, 0) && After(c, longer).0.tlb[1].physicalPage == 0
            && After(c, longer).1 == After(c, events).1
  {
    var s := After(c, events).0;
    SwitchAway(c, events);
    SavedUnswapped(c, s);
    TouchInSpace(c, 0);
    ReloadHides(c, SaveState(s));
    AfterAccess(c, events + [Switch(0)], Touch(0));
  }

  lemma StoredIsPrimed(c: Config, s: VM, x: int, y: int, j: int)
    requires StoredBehindSlot0(c, s, x) && 0 < j < |s.tlb| && s.tlb[j].physicalPage == 0
    requires 0 <= x < c.numPages && 0 <= y < c.numPages && x != y && (y == 0 || y >= |s.ipt|)
    ensures Primed(c, s, x, y)
  {
    FirstClearIs(s.memoryMap, |s.ipt|);
    BeyondFrames(c, s, y);
  }

  /** A switch away and back loses writes whenever there are two slots and a page too many. */
  lemma SwitchesLose(c: Config)
    requires c.Sane() && c.frames < c.numPages && 1 < c.slots && c.switches
    ensures !RefinesFlat(c)
  {
    var filled, s := FillUp(c, c.frames);
    FilledIsFull(c, s);
    var rotated := RotateTo0(c, filled);
    SwitchPoke(c, rotated);
    var stored := rotated + [Switch(0)] + [Memory(Poke(c, 0), 0)];
    SwitchReload(c, stored);
    var events := stored + [Switch(0)] + [Memory(Touch(0), 0)];
    StoredIsPrimed(c, After(c, events).0, 0, c.frames, 1);
    PrimedLoses(c, events, 0, c.frames);
  }

  // ---- random victims: frame 0 is taken again while a stale slot still names it

  function Other(c: Config, x: int): int { if x == 0 then c.frames else 0 }

  /** The next slot to fill is number at, and frame 0 holds one of the two pages that compete for it. */
  ghost predicate Spinning(c: Config, s: VM, x: int, at: nat) {
    (x == 0 || x == c.frames) && FullWith(c, s, x) && s.currentTLB == at
  }

  lemma RandomTouch(c: Config, events: seq<Event>, s: VM, x: int, at: nat) returns (longer: seq<Event>, t: VM)
    requires Leads(c, events, s) && c.randomPolicy && c.frames < c.numPages && Spinning(c, s, x, at)
    ensures Leads(c, longer, t) && at < c.slots && Spinning(c, t, Other(c, x), Next(at, c.slots)) && t.tlb[at].physicalPage == 0
  {
    SpinOn(c, s, x, at);
    TouchInSpace(c, Other(c, x));
    longer, t := LeadsOn(c, events, s, Touch(Other(c, x)));
  }

  lemma SpinOn(c: Config, s: VM, x: int, at: nat)
    requires c.Sane() && c.randomPolicy && c.frames < c.numPages && Spinning(c, s, x, at)
    ensures var y := Other(c, x);
            && at < c.slots && IsPage(s, 0, y) && Touch(y).Vpn() == y && Touch(y).Sized()
            && var t := MemoryStep(s, Touch(y), 0).0; Spinning(c, t, y, Next(at, c.slots)) && t.tlb[at].physicalPage == 0
  {
    var y := Other(c, x);
    TouchInSpace(c, y);
    FirstClearIs(s.memoryMap, |s.ipt|);
    BeyondFrames(c, s, y);
    NotMapped(s, y);
    TouchClean(c, s, y, 0);
  }

  ghost predicate Rotated(c: Config, s: VM, z: int) {
    Spinning(c, s, z, 0) && s.tlb[|s.tlb| - 1].physicalPage == 0
  }

  lemma RotatedNow(c: Config, s: VM, z: int, at: nat)
    requires c.Sane() && at < c.slots && Spinning(c, s, z, Next(at, c.slots)) && |s.tlb| == c.slots && s.tlb[at].physicalPage == 0
    ensures at + 1 < c.slots ==> Spinning(c, s, z, at + 1)
    ensures at + 1 == c.slots ==> Rotated(c, s, z)
  {
  }

  lemma {:induction false} RandomRotate(c: Config, events: seq<Event>, s: VM, x: int, at: nat) returns (longer: seq<Event>, t: VM, z: int)
    requires Leads(c, events, s) && c.randomPolicy && c.frames < c.numPages && Spinning(c, s, x, at) && at < c.slots
    ensures Leads(c, longer, t) && Rotated(c, t, z)
    decreases c.slots - at
  {
    longer, t := RandomTouch(c, events, s, x, at);
    z := Other(c, x);
    RotatedNow(c, t, z, at);
    if at + 1 < c.slots { longer, t, z := RandomRotate(c, longer, t, z, at + 1); }
  }

  lemma RandomPoke(c: Config, events: seq<Event>, z: int)
    requires c.Sane() && c.randomPolicy && c.frames < c.numPages && 1 < c.slots && AllAllowed(c, events) && Rotated(c, After(c, events).0, z)
    ensures var x := Other(c, z);
            var longer := events + [Memory(Poke(c, x), 0)];
            && AllAllowed(c, longer) && StoredBehindSlot0(c, After(c, longer).0, x)
            && After(c, longer).0.tlb[c.slots - 1].physicalPage == 0 && After(c, longer).1[x * PageSize] == OtherByte(InitialByte(c, x))
  {
    var x := Other(c, z);
    PokeMissing(c, After(c, events).0, z);
    PokeFlat(c, After(c, events).1, x);
    TouchInSpace(c, x);
    AfterAccess(c, events, Poke(c, x));
  }

  lemma PokeMissing(c: Config, s: VM, z: int)
    requires c.Sane() && c.randomPolicy && c.frames < c.numPages && 1 < c.slots && Rotated(c, s, z)
    ensures var x := Other(c, z);
            && IsPage(s, 0, x) && Poke(c, x).Vpn() == x && Poke(c, x).Sized()
            && var t := MemoryStep(s, Poke(c, x), 0).0; StoredBehindSlot0(c, t, x) && t.tlb[c.slots - 1].physicalPage == 0
  {
    var x := Other(c, z);
    TouchInSpace(c, x);
    FirstClearIs(s.memoryMap, |s.ipt|);
    BeyondFrames(c, s, x);
    NotMapped(s, x);
    PokeFault(c, s, x);
  }

  /** Random replacement loses writes whenever there are two slots and a page too many. */
  lemma RandomLoses(c: Config)
    requires c.Sane() && c.frames < c.numPages && 1 < c.slots && c.randomPolicy
    ensures !RefinesFlat(c)
  {
    var filled, s := FillUp(c, c.frames);
    FilledIsFull(c, s);
    var events, t, z := RandomRotate(c, filled, s, 0, s.currentTLB);
    RandomPoke(c, events, z);
    var x := Other(c, z);
    var longer := events + [Memory(Poke(c, x), 0)];
    StoredIsPrimed(c, After(c, longer).0, x, z, c.slots - 1);
    PrimedLoses(c, longer, x, z);
  }

  /** Paging is invisible to a program exactly when its pages all fit, or the TLB has one slot,
      or there are at least as many frames as slots and neither random victims nor switches. */
  lemma PagingExact(c: Config)
    requires c.Sane()
    ensures RefinesFlat(c) <==> CannotLose(c)
  {
    if CannotLose(c) {
      NoLostWrites(c);
    } else if c.randomPolicy {
      RandomLoses(c);
    } else if c.switches {
      SwitchesLose(c);
    } else {
      MoreSlotsThanFrames(c);
    }
  }
}
