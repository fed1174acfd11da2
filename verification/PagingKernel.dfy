/**
 The fault handlers and the memory access routines as they run: on tables changed in place.
 Each method is tied to the function of Paging.dfy that gives its effect as a value.
 */
module PagingKernel {
  import opened Words
  import opened Paging
  import opened Coherence

  /** A try that faults changes nothing. */
  lemma FaultUnchanged(s: VM, a: Access)
    requires Shape(s) && a.Sized()
    ensures Attempt(s, a).1 == PageFault ==> Attempt(s, a).0 == s
  {
  }

  lemma NoFault(s: VM, a: Access, rnd: nat)
    requires Coherent(s) && !s.halted && a.Sized() && IsPage(s, s.current, a.Vpn()) && Attempt(s, a).1 != PageFault
    ensures MemoryStep(s, a, rnd) == Attempt(s, a)
  {
  }

  class Kernel {
    const tlb: array<Translation>
    const ipt: array<IPTEntry>
    var currentTLB: nat
    var currentIPT: nat
    var mainMemory: seq<Page>
    var memoryMap: seq<bool>
    var swapFile: seq<Page>
    var swapMap: seq<bool>
    var spaces: map<SpaceId, AddrSpace>
    var current: SpaceId
    var randomPolicy: bool
    var halted: bool

    ghost function State(): VM
      reads this, tlb, ipt
    {
      VM(tlb[..], currentTLB, ipt[..], currentIPT, mainMemory, memoryMap, swapFile, swapMap, spaces, current, randomPolicy, halted)
    }

    /** system.cc and machine.cc start-up with one program loaded. */
    constructor (frames: nat, slots: nat, swapSlots: nat, random: bool, executable: seq<Byte>, numPages: nat)
      requires 0 < frames && 0 < slots
      ensures State() == Boot(frames, slots, swapSlots, random, executable, numPages)
      ensures Coherent(State()) && fresh(tlb) && fresh(ipt)
    {
      tlb := new Translation[slots](i => Translation(0, 0, false, false, false, false));
      ipt := new IPTEntry[frames](i => IPTEntry(Translation(0, i, false, false, false, false), 0));
      currentTLB, currentIPT, current, randomPolicy, halted := 0, 0, 0, random, false;
      mainMemory, memoryMap := seq(frames, i => ZeroPage()), seq(frames, i => false);
      swapFile, swapMap := seq(swapSlots, i => ZeroPage()), seq(swapSlots, i => false);
      spaces := map[0 := NewSpace(executable, numPages)];
      new;
      BootCoherent(frames, slots, swapSlots, random, executable, numPages);
      assert State() == Boot(frames, slots, swapSlots, random, executable, numPages);
    }

    method LoadSlot(ppn: nat)
      requires Shape(State()) && ppn < ipt.Length && ipt[ppn].entry.physicalPage == ppn
      modifies this, tlb, ipt
      ensures State() == UpdateTLB(old(State()), ppn)
    {
      if tlb[currentTLB].dirty {
        var toPropagate := tlb[currentTLB].physicalPage;
        ipt[toPropagate] := ipt[toPropagate].(entry := ipt[toPropagate].entry.(dirty := tlb[currentTLB].dirty));
      }
      tlb[currentTLB] := ipt[ppn].entry;
      currentTLB := (currentTLB + 1) % tlb.Length;
      assert State() == UpdateTLB(old(State()), ppn);
    }

    /** Writes a dirty page to a fresh swap slot, or just drops it; a full swap file halts the machine. */
    method SaveOrDrop(ppn: nat)
      requires Shape(State()) && ppn < ipt.Length && IsPage(State(), ipt[ppn].owner, ipt[ppn].entry.virtualPage)
      modifies this
      ensures State() == WriteOut(old(State()), ppn)
    {
      ghost var was := State();
      var entry := ipt[ppn].entry;
      var space := spaces[ipt[ppn].owner];
      var pte := space.pageTable[entry.virtualPage];
      if entry.dirty {
        var location := FindClear(swapMap);
        if location == -1 {
          halted := true;
          return;
        }
        swapMap := swapMap[location := true];
        swapFile := swapFile[location := mainMemory[ppn]];
        pte := pte.(location := SwapFile, swapLocation := location);
      }
      space := space.(pageTable := space.pageTable[entry.virtualPage := pte.(entry := pte.entry.(valid := false))]);
      spaces := spaces[ipt[ppn].owner := space];
      assert State() == WriteOut(was, ppn);
    }

    /** Frees a frame: the victim's slots are invalidated, its dirty bit collected, its page written out or dropped. */
    method HandleMemoryFull(rnd: nat) returns (ppn: nat)
      requires Shape(State())
      requires forall p :: 0 <= p < ipt.Length ==> IsPage(State(), ipt[p].owner, ipt[p].entry.virtualPage)
      modifies this, tlb, ipt
      ensures ppn == Victim(old(State()), rnd) && State() == Evict(old(State()), ppn)
    {
      ghost var was := State();
      if randomPolicy {
        ppn := rnd % ipt.Length;
      } else {
        ppn := currentIPT;
        currentIPT := (currentIPT + 1) % ipt.Length;
      }
      InvalidateSlots(ppn);
      assert State() == Unhook(was, ppn);
      SaveOrDrop(ppn);
    }

    /** The loop over all slots at an eviction. */
    method InvalidateSlots(ppn: nat)
      requires ppn < ipt.Length
      modifies tlb, ipt
      ensures tlb[..] == Invalidate(old(tlb[..]), ppn)
      ensures ipt[..] == old(ipt[..])[ppn := old(ipt[ppn]).(entry := old(ipt[ppn].entry).(dirty := LastDirty(old(tlb[..]), ppn, old(ipt[ppn].entry.dirty))))]
    {
      ghost var was := tlb[..];
      ghost var row := ipt[ppn];
      var i := 0;
      while i < tlb.Length
        invariant 0 <= i <= tlb.Length
        invariant forall j :: 0 <= j < tlb.Length ==> tlb[j] == if j < i && was[j].physicalPage == ppn then was[j].(valid := false) else was[j]
        invariant forall p :: 0 <= p < ipt.Length && p != ppn ==> ipt[p] == old(ipt[p])
        invariant ipt[ppn] == row.(entry := row.entry.(dirty := LastDirty(was[..i], ppn, row.entry.dirty)))
      {
        assert was[..i + 1][..i] == was[..i];
        if tlb[i].physicalPage == ppn {
          tlb[i] := tlb[i].(valid := false);
          ipt[ppn] := ipt[ppn].(entry := ipt[ppn].entry.(dirty := tlb[i].dirty));
        }
        i := i + 1;
      }
      assert was[..i] == was;
    }

    method BringIn(vpn: int, ppn: nat)
      requires Shape(State()) && ppn < ipt.Length && IsPage(State(), current, vpn) && vpn >= 0
      modifies this, ipt
      ensures State() == IPTMiss(old(State()), vpn, ppn)
    {
      var space := spaces[current];
      var pte := space.pageTable[vpn];
      mainMemory := mainMemory[ppn := ZeroPage()];
      if pte.location == Executable {
        mainMemory := mainMemory[ppn := ReadExecutable(space.executable, pte.byteOffset)];
      } else if pte.location == SwapFile && 0 <= pte.swapLocation < |swapFile| {
        mainMemory := mainMemory[ppn := swapFile[pte.swapLocation]];
      }
      space := space.(pageTable := space.pageTable[vpn := pte.(entry := pte.entry.(valid := true, physicalPage := ppn))]);
      spaces := spaces[current := space];
      ipt[ppn] := IPTEntry(Translation(vpn, ppn, true, pte.entry.readOnly, pte.entry.use, pte.entry.dirty), current);
      assert State() == IPTMiss(old(State()), vpn, ppn);
    }

    /** The scan of the inverted page table. */
    method FindResident(vpn: int) returns (ppn: int)
      ensures ppn == FindFrame(ipt[..], current, vpn)
    {
      ppn := 0;
      while ppn < ipt.Length && !Holds(ipt[ppn], current, vpn)
        invariant 0 <= ppn <= ipt.Length
        invariant forall j :: 0 <= j < ppn ==> !Holds(ipt[j], current, vpn)
      {
        ppn := ppn + 1;
      }
    }

    /** HandleIPTMiss up to the load: a free frame, or the victim's. */
    method GetFrame(rnd: nat) returns (ppn: nat)
      requires Evictable(State())
      modifies this, tlb, ipt
      ensures (State(), ppn) == ChooseFrame(old(State()), rnd)
    {
      var free := FindClear(memoryMap);
      if free == -1 {
        ppn := HandleMemoryFull(rnd);
      } else {
        memoryMap := memoryMap[free := true];
        ppn := free;
      }
    }

    /** The page-fault handler; coherent tables stay coherent. */
    method PageFault(vpn: int, rnd: nat)
      requires Coherent(State()) && !halted && IsPage(State(), current, vpn) && FindSlot(tlb[..], vpn) == tlb.Length
      modifies this, tlb, ipt
      ensures old(Evictable(State())) && State() == HandlePageFault(old(State()), vpn, rnd)
      ensures halted || (Coherent(State()) && FindSlot(tlb[..], vpn) < tlb.Length)
    {
      ghost var was := State();
      FullIsEvictable(was);
      FaultSteps(vpn, rnd);
      FaultCoherent(was, vpn, rnd);
    }

    method FaultSteps(vpn: int, rnd: nat)
      requires Evictable(State()) && !halted && IsPage(State(), current, vpn) && vpn >= 0
      requires forall p :: 0 <= p < ipt.Length ==> ipt[p].entry.physicalPage == p
      modifies this, tlb, ipt
      ensures State() == HandlePageFault(old(State()), vpn, rnd)
    {
      var ppn := FindResident(vpn);
      if ppn == ipt.Length {
        ppn := HandleIPTMiss(vpn, rnd);
        if halted { return; }
      }
      LoadSlot(ppn);
    }

    /** A frame for the page, and the page into it. */
    method HandleIPTMiss(vpn: int, rnd: nat) returns (ppn: nat)
      requires Evictable(State()) && !halted && IsPage(State(), current, vpn) && vpn >= 0
      modifies this, tlb, ipt
      ensures ppn == ChooseFrame(old(State()), rnd).1
      ensures var u := ChooseFrame(old(State()), rnd).0;
              State() == if u.halted then u else IPTMiss(u, vpn, ppn)
    {
      ppn := GetFrame(rnd);
      if !halted { BringIn(vpn, ppn); }
    }

    /** Translate: the exception, or the frame with its use and dirty bits set. */
    method Lookup(a: Access) returns (x: Exception, ppn: nat)
      requires Shape(State()) && a.Sized()
      modifies tlb
      ensures (State(), x, ppn) == Translate(old(State()), a)
    {
      ghost var was := State();
      if !a.Aligned() { return AddressError, 0; }
      var i := 0;
      while i < tlb.Length && !(tlb[i].valid && tlb[i].virtualPage == a.Vpn())
        invariant 0 <= i <= tlb.Length && State() == was
        invariant forall j :: 0 <= j < i ==> !(tlb[j].valid && tlb[j].virtualPage == a.Vpn())
      {
        i := i + 1;
      }
      assert i == FindSlot(was.tlb, a.Vpn());
      if i == tlb.Length { return Exception.PageFault, 0; }
      if tlb[i].readOnly && a.Store? { return ReadOnly, 0; }
      ppn := tlb[i].physicalPage;
      x := NoException;
      tlb[i] := tlb[i].(use := true, dirty := tlb[i].dirty || a.Store?);
      assert State() == Translate(was, a).0;
    }

    /** ReadMem and WriteMem: one try. */
    method TryAccess(a: Access) returns (x: Exception, data: seq<Byte>)
      requires Shape(State()) && a.Sized()
      modifies this, tlb
      ensures (State(), x, data) == Attempt(old(State()), a)
    {
      var ppn;
      x, ppn := Lookup(a);
      data := [];
      if x == NoException {
        FitsInPage(a);
        match a
        case Load(_, size) => data := mainMemory[ppn][a.Offset()..a.Offset() + size];
        case Store(_, bytes) => mainMemory := mainMemory[ppn := Splice(mainMemory[ppn], a.Offset(), bytes)];
      }
    }

    /** A user access: the faulting instruction is restarted, and its second try cannot fault. */
    method UserAccess(a: Access, rnd: nat) returns (x: Exception, data: seq<Byte>)
      requires Coherent(State()) && !halted && a.Sized() && IsPage(State(), current, a.Vpn())
      modifies this, tlb, ipt
      ensures (State(), x, data) == MemoryStep(old(State()), a, rnd)
      ensures halted || (Coherent(State()) && x == if a.Aligned() then NoException else AddressError)
    {
      ghost var was := State();
      x, data := TryAccess(a);
      FaultUnchanged(was, a);
      if x == Exception.PageFault { x, data := Retry(was, a, rnd); } else { NoFault(was, a, rnd); }
      MemoryStepCoherent(was, a, rnd);
    }

    /** The fault is handled and the access tried again. */
    method Retry(ghost was: VM, a: Access, rnd: nat) returns (x: Exception, data: seq<Byte>)
      requires State() == was && Coherent(was) && !halted && a.Sized() && IsPage(was, was.current, a.Vpn()) && Attempt(was, a).1 == Exception.PageFault
      modifies this, tlb, ipt
      ensures (State(), x, data) == MemoryStep(was, a, rnd)
    {
      PageFault(a.Vpn(), rnd);
      if halted { return Exception.PageFault, []; }
      x, data := TryAccess(a);
    }

    /** SaveState: the loop that invalidates every slot. */
    method InvalidateAll()
      requires Shape(State())
      modifies tlb
      ensures State() == SaveState(old(State()))
    {
      ghost var was := tlb[..];
      var i := 0;
      while i < tlb.Length
        invariant 0 <= i <= tlb.Length
        invariant forall j :: 0 <= j < tlb.Length ==> tlb[j] == if j < i then was[j].(valid := false) else was[j]
      {
        tlb[i] := tlb[i].(valid := false);
        i := i + 1;
      }
      assert tlb[..] == SaveState(old(State())).tlb;
    }

    /** One round of the clearMem loop. */
    method ReleasePage(v: nat)
      requires Shape(State()) && IsPage(State(), current, v) && ResidentInRange(State())
      modifies this, ipt
      ensures State() == ClearPage(old(State()), v)
    {
      var space := spaces[current];
      var pte := space.pageTable[v];
      if pte.entry.valid {
        var p := pte.entry.physicalPage;
        assert p == PTE(State(), current, v).entry.physicalPage;
        memoryMap := memoryMap[p := false];
        mainMemory := mainMemory[p := ZeroPage()];
        ipt[p] := ipt[p].(entry := ipt[p].entry.(valid := false));
        spaces := spaces[current := space.(pageTable := space.pageTable[v := pte.(entry := pte.entry.(valid := false))])];
      }
      assert State() == ClearPage(old(State()), v);
    }

    /** clearMem: frees every resident page of the current space. */
    method ReleaseFrames()
      requires Shape(State()) && ResidentInRange(State())
      modifies this, ipt
      ensures State() == ClearMem(old(State()))
    {
      ghost var was := State();
      var v := 0;
      while v < |spaces[current].pageTable|
        invariant Clearing(was, State(), v)
      {
        ClearingTurn(was, State(), v);
        ReleasePage(v);
        v := v + 1;
      }
    }
  }

  /** The clearMem loop has v pages behind it. */
  ghost predicate Clearing(was: VM, s: VM, v: nat) {
    && Shape(was) && ResidentInRange(was) && Shape(s) && ResidentInRange(s) && v <= |s.spaces[s.current].pageTable|
    && ClearMem(was) == ClearMem(s, v)
  }

  lemma ClearingTurn(was: VM, s: VM, v: nat)
    requires Clearing(was, s, v) && v < |s.spaces[s.current].pageTable|
    ensures IsPage(s, s.current, v) && Clearing(was, ClearPage(s, v), v + 1)
  {
  }

  /** BitMap::Find without its side effect: the least clear bit, or -1. */
  method FindClear(bits: seq<bool>) returns (r: int)
    ensures r == if FirstClear(bits) == |bits| then -1 else FirstClear(bits)
  {
    var i := 0;
    while i < |bits|
      invariant 0 <= i <= |bits| && forall j :: 0 <= j < i ==> bits[j]
    {
      if !bits[i] { return i; }
      i := i + 1;
    }
    return -1;
  }
}
