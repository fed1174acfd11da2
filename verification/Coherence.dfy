/**
 Coherence of the paging tables over many address spaces, context switches, stack growth
 and process exits, for both replacement policies.
 */
module Coherence {
  import opened Words
  import opened Paging

  // ---------------------------------------------------------------- the invariant

  /** Frame p is consistent: its row names itself, the bitmap agrees, and its page points back. */
  ghost predicate FrameOk(s: VM, p: int)
    requires Shape(s) && 0 <= p < |s.ipt|
  {
    && s.memoryMap[p] == s.ipt[p].entry.valid
    && (s.ipt[p].entry.valid ==>
          && !s.ipt[p].entry.readOnly
          && IsPage(s, s.ipt[p].owner, s.ipt[p].entry.virtualPage)
          && var e := PTE(s, s.ipt[p].owner, s.ipt[p].entry.virtualPage).entry; e.valid && e.physicalPage == p)
  }

  /** A resident page's frame names exactly that page. */
  ghost predicate PageOk(s: VM, sp: SpaceId, v: int)
    requires Shape(s) && IsPage(s, sp, v)
  {
    var e := PTE(s, sp, v).entry;
    && !e.readOnly && !e.dirty
    && (e.valid ==> 0 <= e.physicalPage < |s.ipt| && Holds(s.ipt[e.physicalPage], sp, v))
  }

  /** A valid slot matches a frame of the current space, and no two valid slots map one page. */
  ghost predicate SlotOk(s: VM, i: int)
    requires Shape(s) && 0 <= i < |s.tlb|
  {
    s.tlb[i].valid ==> Holds(s.ipt[s.tlb[i].physicalPage], s.current, s.tlb[i].virtualPage) && !s.tlb[i].readOnly
  }

  ghost predicate SlotsDiffer(s: VM) {
    forall i, j :: 0 <= i < j < |s.tlb| && s.tlb[i].valid && s.tlb[j].valid ==> s.tlb[i].virtualPage != s.tlb[j].virtualPage
  }

  /** Swapped pages hold marked slots of their own. */
  ghost predicate Swapped(s: VM, sp: SpaceId, v: int) {
    IsPage(s, sp, v) && PTE(s, sp, v).location == SwapFile
  }

  ghost predicate SwapOk(s: VM) {
    && (forall sp: SpaceId, v {:trigger Swapped(s, sp, v)} :: Swapped(s, sp, v) ==>
          0 <= PTE(s, sp, v).swapLocation < |s.swapMap| && s.swapMap[PTE(s, sp, v).swapLocation])
    && (forall sp: SpaceId, v, sp': SpaceId, v' {:trigger Swapped(s, sp, v), Swapped(s, sp', v')} :: Swapped(s, sp, v) && Swapped(s, sp', v') && (sp, v) != (sp', v') ==>
          PTE(s, sp, v).swapLocation != PTE(s, sp', v').swapLocation)
  }

  /** The tables without the TLB; `hole` is a frame between two owners, or -1. Whether places in the swap file are in
      order too is asked only on demand, because growing a stack can lose them. */
  ghost predicate TablesOk(s: VM, hole: int, swap: bool := true) {
    && Shape(s)
    && (forall p :: 0 <= p < |s.ipt| ==> s.ipt[p].entry.physicalPage == p)
    && (forall p :: 0 <= p < |s.ipt| && p != hole ==> FrameOk(s, p))
    && (0 <= hole < |s.ipt| ==> s.memoryMap[hole])
    && (forall sp: SpaceId, v :: IsPage(s, sp, v) ==> PageOk(s, sp, v) && (PTE(s, sp, v).entry.valid ==> PTE(s, sp, v).entry.physicalPage != hole))
    && (swap ==> SwapOk(s))
  }

  ghost predicate TlbOk(s: VM, hole: int)
    requires Shape(s)
  {
    && (forall i :: 0 <= i < |s.tlb| ==> SlotOk(s, i) && (s.tlb[i].valid ==> s.tlb[i].physicalPage != hole))
    && SlotsDiffer(s)
  }

  ghost predicate CoherentBut(s: VM, hole: int, swap: bool := true) {
    TablesOk(s, hole, swap) && TlbOk(s, hole)
  }

  /** The invariant of every reachable state. */
  ghost predicate Coherent(s: VM, swap: bool := true) { CoherentBut(s, -1, swap) }

  // ---------------------------------------------------------------- eviction and loading

  lemma FullIsEvictable(s: VM)
    requires Coherent(s, false)
    ensures Evictable(s)
  {
    if FirstClear(s.memoryMap) == |s.memoryMap| {
      forall p | 0 <= p < |s.ipt| ensures IsPage(s, s.ipt[p].owner, s.ipt[p].entry.virtualPage) {
        assert FrameOk(s, p);
      }
    }
  }

  lemma UnhookCoherent(s: VM, ppn: nat, swap: bool := true)
    requires Coherent(s, swap) && ppn < |s.ipt| && s.ipt[ppn].entry.valid
    ensures TablesOk(Unhook(s, ppn), -1, swap) && TlbOk(Unhook(s, ppn), ppn)
  {
    var t := Unhook(s, ppn);
    forall p | 0 <= p < |t.ipt| ensures FrameOk(t, p) { assert FrameOk(s, p); }
    forall sp: SpaceId, v | IsPage(t, sp, v) ensures PageOk(t, sp, v) { assert PageOk(s, sp, v); }
    forall i | 0 <= i < |t.tlb| ensures SlotOk(t, i) { assert SlotOk(s, i); }
    assert swap ==> SwapOk(t) by { assert forall sp: SpaceId, v :: Swapped(t, sp, v) == Swapped(s, sp, v); }
  }

  lemma WriteOutCoherent(s: VM, ppn: nat, swap: bool := true)
    requires TablesOk(s, -1, swap) && TlbOk(s, ppn) && ppn < |s.ipt| && s.ipt[ppn].entry.valid
    requires IsPage(s, s.ipt[ppn].owner, s.ipt[ppn].entry.virtualPage) && !s.halted
    ensures var t := WriteOut(s, ppn); t.halted || CoherentBut(t, ppn, swap)
  {
    var t := WriteOut(s, ppn);
    var sp0, v0 := s.ipt[ppn].owner, s.ipt[ppn].entry.virtualPage;
    assert FrameOk(s, ppn);
    if !t.halted {
      forall p | 0 <= p < |t.ipt| && p != ppn ensures FrameOk(t, p) { assert FrameOk(s, p); }
      forall sp: SpaceId, v | IsPage(t, sp, v) ensures PageOk(t, sp, v) && (PTE(t, sp, v).entry.valid ==> PTE(t, sp, v).entry.physicalPage != ppn) {
        assert PageOk(s, sp, v);
      }
      forall i | 0 <= i < |t.tlb| ensures SlotOk(t, i) { assert SlotOk(s, i); }
      if swap { WriteOutSwap(s, ppn); }
    }
  }

  /** One page's place in the swap file may change, to a slot that was free. */
  lemma SwapOneChanged(s: VM, t: VM, sp0: SpaceId, v0: int)
    requires SwapOk(s) && |t.swapMap| == |s.swapMap| && forall k :: 0 <= k < |s.swapMap| && s.swapMap[k] ==> t.swapMap[k]
    requires forall sp: SpaceId, v :: Swapped(t, sp, v) && (sp != sp0 || v != v0) ==>
               Swapped(s, sp, v) && PTE(t, sp, v).swapLocation == PTE(s, sp, v).swapLocation
    requires Swapped(t, sp0, v0) ==>
               var k := PTE(t, sp0, v0).swapLocation;
               0 <= k < |t.swapMap| && t.swapMap[k] && (!s.swapMap[k] || (Swapped(s, sp0, v0) && PTE(s, sp0, v0).swapLocation == k))
    ensures SwapOk(t)
  {
  }

  lemma WriteOutSwap(s: VM, ppn: nat)
    requires TablesOk(s, -1) && ppn < |s.ipt|
    requires IsPage(s, s.ipt[ppn].owner, s.ipt[ppn].entry.virtualPage)
    ensures SwapOk(WriteOut(s, ppn))
  {
    var t := WriteOut(s, ppn);
    var sp0, v0 := s.ipt[ppn].owner, s.ipt[ppn].entry.virtualPage;
    if t.halted == s.halted {
      forall sp: SpaceId, v | Swapped(t, sp, v) && (sp != sp0 || v != v0)
        ensures Swapped(s, sp, v) && PTE(t, sp, v).swapLocation == PTE(s, sp, v).swapLocation
      {
        assert IsPage(s, sp, v) && PTE(t, sp, v) == PTE(s, sp, v);
      }
      assert !s.ipt[ppn].entry.dirty && Swapped(t, sp0, v0) ==> Swapped(s, sp0, v0);
      SwapOneChanged(s, t, sp0, v0);
    } else {
      assert forall sp: SpaceId, v :: Swapped(t, sp, v) == Swapped(s, sp, v);
    }
  }

  lemma IPTMissCoherent(s: VM, vpn: int, ppn: nat, swap: bool := true)
    requires CoherentBut(s, ppn, swap) && ppn < |s.ipt|
    requires IsPage(s, s.current, vpn) && !PTE(s, s.current, vpn).entry.valid
    ensures Coherent(IPTMiss(s, vpn, ppn), swap)
  {
    var t := IPTMiss(s, vpn, ppn);
    assert PageOk(s, s.current, vpn);
    forall p | 0 <= p < |t.ipt| ensures FrameOk(t, p) { if p != ppn { assert FrameOk(s, p); } }
    forall sp: SpaceId, v | IsPage(t, sp, v) ensures PageOk(t, sp, v) { assert PageOk(s, sp, v); }
    forall i | 0 <= i < |t.tlb| ensures SlotOk(t, i) { assert SlotOk(s, i); }
    assert swap ==> SwapOk(t) by {
      assert forall sp: SpaceId, v :: Swapped(t, sp, v) == Swapped(s, sp, v);
      assert forall sp: SpaceId, v :: Swapped(t, sp, v) ==> PTE(t, sp, v).swapLocation == PTE(s, sp, v).swapLocation;
    }
  }

  lemma FreeFrameCoherent(s: VM, free: nat, swap: bool)
    requires Coherent(s, swap) && free < |s.memoryMap| && !s.memoryMap[free]
    ensures CoherentBut(s.(memoryMap := s.memoryMap[free := true]), free, swap)
  {
    var t := s.(memoryMap := s.memoryMap[free := true]);
    forall p | 0 <= p < |t.ipt| && p != free ensures FrameOk(t, p) { assert FrameOk(s, p); }
    assert FrameOk(s, free);
    forall sp: SpaceId, v | IsPage(t, sp, v) ensures PageOk(t, sp, v) { assert PageOk(s, sp, v); }
    forall i | 0 <= i < |t.tlb| ensures SlotOk(t, i) { assert SlotOk(s, i); }
    assert swap ==> SwapOk(t) by { assert forall sp: SpaceId, v :: Swapped(t, sp, v) == Swapped(s, sp, v); }
  }

  lemma ChooseFrameCoherent(s: VM, rnd: nat, swap: bool := true)
    requires Coherent(s, swap) && !s.halted
    ensures Evictable(s)
    ensures var (t, p) := ChooseFrame(s, rnd); t.halted || CoherentBut(t, p, swap)
  {
    FullIsEvictable(s);
    var free := FirstClear(s.memoryMap);
    if free < |s.memoryMap| {
      FreeFrameCoherent(s, free, swap);
    } else {
      var p := Victim(s, rnd);
      assert FrameOk(s, p);
      UnhookCoherent(s, p, swap);
      WriteOutCoherent(Unhook(s, p), p, swap);
    }
  }

  // ---------------------------------------------------------------- filling a slot

  lemma UpdateTLBCoherent(s: VM, ppn: nat, swap: bool := true)
    requires Coherent(s, swap) && ppn < |s.ipt|
    requires Holds(s.ipt[ppn], s.current, s.ipt[ppn].entry.virtualPage)
    requires FindSlot(s.tlb, s.ipt[ppn].entry.virtualPage) == |s.tlb|
    ensures Coherent(UpdateTLB(s, ppn), swap)
  {
    var t := UpdateTLB(s, ppn);
    forall p | 0 <= p < |t.ipt| ensures FrameOk(t, p) { assert FrameOk(s, p); }
    forall sp: SpaceId, v | IsPage(t, sp, v) ensures PageOk(t, sp, v) { assert PageOk(s, sp, v); }
    assert FrameOk(s, ppn);
    forall i | 0 <= i < |t.tlb| ensures SlotOk(t, i) { assert SlotOk(s, i); }
    assert swap ==> SwapOk(t) by { assert forall sp: SpaceId, v :: Swapped(t, sp, v) == Swapped(s, sp, v); }
  }

  /** An invalid page of any space stays invalid, and unmapped, while a frame is being freed. */
  lemma WriteOutKeeps(s: VM, ppn: nat, vpn: int)
    requires Shape(s) && ppn < |s.ipt| && IsPage(s, s.ipt[ppn].owner, s.ipt[ppn].entry.virtualPage)
    requires IsPage(s, s.current, vpn) && !PTE(s, s.current, vpn).entry.valid
    ensures var t := WriteOut(s, ppn);
            t.currentTLB == s.currentTLB && t.tlb == s.tlb && IsPage(t, s.current, vpn) && !PTE(t, s.current, vpn).entry.valid
  {
  }

  lemma NoSlotAfterInvalidate(tlb: seq<Translation>, ppn: int, vpn: int)
    requires FindSlot(tlb, vpn) == |tlb|
    ensures FindSlot(Invalidate(tlb, ppn), vpn) == |tlb|
  {
    var u := Invalidate(tlb, ppn);
    assert forall i :: 0 <= i < |tlb| && u[i].valid ==> tlb[i] == u[i];
  }

  lemma ChooseFrameKeeps(s: VM, vpn: int, rnd: nat)
    requires Evictable(s) && IsPage(s, s.current, vpn) && FindSlot(s.tlb, vpn) == |s.tlb|
    requires !PTE(s, s.current, vpn).entry.valid
    ensures var t := ChooseFrame(s, rnd).0;
            t.currentTLB == s.currentTLB && FindSlot(t.tlb, vpn) == |t.tlb|
            && IsPage(t, s.current, vpn) && !PTE(t, s.current, vpn).entry.valid
  {
    if FirstClear(s.memoryMap) == |s.memoryMap| {
      var p := Victim(s, rnd);
      NoSlotAfterInvalidate(s.tlb, p, vpn);
      WriteOutKeeps(Unhook(s, p), p, vpn);
    }
  }

  /** Loading a slot for a resident page makes the page reachable. */
  lemma LoadSlot(s: VM, vpn: int, ppn: nat, swap: bool := true)
    requires Coherent(s, swap) && ppn < |s.ipt| && Holds(s.ipt[ppn], s.current, vpn) && FindSlot(s.tlb, vpn) == |s.tlb|
    ensures var t := UpdateTLB(s, ppn); Coherent(t, swap) && FindSlot(t.tlb, vpn) < |t.tlb|
  {
    UpdateTLBCoherent(s, ppn, swap);
    var t := UpdateTLB(s, ppn);
    assert t.tlb[s.currentTLB].valid && t.tlb[s.currentTLB].virtualPage == vpn;
  }

  /** A handled fault leaves coherent tables and the page in a valid slot. */
  lemma FaultCoherent(s: VM, vpn: int, rnd: nat, swap: bool := true)
    requires Coherent(s, swap) && !s.halted && IsPage(s, s.current, vpn) && FindSlot(s.tlb, vpn) == |s.tlb|
    ensures Evictable(s)
    ensures var t := HandlePageFault(s, vpn, rnd); t.halted || (Coherent(t, swap) && FindSlot(t.tlb, vpn) < |t.tlb|)
  {
    FullIsEvictable(s);
    var p := FindFrame(s.ipt, s.current, vpn);
    if p < |s.ipt| {
      LoadSlot(s, vpn, p, swap);
    } else {
      assert PageOk(s, s.current, vpn);
      ChooseFrameCoherent(s, rnd, swap);
      var (u, ppn) := ChooseFrame(s, rnd);
      if !u.halted {
        ChooseFrameKeeps(s, vpn, rnd);
        IPTMissCoherent(u, vpn, ppn, swap);
        LoadSlot(IPTMiss(u, vpn, ppn), vpn, ppn, swap);
      }
    }
  }

  // ---------------------------------------------------------------- accesses

  lemma MemoryIrrelevant(s: VM, memory: seq<Page>, swap: bool := true)
    requires Coherent(s, swap) && |memory| == |s.mainMemory|
    requires forall p :: 0 <= p < |memory| ==> |memory[p]| == PageSize
    ensures Coherent(s.(mainMemory := memory), swap)
  {
    var t := s.(mainMemory := memory);
    forall p | 0 <= p < |t.ipt| ensures FrameOk(t, p) { assert FrameOk(s, p); }
    forall sp: SpaceId, v | IsPage(t, sp, v) ensures PageOk(t, sp, v) { assert PageOk(s, sp, v); }
    forall i | 0 <= i < |t.tlb| ensures SlotOk(t, i) { assert SlotOk(s, i); }
    assert swap ==> SwapOk(t) by { assert forall sp: SpaceId, v :: Swapped(t, sp, v) == Swapped(s, sp, v); }
  }

  lemma TranslateCoherent(s: VM, a: Access, swap: bool := true)
    requires Coherent(s, swap) && a.Sized()
    ensures Coherent(Translate(s, a).0, swap) && Translate(s, a).1 != ReadOnly
  {
    var t := Translate(s, a).0;
    var slot := FindSlot(s.tlb, a.Vpn());
    assert slot < |s.tlb| ==> SlotOk(s, slot);
    forall p | 0 <= p < |t.ipt| ensures FrameOk(t, p) { assert FrameOk(s, p); }
    forall sp: SpaceId, v | IsPage(t, sp, v) ensures PageOk(t, sp, v) { assert PageOk(s, sp, v); }
    forall i | 0 <= i < |t.tlb| ensures SlotOk(t, i) { assert SlotOk(s, i); }
    assert swap ==> SwapOk(t) by { assert forall sp: SpaceId, v :: Swapped(t, sp, v) == Swapped(s, sp, v); }
  }

  lemma AttemptCoherent(s: VM, a: Access, swap: bool := true)
    requires Coherent(s, swap) && a.Sized()
    ensures Coherent(Attempt(s, a).0, swap) && Attempt(s, a).1 != ReadOnly
  {
    TranslateCoherent(s, a, swap);
    MemoryIrrelevant(Translate(s, a).0, Attempt(s, a).0.mainMemory, swap);
  }

  // ---------------------------------------------------------------- switches, growth and exits

  lemma SaveStateCoherent(s: VM, swap: bool := true)
    requires TablesOk(s, -1, swap)
    ensures Coherent(SaveState(s), swap)
  {
    var t := SaveState(s);
    forall p | 0 <= p < |t.ipt| ensures FrameOk(t, p) { assert FrameOk(s, p); }
    forall sp: SpaceId, v | IsPage(t, sp, v) ensures PageOk(t, sp, v) { assert PageOk(s, sp, v); }
    assert swap ==> SwapOk(t) by { assert forall sp: SpaceId, v :: Swapped(t, sp, v) == Swapped(s, sp, v); }
  }

  lemma SwitchCoherent(s: VM, to: SpaceId, swap: bool := true)
    requires TablesOk(s, -1, swap) && to in s.spaces
    ensures Coherent(SaveState(s).(current := to), swap)
  {
    SaveStateCoherent(s, swap);
    var t := SaveState(s).(current := to);
    forall p | 0 <= p < |t.ipt| ensures FrameOk(t, p) { assert FrameOk(s, p); }
    forall sp: SpaceId, v | IsPage(t, sp, v) ensures PageOk(t, sp, v) { assert PageOk(s, sp, v); }
    assert swap ==> SwapOk(t) by { assert forall sp: SpaceId, v :: Swapped(t, sp, v) == Swapped(s, sp, v); }
  }

  ghost predicate NoneSwapped(s: VM, sp: SpaceId) { forall v :: !Swapped(s, sp, v) }

  lemma GrowStackCoherent(s: VM, lost: seq<int>, swap: bool := true)
    requires Coherent(s, swap) && (swap ==> NoneSwapped(s, s.current)) && |lost| == |s.spaces[s.current].pageTable|
    ensures Coherent(GrowStack(s, lost), swap)
  {
    var t := GrowStack(s, lost);
    forall p | 0 <= p < |t.ipt| ensures FrameOk(t, p) { assert FrameOk(s, p); }
    forall sp: SpaceId, v | IsPage(t, sp, v) ensures PageOk(t, sp, v) {
      if IsPage(s, sp, v) { assert PageOk(s, sp, v); }
    }
    forall i | 0 <= i < |t.tlb| ensures SlotOk(t, i) { assert SlotOk(s, i); }
    if swap {
      forall sp: SpaceId, v | Swapped(t, sp, v) ensures sp != s.current && Swapped(s, sp, v) && PTE(t, sp, v) == PTE(s, sp, v) {
        assert IsPage(s, sp, v) && !Swapped(s, s.current, v);
      }
    }
  }

  /** Growing the stack is sure to keep the tables coherent exactly when the program has no page in the swap file. */
  lemma GrowExact(s: VM)
    requires Coherent(s)
    ensures (forall lost :: |lost| == |s.spaces[s.current].pageTable| ==> Coherent(GrowStack(s, lost))) <==> NoneSwapped(s, s.current)
  {
    if NoneSwapped(s, s.current) {
      forall lost | |lost| == |s.spaces[s.current].pageTable| ensures Coherent(GrowStack(s, lost)) { GrowStackCoherent(s, lost); }
    } else {
      var v :| Swapped(s, s.current, v);
      var lost := seq(|s.spaces[s.current].pageTable|, i => -1);
      assert |lost| == |s.spaces[s.current].pageTable|;
      assert Swapped(GrowStack(s, lost), s.current, v);
      assert !Coherent(GrowStack(s, lost));
    }
  }

  lemma ExecCoherent(s: VM, id: SpaceId, executable: seq<Byte>, numPages: nat, swap: bool := true)
    requires Coherent(s, swap) && id !in s.spaces
    ensures Coherent(s.(spaces := s.spaces[id := NewSpace(executable, numPages)]), swap)
  {
    var t := s.(spaces := s.spaces[id := NewSpace(executable, numPages)]);
    forall p | 0 <= p < |t.ipt| ensures FrameOk(t, p) { assert FrameOk(s, p); }
    forall sp: SpaceId, v | IsPage(t, sp, v) ensures PageOk(t, sp, v) {
      if IsPage(s, sp, v) { assert PageOk(s, sp, v); }
    }
    forall i | 0 <= i < |t.tlb| ensures SlotOk(t, i) { assert SlotOk(s, i); }
    assert swap ==> SwapOk(t) by {
      assert forall sp: SpaceId, v :: Swapped(t, sp, v) ==> Swapped(s, sp, v) && PTE(t, sp, v) == PTE(s, sp, v);
    }
  }

  lemma ClearPageSwap(s: VM, v: int)
    requires TablesOk(s, -1) && IsPage(s, s.current, v) && ResidentInRange(s)
    ensures SwapOk(ClearPage(s, v))
  {
    var t := ClearPage(s, v);
    assert forall sp: SpaceId, w :: Swapped(t, sp, w) == Swapped(s, sp, w);
    assert forall sp: SpaceId, w :: Swapped(t, sp, w) ==> PTE(t, sp, w).swapLocation == PTE(s, sp, w).swapLocation;
  }

  lemma ResidentPages(s: VM)
    requires TablesOk(s, -1, false)
    ensures ResidentInRange(s)
  {
    forall w | IsPage(s, s.current, w) ensures PageOk(s, s.current, w) { }
  }

  lemma ClearPageCoherent(s: VM, v: int, swap: bool := true)
    requires TablesOk(s, -1, swap) && IsPage(s, s.current, v)
    ensures ResidentInRange(s)
    ensures var t := ClearPage(s, v); TablesOk(t, -1, swap) && !PTE(t, s.current, v).entry.valid
    ensures forall w :: IsPage(s, s.current, w) && !PTE(s, s.current, w).entry.valid ==> !PTE(ClearPage(s, v), s.current, w).entry.valid
  {
    ResidentPages(s);
    var t := ClearPage(s, v);
    assert PageOk(s, s.current, v);
    forall p | 0 <= p < |t.ipt| ensures FrameOk(t, p) { assert FrameOk(s, p); }
    forall sp: SpaceId, w | IsPage(t, sp, w) ensures PageOk(t, sp, w) { assert PageOk(s, sp, w); }
    if swap { ClearPageSwap(s, v); }
  }

  lemma {:induction false} ClearMemCoherent(s: VM, v: nat, swap: bool := true)
    requires TablesOk(s, -1, swap) && v <= |s.spaces[s.current].pageTable|
    requires forall w :: 0 <= w < v ==> !PTE(s, s.current, w).entry.valid
    ensures ResidentInRange(s)
    ensures var t := ClearMem(s, v); TablesOk(t, -1, swap) && forall w :: IsPage(t, s.current, w) ==> !PTE(t, s.current, w).entry.valid
    decreases |s.spaces[s.current].pageTable| - v
  {
    forall w | IsPage(s, s.current, w) ensures PageOk(s, s.current, w) { }
    if v < |s.spaces[s.current].pageTable| {
      ClearPageCoherent(s, v, swap);
      ClearMemCoherent(ClearPage(s, v), v + 1, swap);
    }
  }

  lemma DropSpaceCoherent(s: VM, gone: SpaceId, swap: bool := true)
    requires Coherent(s, swap) && gone != s.current
    requires forall v :: IsPage(s, gone, v) ==> !PTE(s, gone, v).entry.valid
    ensures Coherent(s.(spaces := s.spaces - {gone}), swap)
  {
    var t := s.(spaces := s.spaces - {gone});
    forall p | 0 <= p < |t.ipt| ensures FrameOk(t, p) { assert FrameOk(s, p); }
    forall sp: SpaceId, v | IsPage(t, sp, v) ensures PageOk(t, sp, v) { assert PageOk(s, sp, v); }
    forall i | 0 <= i < |t.tlb| ensures SlotOk(t, i) { assert SlotOk(s, i); }
    assert swap ==> SwapOk(t) by {
      assert forall sp: SpaceId, v :: Swapped(t, sp, v) ==> Swapped(s, sp, v) && PTE(t, sp, v) == PTE(s, sp, v);
    }
  }

  lemma ExitCoherent(s: VM, to: SpaceId, swap: bool := true)
    requires Coherent(s, swap) && to in s.spaces && to != s.current
    ensures ResidentInRange(s)
    ensures var t := SaveState(ClearMem(s)).(current := to); Coherent(t.(spaces := t.spaces - {s.current}), swap)
  {
    ClearMemCoherent(s, 0, swap);
    var t := ClearMem(s);
    SwitchCoherent(t, to, swap);
    var u := SaveState(t).(current := to);
    assert forall v :: IsPage(u, s.current, v) ==> IsPage(t, s.current, v) && PTE(u, s.current, v) == PTE(t, s.current, v);
    DropSpaceCoherent(u, s.current, swap);
  }

  // ---------------------------------------------------------------- whole runs

  /** What can happen between two points where user code runs. */
  datatype Event =
    | Memory(a: Access, rnd: nat)
    | Switch(to: SpaceId)
    | Exit(next: SpaceId)
    | Exec(id: SpaceId, executable: seq<Byte>, numPages: nat)
    | Grow(lost: seq<int>)

  ghost predicate Legal(s: VM, e: Event)
    requires Shape(s)
  {
    match e
    case Memory(a, _) => a.Sized() && IsPage(s, s.current, a.Vpn())
    case Switch(to) => to in s.spaces
    case Exit(next) => next in s.spaces && next != s.current
    case Exec(id, _, _) => id !in s.spaces
    case Grow(lost) => |lost| == |s.spaces[s.current].pageTable|
  }

  /** A user access: on a page fault the handler runs and the instruction is tried again. */
  function MemoryStep(s: VM, a: Access, rnd: nat): (r: (VM, Exception, seq<Byte>))
    requires Coherent(s, false) && !s.halted && a.Sized() && IsPage(s, s.current, a.Vpn())
  {
    FullIsEvictable(s);
    var (t, x, d) := Attempt(s, a);
    if x != PageFault then (t, x, d)
    else
      var u := HandlePageFault(s, a.Vpn(), rnd);
      if u.halted then (u, PageFault, []) else Attempt(u, a)
  }

  function Step(s: VM, e: Event): (t: VM)
    requires Coherent(s, false) && !s.halted && Legal(s, e)
  {
    match e
    case Memory(a, rnd) => MemoryStep(s, a, rnd).0
    case Switch(to) => SaveState(s).(current := to)
    case Exit(next) =>
      ClearMemCoherent(s, 0, false);
      var t := SaveState(ClearMem(s)).(current := next);
      t.(spaces := t.spaces - {s.current})
    case Exec(id, executable, numPages) => s.(spaces := s.spaces[id := NewSpace(executable, numPages)])
    case Grow(lost) => GrowStack(s, lost)
  }

  lemma MemoryStepCoherent(s: VM, a: Access, rnd: nat, swap: bool := true)
    requires Coherent(s, swap) && !s.halted && a.Sized() && IsPage(s, s.current, a.Vpn())
    ensures var (t, x, _) := MemoryStep(s, a, rnd);
            t.halted || (Coherent(t, swap) && x == if a.Aligned() then NoException else AddressError)
  {
    FullIsEvictable(s);
    AttemptCoherent(s, a, swap);
    if Attempt(s, a).1 == PageFault {
      FaultCoherent(s, a.Vpn(), rnd, swap);
      var u := HandlePageFault(s, a.Vpn(), rnd);
      if !u.halted { AttemptCoherent(u, a, swap); }
    }
  }

  /** A stack grows only while its program has no page in the swap file. */
  ghost predicate Careful(s: VM, e: Event) { e.Grow? ==> NoneSwapped(s, s.current) }

  /** Every event keeps the tables coherent, or the swap file is full and the machine has halted. */
  lemma StepCoherent(s: VM, e: Event, swap: bool := true)
    requires Coherent(s, swap) && !s.halted && Legal(s, e) && (swap ==> Careful(s, e))
    ensures Step(s, e).halted || Coherent(Step(s, e), swap)
  {
    match e
    case Memory(a, rnd) => MemoryStepCoherent(s, a, rnd, swap);
    case Switch(to) => SwitchCoherent(s, to, swap);
    case Exit(next) => ExitCoherent(s, next, swap);
    case Exec(id, executable, numPages) => ExecCoherent(s, id, executable, numPages, swap);
    case Grow(lost) => GrowStackCoherent(s, lost, swap);
  }

  /** The state after a sequence of events; a full swap file or an event nobody may cause ends the run. */
  ghost function Run(s: VM, events: seq<Event>): (t: VM)
    requires s.halted || Coherent(s, false)
    decreases |events|
  {
    if events == [] || s.halted || !Legal(s, events[0]) then s
    else StepCoherent(s, events[0], false); Run(Step(s, events[0]), events[1..])
  }

  /** No stack grows while its program has a page in the swap file. */
  ghost predicate CarefulRun(s: VM, events: seq<Event>)
    requires s.halted || Coherent(s, false)
    decreases |events|
  {
    events == [] || s.halted || !Legal(s, events[0])
    || (Careful(s, events[0]) && (StepCoherent(s, events[0], false); CarefulRun(Step(s, events[0]), events[1..])))
  }

  /** Table coherence in every reachable state of every run; places in the swap file included, unless a stack has grown
      while its program had a page there. */
  lemma {:induction false} AlwaysCoherent(s: VM, events: seq<Event>, swap: bool)
    requires s.halted || Coherent(s, swap)
    requires swap ==> CarefulRun(s, events)
    ensures Run(s, events).halted || Coherent(Run(s, events), swap)
    decreases |events|
  {
    if events != [] && !s.halted && Legal(s, events[0]) {
      StepCoherent(s, events[0], swap);
      StepCoherent(s, events[0], false);
      AlwaysCoherent(Step(s, events[0]), events[1..], swap);
    }
  }

  /** The machine as system.cc and machine.cc set it up, with a zero-filled TLB and one program. */
  function Boot(frames: nat, slots: nat, swapSlots: nat, randomPolicy: bool, executable: seq<Byte>, numPages: nat): VM
    requires 0 < frames && 0 < slots
  {
    VM(seq(slots, i => Translation(0, 0, false, false, false, false)), 0,
       seq(frames, i => IPTEntry(Translation(0, i, false, false, false, false), 0)), 0,
       seq(frames, i => ZeroPage()), seq(frames, i => false),
       seq(swapSlots, i => ZeroPage()), seq(swapSlots, i => false),
       map[0 := NewSpace(executable, numPages)], 0, randomPolicy, false)
  }

  lemma BootCoherent(frames: nat, slots: nat, swapSlots: nat, randomPolicy: bool, executable: seq<Byte>, numPages: nat)
    requires 0 < frames && 0 < slots
    ensures Coherent(Boot(frames, slots, swapSlots, randomPolicy, executable, numPages))
  {
    var s := Boot(frames, slots, swapSlots, randomPolicy, executable, numPages);
    forall sp: SpaceId, v | IsPage(s, sp, v) ensures PageOk(s, sp, v) && !Swapped(s, sp, v) { }
  }
}
