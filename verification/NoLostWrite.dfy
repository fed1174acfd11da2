/**
 No fault, eviction or reload changes what user code can read.  The dirty bit of a frame is kept
 lazily in TLB slots, so the point is when an eviction reads the right one.
 */
module NoLostWrite {
  import opened Words
  import opened Paging
  import opened Coherence

  /** What page v of a space holds: its frame when resident, its backing copy otherwise. */
  function Content(s: VM, sp: SpaceId, v: int): Page
    requires IsPage(s, sp, v)
  {
    var e := PTE(s, sp, v).entry;
    if e.valid && 0 <= e.physicalPage < |s.mainMemory| then s.mainMemory[e.physicalPage] else Backing(s, sp, v)
  }

  // ---------------------------------------------------------------- which slots know the truth

  /** Slots that count as holding a frame's dirty bit: the valid ones, or all when `every`. */
  predicate Counts(e: Translation, every: bool) { e.valid || every }

  ghost predicate Names(s: VM, i: int, p: int, every: bool) {
    0 <= i < |s.tlb| && s.tlb[i].physicalPage == p && Counts(s.tlb[i], every)
  }

  /** Some dirty bit that an eviction of p would see is set. */
  ghost predicate Marked(s: VM, p: int, every: bool)
    requires 0 <= p < |s.ipt|
  {
    && (forall i :: Names(s, i, p, every) ==> s.tlb[i].dirty)
    && ((forall i :: !Names(s, i, p, every)) ==> s.ipt[p].entry.dirty)
  }

  /** A frame that differs from its backing copy is marked. */
  ghost predicate Tracked(s: VM, p: int, every: bool)
    requires Shape(s) && 0 <= p < |s.ipt|
  {
    s.ipt[p].entry.valid && IsPage(s, s.ipt[p].owner, s.ipt[p].entry.virtualPage)
      && s.mainMemory[p] != Backing(s, s.ipt[p].owner, s.ipt[p].entry.virtualPage)
    ==> Marked(s, p, every)
  }

  ghost predicate AllTracked(s: VM, hole: int, every: bool) {
    && Shape(s) && (every ==> |s.tlb| == 1)
    && forall p :: 0 <= p < |s.ipt| && p != hole ==> Tracked(s, p, every)
  }

  /** The scan at eviction finds a set bit if every slot naming the frame is dirty, or there is none and the table's bit is set. */
  lemma {:induction false} LastDirtyTrue(tlb: seq<Translation>, p: int, initially: bool)
    requires forall i :: 0 <= i < |tlb| && tlb[i].physicalPage == p ==> tlb[i].dirty
    requires (forall i :: 0 <= i < |tlb| ==> tlb[i].physicalPage != p) ==> initially
    ensures LastDirty(tlb, p, initially)
  {
    if tlb != [] && tlb[|tlb| - 1].physicalPage != p {
      var rest := tlb[..|tlb| - 1];
      if forall i :: 0 <= i < |rest| ==> rest[i].physicalPage != p {
        assert forall i :: 0 <= i < |tlb| ==> tlb[i].physicalPage != p;
      }
      LastDirtyTrue(rest, p, initially);
    }
  }

  /** Every slot that names the victim counts. */
  ghost predicate NoStale(s: VM, p: int, every: bool) {
    forall i :: 0 <= i < |s.tlb| && s.tlb[i].physicalPage == p ==> Counts(s.tlb[i], every)
  }

  lemma VerdictRight(s: VM, p: int, every: bool)
    requires Shape(s) && 0 <= p < |s.ipt| && Marked(s, p, every) && NoStale(s, p, every)
    ensures LastDirty(s.tlb, p, s.ipt[p].entry.dirty)
  {
    forall i | 0 <= i < |s.tlb| && s.tlb[i].physicalPage == p ensures s.tlb[i].dirty { assert Names(s, i, p, every); }
    LastDirtyTrue(s.tlb, p, s.ipt[p].entry.dirty);
  }

  // ---------------------------------------------------------------- eviction

  /** Reading off the dirty bits and invalidating slots changes no contents. */
  lemma UnhookContent(s: VM, p: nat, sp: SpaceId, v: int)
    requires Shape(s) && p < |s.ipt| && IsPage(s, sp, v)
    ensures var u := Unhook(s, p);
            && IsPage(u, sp, v) && Content(u, sp, v) == Content(s, sp, v) && Backing(u, sp, v) == Backing(s, sp, v) && u.halted == s.halted
            && u.ipt[p].owner == s.ipt[p].owner && u.ipt[p].entry.virtualPage == s.ipt[p].entry.virtualPage
            && u.ipt[p].entry.valid == s.ipt[p].entry.valid && u.ipt[p].entry.dirty == LastDirty(s.tlb, p, s.ipt[p].entry.dirty)
  {
  }

  lemma WriteOutOther(u: VM, p: nat, sp: SpaceId, v: int)
    requires TablesOk(u, -1) && !u.halted && p < |u.ipt| && u.ipt[p].entry.valid && IsPage(u, sp, v)
    requires IsPage(u, u.ipt[p].owner, u.ipt[p].entry.virtualPage) && (sp, v) != (u.ipt[p].owner, u.ipt[p].entry.virtualPage)
    ensures var t := WriteOut(u, p);
            IsPage(t, sp, v) && (!t.halted ==> Content(t, sp, v) == Content(u, sp, v) && Backing(t, sp, v) == Backing(u, sp, v))
  {
    assert FrameOk(u, p);
    assert PageOk(u, sp, v);
    assert Swapped(u, sp, v) ==> u.swapMap[PTE(u, sp, v).swapLocation];
  }

  lemma WriteOutOwn(u: VM, p: nat)
    requires TablesOk(u, -1) && !u.halted && p < |u.ipt| && u.ipt[p].entry.valid
    requires IsPage(u, u.ipt[p].owner, u.ipt[p].entry.virtualPage)
    ensures var t, sp, v := WriteOut(u, p), u.ipt[p].owner, u.ipt[p].entry.virtualPage;
            IsPage(t, sp, v) && (!t.halted ==> Content(t, sp, v) == if u.ipt[p].entry.dirty then Content(u, sp, v) else Backing(u, sp, v))
  {
    assert FrameOk(u, p);
  }

  /** Giving up frame p keeps every page but its own; its own is kept when the verdict is dirty. */
  lemma EvictContent(s: VM, p: nat, sp: SpaceId, v: int)
    requires Coherent(s) && !s.halted && p < |s.ipt| && s.ipt[p].entry.valid && IsPage(s, sp, v)
    requires IsPage(s, s.ipt[p].owner, s.ipt[p].entry.virtualPage)
    ensures var t := Evict(s, p); IsPage(t, sp, v) && (!t.halted ==>
              Content(t, sp, v) == if (sp, v) == (s.ipt[p].owner, s.ipt[p].entry.virtualPage) && !LastDirty(s.tlb, p, s.ipt[p].entry.dirty)
                                   then Backing(s, sp, v) else Content(s, sp, v))
  {
    UnhookCoherent(s, p);
    UnhookContent(s, p, sp, v);
    if (sp, v) == (s.ipt[p].owner, s.ipt[p].entry.virtualPage) {
      WriteOutOwn(Unhook(s, p), p);
    } else {
      WriteOutOther(Unhook(s, p), p, sp, v);
    }
  }

  /** The pages that were not in frame p keep their backing copy too. */
  lemma EvictBacking(s: VM, p: nat, sp: SpaceId, v: int)
    requires Coherent(s) && !s.halted && p < |s.ipt| && s.ipt[p].entry.valid && IsPage(s, sp, v)
    requires IsPage(s, s.ipt[p].owner, s.ipt[p].entry.virtualPage)
    requires (sp, v) != (s.ipt[p].owner, s.ipt[p].entry.virtualPage)
    ensures var t := Evict(s, p); IsPage(t, sp, v) && (!t.halted ==> Backing(t, sp, v) == Backing(s, sp, v))
  {
    UnhookCoherent(s, p);
    UnhookContent(s, p, sp, v);
    WriteOutOther(Unhook(s, p), p, sp, v);
  }

  lemma EvictTables(s: VM, p: nat)
    requires Shape(s) && p < |s.ipt| && IsPage(s, s.ipt[p].owner, s.ipt[p].entry.virtualPage)
    ensures Evict(s, p).tlb == Invalidate(s.tlb, p) && |Evict(s, p).ipt| == |s.ipt|
    ensures forall q :: 0 <= q < |s.ipt| && q != p ==> Evict(s, p).ipt[q] == s.ipt[q]
  {
  }

  lemma EvictMarked(s: VM, t: VM, p: nat, q: int, every: bool)
    requires p != q && 0 <= q < |s.ipt| == |t.ipt| && t.tlb == Invalidate(s.tlb, p) && t.ipt[q] == s.ipt[q] && Marked(s, q, every)
    ensures Marked(t, q, every)
  {
    assert forall i :: Names(t, i, q, every) <==> Names(s, i, q, every);
  }

  lemma EvictTrackedOne(s: VM, p: nat, q: int, every: bool)
    requires Coherent(s) && !s.halted && p < |s.ipt| && s.ipt[p].entry.valid && 0 <= q < |s.ipt| && q != p && Tracked(s, q, every)
    requires IsPage(s, s.ipt[p].owner, s.ipt[p].entry.virtualPage) && !Evict(s, p).halted
    ensures Tracked(Evict(s, p), q, every)
  {
    assert FrameOk(s, q) && FrameOk(s, p);
    if s.ipt[q].entry.valid {
      EvictBacking(s, p, s.ipt[q].owner, s.ipt[q].entry.virtualPage);
      EvictTables(s, p);
      if Marked(s, q, every) { EvictMarked(s, Evict(s, p), p, q, every); }
    }
  }

  lemma EvictTracked(s: VM, p: nat, every: bool)
    requires Coherent(s) && !s.halted && p < |s.ipt| && s.ipt[p].entry.valid && AllTracked(s, -1, every)
    requires IsPage(s, s.ipt[p].owner, s.ipt[p].entry.virtualPage)
    ensures Evict(s, p).halted || AllTracked(Evict(s, p), p, every)
  {
    var t := Evict(s, p);
    if !t.halted {
      forall q | 0 <= q < |t.ipt| && q != p ensures Tracked(t, q, every) { EvictTrackedOne(s, p, q, every); }
    }
  }

  // ---------------------------------------------------------------- loading

  lemma IPTMissContent(s: VM, vpn: int, ppn: nat, sp: SpaceId, v: int)
    requires CoherentBut(s, ppn) && ppn < |s.ipt| && IsPage(s, sp, v)
    requires IsPage(s, s.current, vpn) && !PTE(s, s.current, vpn).entry.valid
    ensures var t := IPTMiss(s, vpn, ppn);
            IsPage(t, sp, v) && Content(t, sp, v) == Content(s, sp, v) && Backing(t, sp, v) == Backing(s, sp, v)
  {
    assert PageOk(s, sp, v);
  }

  lemma IPTMissTracked(s: VM, vpn: int, ppn: nat, every: bool)
    requires CoherentBut(s, ppn) && ppn < |s.ipt| && AllTracked(s, ppn, every)
    requires IsPage(s, s.current, vpn) && !PTE(s, s.current, vpn).entry.valid
    ensures AllTracked(IPTMiss(s, vpn, ppn), -1, every)
  {
    var t := IPTMiss(s, vpn, ppn);
    forall q | 0 <= q < |t.ipt| ensures Tracked(t, q, every) {
      if q == ppn {
        IPTMissContent(s, vpn, ppn, s.current, vpn);
      } else if s.ipt[q].entry.valid {
        assert Tracked(s, q, every) && FrameOk(s, q);
        IPTMissContent(s, vpn, ppn, s.ipt[q].owner, s.ipt[q].entry.virtualPage);
        assert forall i :: Names(t, i, q, every) <==> Names(s, i, q, every);
      }
    }
  }

  /** Overwriting a slot moves the dirty bit it held to the frame's row, and the new slot starts from that row. */
  lemma UpdateTLBTracked(s: VM, ppn: nat, every: bool)
    requires Coherent(s) && ppn < |s.ipt| && AllTracked(s, -1, every)
    requires Holds(s.ipt[ppn], s.current, s.ipt[ppn].entry.virtualPage)
    requires FindSlot(s.tlb, s.ipt[ppn].entry.virtualPage) == |s.tlb|
    ensures AllTracked(UpdateTLB(s, ppn), -1, every)
  {
    var t := UpdateTLB(s, ppn);
    forall q | 0 <= q < |t.ipt| ensures Tracked(t, q, every) {
      assert Tracked(s, q, every);
      if Marked(s, q, every) { SlotMoveMarked(s, ppn, q, every); }
    }
  }

  lemma SlotMoveMarked(s: VM, ppn: nat, q: nat, every: bool)
    requires Coherent(s) && ppn < |s.ipt| && q < |s.ipt| && Marked(s, q, every) && (every ==> |s.tlb| == 1)
    requires Holds(s.ipt[ppn], s.current, s.ipt[ppn].entry.virtualPage)
    requires FindSlot(s.tlb, s.ipt[ppn].entry.virtualPage) == |s.tlb|
    ensures Marked(UpdateTLB(s, ppn), q, every)
  {
    var t := UpdateTLB(s, ppn);
    var c := s.currentTLB;
    assert forall i :: 0 <= i < |s.tlb| ==> SlotOk(s, i);
    assert forall i :: i != c ==> Names(t, i, q, every) == Names(s, i, q, every);
    if Names(s, c, q, every) {
      assert t.ipt[q].entry.dirty;
    } else if s.ipt[q].entry.dirty {
    } else {
      var j :| Names(s, j, q, every);
      assert Names(t, j, q, every);
      assert q != ppn;
    }
  }

  // ---------------------------------------------------------------- a whole fault

  /** The fault needs a frame and none is free. */
  predicate MustEvict(s: VM, vpn: int) {
    FindFrame(s.ipt, s.current, vpn) == |s.ipt| && FirstClear(s.memoryMap) == |s.memoryMap|
  }

  /** Frame p may be given up: the scan will find it dirty, or it equals its backing copy. */
  ghost predicate Safe(s: VM, p: int)
    requires Shape(s) && 0 <= p < |s.ipt|
  {
    LastDirty(s.tlb, p, s.ipt[p].entry.dirty) ||
    (IsPage(s, s.ipt[p].owner, s.ipt[p].entry.virtualPage) &&
     s.mainMemory[p] == Backing(s, s.ipt[p].owner, s.ipt[p].entry.virtualPage))
  }

  ghost predicate SafeFault(s: VM, vpn: int, rnd: nat)
    requires Shape(s)
  {
    MustEvict(s, vpn) ==> Safe(s, Victim(s, rnd))
  }

  lemma TrackedIsSafe(s: VM, p: int, every: bool)
    requires Coherent(s) && AllTracked(s, -1, every) && 0 <= p < |s.ipt| && s.ipt[p].entry.valid && NoStale(s, p, every)
    ensures Safe(s, p)
  {
    assert FrameOk(s, p) && Tracked(s, p, every);
    if Marked(s, p, every) { VerdictRight(s, p, every); }
  }

  ghost predicate SameContent(s: VM, t: VM) {
    forall sp: SpaceId, v :: IsPage(s, sp, v) ==> IsPage(t, sp, v) && Content(t, sp, v) == Content(s, sp, v)
  }

  lemma ChooseFrameContent(s: VM, vpn: int, rnd: nat)
    requires Coherent(s) && !s.halted && Evictable(s) && FindFrame(s.ipt, s.current, vpn) == |s.ipt|
    ensures var t := ChooseFrame(s, rnd).0; !t.halted ==> (SameContent(s, t) <==> SafeFault(s, vpn, rnd))
  {
    if FirstClear(s.memoryMap) == |s.memoryMap| { VictimSame(s, rnd, Victim(s, rnd)); }
  }

  lemma VictimSame(s: VM, rnd: nat, p: nat)
    requires Coherent(s) && !s.halted && Evictable(s) && FirstClear(s.memoryMap) == |s.memoryMap| && p == Victim(s, rnd)
    ensures var t := ChooseFrame(s, rnd).0; !t.halted ==> (SameContent(s, t) <==> Safe(s, p))
  {
    VictimContent(s, rnd, p);
    assert FrameOk(s, p);
    var t, sp, v := ChooseFrame(s, rnd).0, s.ipt[p].owner, s.ipt[p].entry.virtualPage;
    assert Content(s, sp, v) == s.mainMemory[p];
    if !t.halted && SameContent(s, t) { assert Content(t, sp, v) == Content(s, sp, v); }
  }

  lemma VictimContent(s: VM, rnd: nat, p: nat)
    requires Coherent(s) && !s.halted && Evictable(s) && FirstClear(s.memoryMap) == |s.memoryMap| && p == Victim(s, rnd)
    ensures IsPage(s, s.ipt[p].owner, s.ipt[p].entry.virtualPage)
    ensures var t := ChooseFrame(s, rnd).0;
            !t.halted ==> forall sp: SpaceId, v :: IsPage(s, sp, v) ==>
              && IsPage(t, sp, v)
              && Content(t, sp, v) == if (sp, v) == (s.ipt[p].owner, s.ipt[p].entry.virtualPage) && !LastDirty(s.tlb, p, s.ipt[p].entry.dirty)
                                      then Backing(s, sp, v) else Content(s, sp, v)
  {
    assert FrameOk(s, p);
    var t := ChooseFrame(s, rnd).0;
    if !t.halted {
      forall sp: SpaceId, v | IsPage(s, sp, v)
        ensures IsPage(t, sp, v)
        ensures Content(t, sp, v) == if (sp, v) == (s.ipt[p].owner, s.ipt[p].entry.virtualPage) && !LastDirty(s.tlb, p, s.ipt[p].entry.dirty)
                                     then Backing(s, sp, v) else Content(s, sp, v)
      { EvictContent(s, p, sp, v); }
    }
  }

  lemma LoadContent(s: VM, vpn: int, ppn: nat)
    requires CoherentBut(s, ppn) && ppn < |s.ipt|
    requires IsPage(s, s.current, vpn) && !PTE(s, s.current, vpn).entry.valid
    ensures SameContent(s, UpdateTLB(IPTMiss(s, vpn, ppn), ppn))
  {
    var t := UpdateTLB(IPTMiss(s, vpn, ppn), ppn);
    forall sp: SpaceId, v | IsPage(s, sp, v) ensures IsPage(t, sp, v) && Content(t, sp, v) == Content(s, sp, v) {
      IPTMissContent(s, vpn, ppn, sp, v);
    }
  }

  /** A fault changes the content of no page of any space exactly when its victim is safe. */
  lemma FaultContent(s: VM, vpn: int, rnd: nat)
    requires Coherent(s) && !s.halted
    requires IsPage(s, s.current, vpn) && FindSlot(s.tlb, vpn) == |s.tlb|
    ensures Evictable(s)
    ensures var t := HandlePageFault(s, vpn, rnd); !t.halted ==> (SameContent(s, t) <==> SafeFault(s, vpn, rnd))
  {
    FullIsEvictable(s);
    var p := FindFrame(s.ipt, s.current, vpn);
    var t := HandlePageFault(s, vpn, rnd);
    if p < |s.ipt| {
      assert SameContent(s, t);
    } else if !t.halted {
      var (u, ppn) := ChooseFrame(s, rnd);
      assert PageOk(s, s.current, vpn);
      ChooseFrameCoherent(s, rnd);
      ChooseFrameKeeps(s, vpn, rnd);
      ChooseFrameContent(s, vpn, rnd);
      LoadContent(u, vpn, ppn);
      SameContentChains(s, u, t);
    }
  }

  lemma SameContentChains(s: VM, u: VM, t: VM)
    requires SameSizes(s, u) && SameContent(u, t)
    ensures SameContent(s, u) <==> SameContent(s, t)
  {
    assert forall sp: SpaceId, v :: IsPage(s, sp, v) ==> IsPage(u, sp, v);
  }

  lemma FreeFrameTracked(s: VM, free: nat, every: bool)
    requires AllTracked(s, -1, every) && free < |s.memoryMap|
    ensures AllTracked(s.(memoryMap := s.memoryMap[free := true]), free, every)
  {
    var t := s.(memoryMap := s.memoryMap[free := true]);
    forall q | 0 <= q < |t.ipt| && q != free ensures Tracked(t, q, every) {
      assert Tracked(s, q, every);
      assert forall i :: Names(t, i, q, every) <==> Names(s, i, q, every);
    }
  }

  lemma LoadTracked(s: VM, vpn: int, ppn: nat, every: bool)
    requires CoherentBut(s, ppn) && ppn < |s.ipt| && AllTracked(s, ppn, every)
    requires IsPage(s, s.current, vpn) && !PTE(s, s.current, vpn).entry.valid && FindSlot(s.tlb, vpn) == |s.tlb|
    ensures AllTracked(UpdateTLB(IPTMiss(s, vpn, ppn), ppn), -1, every)
  {
    IPTMissCoherent(s, vpn, ppn);
    IPTMissTracked(s, vpn, ppn, every);
    UpdateTLBTracked(IPTMiss(s, vpn, ppn), ppn, every);
  }

  /** The dirty bits stay trustworthy through any fault. */
  lemma FaultTracked(s: VM, vpn: int, rnd: nat, every: bool)
    requires Coherent(s) && !s.halted && AllTracked(s, -1, every)
    requires IsPage(s, s.current, vpn) && FindSlot(s.tlb, vpn) == |s.tlb|
    ensures Evictable(s)
    ensures var t := HandlePageFault(s, vpn, rnd); !t.halted ==> AllTracked(t, -1, every)
  {
    FullIsEvictable(s);
    var p := FindFrame(s.ipt, s.current, vpn);
    if p < |s.ipt| {
      UpdateTLBTracked(s, p, every);
    } else if !ChooseFrame(s, rnd).0.halted {
      var (u, ppn) := ChooseFrame(s, rnd);
      assert PageOk(s, s.current, vpn);
      ChooseFrameCoherent(s, rnd);
      ChooseFrameKeeps(s, vpn, rnd);
      if FirstClear(s.memoryMap) < |s.memoryMap| {
        FreeFrameTracked(s, ppn, every);
      } else {
        assert FrameOk(s, ppn);
        EvictTracked(s, ppn, every);
      }
      LoadTracked(u, vpn, ppn, every);
    }
  }

  // ---------------------------------------------------------------- the access itself

  /** A hit reads the page's content, or splices the stored bytes into it and into no other page. */
  lemma AttemptContent(s: VM, a: Access, sp: SpaceId, v: int)
    requires Coherent(s) && a.Sized() && IsPage(s, s.current, a.Vpn()) && Attempt(s, a).1 == NoException && IsPage(s, sp, v)
    ensures 0 <= a.Offset() && a.Offset() + a.Size() <= PageSize && |Content(s, s.current, a.Vpn())| == PageSize
    ensures a.Load? ==> Attempt(s, a).2 == Content(s, s.current, a.Vpn())[a.Offset()..a.Offset() + a.size]
    ensures var t := Attempt(s, a).0;
            IsPage(t, sp, v) &&
            Content(t, sp, v) == if a.Store? && (sp, v) == (s.current, a.Vpn())
                                 then Splice(Content(s, sp, v), a.Offset(), a.data) else Content(s, sp, v)
  {
    FitsInPage(a);
    var slot := FindSlot(s.tlb, a.Vpn());
    assert SlotOk(s, slot);
    var p := s.tlb[slot].physicalPage;
    assert FrameOk(s, p);
    assert PageOk(s, sp, v);
  }

  /** A hit sets the use bit of its slot, and a store the dirty bit; no other slot and nothing else changes. A miss, and an
      access that is not aligned, change nothing. */
  lemma TranslateMarks(s: VM, a: Access)
    requires Coherent(s) && a.Sized()
    ensures var (t, x, p) := Translate(s, a);
            if !a.Aligned() then x == AddressError && t == s
            else if FindSlot(s.tlb, a.Vpn()) == |s.tlb| then x == PageFault && t == s
            else var k := FindSlot(s.tlb, a.Vpn());
                 && x == NoException && p == s.tlb[k].physicalPage
                 && t == s.(tlb := s.tlb[k := s.tlb[k].(use := true, dirty := s.tlb[k].dirty || a.Store?)])
  {
    var k := FindSlot(s.tlb, a.Vpn());
    assert k < |s.tlb| ==> SlotOk(s, k);
  }

  lemma TranslateMarked(s: VM, a: Access, every: bool, q: int)
    requires Coherent(s) && a.Sized() && 0 <= q < |s.ipt| && (every ==> |s.tlb| == 1)
    ensures var (t, x, p) := Translate(s, a);
            (Marked(s, q, every) || (x == NoException && q == p && a.Store?)) ==> Marked(t, q, every)
  {
    var t := Translate(s, a).0;
    var slot := FindSlot(s.tlb, a.Vpn());
    assert forall i :: 0 <= i < |s.tlb| ==> SlotOk(s, i);
    assert forall i :: Names(t, i, q, every) <==> Names(s, i, q, every);
    assert slot < |s.tlb| ==> Names(t, slot, t.tlb[slot].physicalPage, every);
  }

  /** The access moves bytes of one frame only, and a store marks it. */
  lemma AttemptMarked(s: VM, a: Access, every: bool, q: int)
    requires Coherent(s) && a.Sized() && 0 <= q < |s.ipt| && (every ==> |s.tlb| == 1)
    ensures var t := Attempt(s, a).0;
            && t.ipt == s.ipt && t.spaces == s.spaces && t.swapFile == s.swapFile
            && (t.mainMemory[q] == s.mainMemory[q] ==> Marked(s, q, every) ==> Marked(t, q, every))
            && (t.mainMemory[q] != s.mainMemory[q] ==> Marked(t, q, every))
  {
    TranslateMarked(s, a, every, q);
    var t, r := Attempt(s, a).0, Translate(s, a).0;
    assert t.tlb == r.tlb && t.ipt == r.ipt;
    assert Marked(r, q, every) ==> Marked(t, q, every) by {
      assert forall i :: Names(t, i, q, every) <==> Names(r, i, q, every);
    }
  }

  lemma AttemptTracked(s: VM, a: Access, every: bool)
    requires Coherent(s) && a.Sized() && AllTracked(s, -1, every)
    ensures AllTracked(Attempt(s, a).0, -1, every)
  {
    var t := Attempt(s, a).0;
    forall q | 0 <= q < |t.ipt| ensures Tracked(t, q, every) {
      assert Tracked(s, q, every);
      AttemptMarked(s, a, every, q);
    }
  }

  lemma SaveStateTracked(s: VM)
    requires AllTracked(s, -1, true)
    ensures AllTracked(SaveState(s), -1, true)
  {
    var t := SaveState(s);
    forall q | 0 <= q < |t.ipt| ensures Tracked(t, q, true) {
      assert Tracked(s, q, true);
      assert forall i :: Names(t, i, q, true) <==> Names(s, i, q, true);
    }
  }
}
