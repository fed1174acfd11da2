/**
 When the machine halts: exactly when a frame that the scan leaves dirty has to be given up and the swap file is full.
 */
module Halting {
  import opened Words
  import opened Paging
  import opened Coherence
  import opened NoLostWrite

  ghost predicate SwapFull(s: VM) { forall k :: 0 <= k < |s.swapMap| ==> s.swapMap[k] }

  /** The scan of the slots leaves the frame dirty. */
  ghost predicate FoundDirty(s: VM, p: int)
    requires Shape(s) && 0 <= p < |s.ipt|
  {
    LastDirty(s.tlb, p, s.ipt[p].entry.dirty)
  }

  // ---------------------------------------------------------------- one eviction

  lemma EvictHalts(s: VM, p: nat)
    requires Shape(s) && !s.halted && p < |s.ipt| && IsPage(s, s.ipt[p].owner, s.ipt[p].entry.virtualPage)
    ensures Evict(s, p).halted <==> FoundDirty(s, p) && SwapFull(s)
    ensures Evict(s, p).halted ==> Evict(s, p).swapMap == s.swapMap
  {
    var k := FirstClear(s.swapMap);
    assert SwapFull(s) <==> k == |s.swapMap|;
  }

  /** A dirty page goes to the least free place of the swap file, and nothing else in the file changes; a clean one
      leaves the file alone. */
  lemma EvictSwaps(s: VM, p: nat)
    requires Shape(s) && !s.halted && p < |s.ipt| && IsPage(s, s.ipt[p].owner, s.ipt[p].entry.virtualPage) && !Evict(s, p).halted
    ensures var t, sp, v := Evict(s, p), s.ipt[p].owner, s.ipt[p].entry.virtualPage;
            && IsPage(t, sp, v) && !PTE(t, sp, v).entry.valid
            && if FoundDirty(s, p)
               then var k := PTE(t, sp, v).swapLocation;
                    && 0 <= k < |s.swapMap| && !s.swapMap[k] && (forall j :: 0 <= j < k ==> s.swapMap[j])
                    && PTE(t, sp, v).location == SwapFile
                    && t.swapMap == s.swapMap[k := true] && t.swapFile == s.swapFile[k := s.mainMemory[p]]
               else t.swapMap == s.swapMap && t.swapFile == s.swapFile
                    && PTE(t, sp, v) == PTE(s, sp, v).(entry := PTE(s, sp, v).entry.(valid := false))
  {
  }

  /** First in, first out: evictions take the frames in turn. At random: any frame can be the victim. */
  lemma VictimsInTurn(s: VM, p: nat, rnd: nat)
    requires Shape(s) && p < |s.ipt|
    ensures !s.randomPolicy ==> Victim(s, rnd) == s.currentIPT
    ensures !s.randomPolicy && IsPage(s, s.ipt[p].owner, s.ipt[p].entry.virtualPage) ==>
              Evict(s, p).currentIPT == if s.currentIPT + 1 == |s.ipt| then 0 else s.currentIPT + 1
    ensures s.randomPolicy ==> Victim(s, p) == p
  {
  }

  // ---------------------------------------------------------------- one access

  /** The fault has to give up a frame, which the scan leaves dirty. */
  ghost predicate MustSwap(s: VM, vpn: int, rnd: nat)
    requires Shape(s)
  {
    MustEvict(s, vpn) && FoundDirty(s, Victim(s, rnd))
  }

  lemma FaultHalts(s: VM, vpn: int, rnd: nat)
    requires Coherent(s, false) && !s.halted && IsPage(s, s.current, vpn)
    ensures Evictable(s)
    ensures var t := HandlePageFault(s, vpn, rnd);
            && (t.halted <==> MustSwap(s, vpn, rnd) && SwapFull(s)) && (t.halted ==> SwapFull(t))
  {
    FullIsEvictable(s);
    if MustEvict(s, vpn) { EvictHalts(s, Victim(s, rnd)); }
  }

  /** An access halts the machine exactly when it is aligned, misses, has to give up a frame that the scan leaves dirty,
      and the swap file is full. */
  lemma AccessHalts(s: VM, a: Access, rnd: nat)
    requires Coherent(s, false) && !s.halted && a.Sized() && IsPage(s, s.current, a.Vpn())
    ensures var t := MemoryStep(s, a, rnd).0;
            && (t.halted <==> a.Aligned() && FindSlot(s.tlb, a.Vpn()) == |s.tlb| && MustSwap(s, a.Vpn(), rnd) && SwapFull(s))
            && (t.halted ==> SwapFull(t))
  {
    FaultHalts(s, a.Vpn(), rnd);
    AttemptHalts(s, a);
    var u := HandlePageFault(s, a.Vpn(), rnd);
    if !u.halted { AttemptHalts(u, a); }
  }

  lemma AttemptHalts(s: VM, a: Access)
    requires Shape(s) && a.Sized()
    ensures var (t, x, d) := Attempt(s, a);
            t.halted == s.halted && t.swapMap == s.swapMap && (x == PageFault <==> a.Aligned() && FindSlot(s.tlb, a.Vpn()) == |s.tlb|)
  {
  }

  // ---------------------------------------------------------------- every run

  /** How many places of the swap file are free. */
  function FreePlaces(bits: seq<bool>): nat { if bits == [] then 0 else FreePlaces(bits[1..]) + if bits[0] then 0 else 1 }

  lemma {:induction false} PlaceTaken(bits: seq<bool>, k: nat)
    requires k < |bits| && !bits[k]
    ensures FreePlaces(bits[k := true]) == FreePlaces(bits) - 1
    decreases k
  {
    var r := bits[k := true];
    if k == 0 {
      assert r[1..] == bits[1..];
    } else {
      PlaceTaken(bits[1..], k - 1);
      assert r[1..] == bits[1..][k - 1 := true];
    }
  }

  lemma {:induction false} NoneFree(bits: seq<bool>)
    requires FreePlaces(bits) > 0
    ensures exists k :: 0 <= k < |bits| && !bits[k]
  {
    if bits[0] {
      NoneFree(bits[1..]);
      var k :| 0 <= k < |bits[1..]| && !bits[1..][k];
      assert !bits[k + 1];
    }
  }

  lemma EvictTakesOne(s: VM, p: nat)
    requires Shape(s) && !s.halted && p < |s.ipt| && IsPage(s, s.ipt[p].owner, s.ipt[p].entry.virtualPage)
    ensures FreePlaces(Evict(s, p).swapMap) + 1 >= FreePlaces(s.swapMap)
  {
    EvictHalts(s, p);
    if !Evict(s, p).halted {
      EvictSwaps(s, p);
      if FoundDirty(s, p) { PlaceTaken(s.swapMap, PTE(Evict(s, p), s.ipt[p].owner, s.ipt[p].entry.virtualPage).swapLocation); }
    }
  }

  lemma AccessTakesOne(s: VM, a: Access, rnd: nat)
    requires Coherent(s, false) && !s.halted && a.Sized() && IsPage(s, s.current, a.Vpn())
    ensures FreePlaces(MemoryStep(s, a, rnd).0.swapMap) + 1 >= FreePlaces(s.swapMap)
  {
    FullIsEvictable(s);
    AttemptHalts(s, a);
    if Attempt(s, a).1 == PageFault {
      FaultTakesOne(s, a.Vpn(), rnd);
      var u := HandlePageFault(s, a.Vpn(), rnd);
      AttemptHalts(u, a);
    }
  }

  lemma FaultTakesOne(s: VM, vpn: int, rnd: nat)
    requires Coherent(s, false) && !s.halted && IsPage(s, s.current, vpn) && Evictable(s)
    ensures FreePlaces(HandlePageFault(s, vpn, rnd).swapMap) + 1 >= FreePlaces(s.swapMap)
  {
    if MustEvict(s, vpn) { EvictTakesOne(s, Victim(s, rnd)); }
  }

  lemma {:induction false} ClearMemSwap(s: VM, v: nat)
    requires Shape(s) && ResidentInRange(s) && v <= |s.spaces[s.current].pageTable|
    ensures ClearMem(s, v).swapMap == s.swapMap && ClearMem(s, v).halted == s.halted
    decreases |s.spaces[s.current].pageTable| - v
  {
    if v < |s.spaces[s.current].pageTable| { ClearMemSwap(ClearPage(s, v), v + 1); }
  }

  function Cost(e: Event): nat { if e.Memory? then 1 else 0 }

  /** Only an access can halt the machine, and only with the swap file full; it takes at most one place. */
  lemma StepHalts(s: VM, e: Event)
    requires Coherent(s, false) && !s.halted && Legal(s, e)
    ensures var t := Step(s, e);
            && (t.halted ==> e.Memory? && SwapFull(s) && SwapFull(t)) && FreePlaces(t.swapMap) + Cost(e) >= FreePlaces(s.swapMap)
  {
    match e
    case Memory(a, rnd) =>
      AccessHalts(s, a, rnd);
      AccessTakesOne(s, a, rnd);
    case Exit(_) =>
      ResidentPages(s);
      ClearMemSwap(s, 0);
    case _ =>
  }

  function Accesses(events: seq<Event>): nat { if events == [] then 0 else Cost(events[0]) + Accesses(events[1..]) }

  /** In every run over any programs: the machine has halted only if the swap file has filled up, and a run with no more
      accesses than the swap file had free places has not halted. */
  lemma {:induction false} HaltsOnlyFull(s: VM, events: seq<Event>)
    requires Coherent(s, false) && !s.halted
    ensures Run(s, events).halted ==> SwapFull(Run(s, events))
    ensures Accesses(events) <= FreePlaces(s.swapMap) ==> !Run(s, events).halted
    decreases |events|
  {
    if events != [] && Legal(s, events[0]) {
      var t := Step(s, events[0]);
      StepHalts(s, events[0]);
      StepCoherent(s, events[0], false);
      if t.halted {
        if FreePlaces(s.swapMap) > 0 { NoneFree(s.swapMap); }
      } else {
        HaltsOnlyFull(t, events[1..]);
      }
    }
  }
}
