/**
 The swap file comes into use: whenever a program has more pages than there are frames, some run of stores puts one of
 its pages into the swap file. So the runs that growing a stack can spoil do occur.
 */
module SwapReached {
  import opened Counting
  import opened Paging
  import opened Coherence
  import opened NoLostWrite
  import opened FlatMemory
  import opened LostWrite

  ghost predicate HasSwapped(s: VM) { exists v :: Swapped(s, s.current, v) }

  /** A store to the frame is on record, in a slot or in the table. */
  ghost predicate Recorded(s: VM, p: int)
    requires 0 <= p < |s.ipt|
  {
    s.ipt[p].entry.dirty || exists i :: 0 <= i < |s.tlb| && s.tlb[i].physicalPage == p && s.tlb[i].dirty
  }

  ghost predicate AllRecorded(s: VM) { forall p :: 0 <= p < |s.ipt| && s.ipt[p].entry.valid ==> Recorded(s, p) }

  function Least(a: nat, b: nat): nat { if a < b then a else b }

  /** After j stores to missing pages, none of them written out: frames and slots have been taken in order, and every
      slot taken is dirty. */
  ghost predicate Stored(c: Config, s: VM, j: nat) {
    && OneProgram(c, s) && !s.halted && s.spaces.Keys == {0} && 0 < |s.swapMap| && !s.swapMap[0] && AllRecorded(s)
    && (forall p :: 0 <= p < |s.ipt| ==> s.memoryMap[p] == (p < Least(j, |s.ipt|)))
    && (forall i :: 0 <= i < Least(j, |s.tlb|) ==> s.tlb[i].dirty)
    && (j < |s.tlb| ==> s.currentTLB == j)
  }

  // ---------------------------------------------------------------- some page is always missing

  lemma SomeMissing(c: Config, s: VM)
    requires OneProgram(c, s) && c.frames < c.numPages
    ensures exists y :: 0 <= y < c.numPages && FindFrame(s.ipt, 0, y) == |s.ipt|
  {
    if forall y :: 0 <= y < c.numPages ==> FindFrame(s.ipt, 0, y) < |s.ipt| {
      var at := seq(c.numPages, y requires 0 <= y < c.numPages => FindFrame(s.ipt, 0, y));
      forall x, y | 0 <= x < y < |at| ensures at[x] != at[y] { assert Holds(s.ipt[at[x]], 0, x) && Holds(s.ipt[at[y]], 0, y); }
      DistinctCount(at);
      SubsetCount(Elements(at), UpTo(c.frames));
      UpToCount(c.frames);
    }
  }

  // ---------------------------------------------------------------- one store to a missing page

  /** What the store does to the slots and frames when nothing is written out. */
  ghost predicate StoreMoves(s: VM, t: VM, f: int)
    requires Shape(s) && Shape(t)
  {
    && |t.tlb| == |s.tlb| && |t.ipt| == |s.ipt| && 0 <= f < |s.ipt| && t.currentTLB == Next(s.currentTLB, |s.tlb|)
    && t.tlb[s.currentTLB].dirty && t.tlb[s.currentTLB].physicalPage == f
    && (forall i :: 0 <= i < |s.tlb| && i != s.currentTLB ==> t.tlb[i].dirty == s.tlb[i].dirty && t.tlb[i].physicalPage == s.tlb[i].physicalPage)
    && (forall p :: 0 <= p < |s.ipt| && p != f ==> (t.ipt[p].entry.valid ==> s.ipt[p].entry.valid) && (s.ipt[p].entry.dirty ==> t.ipt[p].entry.dirty))
    && (s.tlb[s.currentTLB].dirty && s.tlb[s.currentTLB].physicalPage != f ==> t.ipt[s.tlb[s.currentTLB].physicalPage].entry.dirty)
  }

  lemma StoreRecords(s: VM, t: VM, f: int)
    requires Shape(s) && Shape(t) && AllRecorded(s) && StoreMoves(s, t, f)
    ensures AllRecorded(t)
  {
    forall p | 0 <= p < |t.ipt| && t.ipt[p].entry.valid ensures Recorded(t, p) {
      if p != f && !s.ipt[p].entry.dirty {
        var i :| 0 <= i < |s.tlb| && s.tlb[i].physicalPage == p && s.tlb[i].dirty;
        assert i != s.currentTLB ==> t.tlb[i].physicalPage == p && t.tlb[i].dirty;
      }
    }
  }

  /** The frame to be loaded, once it is free. */
  ghost predicate Freed(s: VM, u: VM, f: int)
    requires Shape(s) && Shape(u)
  {
    && |u.tlb| == |s.tlb| && |u.ipt| == |s.ipt| && 0 <= f < |s.ipt| && u.currentTLB == s.currentTLB
    && (forall i :: 0 <= i < |s.tlb| ==> u.tlb[i].dirty == s.tlb[i].dirty && u.tlb[i].physicalPage == s.tlb[i].physicalPage)
    && (forall p :: 0 <= p < |s.ipt| && p != f ==> u.ipt[p] == s.ipt[p])
  }

  lemma ChooseFrees(s: VM)
    requires Evictable(s) && !s.halted
    ensures Freed(s, ChooseFrame(s, 0).0, ChooseFrame(s, 0).1)
  {
    if FirstClear(s.memoryMap) == |s.memoryMap| { EvictFrees(s, Victim(s, 0)); }
  }

  lemma EvictFrees(s: VM, p: nat)
    requires Shape(s) && p < |s.ipt| && IsPage(s, s.ipt[p].owner, s.ipt[p].entry.virtualPage)
    ensures Freed(s, Evict(s, p), p)
  {
    EvictTables(s, p);
  }

  lemma LoadMoves(s: VM, u: VM, y: int, f: nat)
    requires Coherent(s) && Shape(u) && Freed(s, u, f) && IsPage(u, u.current, y) && !PTE(u, u.current, y).entry.dirty
    ensures var w := IPTMiss(u, y, f);
            && w.ipt[f].entry.physicalPage == f
            && var t := UpdateTLB(w, f);
               && t.currentTLB == Next(s.currentTLB, |s.tlb|) && t.tlb[s.currentTLB].valid && t.tlb[s.currentTLB].virtualPage == y
               && t.tlb[s.currentTLB].physicalPage == f
               && (forall i :: 0 <= i < |s.tlb| && i != s.currentTLB ==> t.tlb[i] == u.tlb[i])
               && (forall p :: 0 <= p < |s.ipt| && p != f ==> t.ipt[p].entry.valid == s.ipt[p].entry.valid && (s.ipt[p].entry.dirty ==> t.ipt[p].entry.dirty))
               && (s.tlb[s.currentTLB].dirty && s.tlb[s.currentTLB].physicalPage != f ==> t.ipt[s.tlb[s.currentTLB].physicalPage].entry.dirty)
               && t.memoryMap == u.memoryMap && t.swapMap == u.swapMap && t.halted == u.halted
  {
  }

  lemma StoreHits(c: Config, t: VM, y: int, at: nat)
    requires Coherent(t) && 0 <= y < c.numPages && at < |t.tlb| && t.tlb[at].valid && t.tlb[at].virtualPage == y
    ensures Poke(c, y).Sized()
    ensures var r := Attempt(t, Poke(c, y)).0;
            && r.ipt == t.ipt && r.memoryMap == t.memoryMap && r.swapMap == t.swapMap && r.halted == t.halted && r.currentTLB == t.currentTLB
            && r.spaces == t.spaces && r.current == t.current && |r.tlb| == |t.tlb| && r.tlb[at].dirty && r.tlb[at].physicalPage == t.tlb[at].physicalPage
            && forall i :: 0 <= i < |t.tlb| && i != at ==> r.tlb[i] == t.tlb[i]
  {
    TouchInSpace(c, y);
    assert FindSlot(t.tlb, y) == at;
    assert SlotOk(t, at);
  }

  // ---------------------------------------------------------------- the eviction

  /** With every slot dirty, a recorded frame is found dirty. */
  lemma FoundDirty(s: VM, p: int)
    requires Shape(s) && 0 <= p < |s.ipt| && Recorded(s, p) && forall i :: 0 <= i < |s.tlb| ==> s.tlb[i].dirty
    ensures LastDirty(s.tlb, p, s.ipt[p].entry.dirty)
  {
    LastDirtyTrue(s.tlb, p, s.ipt[p].entry.dirty);
  }

  lemma DirtyIsSwapped(s: VM, p: nat)
    requires Coherent(s) && !s.halted && p < |s.ipt| && s.ipt[p].entry.valid && LastDirty(s.tlb, p, s.ipt[p].entry.dirty)
    requires IsPage(s, s.ipt[p].owner, s.ipt[p].entry.virtualPage) && 0 < |s.swapMap| && !s.swapMap[0]
    ensures !Evict(s, p).halted && Swapped(Evict(s, p), s.ipt[p].owner, s.ipt[p].entry.virtualPage)
  {
    FirstClearIs(s.swapMap, 0);
  }

  lemma CleanIsDropped(s: VM, p: nat)
    requires Shape(s) && !s.halted && p < |s.ipt| && !LastDirty(s.tlb, p, s.ipt[p].entry.dirty)
    requires IsPage(s, s.ipt[p].owner, s.ipt[p].entry.virtualPage)
    ensures !Evict(s, p).halted && Evict(s, p).swapMap == s.swapMap && Evict(s, p).memoryMap == s.memoryMap
  {
  }

  lemma LoadSwapped(u: VM, y: int, f: nat, sp: SpaceId, x: int)
    requires Shape(u) && f < |u.ipt| && IsPage(u, u.current, y) && Swapped(u, sp, x)
    ensures var w := IPTMiss(u, y, f);
            && w.ipt[f].entry.physicalPage == f && Swapped(UpdateTLB(w, f), sp, x) && UpdateTLB(w, f).current == u.current
            && UpdateTLB(w, f).halted == u.halted
  {
  }

  // ---------------------------------------------------------------- one more store

  /** The frame is chosen without anything being written out: one more frame and one more slot on record. */
  lemma StoreGoesOn(c: Config, s: VM, y: int, j: nat)
    requires Stored(c, s, j) && 0 <= y < c.numPages && IsPage(s, 0, y) && FindFrame(s.ipt, 0, y) == |s.ipt| && Evictable(s)
    requires var (u, f) := ChooseFrame(s, 0);
             && !u.halted && u.swapMap == s.swapMap && forall p :: 0 <= p < |s.ipt| ==> u.memoryMap[p] == (p < Least(j + 1, |s.ipt|))
    ensures Poke(c, y).Vpn() == y && Poke(c, y).Sized() && Stored(c, MemoryStep(s, Poke(c, y), 0).0, j + 1)
  {
    var (u, f) := ChooseFrame(s, 0);
    var t := MissLoads(c, s, y);
    var r := Attempt(t, Poke(c, y)).0;
    StoreHits(c, t, y, s.currentTLB);
    assert StoreMoves(s, r, f);
    StoreRecords(s, r, f);
    OneProgramSteps(c, s, Memory(Poke(c, y), 0));
    StoredNext(c, s, r, j);
  }

  /** The fault brings the page in, and the store is tried again. */
  lemma MissLoads(c: Config, s: VM, y: int) returns (t: VM)
    requires OneProgram(c, s) && !s.halted && 0 <= y < c.numPages && IsPage(s, 0, y) && FindFrame(s.ipt, 0, y) == |s.ipt| && Evictable(s)
    requires !ChooseFrame(s, 0).0.halted
    ensures var (u, f) := ChooseFrame(s, 0);
            && IsPage(u, u.current, y) && Freed(s, u, f) && t == UpdateTLB(IPTMiss(u, y, f), f) && Coherent(t) && !t.halted
            && InSpace(Poke(c, y), c.numPages) && Poke(c, y).Vpn() == y && MemoryStep(s, Poke(c, y), 0) == Attempt(t, Poke(c, y))
            && t.currentTLB == Next(s.currentTLB, |s.tlb|) && t.tlb[s.currentTLB].valid && t.tlb[s.currentTLB].virtualPage == y
            && t.tlb[s.currentTLB].physicalPage == f
            && (forall i :: 0 <= i < |s.tlb| && i != s.currentTLB ==> t.tlb[i] == u.tlb[i])
            && (forall p :: 0 <= p < |s.ipt| && p != f ==> t.ipt[p].entry.valid == s.ipt[p].entry.valid && (s.ipt[p].entry.dirty ==> t.ipt[p].entry.dirty))
            && (s.tlb[s.currentTLB].dirty && s.tlb[s.currentTLB].physicalPage != f ==> t.ipt[s.tlb[s.currentTLB].physicalPage].entry.dirty)
            && t.memoryMap == u.memoryMap && t.swapMap == u.swapMap && t.spaces.Keys == s.spaces.Keys
  {
    var (u, f) := ChooseFrame(s, 0);
    TouchInSpace(c, y);
    NotMapped(s, y);
    ChooseFrees(s);
    ChooseFrameCoherent(s, 0);
    ChooseFrameKeeps(s, y, 0);
    assert PageOk(u, u.current, y);
    LoadMoves(s, u, y, f);
    FaultCoherent(s, y, 0);
    t := HandlePageFault(s, y, 0);
    RetryAfterFault(s, Poke(c, y), 0);
  }

  lemma StoredNext(c: Config, s: VM, r: VM, j: nat)
    requires Stored(c, s, j) && OneProgram(c, r) && !r.halted && r.spaces.Keys == s.spaces.Keys && r.swapMap == s.swapMap && AllRecorded(r)
    requires forall p :: 0 <= p < |s.ipt| ==> r.memoryMap[p] == (p < Least(j + 1, |s.ipt|))
    requires r.currentTLB == Next(s.currentTLB, |s.tlb|) && r.tlb[s.currentTLB].dirty
    requires forall i :: 0 <= i < |s.tlb| && i != s.currentTLB ==> r.tlb[i].dirty == s.tlb[i].dirty
    ensures Stored(c, r, j + 1)
  {
  }

  lemma StoreStep(c: Config, s: VM, y: int, j: nat)
    requires c.Sane() && Stored(c, s, j) && 0 <= y < c.numPages && FindFrame(s.ipt, 0, y) == |s.ipt|
    ensures IsPage(s, 0, y) && Poke(c, y).Vpn() == y && Poke(c, y).Sized()
    ensures var t := MemoryStep(s, Poke(c, y), 0).0;
            !t.halted && (HasSwapped(t) || (Stored(c, t, j + 1) && j < c.frames + c.slots))
  {
    TouchInSpace(c, y);
    InSpaceLegal(s, Poke(c, y));
    FullIsEvictable(s);
    FirstClearIs(s.memoryMap, Least(j, |s.ipt|));
    if j < |s.ipt| {
      StoreGoesOn(c, s, y, j);
    } else {
      var p := Victim(s, 0);
      assert FrameOk(s, p);
      if LastDirty(s.tlb, p, s.ipt[p].entry.dirty) {
        StoreSwaps(c, s, y, p);
      } else {
        CleanIsDropped(s, p);
        StoreGoesOn(c, s, y, j);
        if j >= |s.tlb| { FoundDirty(s, p); }
      }
    }
  }

  lemma StoreSwaps(c: Config, s: VM, y: int, p: nat)
    requires OneProgram(c, s) && !s.halted && 0 <= y < c.numPages && FindFrame(s.ipt, 0, y) == |s.ipt| && IsPage(s, 0, y) && Evictable(s)
    requires FirstClear(s.memoryMap) == |s.memoryMap| && p == Victim(s, 0) && LastDirty(s.tlb, p, s.ipt[p].entry.dirty)
    requires s.spaces.Keys == {0} && 0 < |s.swapMap| && !s.swapMap[0]
    ensures Poke(c, y).Vpn() == y && Poke(c, y).Sized()
    ensures !MemoryStep(s, Poke(c, y), 0).0.halted && HasSwapped(MemoryStep(s, Poke(c, y), 0).0)
  {
    assert FrameOk(s, p);
    DirtyIsSwapped(s, p);
    var t := MissLoads(c, s, y);
    StoreKeepsSwapped(c, s, t, Evict(s, p), y, p, s.ipt[p].entry.virtualPage);
  }

  lemma StoreKeepsSwapped(c: Config, s: VM, t: VM, u: VM, y: int, p: nat, x: int)
    requires Shape(s) && Shape(u) && p < |u.ipt| && IsPage(u, u.current, y) && Swapped(u, 0, x) && u.current == 0
    requires IPTMiss(u, y, p).ipt[p].entry.physicalPage == p && t == UpdateTLB(IPTMiss(u, y, p), p)
    requires Coherent(t) && 0 <= y < c.numPages && |t.tlb| == |s.tlb| && t.tlb[s.currentTLB].valid && t.tlb[s.currentTLB].virtualPage == y
    ensures Poke(c, y).Sized() && HasSwapped(Attempt(t, Poke(c, y)).0) && Attempt(t, Poke(c, y)).0.halted == t.halted
  {
    LoadSwapped(u, y, p, 0, x);
    StoreHits(c, t, y, s.currentTLB);
    assert Swapped(Attempt(t, Poke(c, y)).0, 0, x);
  }

  // ---------------------------------------------------------------- the run

  /** The state after some run of the program, with a page in the swap file or j stores on record. */
  ghost predicate Reached(c: Config, s: VM, j: nat) {
    !s.halted && OneProgram(c, s) && (HasSwapped(s) || (Stored(c, s, j) && j <= c.frames + c.slots))
  }

  lemma StartReached(c: Config)
    requires c.Sane() && 0 < c.swapSlots
    ensures Leads(c, [], c.Start()) && Reached(c, c.Start(), 0)
  {
    BootCoherent(c.frames, c.slots, c.swapSlots, c.randomPolicy, c.executable, c.numPages);
    assert After(c, []).0 == c.Start();
    assert Stored(c, c.Start(), 0);
  }

  lemma ReachMore(c: Config, events: seq<Event>, s: VM, j: nat) returns (longer: seq<Event>, t: VM)
    requires Leads(c, events, s) && c.frames < c.numPages && Reached(c, s, j)
    ensures Leads(c, longer, t) && Reached(c, t, j + 1)
  {
    if HasSwapped(s) {
      longer, t := events, s;
    } else {
      SomeMissing(c, s);
      var y :| 0 <= y < c.numPages && FindFrame(s.ipt, 0, y) == |s.ipt|;
      StoreStep(c, s, y, j);
      TouchInSpace(c, y);
      OneProgramSteps(c, s, Memory(Poke(c, y), 0));
      AfterAccess(c, events, Poke(c, y));
      longer, t := events + [Memory(Poke(c, y), 0)], MemoryStep(s, Poke(c, y), 0).0;
    }
  }

  lemma {:induction false} ReachRun(c: Config, j: nat) returns (events: seq<Event>, s: VM)
    requires c.Sane() && 0 < c.swapSlots && c.frames < c.numPages
    ensures Leads(c, events, s) && Reached(c, s, j)
  {
    if j == 0 {
      events, s := [], c.Start();
      StartReached(c);
    } else {
      events, s := ReachRun(c, j - 1);
      events, s := ReachMore(c, events, s, j - 1);
    }
  }

  /** With more pages than frames and a swap file, some run puts a page into it. */
  lemma SwapIsReached(c: Config) returns (events: seq<Event>)
    requires c.Sane() && 0 < c.swapSlots && c.frames < c.numPages
    ensures AllAllowed(c, events)
    ensures var s := After(c, events).0;
            !s.halted && OneProgram(c, s) && HasSwapped(s)
  {
    var s;
    events, s := ReachRun(c, c.frames + c.slots + 1);
  }

  /** So for every such machine a legal run leads to coherent tables that growing the stack can spoil. */
  lemma GrowthCanFail(c: Config) returns (events: seq<Event>, lost: seq<int>)
    requires c.Sane() && 0 < c.swapSlots && c.frames < c.numPages
    ensures AllAllowed(c, events)
    ensures var s := After(c, events).0;
            !s.halted && Coherent(s) && |lost| == |s.spaces[s.current].pageTable| && !Coherent(GrowStack(s, lost))
  {
    events := SwapIsReached(c);
    lost := GrowthFails(After(c, events).0);
  }

  lemma GrowthFails(s: VM) returns (lost: seq<int>)
    requires Coherent(s) && HasSwapped(s)
    ensures |lost| == |s.spaces[s.current].pageTable| && !Coherent(GrowStack(s, lost))
  {
    GrowExact(s);
    var v :| Swapped(s, s.current, v);
    lost :| |lost| == |s.spaces[s.current].pageTable| && !Coherent(GrowStack(s, lost));
  }
}
