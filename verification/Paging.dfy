/**
 Demand paging: the translation buffer, the inverted page table, eviction to the
 swap file, and the page-fault handlers, as functions on the values they change.
 The class in PagingKernel.dfy runs the same handlers in place.
 */
module Paging {
  import opened Words

  const PageSize: int := 128

  type Page = seq<Byte>
  type SpaceId = nat

  /** One entry of a translation table: TLB, inverted page table or page table. */
  datatype Translation = Translation(virtualPage: int, physicalPage: int,
                                     valid: bool, readOnly: bool, use: bool, dirty: bool)

  /** Where the backing copy of a page lives. */
  datatype Place = SwapFile | Executable | Neither

  datatype PageTableEntry = PageTableEntry(entry: Translation, location: Place,
                                           byteOffset: int, swapLocation: int)

  datatype AddrSpace = AddrSpace(pageTable: seq<PageTableEntry>, executable: seq<Byte>)

  /** A row of the inverted page table; the owner means nothing while the entry is invalid. */
  datatype IPTEntry = IPTEntry(entry: Translation, owner: SpaceId)

  datatype VM = VM(
    tlb: seq<Translation>, currentTLB: nat,
    ipt: seq<IPTEntry>, currentIPT: nat,
    mainMemory: seq<Page>, memoryMap: seq<bool>,
    swapFile: seq<Page>, swapMap: seq<bool>,
    spaces: map<SpaceId, AddrSpace>, current: SpaceId,
    randomPolicy: bool, halted: bool)

  datatype Exception = NoException | PageFault | ReadOnly | AddressError

  function ZeroPage(): Page { seq(PageSize, i => 0) }

  // ---------------------------------------------------------------- searches

  /** The least clear bit from i on, or the length of the map when all are set. */
  function FirstClear(bits: seq<bool>, i: nat := 0): (r: nat)
    requires i <= |bits|
    ensures i <= r <= |bits|
    ensures forall j :: i <= j < r ==> bits[j]
    ensures r < |bits| ==> !bits[r]
    decreases |bits| - i
  {
    if i == |bits| then i else if !bits[i] then i else FirstClear(bits, i + 1)
  }

  /** The first valid TLB slot for the page, or the length of the TLB. */
  function FindSlot(tlb: seq<Translation>, vpn: int, i: nat := 0): (r: nat)
    requires i <= |tlb|
    ensures i <= r <= |tlb|
    ensures forall j :: i <= j < r ==> !(tlb[j].valid && tlb[j].virtualPage == vpn)
    ensures r < |tlb| ==> tlb[r].valid && tlb[r].virtualPage == vpn
    decreases |tlb| - i
  {
    if i == |tlb| || (tlb[i].valid && tlb[i].virtualPage == vpn) then i else FindSlot(tlb, vpn, i + 1)
  }

  predicate Holds(e: IPTEntry, owner: SpaceId, vpn: int) {
    e.entry.virtualPage == vpn && e.owner == owner && e.entry.valid
  }

  /** The first frame holding the page of that space, or the number of frames. */
  function FindFrame(ipt: seq<IPTEntry>, owner: SpaceId, vpn: int, i: nat := 0): (r: nat)
    requires i <= |ipt|
    ensures i <= r <= |ipt|
    ensures forall j :: i <= j < r ==> !Holds(ipt[j], owner, vpn)
    ensures r < |ipt| ==> Holds(ipt[r], owner, vpn)
    decreases |ipt| - i
  {
    if i == |ipt| || Holds(ipt[i], owner, vpn) then i else FindFrame(ipt, owner, vpn, i + 1)
  }

  // ---------------------------------------------------------------- shape

  /** Sizes and ranges that the tables never leave. */
  ghost predicate Shape(s: VM) {
    && 0 < |s.tlb| && s.currentTLB < |s.tlb|
    && 0 < |s.ipt| && s.currentIPT < |s.ipt|
    && |s.mainMemory| == |s.ipt| == |s.memoryMap|
    && |s.swapFile| == |s.swapMap|
    && (forall p :: 0 <= p < |s.mainMemory| ==> |s.mainMemory[p]| == PageSize)
    && (forall k :: 0 <= k < |s.swapFile| ==> |s.swapFile[k]| == PageSize)
    && (forall i :: 0 <= i < |s.tlb| ==> 0 <= s.tlb[i].physicalPage < |s.ipt|)
    && s.current in s.spaces
  }

  ghost predicate IsPage(s: VM, sp: SpaceId, v: int) {
    sp in s.spaces && 0 <= v < |s.spaces[sp].pageTable|
  }

  /** Same table sizes, same spaces with the same executables, same current space. */
  ghost predicate SameSizes(s: VM, t: VM) {
    && |t.tlb| == |s.tlb| && |t.ipt| == |s.ipt| && |t.swapMap| == |s.swapMap|
    && t.current == s.current && t.randomPolicy == s.randomPolicy
    && t.spaces.Keys == s.spaces.Keys
    && forall sp :: sp in s.spaces ==>
         |t.spaces[sp].pageTable| == |s.spaces[sp].pageTable| && t.spaces[sp].executable == s.spaces[sp].executable
  }

  function PTE(s: VM, sp: SpaceId, v: int): PageTableEntry
    requires IsPage(s, sp, v)
  {
    s.spaces[sp].pageTable[v]
  }

  function SetPTE(s: VM, sp: SpaceId, v: int, e: PageTableEntry): (t: VM)
    requires IsPage(s, sp, v)
    ensures SameSizes(s, t) && (Shape(s) ==> Shape(t))
    ensures forall sp': SpaceId, v' :: IsPage(s, sp', v') ==>
              PTE(t, sp', v') == if sp' == sp && v' == v then e else PTE(s, sp', v')
  {
    var space := s.spaces[sp];
    s.(spaces := s.spaces[sp := space.(pageTable := space.pageTable[v := e])])
  }

  // ---------------------------------------------------------------- handlers

  /** The rotating index after i in a table of n entries. */
  function Next(i: nat, n: nat): (r: nat)
    requires i < n
    ensures r == if i + 1 == n then 0 else i + 1
  {
    (i + 1) % n
  }

  /** exception.cc updateTLB: save the outgoing dirty bit, then load the slot. */
  function UpdateTLB(s: VM, ppn: nat): (t: VM)
    requires Shape(s) && ppn < |s.ipt| && s.ipt[ppn].entry.physicalPage == ppn
    ensures Shape(t) && SameSizes(s, t)
  {
    var out := s.tlb[s.currentTLB];
    var ipt := if out.dirty
               then s.ipt[out.physicalPage := s.ipt[out.physicalPage].(entry := s.ipt[out.physicalPage].entry.(dirty := true))]
               else s.ipt;
    s.(ipt := ipt, tlb := s.tlb[s.currentTLB := ipt[ppn].entry], currentTLB := Next(s.currentTLB, |s.tlb|))
  }

  /** The dirty bit left by the scan of all slots naming the frame: the last one wins. */
  function LastDirty(tlb: seq<Translation>, ppn: int, initially: bool): (d: bool)
  {
    if tlb == [] then initially
    else if tlb[|tlb| - 1].physicalPage == ppn then tlb[|tlb| - 1].dirty
    else LastDirty(tlb[..|tlb| - 1], ppn, initially)
  }

  function Invalidate(tlb: seq<Translation>, ppn: int): (r: seq<Translation>)
    ensures |r| == |tlb|
  {
    seq(|tlb|, i requires 0 <= i < |tlb| =>
      if tlb[i].physicalPage == ppn then tlb[i].(valid := false) else tlb[i])
  }

  /** The frame to give up: a random one, or the next in turn. */
  function Victim(s: VM, rnd: nat): (p: nat)
    requires Shape(s)
    ensures p < |s.ipt|
  {
    if s.randomPolicy then rnd % |s.ipt| else s.currentIPT
  }

  /** exception.cc HandleMemoryFull up to the decision whether the frame is dirty. */
  function Unhook(s: VM, ppn: nat): (t: VM)
    requires Shape(s) && ppn < |s.ipt|
    ensures Shape(t) && SameSizes(s, t)
  {
    s.(currentIPT := if s.randomPolicy then s.currentIPT else Next(s.currentIPT, |s.ipt|),
       tlb := Invalidate(s.tlb, ppn),
       ipt := s.ipt[ppn := s.ipt[ppn].(entry := s.ipt[ppn].entry.(dirty := LastDirty(s.tlb, ppn, s.ipt[ppn].entry.dirty)))])
  }

  /** The rest of HandleMemoryFull: write a dirty page to a fresh swap slot, or just drop it. */
  function WriteOut(s: VM, ppn: nat): (t: VM)
    requires Shape(s) && ppn < |s.ipt| && IsPage(s, s.ipt[ppn].owner, s.ipt[ppn].entry.virtualPage)
    ensures Shape(t) && SameSizes(s, t)
  {
    var sp, v := s.ipt[ppn].owner, s.ipt[ppn].entry.virtualPage;
    var pte := PTE(s, sp, v);
    if s.ipt[ppn].entry.dirty then
      var k := FirstClear(s.swapMap);
      if k == |s.swapMap| then s.(halted := true)
      else SetPTE(s.(swapMap := s.swapMap[k := true], swapFile := s.swapFile[k := s.mainMemory[ppn]]), sp, v,
                  pte.(entry := pte.entry.(valid := false), location := SwapFile, swapLocation := k))
    else SetPTE(s, sp, v, pte.(entry := pte.entry.(valid := false)))
  }

  function Evict(s: VM, ppn: nat): (t: VM)
    requires Shape(s) && ppn < |s.ipt| && IsPage(s, s.ipt[ppn].owner, s.ipt[ppn].entry.virtualPage)
    ensures Shape(t) && SameSizes(s, t)
  {
    WriteOut(Unhook(s, ppn), ppn)
  }

  /** One page of the executable, zero beyond its end. */
  function ReadExecutable(file: seq<Byte>, offset: int): (p: Page)
    ensures |p| == PageSize
  {
    seq(PageSize, i => if 0 <= offset + i < |file| then file[offset + i] else 0)
  }

  /** The backing copy of a page. */
  function Backing(s: VM, sp: SpaceId, v: int): (p: Page)
    requires IsPage(s, sp, v)
    ensures Shape(s) ==> |p| == PageSize
  {
    var e := PTE(s, sp, v);
    if e.location == Executable then ReadExecutable(s.spaces[sp].executable, e.byteOffset)
    else if e.location == SwapFile && 0 <= e.swapLocation < |s.swapFile| then s.swapFile[e.swapLocation]
    else ZeroPage()
  }

  /** addrspace.cc IPTMiss: bring a page of the current space into the frame. */
  function IPTMiss(s: VM, vpn: int, ppn: nat): (t: VM)
    requires Shape(s) && ppn < |s.ipt| && IsPage(s, s.current, vpn)
    ensures Shape(t) && SameSizes(s, t)
  {
    var e := PTE(s, s.current, vpn);
    var t := s.(mainMemory := s.mainMemory[ppn := Backing(s, s.current, vpn)],
                ipt := s.ipt[ppn := IPTEntry(Translation(vpn, ppn, true, e.entry.readOnly, e.entry.use, e.entry.dirty), s.current)]);
    SetPTE(t, s.current, vpn, e.(entry := e.entry.(valid := true, physicalPage := ppn)))
  }

  /** exception.cc HandleIPTMiss: a free frame if there is one, otherwise the victim's. */
  ghost predicate Evictable(s: VM) {
    Shape(s) &&
    (FirstClear(s.memoryMap) == |s.memoryMap| ==>
       forall p :: 0 <= p < |s.ipt| ==> IsPage(s, s.ipt[p].owner, s.ipt[p].entry.virtualPage))
  }

  function ChooseFrame(s: VM, rnd: nat): (r: (VM, nat))
    requires Evictable(s)
    ensures r.1 < |s.ipt| && Shape(r.0) && SameSizes(s, r.0)
  {
    var free := FirstClear(s.memoryMap);
    if free < |s.memoryMap| then (s.(memoryMap := s.memoryMap[free := true]), free)
    else (Evict(s, Victim(s, rnd)), Victim(s, rnd))
  }

  /** exception.cc HandlePageFault; a full swap file halts the machine inside the eviction. */
  function HandlePageFault(s: VM, vpn: int, rnd: nat): (t: VM)
    requires Evictable(s) && !s.halted && IsPage(s, s.current, vpn)
    requires forall p :: 0 <= p < |s.ipt| ==> s.ipt[p].entry.physicalPage == p
    ensures Shape(t) && SameSizes(s, t)
  {
    var p := FindFrame(s.ipt, s.current, vpn);
    if p < |s.ipt| then UpdateTLB(s, p)
    else
      var (t, ppn) := ChooseFrame(s, rnd);
      if t.halted then t else UpdateTLB(IPTMiss(t, vpn, ppn), ppn)
  }

  // ---------------------------------------------------------------- memory accesses

  /** A user-level memory reference of 1, 2 or 4 bytes. */
  datatype Access = Load(addr: int, size: int) | Store(addr: int, data: seq<Byte>) {
    function Size(): int { if Load? then size else |data| }
    function Vpn(): int { addr / PageSize }
    function Offset(): int { addr % PageSize }
    predicate Aligned() { (Size() == 4 ==> addr % 4 == 0) && (Size() == 2 ==> addr % 2 == 0) }
    predicate Sized() { Size() == 1 || Size() == 2 || Size() == 4 }
  }

  /** translate.cc Translate: alignment, the TLB search, protection, then use and dirty bits.
      The bus error for a frame out of range cannot arise: Shape keeps every slot in range. */
  function Translate(s: VM, a: Access): (r: (VM, Exception, nat))
    requires Shape(s) && a.Sized()
    ensures Shape(r.0) && SameSizes(s, r.0)
    ensures r.1.NoException? ==> r.2 < |s.ipt|
  {
    if !a.Aligned() then (s, AddressError, 0)
    else
      var i := FindSlot(s.tlb, a.Vpn());
      if i == |s.tlb| then (s, PageFault, 0)
      else
        var e := s.tlb[i];
        if e.readOnly && a.Store? then (s, ReadOnly, 0)
        else (s.(tlb := s.tlb[i := e.(use := true, dirty := e.dirty || a.Store?)]), NoException, e.physicalPage)
  }

  lemma FitsInPage(a: Access)
    requires a.Sized() && a.Aligned()
    ensures 0 <= a.Offset() && a.Offset() + a.Size() <= PageSize
  {
    var q := a.addr / 128;
    if a.Size() == 4 {
      assert a.Offset() == 4 * (a.addr / 4 - 32 * q);
    } else if a.Size() == 2 {
      assert a.Offset() == 2 * (a.addr / 2 - 64 * q);
    }
  }

  /** translate.cc ReadMem and WriteMem: one try, which either moves the bytes or reports an exception. */
  function Attempt(s: VM, a: Access): (r: (VM, Exception, seq<Byte>))
    requires Shape(s) && a.Sized()
    ensures Shape(r.0) && SameSizes(s, r.0)
    ensures r.1.NoException? && a.Load? ==> |r.2| == a.size
  {
    var (t, x, p) := Translate(s, a);
    if !x.NoException? then (t, x, [])
    else
      FitsInPage(a);
      match a
      case Load(_, size) => (t, x, t.mainMemory[p][a.Offset()..a.Offset() + size])
      case Store(_, data) => (t.(mainMemory := t.mainMemory[p := Splice(t.mainMemory[p], a.Offset(), data)]), x, [])
  }

  // ---------------------------------------------------------------- address-space operations

  const HeaderSize: int := 40
  const StackPages: int := 8

  function FreshEntry(i: int, place: Place): PageTableEntry {
    PageTableEntry(Translation(i, 0, false, false, false, false), place, HeaderSize + i * PageSize, 0)
  }

  /** The AddrSpace constructor: every page invalid and backed by the executable. */
  function NewSpace(executable: seq<Byte>, numPages: nat): AddrSpace {
    AddrSpace(seq(numPages, i => FreshEntry(i, Executable)), executable)
  }

  /** addrspace.cc allocateStack: a new table with eight more pages, backed by nothing. The places in the swap file are
      not copied; `lost` is what the new table holds there instead. */
  function GrowStack(s: VM, lost: seq<int>): (t: VM)
    requires Shape(s) && |lost| == |s.spaces[s.current].pageTable|
    ensures Shape(t)
    ensures forall sp: SpaceId, v :: IsPage(t, sp, v) ==>
              PTE(t, sp, v) == if !IsPage(s, sp, v) then FreshEntry(v, Neither)
                               else if sp == s.current then PTE(s, sp, v).(swapLocation := lost[v]) else PTE(s, sp, v)
    ensures forall sp: SpaceId, v :: IsPage(s, sp, v) ==> IsPage(t, sp, v)
  {
    var space := s.spaces[s.current];
    var n := |space.pageTable|;
    var copied := seq(n, i requires 0 <= i < n => space.pageTable[i].(swapLocation := lost[i]));
    s.(spaces := s.spaces[s.current := space.(pageTable := copied + seq(StackPages, i => FreshEntry(n + i, Neither)))])
  }

  /** addrspace.cc SaveState: every slot invalid, nothing else touched. */
  function SaveState(s: VM): (t: VM)
    requires Shape(s)
    ensures Shape(t) && SameSizes(s, t)
  {
    s.(tlb := seq(|s.tlb|, i requires 0 <= i < |s.tlb| => s.tlb[i].(valid := false)))
  }

  ghost predicate ResidentInRange(s: VM) {
    && s.current in s.spaces
    && forall v :: IsPage(s, s.current, v) && PTE(s, s.current, v).entry.valid ==>
         0 <= PTE(s, s.current, v).entry.physicalPage < |s.ipt|
  }

  /** One round of the clearMem loop. */
  function ClearPage(s: VM, v: int): (t: VM)
    requires Shape(s) && IsPage(s, s.current, v) && ResidentInRange(s)
    ensures Shape(t) && SameSizes(s, t) && ResidentInRange(t)
  {
    var e := PTE(s, s.current, v);
    if !e.entry.valid then s
    else
      var p := e.entry.physicalPage;
      var t := SetPTE(s, s.current, v, e.(entry := e.entry.(valid := false)));
      var u := t.(memoryMap := s.memoryMap[p := false], mainMemory := s.mainMemory[p := ZeroPage()],
                  ipt := s.ipt[p := s.ipt[p].(entry := s.ipt[p].entry.(valid := false))]);
      assert forall w :: IsPage(u, s.current, w) && PTE(u, s.current, w).entry.valid ==>
               IsPage(s, s.current, w) && PTE(s, s.current, w) == PTE(u, s.current, w);
      u
  }

  /** addrspace.cc clearMem from page v on. */
  function ClearMem(s: VM, v: nat := 0): (t: VM)
    requires Shape(s) && ResidentInRange(s) && v <= |s.spaces[s.current].pageTable|
    ensures Shape(t) && SameSizes(s, t)
    decreases |s.spaces[s.current].pageTable| - v
  {
    if v == |s.spaces[s.current].pageTable| then s else ClearMem(ClearPage(s, v), v + 1)
  }
}
