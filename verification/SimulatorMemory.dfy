/**
 What loads and stores of the simulator's processor move, byte by byte, and which instruction words stop it.
 */
module SimulatorMemory {
  import opened Options
  import opened Words
  import opened Mips
  import opened MipsRestart
  import opened MipsAlu
  import opened MipsLaws
  import opened SimulatorLaws

  /** The address of a load or store. */
  function AddressOf(s: State, rs: int, immediate: int): int
    requires Field(rs)
  {
    Word(s.regs[rs] + immediate)
  }

  /** Byte k of memory from an address on. */
  function ByteOn(mem: seq<int>, address: int, k: nat): int { ByteAt(mem, Unsigned(address) + k) }

  function HalfOn(mem: seq<int>, address: int): int { ByteOn(mem, address, 0) + 0x100 * ByteOn(mem, address, 1) }

  function WordOn(mem: seq<int>, address: int): int {
    Word(HalfOn(mem, address) + 0x1_0000 * ByteOn(mem, address, 2) + 0x100_0000 * ByteOn(mem, address, 3))
  }

  // ---------------------------------------------------------------- the processor's memory functions

  lemma AddressIs(isa: Isa, p: Primary, q: seq<Op>, s: State, i: Instr)
    requires Has(isa, p, q)
    ensures Address(isa, s, i) == AddressOf(s, i.rs, i.extra)
  {
    assert isa == Processor(p, q);
  }

  lemma FetchIs(isa: Isa, p: Primary, q: seq<Op>, mem: seq<int>, a: int, size: int)
    requires Has(isa, p, q)
    ensures isa.fetch(mem, a, size) == Fetch(mem, a, size)
  {
    assert isa == Processor(p, q);
  }

  lemma ExtendIs(isa: Isa, p: Primary, q: seq<Op>, size: int, signed: bool, raw: int)
    requires Has(isa, p, q)
    ensures isa.extend(size, signed, raw) == Extend(size, signed, raw)
  {
    assert isa == Processor(p, q);
  }

  lemma StoreIs(isa: Isa, p: Primary, q: seq<Op>, mem: seq<int>, a: int, size: int, v: int)
    requires Has(isa, p, q)
    ensures isa.store(mem, a, size, v) == Put(mem, a, size, v)
  {
    assert isa == Processor(p, q);
  }

  /** The high byte of the word in the low byte of what was there. */
  function Merged(was: int, word: int): int { Word(Unsigned(was) / 0x100 * 0x100 + Unsigned(word) / 0x100_0000) }

  /** The low byte of the register in the high byte of the word. */
  function Unmerged(word: int, reg: int): int { Word(Unsigned(word) % 0x100_0000 + Unsigned(reg) % 0x100 * 0x100_0000) }

  lemma PartsAre(isa: Isa, p: Primary, q: seq<Op>, left: bool, x: int, y: int)
    requires Has(isa, p, q)
    ensures isa.merge(left, x, y) == (if left then y else Merged(x, y)) && isa.unmerge(left, x, y) == (if left then y else Unmerged(x, y))
  {
    assert isa == Processor(p, q);
  }

  // ---------------------------------------------------------------- loads

  lemma LoadBy(isa: Isa, p: Primary, q: seq<Op>, s: State, mapped: int -> bool, n: State, i: Instr)
    requires Has(isa, p, q) && Does(isa, s, mapped, n) && Finds(isa, s, i) && i.op.Load?
    ensures n.regs[LoadReg] == i.rt && n.mem == s.mem
    ensures n.regs[LoadValueReg] == Extend(i.op.size, i.op.signed, Fetch(s.mem, AddressOf(s, i.rs, i.extra), i.op.size))
  {
    LoadPends(isa, s, mapped, n, i);
    AddressIs(isa, p, q, s, i);
    FetchIs(isa, p, q, s.mem, Address(isa, s, i), i.op.size);
    ExtendIs(isa, p, q, i.op.size, i.op.signed, isa.fetch(s.mem, Address(isa, s, i), i.op.size));
  }

  lemma LoadPartBy(isa: Isa, p: Primary, q: seq<Op>, s: State, mapped: int -> bool, n: State, i: Instr)
    requires Has(isa, p, q) && Does(isa, s, mapped, n) && Finds(isa, s, i) && i.op.LoadPart?
    ensures n.regs[LoadReg] == i.rt && n.mem == s.mem
    ensures var was, word := if s.regs[LoadReg] == i.rt then s.regs[LoadValueReg] else s.regs[i.rt], Fetch(s.mem, AddressOf(s, i.rs, i.extra), 4);
            n.regs[LoadValueReg] == if i.op.left then word else Merged(was, word)
  {
    LoadPends(isa, s, mapped, n, i);
    AddressIs(isa, p, q, s, i);
    FetchIs(isa, p, q, s.mem, Address(isa, s, i), 4);
    PartsAre(isa, p, q, i.op.left, if s.regs[LoadReg] == i.rt then s.regs[LoadValueReg] else s.regs[i.rt], isa.fetch(s.mem, Address(isa, s, i), 4));
  }

  lemma Extended(mem: seq<int>, a: int)
    ensures Extend(1, true, Fetch(mem, a, 1)) == (if ByteOn(mem, a, 0) < 0x80 then ByteOn(mem, a, 0) else ByteOn(mem, a, 0) - 0x100)
    ensures Extend(2, true, Fetch(mem, a, 2)) == (if HalfOn(mem, a) < 0x8000 then HalfOn(mem, a) else HalfOn(mem, a) - 0x1_0000)
    ensures Extend(1, false, Fetch(mem, a, 1)) == ByteOn(mem, a, 0) && Extend(2, false, Fetch(mem, a, 2)) == HalfOn(mem, a)
    ensures Extend(4, true, Fetch(mem, a, 4)) == Fetch(mem, a, 4) == WordOn(mem, a)
  {
    assert 0 <= ByteOn(mem, a, 0) < 0x100 && 0 <= ByteOn(mem, a, 1) < 0x100;
  }

  /** LB, LH, LW, LBU and LHU: little-endian, the value pending for rt, memory as it was. */
  lemma Loads(isa: Isa, s: State, mapped: int -> bool, n: State, op: int, rs: int, rt: int, immediate: int)
    requires IsSimulator(isa) && (op == 32 || op == 33 || op == 35 || op == 36 || op == 37) && Field(rs) && Field(rt) && Short(immediate)
    requires Holds(s, EncodeI(op, rs, rt, immediate)) && Does(isa, s, mapped, n)
    ensures n.regs[LoadReg] == rt && n.mem == s.mem
    ensures var a, v := AddressOf(s, rs, immediate), n.regs[LoadValueReg];
            var b, h := ByteOn(s.mem, a, 0), HalfOn(s.mem, a);
            && (op == 32 ==> v == if b < 0x80 then b else b - 0x100) && (op == 36 ==> v == b)
            && (op == 33 ==> v == if h < 0x8000 then h else h - 0x1_0000) && (op == 37 ==> v == h)
            && (op == 35 ==> v == WordOn(s.mem, a))
  {
    OpRow(op);
    var i := AtI(isa, OpTable, SpecialTable, s, op, rs, rt, immediate);
    LoadBy(isa, OpTable, SpecialTable, s, mapped, n, i);
    Extended(s.mem, AddressOf(s, rs, immediate));
  }

  /** LWL and LWR, which the simulator takes at word boundaries only: LWL is the whole word, LWR its high byte in the low
      byte of the register, or of the load still pending for it. */
  lemma PartLoads(isa: Isa, s: State, mapped: int -> bool, n: State, op: int, rs: int, rt: int, immediate: int)
    requires IsSimulator(isa) && (op == 34 || op == 38) && Field(rs) && Field(rt) && Short(immediate)
    requires Holds(s, EncodeI(op, rs, rt, immediate)) && Does(isa, s, mapped, n)
    ensures n.regs[LoadReg] == rt && n.mem == s.mem
    ensures var w, was := WordOn(s.mem, AddressOf(s, rs, immediate)), if s.regs[LoadReg] == rt then s.regs[LoadValueReg] else s.regs[rt];
            n.regs[LoadValueReg] == if op == 34 then w else Merged(was, w)
  {
    OpRow(op);
    var i := AtI(isa, OpTable, SpecialTable, s, op, rs, rt, immediate);
    LoadPartBy(isa, OpTable, SpecialTable, s, mapped, n, i);
    Extended(s.mem, AddressOf(s, rs, immediate));
  }

  // ---------------------------------------------------------------- stores

  /** Byte k of a word, from the low end. */
  function ByteOf(v: int, k: nat): int {
    var u := Unsigned(v);
    if k == 0 then u % 0x100 else if k == 1 then u / 0x100 % 0x100 else if k == 2 then u / 0x1_0000 % 0x100 else u / 0x100_0000 % 0x100
  }

  /** The low bytes of v are in memory from the address on, as many as fit there, and no other byte has changed. */
  ghost predicate Stored(mem: seq<int>, after: seq<int>, address: int, width: int, v: int) {
    && |after| == |mem|
    && forall b :: ByteAt(after, b) == if Unsigned(address) <= b < Unsigned(address) + width && b < |mem|
                                       then ByteOf(v, b - Unsigned(address)) else ByteAt(mem, b)
  }

  lemma PutStores(mem: seq<int>, address: int, width: int, v: int)
    requires width == 1 || width == 2 || width == 4
    ensures Stored(mem, Put(mem, address, width, v), address, width, v)
  {
    var a, u := Unsigned(address), Unsigned(v);
    var m1 := PutByte(mem, a, u);
    var m2 := PutByte(m1, a + 1, u / 0x100);
    var m3 := PutByte(m2, a + 2, u / 0x1_0000);
    forall b ensures ByteAt(Put(mem, address, width, v), b) ==
                     if a <= b < a + width && b < |mem| then ByteOf(v, b - a) else ByteAt(mem, b)
    {
      PutByteGet(mem, a, u, b);
      PutByteGet(m1, a + 1, u / 0x100, b);
      PutByteGet(m2, a + 2, u / 0x1_0000, b);
      PutByteGet(m3, a + 3, u / 0x100_0000, b);
    }
  }

  lemma StoreBy(isa: Isa, p: Primary, q: seq<Op>, s: State, mapped: int -> bool, n: State, i: Instr)
    requires Has(isa, p, q) && Does(isa, s, mapped, n) && Finds(isa, s, i) && i.op.Store?
    ensures n.mem == Put(s.mem, AddressOf(s, i.rs, i.extra), i.op.size, s.regs[i.rt])
  {
    StoreMoves(isa, s, mapped, n, i);
    AddressIs(isa, p, q, s, i);
    StoreIs(isa, p, q, s.mem, Address(isa, s, i), i.op.size, s.regs[i.rt]);
  }

  lemma StorePartBy(isa: Isa, p: Primary, q: seq<Op>, s: State, mapped: int -> bool, n: State, i: Instr)
    requires Has(isa, p, q) && Does(isa, s, mapped, n) && Finds(isa, s, i) && i.op.StorePart?
    ensures var a, reg := AddressOf(s, i.rs, i.extra), s.regs[i.rt];
            n.mem == Put(s.mem, a, 4, if i.op.left then reg else Unmerged(Fetch(s.mem, a, 4), reg))
  {
    StoreMoves(isa, s, mapped, n, i);
    AddressIs(isa, p, q, s, i);
    FetchIs(isa, p, q, s.mem, Address(isa, s, i), 4);
    var word := isa.fetch(s.mem, Address(isa, s, i), 4);
    PartsAre(isa, p, q, i.op.left, word, s.regs[i.rt]);
    StoreIs(isa, p, q, s.mem, Address(isa, s, i), 4, isa.unmerge(i.op.left, word, s.regs[i.rt]));
  }

  /** SB, SH and SW. */
  lemma Stores(isa: Isa, s: State, mapped: int -> bool, n: State, op: int, rs: int, rt: int, immediate: int)
    requires IsSimulator(isa) && (op == 40 || op == 41 || op == 43) && Field(rs) && Field(rt) && Short(immediate)
    requires Holds(s, EncodeI(op, rs, rt, immediate)) && Does(isa, s, mapped, n)
    ensures Stored(s.mem, n.mem, AddressOf(s, rs, immediate), if op == 40 then 1 else if op == 41 then 2 else 4, s.regs[rt])
  {
    OpRow(op);
    var i := AtI(isa, OpTable, SpecialTable, s, op, rs, rt, immediate);
    StoreBy(isa, OpTable, SpecialTable, s, mapped, n, i);
    PutStores(s.mem, AddressOf(s, rs, immediate), i.op.size, s.regs[rt]);
  }

  /** SWL and SWR, at word boundaries: the whole register, or its low byte in the high byte of the word. */
  lemma PartStores(isa: Isa, s: State, mapped: int -> bool, n: State, op: int, rs: int, rt: int, immediate: int)
    requires IsSimulator(isa) && (op == 42 || op == 46) && Field(rs) && Field(rt) && Short(immediate)
    requires Holds(s, EncodeI(op, rs, rt, immediate)) && Does(isa, s, mapped, n)
    ensures var a := AddressOf(s, rs, immediate);
            Stored(s.mem, n.mem, a, 4, if op == 42 then s.regs[rt] else Unmerged(WordOn(s.mem, a), s.regs[rt]))
  {
    OpRow(op);
    var a := AddressOf(s, rs, immediate);
    var i := AtI(isa, OpTable, SpecialTable, s, op, rs, rt, immediate);
    StorePartBy(isa, OpTable, SpecialTable, s, mapped, n, i);
    Extended(s.mem, a);
    PutStores(s.mem, a, 4, if op == 42 then s.regs[rt] else Unmerged(WordOn(s.mem, a), s.regs[rt]));
  }

  // ---------------------------------------------------------------- what stops the processor

  /** The instruction itself can be fetched. */
  predicate Fetched(s: State, mapped: int -> bool) { Sound(s.regs) && Reach(s.regs[PCReg], 4, mapped) == Granted }

  function WidthOf(op: int): int { if op == 32 || op == 36 || op == 40 then 1 else if op == 33 || op == 37 || op == 41 then 2 else 4 }

  predicate MemoryCode(op: int) { 32 <= op <= 38 || 40 <= op <= 43 || op == 46 }

  /** A load or store stops at an address that is not aligned or has no translation, and says which; otherwise it
      completes. */
  lemma MemoryStops(isa: Isa, s: State, mapped: int -> bool, op: int, rs: int, rt: int, immediate: int)
    requires IsSimulator(isa) && MemoryCode(op) && Field(rs) && Field(rt) && Short(immediate)
    requires Holds(s, EncodeI(op, rs, rt, immediate)) && Fetched(s, mapped)
    ensures var a, part := AddressOf(s, rs, immediate), op == 34 || op == 38 || op == 42 || op == 46;
            && (Misaligned(a, WidthOf(op)) ==> Stops(isa, s, mapped, if part then Assertion else Exception(a)))
            && (!Misaligned(a, WidthOf(op)) && !mapped(a) ==> Stops(isa, s, mapped, Fault(a)))
            && (!Misaligned(a, WidthOf(op)) && mapped(a) ==> MipsLaws.Completes(isa, s, mapped))
  {
    OpRow(op);
    var i := AtI(isa, OpTable, SpecialTable, s, op, rs, rt, immediate);
    AddressIs(isa, OpTable, SpecialTable, s, i);
    StopsExactly(isa, s, mapped, i);
  }

  lemma BinaryIs(isa: Isa, p: Primary, q: seq<Op>, s: State, i: Instr)
    requires Has(isa, p, q) && (i.op.Register? || i.op.WithExtra?)
    ensures Value(isa, s, i) == if i.op.Register? then BinaryResult(i.op.f, s.regs[i.rs], s.regs[i.rt]) else ImmediateResult(i.op.g, s.regs[i.rs], i.extra)
  {
    assert isa == Processor(p, q);
  }

  /** ADD and SUB stop exactly when the result is not a word. */
  lemma SumStops(isa: Isa, s: State, mapped: int -> bool, funct: int, rs: int, rt: int, rd: int, amount: int)
    requires IsSimulator(isa) && (funct == 32 || funct == 34) && Field(rs) && Field(rt) && Field(rd) && Field(amount)
    requires IsWord(s.regs[rs]) && IsWord(s.regs[rt]) && Holds(s, EncodeR(0, rs, rt, rd, amount, funct)) && Fetched(s, mapped)
    ensures var r := if funct == 32 then s.regs[rs] + s.regs[rt] else s.regs[rs] - s.regs[rt];
            if IsWord(r) then MipsLaws.Completes(isa, s, mapped) else Stops(isa, s, mapped, Exception(0))
  {
    OpRow(0);
    FunctionRow(funct);
    var i := AtR(isa, OpTable, SpecialTable, s, rs, rt, rd, amount, funct);
    BinaryIs(isa, OpTable, SpecialTable, s, i);
    SumValues(s.regs[rs], s.regs[rt]);
    StopsExactly(isa, s, mapped, i);
  }

  /** So does ADDI. */
  lemma ImmediateStops(isa: Isa, s: State, mapped: int -> bool, rs: int, rt: int, immediate: int)
    requires IsSimulator(isa) && Field(rs) && Field(rt) && Short(immediate) && IsWord(s.regs[rs])
    requires Holds(s, EncodeI(8, rs, rt, immediate)) && Fetched(s, mapped)
    ensures if IsWord(s.regs[rs] + immediate) then MipsLaws.Completes(isa, s, mapped) else Stops(isa, s, mapped, Exception(0))
  {
    OpRow(8);
    var i := AtI(isa, OpTable, SpecialTable, s, 8, rs, rt, immediate);
    BinaryIs(isa, OpTable, SpecialTable, s, i);
    SumValues(s.regs[rs], immediate);
    StopsExactly(isa, s, mapped, i);
  }

  /** A system call, and every function code that is none, stops. */
  lemma FunctionStops(isa: Isa, s: State, mapped: int -> bool, funct: int, rs: int, rt: int, rd: int, amount: int)
    requires IsSimulator(isa) && 0 <= funct < 64 && (funct == 12 || FunctionOf(funct) == Illegal)
    requires Field(rs) && Field(rt) && Field(rd) && Field(amount) && Holds(s, EncodeR(0, rs, rt, rd, amount, funct)) && Fetched(s, mapped)
    ensures Stops(isa, s, mapped, Exception(0))
  {
    OpRow(0);
    FunctionRow(funct);
    var i := AtR(isa, OpTable, SpecialTable, s, rs, rt, rd, amount, funct);
    StopsExactly(isa, s, mapped, i);
  }

  /** So does every primary code that is none. */
  lemma CodeStops(isa: Isa, s: State, mapped: int -> bool, op: int, rs: int, rt: int, immediate: int)
    requires IsSimulator(isa) && 16 <= op < 64 && !MemoryCode(op) && Field(rs) && Field(rt) && Short(immediate)
    requires Holds(s, EncodeI(op, rs, rt, immediate)) && Fetched(s, mapped)
    ensures Stops(isa, s, mapped, Exception(0))
  {
    OpRow(op);
    var i := AtI(isa, OpTable, SpecialTable, s, op, rs, rt, immediate);
    StopsExactly(isa, s, mapped, i);
  }
}
