/**
 What each instruction word does on the simulator's processor, from its bits to registers, memory and program counter.
 */
module SimulatorLaws {
  import opened Options
  import opened Words
  import opened Mips
  import opened MipsRestart
  import opened MipsAlu
  import opened MipsLaws

  type Primary = seq<(Code, Format)>

  // ---------------------------------------------------------------- the instruction set by number

  /** The row of the opcode table for code op. */
  predicate Row(p: Primary, op: int, o: Op, f: Format) { |p| == 64 && 0 <= op < 64 && p[op] == (Plain(o), f) }

  /** The operation of a primary code. */
  function CodeOf(op: int): Op {
    if op == 2 then Jump(false) else if op == 3 then Jump(true)
    else if op == 4 then Branch(Eq, false) else if op == 5 then Branch(Ne, false)
    else if op == 6 then Branch(Lez, false) else if op == 7 then Branch(Gtz, false)
    else if op == 8 then WithExtra(AddI) else if op == 9 then WithExtra(AddIU)
    else if op == 10 then WithExtra(SltI) else if op == 11 then WithExtra(SltIU)
    else if op == 12 then WithExtra(AndI) else if op == 13 then WithExtra(OrI)
    else if op == 14 then WithExtra(XorI) else if op == 15 then WithExtra(Lui)
    else if op == 32 then Load(1, true) else if op == 33 then Load(2, true)
    else if op == 34 then LoadPart(true) else if op == 35 then Load(4, true)
    else if op == 36 then Load(1, false) else if op == 37 then Load(2, false) else if op == 38 then LoadPart(false)
    else if op == 40 then Store(1) else if op == 41 then Store(2)
    else if op == 42 then StorePart(true) else if op == 43 then Store(4) else if op == 46 then StorePart(false)
    else Illegal
  }

  /** The operation of a function code. */
  function FunctionOf(f: int): Op {
    if f == 0 then ShiftBy(Sll) else if f == 2 then ShiftBy(Srl) else if f == 3 then ShiftBy(Sra)
    else if f == 4 then Register(Sllv) else if f == 6 then Register(Srlv) else if f == 7 then Register(Srav)
    else if f == 8 then JumpRegister(false) else if f == 9 then JumpRegister(true) else if f == 12 then Syscall
    else if f == 16 then MoveFrom(Hi) else if f == 17 then MoveTo(Hi) else if f == 18 then MoveFrom(Lo) else if f == 19 then MoveTo(Lo)
    else if f == 24 then Multiply(true) else if f == 25 then Multiply(false) else if f == 26 then Divide(true) else if f == 27 then Divide(false)
    else if f == 32 then Register(Add) else if f == 33 then Register(AddU) else if f == 34 then Register(Sub) else if f == 35 then Register(SubU)
    else if f == 36 then Register(And) else if f == 37 then Register(Or) else if f == 38 then Register(Xor) else if f == 39 then Register(Nor)
    else if f == 42 then Register(Slt) else if f == 43 then Register(SltU)
    else Illegal
  }

  /** isa is the processor of the two tables. Only a proof that mentions it looks into it. */
  ghost predicate Has(isa: Isa, p: Primary, q: seq<Op>) {
    TablesOk(p, q) && forall d {:trigger Processor(d, q)} :: d == p ==> isa == Processor(d, q)
  }

  /** q has the rows of a group from row k on. */
  predicate Group<T(==)>(q: seq<T>, k: int, rows: seq<T>) { |q| == 64 && 0 <= k && k + |rows| <= 64 && q[k..k + |rows|] == rows }

  lemma Groups<T>(a: seq<T>, b: seq<T>, c: seq<T>, d: seq<T>, q: seq<T>)
    requires |a| == |b| == |c| == |d| == 16 && q == a + b + c + d
    ensures Group(q, 0, a) && Group(q, 16, b) && Group(q, 32, c) && Group(q, 48, d)
  {
  }

  lemma GroupRow<T>(q: seq<T>, k: int, rows: seq<T>, i: int)
    requires Group(q, k, rows) && k <= i < k + |rows|
    ensures q[i] == rows[i - k]
  {
    assert q[k..k + |rows|][i - k] == q[i];
  }

  /** The simulator's opcode table, code by code. */
  lemma OpRow(op: int)
    requires 0 <= op < 64
    ensures op == 0 ==> OpTable[op] == (Special, RFmt)
    ensures op == 1 ==> OpTable[op] == (BCond, IFmt)
    ensures op > 1 ==> Row(OpTable, op, CodeOf(op), if op == 2 || op == 3 then JFmt else IFmt)
  {
    if op < 16 { FirstOpRow(op); } else if op < 32 { OtherOpRow(op, 16); } else if op < 48 { MemoryOpRow(op); } else { OtherOpRow(op, 48); }
  }

  lemma FirstOpRow(op: int)
    requires 0 <= op < 16
    ensures |OpTable| == 64 && (op == 0 ==> OpTable[op] == (Special, RFmt)) && (op == 1 ==> OpTable[op] == (BCond, IFmt))
    ensures op > 1 ==> OpTable[op] == (Plain(CodeOf(op)), if op == 2 || op == 3 then JFmt else IFmt)
  {
    OpGroups();
    GroupRow(OpTable, 0, FirstOps, op);
    FirstRow(op);
  }

  lemma MemoryOpRow(op: int)
    requires 32 <= op < 48
    ensures |OpTable| == 64 && OpTable[op] == (Plain(CodeOf(op)), IFmt)
  {
    OpGroups();
    GroupRow(OpTable, 32, MemoryOps, op);
    MemoryRow(op);
  }

  lemma OtherOpRow(op: int, k: int)
    requires (k == 16 || k == 48) && k <= op < k + 16
    ensures |OpTable| == 64 && OpTable[op] == (Plain(Illegal), IFmt)
  {
    OpGroups();
    GroupRow(OpTable, k, OtherOps, op);
  }

  lemma OpGroups()
    ensures Group(OpTable, 0, FirstOps) && Group(OpTable, 16, OtherOps) && Group(OpTable, 32, MemoryOps) && Group(OpTable, 48, OtherOps)
    ensures |FirstOps| == |OtherOps| == |MemoryOps| == 16 && forall i :: 0 <= i < 16 ==> OtherOps[i] == (Plain(Illegal), IFmt)
  {
    Groups(FirstOps, OtherOps, MemoryOps, OtherOps, OpTable);
  }

  lemma FirstRow(op: int)
    requires 0 <= op < 16
    ensures op == 0 ==> FirstOps[op] == (Special, RFmt)
    ensures op == 1 ==> FirstOps[op] == (BCond, IFmt)
    ensures op > 1 ==> FirstOps[op] == (Plain(CodeOf(op)), if op == 2 || op == 3 then JFmt else IFmt)
  {
  }

  lemma MemoryRow(op: int)
    requires 32 <= op < 48
    ensures MemoryOps[op - 32] == (Plain(CodeOf(op)), IFmt)
  {
  }

  /** And its table of functions. */
  lemma FunctionRow(f: int)
    requires 0 <= f < 64
    ensures SpecialTable[f] == FunctionOf(f)
  {
    FunctionGroups();
    if f < 32 { LowFunctionRow(f); }
    else if f < 48 { GroupRow(SpecialTable, 32, WordFunctions, f); WordRow(f); }
    else { GroupRow(SpecialTable, 48, OtherFunctions, f); }
  }

  lemma LowFunctionRow(f: int)
    requires 0 <= f < 32
    ensures |SpecialTable| == 64 && SpecialTable[f] == FunctionOf(f)
  {
    FunctionGroups();
    if f < 16 { GroupRow(SpecialTable, 0, ShiftFunctions, f); ShiftRow(f); } else { GroupRow(SpecialTable, 16, HiLoFunctions, f); HiLoRow(f); }
  }

  lemma FunctionGroups()
    ensures Group(SpecialTable, 0, ShiftFunctions) && Group(SpecialTable, 16, HiLoFunctions)
    ensures Group(SpecialTable, 32, WordFunctions) && Group(SpecialTable, 48, OtherFunctions)
    ensures |ShiftFunctions| == |HiLoFunctions| == |WordFunctions| == |OtherFunctions| == 16
    ensures forall i :: 0 <= i < 16 ==> OtherFunctions[i] == Illegal
  {
    Groups(ShiftFunctions, HiLoFunctions, WordFunctions, OtherFunctions, SpecialTable);
  }

  lemma ShiftRow(f: int)
    requires 0 <= f < 16
    ensures ShiftFunctions[f] == FunctionOf(f)
  {
  }

  lemma HiLoRow(f: int)
    requires 16 <= f < 32
    ensures HiLoFunctions[f - 16] == FunctionOf(f)
  {
  }

  lemma WordRow(f: int)
    requires 32 <= f < 48
    ensures WordFunctions[f - 32] == FunctionOf(f)
  {
  }

  // ---------------------------------------------------------------- from the word to the instruction

  /** The word at the program counter. Only a proof that mentions its fetch looks into it. */
  ghost predicate Holds(s: State, w: int) {
    forall m {:trigger Fetch(m, s.regs[PCReg], 4)} :: m == s.mem ==> 0 <= w < W && Fetch(m, s.regs[PCReg], 4) == Word(w)
  }

  predicate Field(x: int) { 0 <= x < 32 }

  predicate Short(x: int) { -0x8000 <= x < 0x8000 }

  lemma SameWord(w: int)
    requires 0 <= w < W
    ensures Unsigned(Word(w)) == w
  {
  }

  lemma DecodesWord(p: Primary, q: seq<Op>, s: State, w: int)
    requires TablesOk(p, q) && Holds(s, w)
    ensures At(Processor(p, q), s) == Decode(w, p, q)
  {
    assert Fetch(s.mem, s.regs[PCReg], 4) == Word(w);
    SameWord(w);
    UnsignedOf(w);
  }

  lemma AtI(isa: Isa, p: Primary, q: seq<Op>, s: State, op: int, rs: int, rt: int, immediate: int) returns (i: Instr)
    requires Has(isa, p, q) && 0 <= op < 64 && Field(rs) && Field(rt) && Short(immediate) && p[op].0.Plain? && p[op].1 == IFmt
    requires Holds(s, EncodeI(op, rs, rt, immediate))
    ensures Finds(isa, s, i)
    ensures i.op == p[op].0.op && i.rs == rs && i.rt == rt && i.extra == immediate
  {
    assert isa == Processor(p, q);
    i := At(isa, s);
    DecodesWord(p, q, s, EncodeI(op, rs, rt, immediate));
    DecodeI(op, rs, rt, immediate, p, q);
  }

  lemma AtR(isa: Isa, p: Primary, q: seq<Op>, s: State, rs: int, rt: int, rd: int, amount: int, funct: int) returns (i: Instr)
    requires Has(isa, p, q) && p[0] == (Special, RFmt) && Field(rs) && Field(rt) && Field(rd) && Field(amount) && 0 <= funct < 64
    requires Holds(s, EncodeR(0, rs, rt, rd, amount, funct))
    ensures Finds(isa, s, i)
    ensures i.op == q[funct] && i.rs == rs && i.rt == rt && i.rd == rd && i.extra == amount
  {
    assert isa == Processor(p, q);
    i := At(isa, s);
    DecodesWord(p, q, s, EncodeR(0, rs, rt, rd, amount, funct));
    DecodeR(0, rs, rt, rd, amount, funct, p, q);
  }

  /** Branches on a sign have their kind in the field of rt. */
  function SignBranch(which: int): Op {
    if which == 0 then Branch(Ltz, false) else if which == 1 then Branch(Gez, false)
    else if which == 16 then Branch(Ltz, true) else if which == 17 then Branch(Gez, true) else Illegal
  }

  lemma AtB(isa: Isa, p: Primary, q: seq<Op>, s: State, which: int, rs: int, immediate: int) returns (i: Instr)
    requires Has(isa, p, q) && p[1] == (BCond, IFmt) && Field(rs) && Field(which) && Short(immediate)
    requires Holds(s, EncodeI(1, rs, which, immediate))
    ensures Finds(isa, s, i)
    ensures i.op == SignBranch(which) && i.rs == rs && i.extra == immediate
  {
    assert isa == Processor(p, q);
    i := At(isa, s);
    var w := EncodeI(1, rs, which, immediate);
    DecodesWord(p, q, s, w);
    SignExtended(immediate);
    FieldsI(1, rs, which, immediate % 0x1_0000);
    UnsignedOf(w);
  }

  function EncodeJ(op: int, index: int): int { op * 0x400_0000 + index }

  lemma AtJ(isa: Isa, p: Primary, q: seq<Op>, s: State, op: int, index: int) returns (i: Instr)
    requires Has(isa, p, q) && 0 <= op < 64 && p[op].0.Plain? && p[op].1 == JFmt && 0 <= index < 0x400_0000
    requires Holds(s, EncodeJ(op, index))
    ensures Finds(isa, s, i)
    ensures i.op == p[op].0.op && i.extra == index
  {
    assert isa == Processor(p, q);
    i := At(isa, s);
    DecodesWord(p, q, s, EncodeJ(op, index));
    Boundary(op, index, 0x400_0000);
    UnsignedOf(EncodeJ(op, index));
  }

  // ---------------------------------------------------------------- the simulator's arithmetic

  /** Where a branch goes. */
  predicate Branched(s: State, n: State, taken: bool, immediate: int) {
    n.regs[NextPCReg] == if taken then Word(s.regs[NextPCReg] + 4 * immediate) else Word(s.regs[NextPCReg] + 4)
  }

  lemma BranchTo(isa: Isa, p: Primary, q: seq<Op>, s: State, mapped: int -> bool, n: State, i: Instr)
    requires Has(isa, p, q) && Does(isa, s, mapped, n) && Finds(isa, s, i) && i.op.Branch?
    ensures var link := Word(s.regs[NextPCReg] + 4);
            var x, y := if i.op.link && i.rs == 31 then link else s.regs[i.rs], if i.op.link && i.rt == 31 then link else s.regs[i.rt];
            && Branched(s, n, TestResult(i.op.test, x, if TwoOperands(i.op.test) then y else 0), i.extra)
            && (i.op.link ==> Gives(s, n, 31, link)) && n.mem == s.mem
  {
    assert isa == Processor(p, q);
    BranchGoes(isa, s, mapped, n, i);
  }

  lemma JumpTo(isa: Isa, p: Primary, q: seq<Op>, s: State, mapped: int -> bool, n: State, i: Instr)
    requires Has(isa, p, q) && Does(isa, s, mapped, n) && Finds(isa, s, i) && i.op.Jump? && 0 <= i.extra < 0x400_0000
    ensures var link := Word(s.regs[NextPCReg] + 4);
            && n.regs[NextPCReg] == Word(Unsigned(link) / 0x1000_0000 * 0x1000_0000 + 4 * i.extra)
            && (i.op.link ==> Gives(s, n, 31, link)) && n.mem == s.mem
  {
    assert isa == Processor(p, q);
    JumpGoes(isa, s, mapped, n, i);
    assert 4 * i.extra % 0x1000_0000 == 4 * i.extra;
  }

  lemma RegisterJumpTo(isa: Isa, p: Primary, q: seq<Op>, s: State, mapped: int -> bool, n: State, i: Instr)
    requires Has(isa, p, q) && Does(isa, s, mapped, n) && Finds(isa, s, i) && i.op.JumpRegister?
    ensures var link := Word(s.regs[NextPCReg] + 4);
            && n.regs[NextPCReg] == (if i.op.link && i.rs == i.rd then link else s.regs[i.rs])
            && (i.op.link ==> Gives(s, n, i.rd, link)) && n.mem == s.mem
  {
    assert isa == Processor(p, q);
    JumpRegisterGoes(isa, s, mapped, n, i);
  }

  lemma ValueBy(isa: Isa, p: Primary, q: seq<Op>, s: State, mapped: int -> bool, n: State, i: Instr)
    requires Has(isa, p, q) && Does(isa, s, mapped, n) && Finds(isa, s, i)
    ensures i.op.Register? ==>
              var v := BinaryResult(i.op.f, s.regs[i.rs], s.regs[i.rt]); v.Some? && Gives(s, n, i.rd, v.value)
    ensures i.op.WithExtra? ==>
              var v := ImmediateResult(i.op.g, s.regs[i.rs], i.extra); v.Some? && Gives(s, n, i.rt, v.value)
    ensures i.op.ShiftBy? ==> Gives(s, n, i.rd, ShiftResult(i.op.h, s.regs[i.rt], i.extra))
    ensures i.op.MoveFrom? ==> Gives(s, n, i.rd, s.regs[HalfReg(i.op.half)])
  {
    assert isa == Processor(p, q);
    if i.op.Register? || i.op.WithExtra? || i.op.ShiftBy? || i.op.MoveFrom? { ValueGiven(isa, s, mapped, n, i); }
  }

  lemma HiLoBy(isa: Isa, p: Primary, q: seq<Op>, s: State, mapped: int -> bool, n: State, i: Instr)
    requires Has(isa, p, q) && Does(isa, s, mapped, n) && Finds(isa, s, i) && (i.op.Multiply? || i.op.Divide? || i.op.MoveTo?)
    ensures i.op.Multiply? ==> (n.regs[HiReg], n.regs[LoReg]) == ProductWords(i.op.signed, s.regs[i.rs], s.regs[i.rt])
    ensures i.op.Divide? ==> (n.regs[HiReg], n.regs[LoReg]) == QuotientWords(i.op.signed, s.regs[i.rs], s.regs[i.rt])
    ensures i.op.MoveTo? ==> (n.regs[HiReg], n.regs[LoReg]) == if i.op.half == Hi then (s.regs[i.rs], s.regs[LoReg]) else (s.regs[HiReg], s.regs[i.rs])
  {
    assert isa == Processor(p, q);
    HiLoGiven(isa, s, mapped, n, i);
  }

  // ---------------------------------------------------------------- branches and jumps

  /** isa is the simulator's own processor. */
  ghost predicate IsSimulator(isa: Isa) { Has(isa, OpTable, SpecialTable) }

  /** BEQ, BNE, BLEZ and BGTZ. */
  lemma Branches(isa: Isa, s: State, mapped: int -> bool, n: State, op: int, rs: int, rt: int, immediate: int)
    requires IsSimulator(isa) && 4 <= op <= 7 && Field(rs) && Field(rt) && Short(immediate)
    requires Holds(s, EncodeI(op, rs, rt, immediate)) && Does(isa, s, mapped, n)
    ensures op == 4 ==> Branched(s, n, s.regs[rs] == s.regs[rt], immediate)
    ensures op == 5 ==> Branched(s, n, s.regs[rs] != s.regs[rt], immediate)
    ensures op == 6 ==> Branched(s, n, s.regs[rs] <= 0, immediate)
    ensures op == 7 ==> Branched(s, n, s.regs[rs] > 0, immediate)
    ensures n.mem == s.mem
  {
    OpRow(op);
    var i := AtI(isa, OpTable, SpecialTable, s, op, rs, rt, immediate);
    BranchTo(isa, OpTable, SpecialTable, s, mapped, n, i);
  }

  /** BLTZ, BGEZ, BLTZAL and BGEZAL; the last two write the link first, and test it if it is what they test. */
  lemma SignBranches(isa: Isa, s: State, mapped: int -> bool, n: State, which: int, rs: int, immediate: int)
    requires IsSimulator(isa) && (which == 0 || which == 1 || which == 16 || which == 17) && Field(rs) && Short(immediate)
    requires Holds(s, EncodeI(1, rs, which, immediate)) && Does(isa, s, mapped, n)
    ensures var link := Word(s.regs[NextPCReg] + 4);
            var x := if which >= 16 && rs == 31 then link else s.regs[rs];
            && Branched(s, n, if which == 0 || which == 16 then x < 0 else x >= 0, immediate)
            && (which >= 16 ==> Gives(s, n, 31, link)) && n.mem == s.mem
  {
    OpRow(1);
    var i := AtB(isa, OpTable, SpecialTable, s, which, rs, immediate);
    BranchTo(isa, OpTable, SpecialTable, s, mapped, n, i);
  }

  /** J and JAL: within the 256 megabytes of the instruction after the delay slot. */
  lemma Jumps(isa: Isa, s: State, mapped: int -> bool, n: State, op: int, index: int)
    requires IsSimulator(isa) && (op == 2 || op == 3) && 0 <= index < 0x400_0000
    requires Holds(s, EncodeJ(op, index)) && Does(isa, s, mapped, n)
    ensures var link := Word(s.regs[NextPCReg] + 4);
            && n.regs[NextPCReg] == Word(Unsigned(link) / 0x1000_0000 * 0x1000_0000 + 4 * index)
            && (op == 3 ==> Gives(s, n, 31, link)) && n.mem == s.mem
  {
    OpRow(op);
    var i := AtJ(isa, OpTable, SpecialTable, s, op, index);
    JumpTo(isa, OpTable, SpecialTable, s, mapped, n, i);
  }

  /** JR and JALR; JALR writes its link first. */
  lemma RegisterJumps(isa: Isa, s: State, mapped: int -> bool, n: State, funct: int, rs: int, rt: int, rd: int, amount: int)
    requires IsSimulator(isa) && (funct == 8 || funct == 9) && Field(rs) && Field(rt) && Field(rd) && Field(amount)
    requires Holds(s, EncodeR(0, rs, rt, rd, amount, funct)) && Does(isa, s, mapped, n)
    ensures var link := Word(s.regs[NextPCReg] + 4);
            && n.regs[NextPCReg] == (if funct == 9 && rs == rd then link else s.regs[rs])
            && (funct == 9 ==> Gives(s, n, rd, link)) && n.mem == s.mem
  {
    OpRow(0);
    FunctionRow(funct);
    var i := AtR(isa, OpTable, SpecialTable, s, rs, rt, rd, amount, funct);
    RegisterJumpTo(isa, OpTable, SpecialTable, s, mapped, n, i);
  }

  // ---------------------------------------------------------------- arithmetic

  lemma ShiftValues(x: int, y: int, k: int)
    requires Field(k)
    ensures ShiftResult(Sll, y, k) == Word(y * Pow2(k)) && ShiftResult(Srl, y, k) == ShiftResult(Sra, y, k) == Word(y / Pow2(k))
    ensures BinaryResult(Sllv, x, y) == Some(Word(y * Pow2(x % 32)))
    ensures BinaryResult(Srlv, x, y) == BinaryResult(Srav, x, y) == Some(Word(y / Pow2(x % 32)))
  {
    assert k % 32 == k && x % 32 % 32 == x % 32;
  }

  /** SLL, SRL and SRA. */
  lemma Shifts(isa: Isa, s: State, mapped: int -> bool, n: State, funct: int, rs: int, rt: int, rd: int, amount: int)
    requires IsSimulator(isa) && (funct == 0 || funct == 2 || funct == 3) && Field(rs) && Field(rt) && Field(rd) && Field(amount)
    requires Holds(s, EncodeR(0, rs, rt, rd, amount, funct)) && Does(isa, s, mapped, n)
    ensures Gives(s, n, rd, if funct == 0 then Word(s.regs[rt] * Pow2(amount)) else Word(s.regs[rt] / Pow2(amount)))
  {
    OpRow(0);
    FunctionRow(funct);
    var i := AtR(isa, OpTable, SpecialTable, s, rs, rt, rd, amount, funct);
    ValueBy(isa, OpTable, SpecialTable, s, mapped, n, i);
    ShiftValues(s.regs[rs], s.regs[rt], amount);
  }

  /** SLLV, SRLV and SRAV. */
  lemma RegisterShifts(isa: Isa, s: State, mapped: int -> bool, n: State, funct: int, rs: int, rt: int, rd: int, amount: int)
    requires IsSimulator(isa) && (funct == 4 || funct == 6 || funct == 7) && Field(rs) && Field(rt) && Field(rd) && Field(amount)
    requires Holds(s, EncodeR(0, rs, rt, rd, amount, funct)) && Does(isa, s, mapped, n)
    ensures var k := s.regs[rs] % 32; Gives(s, n, rd, if funct == 4 then Word(s.regs[rt] * Pow2(k)) else Word(s.regs[rt] / Pow2(k)))
  {
    OpRow(0);
    FunctionRow(funct);
    var i := AtR(isa, OpTable, SpecialTable, s, rs, rt, rd, amount, funct);
    ValueBy(isa, OpTable, SpecialTable, s, mapped, n, i);
    ShiftValues(s.regs[rs], s.regs[rt], amount);
  }

  lemma SumValues(x: int, y: int)
    requires IsWord(x) && IsWord(y)
    ensures BinaryResult(Add, x, y) == (if IsWord(x + y) then Some(x + y) else None) && BinaryResult(AddU, x, y) == Some(Word(x + y))
    ensures BinaryResult(Sub, x, y) == (if IsWord(x - y) then Some(x - y) else None) && BinaryResult(SubU, x, y) == Some(Word(x - y))
    ensures ImmediateResult(AddI, x, y) == (if IsWord(x + y) then Some(x + y) else None) && ImmediateResult(AddIU, x, y) == Some(Word(x + y))
  {
    OverflowExact(x, y);
  }

  /** ADD, ADDU, SUB and SUBU. */
  lemma Sums(isa: Isa, s: State, mapped: int -> bool, n: State, funct: int, rs: int, rt: int, rd: int, amount: int)
    requires IsSimulator(isa) && 32 <= funct <= 35
    requires Field(rs) && Field(rt) && Field(rd) && Field(amount) && IsWord(s.regs[rs]) && IsWord(s.regs[rt])
    requires Holds(s, EncodeR(0, rs, rt, rd, amount, funct)) && Does(isa, s, mapped, n)
    ensures var x, y := s.regs[rs], s.regs[rt];
            && (funct == 32 ==> IsWord(x + y) && Gives(s, n, rd, x + y)) && (funct == 33 ==> Gives(s, n, rd, Word(x + y)))
            && (funct == 34 ==> IsWord(x - y) && Gives(s, n, rd, x - y)) && (funct == 35 ==> Gives(s, n, rd, Word(x - y)))
  {
    OpRow(0);
    FunctionRow(funct);
    var i := AtR(isa, OpTable, SpecialTable, s, rs, rt, rd, amount, funct);
    ValueBy(isa, OpTable, SpecialTable, s, mapped, n, i);
    SumValues(s.regs[rs], s.regs[rt]);
  }

  /** SLT and SLTU. */
  lemma Comparisons(isa: Isa, s: State, mapped: int -> bool, n: State, funct: int, rs: int, rt: int, rd: int, amount: int)
    requires IsSimulator(isa) && (funct == 42 || funct == 43) && Field(rs) && Field(rt) && Field(rd) && Field(amount)
    requires Holds(s, EncodeR(0, rs, rt, rd, amount, funct)) && Does(isa, s, mapped, n)
    ensures var x, y := s.regs[rs], s.regs[rt];
            && (funct == 42 ==> Gives(s, n, rd, if x < y then 1 else 0))
            && (funct == 43 ==> Gives(s, n, rd, if Unsigned(x) < Unsigned(y) then 1 else 0))
  {
    OpRow(0);
    FunctionRow(funct);
    var i := AtR(isa, OpTable, SpecialTable, s, rs, rt, rd, amount, funct);
    ValueBy(isa, OpTable, SpecialTable, s, mapped, n, i);
  }

  lemma AndValue(x: int, y: int)
    ensures BinaryResult(And, x, y) == Some(Logic(Both, x, y)) && ImmediateResult(AndI, x, y) == Some(Logic(Both, x, y % 0x1_0000))
  {
  }

  lemma OrValue(x: int, y: int)
    ensures BinaryResult(Or, x, y) == Some(Logic(Either, x, x)) && ImmediateResult(OrI, x, y) == Some(Logic(Either, x, y % 0x1_0000))
  {
  }

  lemma XorValue(x: int, y: int)
    ensures BinaryResult(Xor, x, y) == Some(Logic(Unlike, x, y)) && ImmediateResult(XorI, x, y) == Some(Logic(Unlike, x, y % 0x1_0000))
  {
  }

  lemma NorValue(x: int, y: int)
    ensures BinaryResult(Nor, x, y) == Some(Logic(Neither, x, y))
  {
  }

  lemma RegisterOperation(isa: Isa, s: State, mapped: int -> bool, n: State, funct: int, f: Binary, rs: int, rt: int, rd: int, amount: int)
    requires IsSimulator(isa) && 0 <= funct < 64 && FunctionOf(funct) == Register(f) && Field(rs) && Field(rt) && Field(rd) && Field(amount)
    requires Holds(s, EncodeR(0, rs, rt, rd, amount, funct)) && Does(isa, s, mapped, n)
    ensures var v := BinaryResult(f, s.regs[rs], s.regs[rt]); v.Some? && Gives(s, n, rd, v.value)
  {
    OpRow(0);
    FunctionRow(funct);
    var i := AtR(isa, OpTable, SpecialTable, s, rs, rt, rd, amount, funct);
    ValueBy(isa, OpTable, SpecialTable, s, mapped, n, i);
  }

  /** AND. */
  lemma AndGives(isa: Isa, s: State, mapped: int -> bool, n: State, rs: int, rt: int, rd: int, amount: int)
    requires IsSimulator(isa) && Field(rs) && Field(rt) && Field(rd) && Field(amount)
    requires Holds(s, EncodeR(0, rs, rt, rd, amount, 36)) && Does(isa, s, mapped, n)
    ensures Gives(s, n, rd, Logic(Both, s.regs[rs], s.regs[rt]))
  {
    RegisterOperation(isa, s, mapped, n, 36, And, rs, rt, rd, amount);
    AndValue(s.regs[rs], s.regs[rt]);
  }

  /** OR, as the simulator has it. */
  lemma OrGives(isa: Isa, s: State, mapped: int -> bool, n: State, rs: int, rt: int, rd: int, amount: int)
    requires IsSimulator(isa) && Field(rs) && Field(rt) && Field(rd) && Field(amount)
    requires Holds(s, EncodeR(0, rs, rt, rd, amount, 37)) && Does(isa, s, mapped, n)
    ensures Gives(s, n, rd, Logic(Either, s.regs[rs], s.regs[rs]))
  {
    RegisterOperation(isa, s, mapped, n, 37, Or, rs, rt, rd, amount);
    OrValue(s.regs[rs], s.regs[rt]);
  }

  /** XOR. */
  lemma XorGives(isa: Isa, s: State, mapped: int -> bool, n: State, rs: int, rt: int, rd: int, amount: int)
    requires IsSimulator(isa) && Field(rs) && Field(rt) && Field(rd) && Field(amount)
    requires Holds(s, EncodeR(0, rs, rt, rd, amount, 38)) && Does(isa, s, mapped, n)
    ensures Gives(s, n, rd, Logic(Unlike, s.regs[rs], s.regs[rt]))
  {
    RegisterOperation(isa, s, mapped, n, 38, Xor, rs, rt, rd, amount);
    XorValue(s.regs[rs], s.regs[rt]);
  }

  /** NOR. */
  lemma NorGives(isa: Isa, s: State, mapped: int -> bool, n: State, rs: int, rt: int, rd: int, amount: int)
    requires IsSimulator(isa) && Field(rs) && Field(rt) && Field(rd) && Field(amount)
    requires Holds(s, EncodeR(0, rs, rt, rd, amount, 39)) && Does(isa, s, mapped, n)
    ensures Gives(s, n, rd, Logic(Neither, s.regs[rs], s.regs[rt]))
  {
    RegisterOperation(isa, s, mapped, n, 39, Nor, rs, rt, rd, amount);
    NorValue(s.regs[rs], s.regs[rt]);
  }

  /** ADDI, ADDIU, SLTI, SLTIU and LUI. */
  lemma Immediates(isa: Isa, s: State, mapped: int -> bool, n: State, op: int, rs: int, rt: int, immediate: int)
    requires IsSimulator(isa) && (8 <= op <= 11 || op == 15) && Field(rs) && Field(rt) && Short(immediate) && IsWord(s.regs[rs])
    requires Holds(s, EncodeI(op, rs, rt, immediate)) && Does(isa, s, mapped, n)
    ensures var x := s.regs[rs];
            && (op == 8 ==> IsWord(x + immediate) && Gives(s, n, rt, x + immediate)) && (op == 9 ==> Gives(s, n, rt, Word(x + immediate)))
            && (op == 10 ==> Gives(s, n, rt, if x < immediate then 1 else 0))
            && (op == 11 ==> Gives(s, n, rt, if Unsigned(x) < Unsigned(immediate) then 1 else 0))
            && (op == 15 ==> Gives(s, n, rt, Word(immediate * 0x1_0000)))
  {
    OpRow(op);
    var i := AtI(isa, OpTable, SpecialTable, s, op, rs, rt, immediate);
    ValueBy(isa, OpTable, SpecialTable, s, mapped, n, i);
    SumValues(s.regs[rs], immediate);
  }

  lemma ImmediateOperation(isa: Isa, s: State, mapped: int -> bool, n: State, op: int, g: Immediate, rs: int, rt: int, immediate: int)
    requires IsSimulator(isa) && 8 <= op <= 15 && CodeOf(op) == WithExtra(g) && Field(rs) && Field(rt) && Short(immediate)
    requires Holds(s, EncodeI(op, rs, rt, immediate)) && Does(isa, s, mapped, n)
    ensures var v := ImmediateResult(g, s.regs[rs], immediate); v.Some? && Gives(s, n, rt, v.value)
  {
    OpRow(op);
    var i := AtI(isa, OpTable, SpecialTable, s, op, rs, rt, immediate);
    ValueBy(isa, OpTable, SpecialTable, s, mapped, n, i);
  }

  /** ANDI, with the immediate not extended. */
  lemma AndImmediate(isa: Isa, s: State, mapped: int -> bool, n: State, rs: int, rt: int, immediate: int)
    requires IsSimulator(isa) && Field(rs) && Field(rt) && Short(immediate)
    requires Holds(s, EncodeI(12, rs, rt, immediate)) && Does(isa, s, mapped, n)
    ensures Gives(s, n, rt, Logic(Both, s.regs[rs], immediate % 0x1_0000))
  {
    ImmediateOperation(isa, s, mapped, n, 12, AndI, rs, rt, immediate);
    AndValue(s.regs[rs], immediate);
  }

  /** ORI, likewise. */
  lemma OrImmediate(isa: Isa, s: State, mapped: int -> bool, n: State, rs: int, rt: int, immediate: int)
    requires IsSimulator(isa) && Field(rs) && Field(rt) && Short(immediate)
    requires Holds(s, EncodeI(13, rs, rt, immediate)) && Does(isa, s, mapped, n)
    ensures Gives(s, n, rt, Logic(Either, s.regs[rs], immediate % 0x1_0000))
  {
    ImmediateOperation(isa, s, mapped, n, 13, OrI, rs, rt, immediate);
    OrValue(s.regs[rs], immediate);
  }

  /** XORI, likewise. */
  lemma XorImmediate(isa: Isa, s: State, mapped: int -> bool, n: State, rs: int, rt: int, immediate: int)
    requires IsSimulator(isa) && Field(rs) && Field(rt) && Short(immediate)
    requires Holds(s, EncodeI(14, rs, rt, immediate)) && Does(isa, s, mapped, n)
    ensures Gives(s, n, rt, Logic(Unlike, s.regs[rs], immediate % 0x1_0000))
  {
    ImmediateOperation(isa, s, mapped, n, 14, XorI, rs, rt, immediate);
    XorValue(s.regs[rs], immediate);
  }

  /** MFHI, MTHI, MFLO, MTLO, MULT, MULTU, DIV and DIVU. */
  lemma HighLow(isa: Isa, s: State, mapped: int -> bool, n: State, funct: int, rs: int, rt: int, rd: int, amount: int)
    requires IsSimulator(isa) && (16 <= funct <= 19 || 24 <= funct <= 27) && Field(rs) && Field(rt) && Field(rd) && Field(amount)
    requires Holds(s, EncodeR(0, rs, rt, rd, amount, funct)) && Does(isa, s, mapped, n)
    ensures var x, y, hi, lo := s.regs[rs], s.regs[rt], s.regs[HiReg], s.regs[LoReg];
            && (funct == 16 ==> Gives(s, n, rd, hi)) && (funct == 18 ==> Gives(s, n, rd, lo))
            && (funct == 17 ==> (n.regs[HiReg], n.regs[LoReg]) == (x, lo)) && (funct == 19 ==> (n.regs[HiReg], n.regs[LoReg]) == (hi, x))
            && (funct == 24 || funct == 25 ==> (n.regs[HiReg], n.regs[LoReg]) == ProductWords(funct == 24, x, y))
            && (funct == 26 || funct == 27 ==> (n.regs[HiReg], n.regs[LoReg]) == QuotientWords(funct == 26, x, y))
  {
    OpRow(0);
    FunctionRow(funct);
    var i := AtR(isa, OpTable, SpecialTable, s, rs, rt, rd, amount, funct);
    if funct == 16 || funct == 18 { ValueBy(isa, OpTable, SpecialTable, s, mapped, n, i); } else { HiLoBy(isa, OpTable, SpecialTable, s, mapped, n, i); }
  }
}
