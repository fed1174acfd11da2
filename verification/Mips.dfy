/**
 The processor core: one instruction at a time, with a load delay slot, and restartable after a page fault.
 */
module Mips {
  import opened Options

  const HiReg: int := 32
  const LoReg: int := 33
  const PCReg: int := 34
  const NextPCReg: int := 35
  const PrevPCReg: int := 36
  const LoadReg: int := 37
  const LoadValueReg: int := 38
  const BadVAddrReg: int := 39
  const NumTotalRegs: int := 40
  const R31: int := 31

  // ---------------------------------------------------------------- instructions

  datatype Binary = Add | AddU | And | Nor | Or | Sllv | Slt | SltU | Srav | Srlv | Sub | SubU | Xor
  datatype Immediate = AddI | AddIU | AndI | Lui | OrI | SltI | SltIU | XorI
  datatype Shift = Sll | Sra | Srl
  datatype Half = Hi | Lo
  datatype Test = Eq | Ne | Gez | Gtz | Lez | Ltz

  datatype Op =
    | Register(f: Binary)                      // rd from rs and rt
    | WithExtra(g: Immediate)                  // rt from rs and the immediate
    | ShiftBy(h: Shift)                        // rd from rt and the shift amount
    | Branch(test: Test, link: bool)
    | Jump(link: bool)
    | JumpRegister(link: bool)
    | Multiply(signed: bool)
    | Divide(signed: bool)
    | MoveFrom(half: Half)                     // MFHI, MFLO
    | MoveTo(half: Half)                       // MTHI, MTLO
    | Load(size: int, signed: bool)            // LB LBU LH LHU LW
    | LoadPart(left: bool)                     // LWL LWR
    | Store(size: int)                         // SB SH SW
    | StorePart(left: bool)                    // SWL SWR
    | Syscall
    | Illegal

  predicate Control(op: Op) { op.Branch? || op.Jump? || op.JumpRegister? }

  predicate Memory(op: Op) { op.Load? || op.LoadPart? || op.Store? || op.StorePart? }

  predicate Trap(op: Op) { op.Syscall? || op.Illegal? }

  /** What only computes from registers to registers. */
  predicate Arithmetic(op: Op) { !Control(op) && !Memory(op) && !Trap(op) }

  datatype Fields = Fields(op: Op, rs: int, rt: int, rd: int, extra: int)

  predicate FieldsOk(i: Fields) {
    0 <= i.rs < 32 && 0 <= i.rt < 32 && 0 <= i.rd < 32
  }

  /** A decoded instruction: its register fields have five bits. */
  type Instr = i: Fields | FieldsOk(i) witness Fields(Illegal, 0, 0, 0, 0)

  /** The word arithmetic and the decoding, as functions of their operands; None is an overflow. */
  datatype Isa = Isa(
    decode: int -> Instr,
    binary: (Binary, int, int) -> Option<int>,
    immediate: (Immediate, int, int) -> Option<int>,
    shift: (Shift, int, int) -> int,
    test: (Test, int, int) -> bool,
    target: (int, int) -> int,                 // of a jump
    offset: (int, int) -> int,                 // NextPC moved by a branch
    plus: (int, int) -> int,                   // 32-bit addition
    product: (bool, int, int) -> (int, int),
    quotient: (bool, int, int) -> (int, int),
    extend: (int, bool, int) -> int,           // a loaded byte or half word
    merge: (bool, int, int) -> int,            // LWL, LWR
    unmerge: (bool, int, int) -> int,          // SWL, SWR
    fetch: (seq<int>, int, int) -> int,        // memory, address, size
    store: (seq<int>, int, int, int) -> seq<int>)

  type Regs = r: seq<int> | |r| == NumTotalRegs witness seq(NumTotalRegs, i => 0)

  // ---------------------------------------------------------------- memory access

  datatype Access = Granted | PageFault | AddressError

  /** Alignment first, then whether a translation is at hand. */
  function Reach(address: int, size: int, mapped: int -> bool): Access {
    if (size == 4 && address % 4 != 0) || (size == 2 && address % 2 != 0) then AddressError
    else if !mapped(address) then PageFault
    else Granted
  }

  // ---------------------------------------------------------------- executing one instruction

  /** What an instruction does before the delayed load and the program counters: registers, memory, where to go after
      the next instruction, and the load it leaves pending. Or it is stopped: by a page fault, by another exception, or
      by a failed assertion of the simulator. */
  datatype Effect =
    | Effect(regs: Regs, mem: seq<int>, pcAfter: int, loadReg: int, loadValue: int)
    | Fault(address: int)
    | Exception(address: int)
    | Assertion

  function Plain(regs: Regs, mem: seq<int>, pcAfter: int): Effect { Effect(regs, mem, pcAfter, 0, 0) }

  function Denied(a: Access, address: int): Effect
    requires a != Granted
  {
    if a == PageFault then Fault(address) else Exception(address)
  }

  function Execute(isa: Isa, i: Instr, regs: Regs, mem: seq<int>, mapped: int -> bool): Effect
  {
    var next := isa.plus(regs[NextPCReg], 4);
    match i.op
    case Register(f) =>
      (match isa.binary(f, regs[i.rs], regs[i.rt])
       case None => Exception(0)
       case Some(v) => Plain(regs[i.rd := v], mem, next))
    case WithExtra(g) =>
      (match isa.immediate(g, regs[i.rs], i.extra)
       case None => Exception(0)
       case Some(v) => Plain(regs[i.rt := v], mem, next))
    case ShiftBy(h) => Plain(regs[i.rd := isa.shift(h, regs[i.rt], i.extra)], mem, next)
    case Branch(test, link) =>
      var linked := if link then regs[R31 := next] else regs;
      Plain(linked, mem, if isa.test(test, linked[i.rs], if TwoOperands(test) then linked[i.rt] else 0) then isa.offset(regs[NextPCReg], i.extra) else next)
    case Jump(link) => Plain(if link then regs[R31 := next] else regs, mem, isa.target(next, i.extra))
    case JumpRegister(link) =>
      var linked := if link then regs[i.rd := next] else regs;
      Plain(linked, mem, linked[i.rs])
    case Multiply(signed) =>
      var (hi, lo) := isa.product(signed, regs[i.rs], regs[i.rt]);
      Plain(regs[HiReg := hi][LoReg := lo], mem, next)
    case Divide(signed) =>
      var (hi, lo) := isa.quotient(signed, regs[i.rs], regs[i.rt]);
      Plain(regs[HiReg := hi][LoReg := lo], mem, next)
    case MoveFrom(half) => Plain(regs[i.rd := regs[HalfReg(half)]], mem, next)
    case MoveTo(half) => Plain(regs[HalfReg(half) := regs[i.rs]], mem, next)
    case Load(size, signed) => ExecuteLoad(isa, i, regs, mem, mapped, next)
    case LoadPart(left) => ExecuteLoadPart(isa, i, regs, mem, mapped, next)
    case Store(size) => ExecuteStore(isa, i, regs, mem, mapped, next)
    case StorePart(left) => ExecuteStorePart(isa, i, regs, mem, mapped, next)
    case Syscall => Exception(0)
    case Illegal => Exception(0)
  }

  function HalfReg(half: Half): int { if half == Hi then HiReg else LoReg }

  predicate TwoOperands(test: Test) { test.Eq? || test.Ne? }

  function ExecuteLoad(isa: Isa, i: Instr, regs: Regs, mem: seq<int>, mapped: int -> bool, next: int): Effect
    requires i.op.Load?
  {
    var address := isa.plus(regs[i.rs], i.extra);
    var a := Reach(address, i.op.size, mapped);
    if a != Granted then Denied(a, address)
    else Effect(regs, mem, next, i.rt, isa.extend(i.op.size, i.op.signed, isa.fetch(mem, address, i.op.size)))
  }

  /** LWL and LWR see a load still pending for their register. */
  function ExecuteLoadPart(isa: Isa, i: Instr, regs: Regs, mem: seq<int>, mapped: int -> bool, next: int): Effect
    requires i.op.LoadPart?
  {
    var address := isa.plus(regs[i.rs], i.extra);
    if address % 4 != 0 then Assertion
    else
      var a := Reach(address, 4, mapped);
      if a != Granted then Denied(a, address)
      else
        var was := if regs[LoadReg] == i.rt then regs[LoadValueReg] else regs[i.rt];
        Effect(regs, mem, next, i.rt, isa.merge(i.op.left, was, isa.fetch(mem, address, 4)))
  }

  function ExecuteStore(isa: Isa, i: Instr, regs: Regs, mem: seq<int>, mapped: int -> bool, next: int): Effect
    requires i.op.Store?
  {
    var address := isa.plus(regs[i.rs], i.extra);
    var a := Reach(address, i.op.size, mapped);
    if a != Granted then Denied(a, address) else Plain(regs, isa.store(mem, address, i.op.size, regs[i.rt]), next)
  }

  function ExecuteStorePart(isa: Isa, i: Instr, regs: Regs, mem: seq<int>, mapped: int -> bool, next: int): Effect
    requires i.op.StorePart?
  {
    var address := isa.plus(regs[i.rs], i.extra);
    if address % 4 != 0 then Assertion
    else
      var a := Reach(address, 4, mapped);
      if a != Granted then Denied(a, address)
      else Plain(regs, isa.store(mem, address, 4, isa.unmerge(i.op.left, isa.fetch(mem, address, 4), regs[i.rt])), next)
  }

  // ---------------------------------------------------------------- the delayed load

  /** The pending load names a general register, and register 0 is zero. */
  predicate Sound(regs: Regs) { 0 <= regs[LoadReg] < 32 && regs[0] == 0 }

  function DelayedLoad(regs: Regs, nextReg: int, nextValue: int): (r: Regs)
    requires 0 <= regs[LoadReg] < 32
    ensures r[0] == 0 && r[LoadReg] == nextReg && r[LoadValueReg] == nextValue
    ensures forall j :: 0 < j < NumTotalRegs && j != LoadReg && j != LoadValueReg ==>
      r[j] == if j == regs[LoadReg] then regs[LoadValueReg] else regs[j]
  {
    regs[regs[LoadReg] := regs[LoadValueReg]][LoadReg := nextReg][LoadValueReg := nextValue][0 := 0]
  }

  /** An interrupt: anything pending is applied before the kernel runs. */
  function Flush(regs: Regs): Regs
    requires 0 <= regs[LoadReg] < 32
  {
    DelayedLoad(regs, 0, 0)
  }

  /** RaiseException, around a handler that repairs the fault and changes nothing else the program sees. */
  function Raise(regs: Regs, address: int): Regs
    requires 0 <= regs[LoadReg] < 32
  {
    Flush(regs[BadVAddrReg := address])
  }

  function Advance(regs: Regs, pcAfter: int): Regs {
    regs[PrevPCReg := regs[PCReg]][PCReg := regs[NextPCReg]][NextPCReg := pcAfter]
  }

  datatype Outcome = Done(regs: Regs, mem: seq<int>) | Stopped(effect: Effect)

  /** OneInstruction, up to the point where it returns or raises an exception. */
  function OneInstruction(isa: Isa, regs: Regs, mem: seq<int>, mapped: int -> bool): Outcome
    requires Sound(regs)
  {
    var a := Reach(regs[PCReg], 4, mapped);
    if a != Granted then Stopped(Denied(a, regs[PCReg]))
    else
      var e := Execute(isa, isa.decode(isa.fetch(mem, regs[PCReg], 4)), regs, mem, mapped);
      if e.Effect? then
        ExecuteKeeps(isa, isa.decode(isa.fetch(mem, regs[PCReg], 4)), regs, mem, mapped);
        Done(Advance(DelayedLoad(e.regs, e.loadReg, e.loadValue), e.pcAfter), e.mem)
      else Stopped(e)
  }

  /** No instruction touches the pending load or the program counters on its own. */
  lemma ExecuteKeeps(isa: Isa, i: Instr, regs: Regs, mem: seq<int>, mapped: int -> bool)
    ensures var e := Execute(isa, i, regs, mem, mapped);
            && (e.Effect? ==> (forall j :: PCReg <= j < NumTotalRegs ==> e.regs[j] == regs[j]) && 0 <= e.loadReg < 32)
  {
  }
}
