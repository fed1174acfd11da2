/**
 What a completed instruction does, for any word arithmetic: its value, its target, the memory it moves; and how an
 instruction stops.
 */
module MipsLaws {
  import opened Options
  import opened Mips
  import opened MipsRestart

  /** The attempt completes and leaves n. Only a proof that mentions the attempt looks into it. */
  ghost predicate Does(isa: Isa, s: State, mapped: int -> bool, n: State) {
    && Sound(s.regs)
    && forall m {:trigger OneInstruction(isa, s.regs, s.mem, m)} :: m == mapped ==> OneInstruction(isa, s.regs, s.mem, m) == Done(n.regs, n.mem)
  }

  /** The attempt stops with e, likewise. */
  ghost predicate Stops(isa: Isa, s: State, mapped: int -> bool, e: Effect) {
    && Sound(s.regs)
    && forall m {:trigger OneInstruction(isa, s.regs, s.mem, m)} :: m == mapped ==> OneInstruction(isa, s.regs, s.mem, m) == Stopped(e)
  }

  ghost predicate Completes(isa: Isa, s: State, mapped: int -> bool) {
    && Sound(s.regs)
    && forall m {:trigger OneInstruction(isa, s.regs, s.mem, m)} :: m == mapped ==> OneInstruction(isa, s.regs, s.mem, m).Done?
  }

  /** The instruction at the program counter is i. Only a proof that mentions it looks into its decoding. */
  ghost predicate Finds(isa: Isa, s: State, i: Instr) { forall t {:trigger At(isa, t)} :: t == s ==> At(isa, t) == i }

  /** Register r is given v, unless it is register 0 or the pending load is for it. */
  predicate Gives(s: State, n: State, r: int, v: int)
    requires 0 <= r < 32
  {
    n.regs[r] == if r == 0 then 0 else if r == s.regs[LoadReg] then s.regs[LoadValueReg] else v
  }

  /** A completed instruction is its effect, completed. */
  lemma Completed(isa: Isa, s: State, mapped: int -> bool, n: State, i: Instr)
    requires Does(isa, s, mapped, n) && Finds(isa, s, i)
    ensures var e := Execute(isa, i, s.regs, s.mem, mapped);
            && e.Effect? && e.regs[LoadReg] == s.regs[LoadReg] && e.regs[LoadValueReg] == s.regs[LoadValueReg]
            && n.regs == Complete(e) && n.mem == e.mem
  {
    assert At(isa, s) == i;
    assert OneInstruction(isa, s.regs, s.mem, mapped) == Done(n.regs, n.mem);
    ExecuteKeeps(isa, i, s.regs, s.mem, mapped);
  }

  function NextPC(isa: Isa, s: State): int { isa.plus(s.regs[NextPCReg], 4) }

  // ---------------------------------------------------------------- branches and jumps

  /** A register as a linking branch or jump reads it. */
  function Linked(isa: Isa, s: State, r: int, link: bool, to: int): int
    requires 0 <= r < 32
  {
    if link && r == to then NextPC(isa, s) else s.regs[r]
  }

  lemma BranchGoes(isa: Isa, s: State, mapped: int -> bool, n: State, i: Instr)
    requires Does(isa, s, mapped, n) && Finds(isa, s, i) && i.op.Branch?
    ensures var x, y := Linked(isa, s, i.rs, i.op.link, 31), if TwoOperands(i.op.test) then Linked(isa, s, i.rt, i.op.link, 31) else 0;
            && n.regs[NextPCReg] == (if isa.test(i.op.test, x, y) then isa.offset(s.regs[NextPCReg], i.extra) else NextPC(isa, s))
            && (i.op.link ==> Gives(s, n, 31, NextPC(isa, s))) && n.mem == s.mem
  {
    Completed(isa, s, mapped, n, i);
  }

  lemma JumpGoes(isa: Isa, s: State, mapped: int -> bool, n: State, i: Instr)
    requires Does(isa, s, mapped, n) && Finds(isa, s, i) && i.op.Jump?
    ensures n.regs[NextPCReg] == isa.target(NextPC(isa, s), i.extra) && n.mem == s.mem
    ensures i.op.link ==> Gives(s, n, 31, NextPC(isa, s))
  {
    Completed(isa, s, mapped, n, i);
  }

  lemma JumpRegisterGoes(isa: Isa, s: State, mapped: int -> bool, n: State, i: Instr)
    requires Does(isa, s, mapped, n) && Finds(isa, s, i) && i.op.JumpRegister?
    ensures n.regs[NextPCReg] == Linked(isa, s, i.rs, i.op.link, i.rd) && n.mem == s.mem
    ensures i.op.link ==> Gives(s, n, i.rd, NextPC(isa, s))
  {
    Completed(isa, s, mapped, n, i);
  }

  // ---------------------------------------------------------------- arithmetic

  /** The value that an arithmetic instruction gives its target; None: an overflow. */
  function Value(isa: Isa, s: State, i: Instr): Option<int>
    requires i.op.Register? || i.op.WithExtra? || i.op.ShiftBy? || i.op.MoveFrom?
  {
    match i.op
    case Register(f) => isa.binary(f, s.regs[i.rs], s.regs[i.rt])
    case WithExtra(g) => isa.immediate(g, s.regs[i.rs], i.extra)
    case ShiftBy(h) => Some(isa.shift(h, s.regs[i.rt], i.extra))
    case MoveFrom(half) => Some(s.regs[HalfReg(half)])
  }

  lemma ValueGiven(isa: Isa, s: State, mapped: int -> bool, n: State, i: Instr)
    requires Does(isa, s, mapped, n) && Finds(isa, s, i) && (i.op.Register? || i.op.WithExtra? || i.op.ShiftBy? || i.op.MoveFrom?)
    ensures Value(isa, s, i).Some? && Gives(s, n, if i.op.WithExtra? then i.rt else i.rd, Value(isa, s, i).value)
  {
    Completed(isa, s, mapped, n, i);
  }

  /** HI and LO after a multiplication, a division or a move to one of them. */
  lemma HiLoGiven(isa: Isa, s: State, mapped: int -> bool, n: State, i: Instr)
    requires Does(isa, s, mapped, n) && Finds(isa, s, i) && (i.op.Multiply? || i.op.Divide? || i.op.MoveTo?)
    ensures i.op.Multiply? ==> (n.regs[HiReg], n.regs[LoReg]) == isa.product(i.op.signed, s.regs[i.rs], s.regs[i.rt])
    ensures i.op.Divide? ==> (n.regs[HiReg], n.regs[LoReg]) == isa.quotient(i.op.signed, s.regs[i.rs], s.regs[i.rt])
    ensures i.op.MoveTo? ==> (n.regs[HiReg], n.regs[LoReg]) == if i.op.half == Hi then (s.regs[i.rs], s.regs[LoReg]) else (s.regs[HiReg], s.regs[i.rs])
  {
    Completed(isa, s, mapped, n, i);
  }

  // ---------------------------------------------------------------- memory

  function Address(isa: Isa, s: State, i: Instr): int { isa.plus(s.regs[i.rs], i.extra) }

  /** A load leaves its register and value pending. LWL and LWR start from the register's value, or from a load still
      pending for it. */
  lemma LoadPends(isa: Isa, s: State, mapped: int -> bool, n: State, i: Instr)
    requires Does(isa, s, mapped, n) && Finds(isa, s, i) && (i.op.Load? || i.op.LoadPart?)
    ensures n.regs[LoadReg] == i.rt && n.mem == s.mem
    ensures i.op.Load? ==> n.regs[LoadValueReg] == isa.extend(i.op.size, i.op.signed, isa.fetch(s.mem, Address(isa, s, i), i.op.size))
    ensures i.op.LoadPart? ==>
              var was := if s.regs[LoadReg] == i.rt then s.regs[LoadValueReg] else s.regs[i.rt];
              n.regs[LoadValueReg] == isa.merge(i.op.left, was, isa.fetch(s.mem, Address(isa, s, i), 4))
  {
    Completed(isa, s, mapped, n, i);
  }

  lemma StoreMoves(isa: Isa, s: State, mapped: int -> bool, n: State, i: Instr)
    requires Does(isa, s, mapped, n) && Finds(isa, s, i) && (i.op.Store? || i.op.StorePart?)
    ensures i.op.Store? ==> n.mem == isa.store(s.mem, Address(isa, s, i), i.op.size, s.regs[i.rt])
    ensures i.op.StorePart? ==>
              n.mem == isa.store(s.mem, Address(isa, s, i), 4, isa.unmerge(i.op.left, isa.fetch(s.mem, Address(isa, s, i), 4), s.regs[i.rt]))
  {
    Completed(isa, s, mapped, n, i);
  }

  // ---------------------------------------------------------------- when an instruction stops

  /** How many bytes a load or store moves. */
  function Width(i: Instr): int
    requires Memory(i.op)
  {
    if i.op.Load? || i.op.Store? then i.op.size else 4
  }

  predicate Misaligned(address: int, width: int) { (width == 4 && address % 4 != 0) || (width == 2 && address % 2 != 0) }

  /** The exact reasons: a load or store that is not aligned or has no translation, an overflow, a system call or an
      illegal instruction; and the address that the exception carries. */
  lemma StopsExactly(isa: Isa, s: State, mapped: int -> bool, i: Instr)
    requires Sound(s.regs) && Finds(isa, s, i) && Reach(s.regs[PCReg], 4, mapped) == Granted
    ensures var a := Address(isa, s, i);
            && (Memory(i.op) && Misaligned(a, Width(i)) ==> Stops(isa, s, mapped, if i.op.LoadPart? || i.op.StorePart? then Assertion else Exception(a)))
            && (Memory(i.op) && !Misaligned(a, Width(i)) && !mapped(a) ==> Stops(isa, s, mapped, Fault(a)))
            && (Memory(i.op) && !Misaligned(a, Width(i)) && mapped(a) ==> Completes(isa, s, mapped))
            && (i.op.Register? || i.op.WithExtra? ==> if Value(isa, s, i) == None then Stops(isa, s, mapped, Exception(0)) else Completes(isa, s, mapped))
            && (Trap(i.op) ==> Stops(isa, s, mapped, Exception(0)))
            && (!Memory(i.op) && !i.op.Register? && !i.op.WithExtra? && !Trap(i.op) ==> Completes(isa, s, mapped))
  {
    assert At(isa, s) == i;
  }

  /** The fetch itself, before anything else. */
  lemma FetchStops(isa: Isa, s: State, mapped: int -> bool)
    requires Sound(s.regs)
    ensures var o, pc := OneInstruction(isa, s.regs, s.mem, mapped), s.regs[PCReg];
            && (pc % 4 != 0 ==> o == Stopped(Exception(pc))) && (pc % 4 == 0 && !mapped(pc) ==> o == Stopped(Fault(pc)))
  {
  }

  /** An exception records its address, applies the pending load and leaves none; no other register changes. */
  lemma RaiseRecords(r: Regs, address: int)
    requires Sound(r)
    ensures var f, p := Raise(r, address), r[LoadReg];
            && f[BadVAddrReg] == address && f[LoadReg] == 0 && f[LoadValueReg] == 0 && f[0] == 0
            && (p != 0 ==> f[p] == r[LoadValueReg]) && forall j :: 0 < j < LoadReg && j != p ==> f[j] == r[j]
  {
  }

  /** An interrupt between instructions applies the pending load and leaves none; nothing else changes. */
  lemma InterruptApplies(isa: Isa, s: State)
    requires Sound(s.regs)
    ensures Step(isa, s, Interrupt).Some?
    ensures var n, p := Step(isa, s, Interrupt).value, s.regs[LoadReg];
            && n.mem == s.mem && n.regs[LoadReg] == 0 && n.regs[LoadValueReg] == 0 && (p != 0 ==> n.regs[p] == s.regs[LoadValueReg])
            && forall j :: 0 < j < NumTotalRegs && j != p && j != LoadReg && j != LoadValueReg ==> n.regs[j] == s.regs[j]
  {
  }

  /** A page fault is an exception with its address; the program goes on from there. */
  lemma FaultRaises(isa: Isa, s: State, mapped: int -> bool, address: int)
    requires Stops(isa, s, mapped, Fault(address))
    ensures Step(isa, s, Attempt(mapped)) == Some(State(Raise(s.regs, address), s.mem))
  {
    assert OneInstruction(isa, s.regs, s.mem, mapped) == Stopped(Fault(address));
  }
}
