/**
 Exactly which instructions in a load delay slot let an interrupt show.
 */
module MipsDelay {
  import opened Options
  import opened Mips
  import opened MipsRestart

  /** Executed and completed from either registers, the instruction stops alike, or gives the same memory and registers. */
  ghost predicate SameOutcome(isa: Isa, i: Instr, r: Regs, f: Regs, mem: seq<int>, mapped: int -> bool)
    requires Sound(r) && Sound(f)
  {
    var a, b := Execute(isa, i, r, mem, mapped), Execute(isa, i, f, mem, mapped);
    ExecuteKeeps(isa, i, r, mem, mapped);
    ExecuteKeeps(isa, i, f, mem, mapped);
    if a.Effect? && b.Effect? then a.mem == b.mem && Alike(Complete(a), Complete(b)) else a == b
  }

  /** An interrupt before the instruction does not show, whatever the arithmetic, the memory and the mapping. */
  ghost predicate Hidden(i: Instr, r: Regs)
    requires Sound(r)
  {
    forall isa, mem, mapped :: SameOutcome(isa, i, r, Flush(r), mem, mapped)
  }

  lemma SafeIsHidden(i: Instr, r: Regs)
    requires Sound(r) && DelaySafe(r, i)
    ensures Hidden(i, r)
  {
    forall isa, mem, mapped ensures SameOutcome(isa, i, r, Flush(r), mem, mapped) {
      ExecuteFollows(isa, i, r, Flush(r), mem, mapped);
      ExecuteKeeps(isa, i, r, mem, mapped);
      ExecuteKeeps(isa, i, Flush(r), mem, mapped);
      var a, b := Execute(isa, i, r, mem, mapped), Execute(isa, i, Flush(r), mem, mapped);
      if a.Effect? { CompleteFollows(a, b); }
    }
  }

  // ---------------------------------------------------------------- an arithmetic that tells operands apart

  /** Multiples of four behave differently from other operands, and addresses are multiples of four. */
  function Telling(): Isa {
    Isa(w => Fields(Illegal, 0, 0, 0, 0),
        (f, x, y) => if (x + 2 * y) % 4 == 0 then Some(7) else None,
        (g, x, e) => if x % 4 == 0 then Some(7) else None,
        (h, x, n) => x + 7,
        (t, x, y) => (x + 2 * y) % 4 == 0,
        (pc, e) => 100,
        (pc, e) => 100,
        (x, y) => 4 * x + 4,
        (s, x, y) => (x, y),
        (s, x, y) => (x, y),
        (size, s, raw) => raw,
        (left, was, value) => was,
        (left, value, reg) => reg,
        (mem, a, size) => a,
        (mem, a, size, v) => mem + [v])
  }

  /** Everything zero, with the value 1 pending for register p. */
  function Pending(p: int): (r: Regs)
    requires 0 < p < 32
    ensures Sound(r) && r[LoadReg] == p && r[LoadValueReg] == 1
    ensures forall j :: 0 <= j < NumTotalRegs && j != LoadReg && j != LoadValueReg ==> r[j] == 0
  {
    var zeros: seq<int> := seq(NumTotalRegs, i => 0);
    zeros[LoadReg := p][LoadValueReg := 1]
  }

  /** Every address but one has a translation. */
  function AllButEight(): int -> bool { address => address != 8 }

  /** Zero everywhere but for the value 1 in register p. */
  ghost predicate OneIn(f: Regs, p: int)
    requires 0 < p < 32
  {
    f[p] == 1 && forall j :: 0 <= j < NumTotalRegs && j != p ==> f[j] == 0
  }

  lemma ControlShows(i: Instr, p: int, f: Regs)
    requires 0 < p < 32 && p in Uses(i) && Control(i.op) && OneIn(f, p)
    ensures var a, b := Execute(Telling(), i, Pending(p), [], AllButEight()), Execute(Telling(), i, f, [], AllButEight());
            && a.Effect? && b.Effect? && a.regs[LoadReg] == p && a.regs[LoadValueReg] == 1 && b.regs[LoadReg] == 0
            && (a.pcAfter != b.pcAfter || b.regs[p] != 1)
  {
  }

  lemma MemoryShows(i: Instr, p: int, f: Regs)
    requires 0 < p < 32 && p in Uses(i) && Memory(i.op) && OneIn(f, p)
    ensures var a, b := Execute(Telling(), i, Pending(p), [], AllButEight()), Execute(Telling(), i, f, [], AllButEight());
            if i.rs == p then a.Effect? && b.Fault? else a.Effect? && b.Effect? && a.mem == [] + [0] && b.mem == [] + [1]
  {
  }

  lemma ArithmeticShows(i: Instr, p: int, f: Regs)
    requires 0 < p < 32 && p in Uses(i) && !Memory(i.op) && !Control(i.op) && OneIn(f, p)
    ensures var a, b := Execute(Telling(), i, Pending(p), [], AllButEight()), Execute(Telling(), i, f, [], AllButEight());
            && a.Effect? && a.regs[LoadReg] == p && a.regs[LoadValueReg] == 1
            && (b.Effect? ==> b.regs[LoadReg] == 0 && (b.regs[p] != 1 || exists j :: 0 < j <= LoReg && j != p && a.regs[j] != b.regs[j]))
  {
    var a, b := Execute(Telling(), i, Pending(p), [], AllButEight()), Execute(Telling(), i, f, [], AllButEight());
    match i.op
    case ShiftBy(_) => assert i.rd == p || a.regs[i.rd] != b.regs[i.rd];
    case Multiply(_) => assert a.regs[HiReg] != b.regs[HiReg] || a.regs[LoReg] != b.regs[LoReg];
    case Divide(_) => assert a.regs[HiReg] != b.regs[HiReg] || a.regs[LoReg] != b.regs[LoReg];
    case MoveTo(half) => assert a.regs[HalfReg(half)] != b.regs[HalfReg(half)];
    case _ =>
  }

  /** What differs before completion differs after it: the load wins in one and is long applied in the other. */
  lemma CompleteShows(p: int, a: Effect, b: Effect)
    requires 0 < p < 32 && a.Effect? && b.Effect? && a.regs[LoadReg] == p && a.regs[LoadValueReg] == 1 && b.regs[LoadReg] == 0
    requires a.pcAfter != b.pcAfter || b.regs[p] != 1 || exists j :: 0 < j <= LoReg && j != p && a.regs[j] != b.regs[j]
    ensures !Alike(Complete(a), Complete(b))
  {
    var x, y := Complete(a), Complete(b);
    assert x[p] == 1 && y[p] == b.regs[p] && x[NextPCReg] == a.pcAfter && y[NextPCReg] == b.pcAfter;
    if j :| 0 < j <= LoReg && j != p && a.regs[j] != b.regs[j] { assert x[j] == a.regs[j] && y[j] == b.regs[j]; }
  }

  lemma UseShows(i: Instr, p: int)
    requires 0 < p < 32 && p in Uses(i)
    ensures !SameOutcome(Telling(), i, Pending(p), Flush(Pending(p)), [], AllButEight())
  {
    var f := Flush(Pending(p));
    assert OneIn(f, p);
    var a, b := Execute(Telling(), i, Pending(p), [], AllButEight()), Execute(Telling(), i, f, [], AllButEight());
    if Memory(i.op) {
      MemoryShows(i, p, f);
      if b.Effect? { assert a.mem[0] != b.mem[0]; }
    } else {
      if Control(i.op) { ControlShows(i, p, f); } else { ArithmeticShows(i, p, f); }
      if b.Effect? { CompleteShows(p, a, b); }
    }
  }

  // ---------------------------------------------------------------- the exact conditions

  /** With a load pending for register p, an instruction hides interrupts in every state if and only if it neither reads
      nor writes p. */
  lemma DelayExact(i: Instr, p: int)
    requires 0 < p < 32
    ensures (forall r: Regs :: Sound(r) && r[LoadReg] == p ==> Hidden(i, r)) <==> p !in Uses(i)
  {
    if p in Uses(i) {
      UseShows(i, p);
      assert !Hidden(i, Pending(p));
    } else {
      forall r: Regs | Sound(r) && r[LoadReg] == p ensures Hidden(i, r) { SafeIsHidden(i, r); }
    }
  }

  /** With a load pending for register 0, in a given state, it does so unless it is an LWL or LWR into register 0 and the
      loaded value is not zero. */
  lemma DelayExactZero(i: Instr, r: Regs)
    requires Sound(r) && r[LoadReg] == 0
    ensures Hidden(i, r) <==> !(i.op.LoadPart? && i.rt == 0 && r[LoadValueReg] != 0)
  {
    if i.op.LoadPart? && i.rt == 0 && r[LoadValueReg] != 0 {
      var a, b := Execute(Telling(), i, r, [], a => true), Execute(Telling(), i, Flush(r), [], a => true);
      assert a.Effect? && b.Effect? && Complete(a)[LoadValueReg] == r[LoadValueReg] && Complete(b)[LoadValueReg] == 0;
      assert !SameOutcome(Telling(), i, r, Flush(r), [], a => true);
    } else {
      SafeIsHidden(i, r);
    }
  }
}
