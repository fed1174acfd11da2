/**
 The simulator's own form: one array of registers, changed in place by the switch over the operation.
 */
module MipsMachine {
  import opened Options
  import opened Mips

  /** The registers left by an instruction that is stopped: an exception records the address and applies the pending
      load, a failed assertion leaves them. */
  function Left(regs: Regs, e: Effect): Regs
    requires 0 <= regs[LoadReg] < 32
  {
    if e.Fault? || e.Exception? then Raise(regs, e.address) else regs
  }

  class Machine {
    const registers: array<int>
    var mem: seq<int>

    ghost predicate Valid()
      reads this, registers
    {
      registers.Length == NumTotalRegs && Sound(registers[..])
    }

    constructor (mem: seq<int>)
      ensures Valid() && fresh(registers) && this.mem == mem && registers[..] == seq(NumTotalRegs, i => 0)
    {
      registers := new int[NumTotalRegs](i => 0);
      this.mem := mem;
      new;
      assert registers[..] == seq(NumTotalRegs, i => 0);
    }

    method DelayedLoad(nextReg: int, nextValue: int)
      requires registers.Length == NumTotalRegs && 0 <= registers[LoadReg] < 32
      modifies registers
      ensures registers[..] == Mips.DelayedLoad(old(registers[..]), nextReg, nextValue)
    {
      registers[registers[LoadReg]] := registers[LoadValueReg];
      registers[LoadReg] := nextReg;
      registers[LoadValueReg] := nextValue;
      registers[0] := 0;
    }

    /** Up to the call of the handler. */
    method RaiseException(badVAddr: int)
      requires Valid()
      modifies registers
      ensures Valid() && registers[..] == Raise(old(registers[..]), badVAddr)
    {
      registers[BadVAddrReg] := badVAddr;
      DelayedLoad(0, 0);
    }

    /** A refused access raises its exception. */
    method ReadMem(isa: Isa, address: int, size: int, mapped: int -> bool) returns (value: Option<int>)
      requires Valid()
      modifies registers
      ensures Valid()
      ensures var granted := Reach(address, size, mapped) == Granted;
              && value == (if granted then Some(isa.fetch(mem, address, size)) else None)
              && registers[..] == if granted then old(registers[..]) else Raise(old(registers[..]), address)
    {
      var access := Reach(address, size, mapped);
      if access != Granted {
        RaiseException(address);
        return None;
      }
      return Some(isa.fetch(mem, address, size));
    }

    method WriteMem(isa: Isa, address: int, size: int, value: int, mapped: int -> bool) returns (ok: bool)
      requires Valid()
      modifies this, registers
      ensures Valid() && ok == (Reach(address, size, mapped) == Granted)
      ensures ok ==> mem == isa.store(old(mem), address, size, value) && registers[..] == old(registers[..])
      ensures !ok ==> mem == old(mem) && registers[..] == Raise(old(registers[..]), address)
    {
      var access := Reach(address, size, mapped);
      if access != Granted {
        RaiseException(address);
        return false;
      }
      mem := isa.store(mem, address, size, value);
      return true;
    }

    /** The cases that compute from registers to registers. */
    method Compute(isa: Isa, i: Instr, mapped: int -> bool) returns (ok: bool)
      requires Valid() && Arithmetic(i.op)
      modifies registers
      ensures var e := Execute(isa, i, old(registers[..]), mem, mapped);
              if ok then e == Plain(registers[..], mem, isa.plus(old(registers[NextPCReg]), 4))
              else e == Exception(0) && registers[..] == Raise(old(registers[..]), 0)
    {
      ok := true;
      match i.op
      case Register(f) =>
        var v := isa.binary(f, registers[i.rs], registers[i.rt]);
        ok := v.Some?;
        if ok { registers[i.rd] := v.value; } else { RaiseException(0); }
      case WithExtra(g) =>
        var v := isa.immediate(g, registers[i.rs], i.extra);
        ok := v.Some?;
        if ok { registers[i.rt] := v.value; } else { RaiseException(0); }
      case ShiftBy(h) => registers[i.rd] := isa.shift(h, registers[i.rt], i.extra);
      case Multiply(signed) =>
        var v := isa.product(signed, registers[i.rs], registers[i.rt]);
        registers[HiReg] := v.0;
        registers[LoReg] := v.1;
      case Divide(signed) =>
        var v := isa.quotient(signed, registers[i.rs], registers[i.rt]);
        registers[HiReg] := v.0;
        registers[LoReg] := v.1;
      case MoveFrom(half) => registers[i.rd] := registers[HalfReg(half)];
      case MoveTo(half) => registers[HalfReg(half)] := registers[i.rs];
    }

    /** Branches and jumps; a link is written before the operands are read. */
    method Go(isa: Isa, i: Instr, mapped: int -> bool) returns (pcAfter: int)
      requires Valid() && Control(i.op)
      modifies registers
      ensures Execute(isa, i, old(registers[..]), mem, mapped) == Plain(registers[..], mem, pcAfter)
    {
      pcAfter := isa.plus(registers[NextPCReg], 4);
      match i.op
      case Branch(test, link) =>
        if link { registers[R31] := pcAfter; }
        var other := if TwoOperands(test) then registers[i.rt] else 0;
        if isa.test(test, registers[i.rs], other) { pcAfter := isa.offset(registers[NextPCReg], i.extra); }
      case Jump(link) =>
        if link { registers[R31] := pcAfter; }
        pcAfter := isa.target(pcAfter, i.extra);
      case JumpRegister(link) =>
        if link { registers[i.rd] := pcAfter; }
        pcAfter := registers[i.rs];
    }

    /** Loads: the value read, or None once an exception is raised or an assertion has failed. */
    method LoadValue(isa: Isa, i: Instr, mapped: int -> bool) returns (value: Option<int>)
      requires Valid() && (i.op.Load? || i.op.LoadPart?)
      modifies registers
      ensures var e := Execute(isa, i, old(registers[..]), mem, mapped);
              if value.Some? then e == Effect(registers[..], mem, isa.plus(old(registers[NextPCReg]), 4), i.rt, value.value)
                                  && registers[..] == old(registers[..])
              else !e.Effect? && registers[..] == Left(old(registers[..]), e)
    {
      var address := isa.plus(registers[i.rs], i.extra);
      if i.op.LoadPart? {
        if address % 4 != 0 { return None; }
        value := ReadMem(isa, address, 4, mapped);
        if value.Some? {
          var was := if registers[LoadReg] == i.rt then registers[LoadValueReg] else registers[i.rt];
          value := Some(isa.merge(i.op.left, was, value.value));
        }
      } else {
        value := ReadMem(isa, address, i.op.size, mapped);
        if value.Some? { value := Some(isa.extend(i.op.size, i.op.signed, value.value)); }
      }
    }

    method StoreValue(isa: Isa, i: Instr, mapped: int -> bool) returns (ok: bool)
      requires Valid() && (i.op.Store? || i.op.StorePart?)
      modifies this, registers
      ensures var e := Execute(isa, i, old(registers[..]), old(mem), mapped);
              if ok then e == Plain(registers[..], mem, isa.plus(old(registers[NextPCReg]), 4)) && registers[..] == old(registers[..])
              else !e.Effect? && registers[..] == Left(old(registers[..]), e) && mem == old(mem)
    {
      var address := isa.plus(registers[i.rs], i.extra);
      if i.op.StorePart? {
        if address % 4 != 0 { return false; }
        var value := ReadMem(isa, address, 4, mapped);
        if value.None? { return false; }
        ok := WriteMem(isa, address, 4, isa.unmerge(i.op.left, value.value, registers[i.rt]), mapped);
      } else {
        ok := WriteMem(isa, address, i.op.size, registers[i.rt], mapped);
      }
    }

    /** The switch: the case of the operation at hand. */
    method Switch(isa: Isa, i: Instr, mapped: int -> bool) returns (ok: bool, pcAfter: int, nextLoadReg: int, nextLoadValue: int)
      requires Valid()
      modifies this, registers
      ensures var e := Execute(isa, i, old(registers[..]), old(mem), mapped);
              if ok then e == Effect(registers[..], mem, pcAfter, nextLoadReg, nextLoadValue)
              else !e.Effect? && registers[..] == Left(old(registers[..]), e) && mem == old(mem)
    {
      ok, pcAfter, nextLoadReg, nextLoadValue := true, isa.plus(registers[NextPCReg], 4), 0, 0;
      if Control(i.op) {
        pcAfter := Go(isa, i, mapped);
      } else if i.op.Load? || i.op.LoadPart? {
        var value := LoadValue(isa, i, mapped);
        ok := value.Some?;
        if ok { nextLoadReg, nextLoadValue := i.rt, value.value; }
      } else if i.op.Store? || i.op.StorePart? {
        ok := StoreValue(isa, i, mapped);
      } else if Trap(i.op) {
        RaiseException(0);
        ok := false;
      } else {
        ok := Compute(isa, i, mapped);
      }
    }

    /** One call: what it does to registers and memory is one attempt of the step machine. */
    method OneInstruction(isa: Isa, mapped: int -> bool) returns (completed: bool)
      requires Valid()
      modifies this, registers
      ensures Valid()
      ensures match Mips.OneInstruction(isa, old(registers[..]), old(mem), mapped)
              case Done(regs, memory) => completed && registers[..] == regs && mem == memory
              case Stopped(e) => !completed && registers[..] == Left(old(registers[..]), e) && mem == old(mem)
    {
      ghost var was := registers[..];
      var raw := ReadMem(isa, registers[PCReg], 4, mapped);
      if raw.None? { return false; }
      var i := isa.decode(raw.value);
      ExecuteKeeps(isa, i, was, mem, mapped);
      var ok, pcAfter, nextLoadReg, nextLoadValue := Switch(isa, i, mapped);
      if !ok { return false; }
      DelayedLoad(nextLoadReg, nextLoadValue);
      registers[PrevPCReg] := registers[PCReg];
      registers[PCReg] := registers[NextPCReg];
      registers[NextPCReg] := pcAfter;
      return true;
    }
  }
}
