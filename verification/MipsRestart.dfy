/**
 Interrupts and repaired page faults do not show: a program that respects its load delay slots computes the same.
 */
module MipsRestart {
  import opened Options
  import opened Mips

  datatype State = State(regs: Regs, mem: seq<int>)

  /** Something arrives between two instructions, or an instruction is tried while only some addresses have translations. */
  datatype Event = Interrupt | Attempt(mapped: int -> bool)

  function At(isa: Isa, s: State): Instr { isa.decode(isa.fetch(s.mem, s.regs[PCReg], 4)) }

  /** None when the program raises an exception other than a page fault, or the simulator gives up. */
  function Step(isa: Isa, s: State, e: Event): Option<State>
    requires Sound(s.regs)
  {
    match e
    case Interrupt => Some(State(Flush(s.regs), s.mem))
    case Attempt(mapped) =>
      match OneInstruction(isa, s.regs, s.mem, mapped)
      case Done(regs, mem) => Some(State(regs, mem))
      case Stopped(effect) => if effect.Fault? then Some(State(Raise(s.regs, effect.address), s.mem)) else None
  }

  function Completes(isa: Isa, s: State, e: Event): bool
    requires Sound(s.regs)
  {
    e.Attempt? && OneInstruction(isa, s.regs, s.mem, e.mapped).Done?
  }

  /** The same instruction with nothing in its way. */
  function Clean(isa: Isa, s: State): Option<State>
    requires Sound(s.regs)
  {
    match OneInstruction(isa, s.regs, s.mem, a => true)
    case Done(regs, mem) => Some(State(regs, mem))
    case Stopped(_) => None
  }

  // ---------------------------------------------------------------- what the delay slot must not do

  /** The general registers an instruction reads or writes at once. The target of a load is written later, and LWL and
      LWR see a pending load of their own target, so these do not count; nor does what a shift into register 0 reads. */
  function Uses(i: Instr): set<int> {
    match i.op
    case Register(_) => {i.rs, i.rt, i.rd}
    case WithExtra(_) => {i.rs, i.rt}
    case ShiftBy(_) => if i.rd == 0 then {} else {i.rt, i.rd}
    case Branch(test, link) => {i.rs} + (if TwoOperands(test) then {i.rt} else {}) + (if link then {R31} else {})
    case Jump(link) => if link then {R31} else {}
    case JumpRegister(link) => if link then {i.rs, i.rd} else {i.rs}
    case Multiply(_) => {i.rs, i.rt}
    case Divide(_) => {i.rs, i.rt}
    case MoveFrom(_) => {i.rd}
    case MoveTo(_) => {i.rs}
    case Load(_, _) => {i.rs}
    case LoadPart(_) => {i.rs}
    case Store(_) => {i.rs, i.rt}
    case StorePart(_) => {i.rs, i.rt}
    case Syscall => {}
    case Illegal => {}
  }

  /** The instruction leaves the register of the pending load alone. A load into register 0 is pending only for an LWL
      or LWR into register 0. */
  predicate DelaySafe(regs: Regs, i: Instr) {
    var p := regs[LoadReg];
    if p == 0 then i.op.LoadPart? && i.rt == 0 ==> regs[LoadValueReg] == 0 else p !in Uses(i)
  }

  // ---------------------------------------------------------------- comparing registers

  /** Equal but for the register that only records fault addresses. */
  ghost predicate Alike(a: Regs, b: Regs) { forall j :: 0 <= j < NumTotalRegs && j != BadVAddrReg ==> a[j] == b[j] }

  /** f is where r would be, or where it would be with its pending load applied. */
  ghost predicate Follows(r: Regs, f: Regs)
    requires Sound(r)
  {
    Alike(r, f) || Alike(Flush(r), f)
  }

  /** Alike outside register 0 and the recorded fault address. */
  ghost predicate Near(a: Regs, b: Regs) { forall j :: 0 < j < NumTotalRegs && j != BadVAddrReg ==> a[j] == b[j] }

  lemma FlushTwice(r: Regs, f: Regs, address: int)
    requires Sound(r) && Sound(f) && Follows(r, f)
    ensures Alike(Flush(r), Flush(f)) && Alike(Flush(r), Raise(f, address))
  {
  }

  // ---------------------------------------------------------------- one instruction

  /** The two effects are one, as far as completing the instruction can tell. */
  ghost predicate SameEffect(a: Effect, b: Effect) {
    match a
    case Effect(regs, mem, pcAfter, loadReg, loadValue) =>
      && b.Effect? && b.mem == mem && b.pcAfter == pcAfter && b.loadReg == loadReg && b.loadValue == loadValue
      && 0 <= regs[LoadReg] < 32 && (Near(regs, b.regs) || Near(Flush(regs), b.regs))
    case Fault(address) => b == a
    case Exception(address) => b == a
    case Assertion => b == a
  }

  lemma UpdateNear(r: Regs, f: Regs, u: int, x: int)
    requires 0 <= r[LoadReg] < 32 && (Near(r, f) || Near(Flush(r), f)) && 0 <= u < NumTotalRegs && u != LoadReg && u != LoadValueReg
    requires r[LoadReg] == 0 || u != r[LoadReg]
    ensures Near(r[u := x], f[u := x]) || Near(Flush(r[u := x]), f[u := x])
  {
  }

  lemma Reads(r: Regs, f: Regs, j: int)
    requires Sound(r) && Follows(r, f) && 0 <= j <= PrevPCReg && (r[LoadReg] == 0 || j != r[LoadReg])
    ensures f[j] == r[j]
  {
  }

  lemma ReadsOperands(i: Instr, r: Regs, f: Regs)
    requires Sound(r) && Follows(r, f)
    ensures (r[LoadReg] == 0 || i.rs != r[LoadReg]) ==> f[i.rs] == r[i.rs]
    ensures (r[LoadReg] == 0 || i.rt != r[LoadReg]) ==> f[i.rt] == r[i.rt]
    ensures f[NextPCReg] == r[NextPCReg] && f[HiReg] == r[HiReg] && f[LoReg] == r[LoReg]
  {
  }

  lemma ArithmeticFollows(isa: Isa, i: Instr, r: Regs, f: Regs, mem: seq<int>, mapped: int -> bool)
    requires Arithmetic(i.op) && Sound(r) && Follows(r, f) && DelaySafe(r, i)
    ensures SameEffect(Execute(isa, i, r, mem, mapped), Execute(isa, i, f, mem, mapped))
  {
    ReadsOperands(i, r, f);
    match i.op
    case Register(g) =>
      var v := isa.binary(g, r[i.rs], r[i.rt]);
      if v.Some? { UpdateNear(r, f, i.rd, v.value); }
    case WithExtra(g) =>
      var v := isa.immediate(g, r[i.rs], i.extra);
      if v.Some? { UpdateNear(r, f, i.rt, v.value); }
    case ShiftBy(h) => if i.rd != 0 { UpdateNear(r, f, i.rd, isa.shift(h, r[i.rt], i.extra)); }
    case Multiply(signed) => PairFollows(r, f, isa.product(signed, r[i.rs], r[i.rt]));
    case Divide(signed) => PairFollows(r, f, isa.quotient(signed, r[i.rs], r[i.rt]));
    case MoveFrom(half) => UpdateNear(r, f, i.rd, r[HalfReg(half)]);
    case MoveTo(half) => UpdateNear(r, f, HalfReg(half), r[i.rs]);
  }

  lemma ControlFollows(isa: Isa, i: Instr, r: Regs, f: Regs, mem: seq<int>, mapped: int -> bool)
    requires Control(i.op) && Sound(r) && Follows(r, f) && DelaySafe(r, i)
    ensures SameEffect(Execute(isa, i, r, mem, mapped), Execute(isa, i, f, mem, mapped))
  {
    ReadsOperands(i, r, f);
    var next := isa.plus(r[NextPCReg], 4);
    match i.op
    case Branch(_, _) => BranchFollows(isa, i, r, f, mem, mapped);
    case Jump(link) => if link { UpdateNear(r, f, R31, next); }
    case JumpRegister(link) => if link { UpdateNear(r, f, i.rd, next); }
  }

  lemma MemoryFollows(isa: Isa, i: Instr, r: Regs, f: Regs, mem: seq<int>, mapped: int -> bool)
    requires Memory(i.op) && Sound(r) && Follows(r, f) && DelaySafe(r, i)
    ensures SameEffect(Execute(isa, i, r, mem, mapped), Execute(isa, i, f, mem, mapped))
  {
    ReadsOperands(i, r, f);
    if i.op.LoadPart? { LoadPartFollows(isa, i, r, f, mem, mapped, isa.plus(r[NextPCReg], 4)); }
  }

  lemma ExecuteFollows(isa: Isa, i: Instr, r: Regs, f: Regs, mem: seq<int>, mapped: int -> bool)
    requires Sound(r) && Follows(r, f) && DelaySafe(r, i)
    ensures SameEffect(Execute(isa, i, r, mem, mapped), Execute(isa, i, f, mem, mapped))
  {
    if Control(i.op) { ControlFollows(isa, i, r, f, mem, mapped); }
    else if Memory(i.op) { MemoryFollows(isa, i, r, f, mem, mapped); }
    else if Arithmetic(i.op) { ArithmeticFollows(isa, i, r, f, mem, mapped); }
  }

  /** LWL and LWR find their register's value in the pending load, or in the register once it has been applied. */
  lemma LoadPartFollows(isa: Isa, i: Instr, r: Regs, f: Regs, mem: seq<int>, mapped: int -> bool, next: int)
    requires i.op.LoadPart? && Sound(r) && Follows(r, f) && DelaySafe(r, i)
    ensures SameEffect(ExecuteLoadPart(isa, i, r, mem, mapped, next), ExecuteLoadPart(isa, i, f, mem, mapped, next))
  {
    ReadsOperands(i, r, f);
    assert (if r[LoadReg] == i.rt then r[LoadValueReg] else r[i.rt]) == (if f[LoadReg] == i.rt then f[LoadValueReg] else f[i.rt]);
  }

  lemma PairFollows(r: Regs, f: Regs, v: (int, int))
    requires 0 <= r[LoadReg] < 32 && (Near(r, f) || Near(Flush(r), f))
    ensures Near(r[HiReg := v.0][LoReg := v.1], f[HiReg := v.0][LoReg := v.1]) || Near(Flush(r[HiReg := v.0][LoReg := v.1]), f[HiReg := v.0][LoReg := v.1])
  {
    UpdateNear(r, f, HiReg, v.0);
    UpdateNear(r[HiReg := v.0], f[HiReg := v.0], LoReg, v.1);
  }

  lemma BranchFollows(isa: Isa, i: Instr, r: Regs, f: Regs, mem: seq<int>, mapped: int -> bool)
    requires i.op.Branch? && Sound(r) && Follows(r, f) && DelaySafe(r, i)
    ensures SameEffect(Execute(isa, i, r, mem, mapped), Execute(isa, i, f, mem, mapped))
  {
    Reads(r, f, NextPCReg);
    Reads(r, f, i.rs);
    if TwoOperands(i.op.test) { Reads(r, f, i.rt); }
    if i.op.link { UpdateNear(r, f, R31, isa.plus(r[NextPCReg], 4)); }
  }

  /** Completing the same effect gives the same registers. */
  lemma CompleteFollows(a: Effect, b: Effect)
    requires SameEffect(a, b) && a.Effect? && 0 <= b.regs[LoadReg] < 32
    ensures Alike(Advance(DelayedLoad(a.regs, a.loadReg, a.loadValue), a.pcAfter), Advance(DelayedLoad(b.regs, b.loadReg, b.loadValue), b.pcAfter))
  {
    var x, y := DelayedLoad(a.regs, a.loadReg, a.loadValue), DelayedLoad(b.regs, b.loadReg, b.loadValue);
    assert Alike(x, y);
  }

  /** What completes with some addresses mapped completes alike with all of them. */
  lemma MoreMapped(isa: Isa, i: Instr, r: Regs, mem: seq<int>, mapped: int -> bool)
    requires Execute(isa, i, r, mem, mapped).Effect?
    ensures Execute(isa, i, r, mem, a => true) == Execute(isa, i, r, mem, mapped)
  {
  }

  lemma OneFollows(isa: Isa, s: State, d: State, mapped: int -> bool)
    requires Sound(s.regs) && Sound(d.regs) && Follows(s.regs, d.regs) && s.mem == d.mem
    requires DelaySafe(s.regs, At(isa, s)) && d.regs[PCReg] == s.regs[PCReg]
    requires OneInstruction(isa, d.regs, d.mem, mapped).Done?
    ensures Clean(isa, s).Some?
    ensures var n, m := Clean(isa, s).value, OneInstruction(isa, d.regs, d.mem, mapped);
            && Alike(n.regs, m.regs) && n.mem == m.mem
  {
    var i := At(isa, s);
    ExecuteFollows(isa, i, s.regs, d.regs, s.mem, mapped);
    MoreMapped(isa, i, s.regs, s.mem, mapped);
    ExecuteKeeps(isa, i, s.regs, s.mem, mapped);
    ExecuteKeeps(isa, i, d.regs, s.mem, mapped);
    CompleteFollows(Execute(isa, i, s.regs, s.mem, mapped), Execute(isa, i, d.regs, s.mem, mapped));
  }

  // ---------------------------------------------------------------- every run

  /** Register 0 is zero and the pending load names a general register, whatever happens. */
  lemma StepSound(isa: Isa, s: State, e: Event)
    requires Sound(s.regs) && Step(isa, s, e).Some?
    ensures Sound(Step(isa, s, e).value.regs)
  {
    if e.Attempt? {
      ExecuteKeeps(isa, At(isa, s), s.regs, s.mem, e.mapped);
    }
  }

  /** The state after the events, as long as the program raises no other exception. */
  ghost function RunAll(isa: Isa, s: State, events: seq<Event>): Option<State>
    requires Sound(s.regs)
    decreases |events|
  {
    if events == [] then Some(s)
    else
      var next := Step(isa, s, events[0]);
      if next.None? then None
      else
        StepSound(isa, s, events[0]);
        RunAll(isa, next.value, events[1..])
  }

  lemma {:induction false} AlwaysSound(isa: Isa, s: State, events: seq<Event>)
    requires Sound(s.regs) && RunAll(isa, s, events).Some?
    ensures Sound(RunAll(isa, s, events).value.regs)
    decreases |events|
  {
    if events != [] {
      StepSound(isa, s, events[0]);
      AlwaysSound(isa, Step(isa, s, events[0]).value, events[1..]);
    }
  }

  /** A faulting attempt leaves the program counters and memory as they were, and of the other registers applies at
      most the pending load. */
  lemma FaultLeaves(isa: Isa, s: State, mapped: int -> bool)
    requires Sound(s.regs) && Step(isa, s, Attempt(mapped)).Some? && !Completes(isa, s, Attempt(mapped))
    ensures var n := Step(isa, s, Attempt(mapped)).value;
            && n.mem == s.mem && n.regs[PCReg] == s.regs[PCReg] && n.regs[NextPCReg] == s.regs[NextPCReg]
            && n.regs[PrevPCReg] == s.regs[PrevPCReg] && n.regs[HiReg] == s.regs[HiReg] && n.regs[LoReg] == s.regs[LoReg]
            && (forall j :: 0 < j < 32 && j != s.regs[LoadReg] ==> n.regs[j] == s.regs[j])
  {
  }

  ghost predicate Shadows(s: State, d: State) {
    Sound(s.regs) && Sound(d.regs) && s.mem == d.mem && Follows(s.regs, d.regs)
  }

  lemma CleanSound(isa: Isa, s: State)
    requires Sound(s.regs) && Clean(isa, s).Some?
    ensures Sound(Clean(isa, s).value.regs)
  {
    StepSound(isa, s, Attempt(a => true));
  }

  /** An event that completes nothing leaves the undisturbed program where it is. */
  lemma Nothing(isa: Isa, s: State, d: State, e: Event)
    requires Shadows(s, d) && Step(isa, d, e).Some? && !Completes(isa, d, e)
    ensures Shadows(s, Step(isa, d, e).value)
  {
    var next := Step(isa, d, e).value;
    StepSound(isa, d, e);
    FlushTwice(s.regs, d.regs, if e.Attempt? then next.regs[BadVAddrReg] else 0);
  }

  lemma Something(isa: Isa, s: State, d: State, e: Event)
    requires Shadows(s, d) && Step(isa, d, e).Some? && Completes(isa, d, e) && DelaySafe(s.regs, At(isa, s))
    ensures Clean(isa, s).Some? && Shadows(Clean(isa, s).value, Step(isa, d, e).value)
    ensures Alike(Clean(isa, s).value.regs, Step(isa, d, e).value.regs)
  {
    StepSound(isa, d, e);
    Reads(s.regs, d.regs, PCReg);
    OneFollows(isa, s, d, e.mapped);
    CleanSound(isa, s);
  }

  /** The events lead from d to r without completing an instruction. */
  ghost predicate Disturbed(isa: Isa, d: State, events: seq<Event>, r: State)
    decreases |events|
  {
    if events == [] then r == d
    else Sound(d.regs) && !Completes(isa, d, events[0]) && Step(isa, d, events[0]).Some? && Disturbed(isa, Step(isa, d, events[0]).value, events[1..], r)
  }

  lemma {:induction false} StillShadows(isa: Isa, s: State, d: State, events: seq<Event>, r: State)
    requires Shadows(s, d) && Disturbed(isa, d, events, r)
    ensures Shadows(s, r)
    decreases |events|
  {
    if events != [] {
      Nothing(isa, s, d, events[0]);
      StillShadows(isa, s, Step(isa, d, events[0]).value, events[1..], r);
    }
  }

  /** Interrupts and repaired faults, then one attempt that completes. */
  datatype Round = Round(before: seq<Event>, ready: State, mapped: int -> bool)

  ghost predicate RoundTo(isa: Isa, d: State, round: Round, r: State) {
    && Disturbed(isa, d, round.before, round.ready) && Sound(round.ready.regs)
    && Completes(isa, round.ready, Attempt(round.mapped)) && Step(isa, round.ready, Attempt(round.mapped)) == Some(r)
  }

  lemma RoundFollows(isa: Isa, s: State, d: State, round: Round, r: State)
    requires Shadows(s, d) && RoundTo(isa, d, round, r) && DelaySafe(s.regs, At(isa, s))
    ensures Clean(isa, s).Some? && Shadows(Clean(isa, s).value, r) && Alike(Clean(isa, s).value.regs, r.regs)
  {
    StillShadows(isa, s, d, round.before, round.ready);
    Something(isa, s, round.ready, Attempt(round.mapped));
  }

  ghost function CleanStep(isa: Isa, s: State): Option<State> { if Sound(s.regs) then Clean(isa, s) else None }

  /** The undisturbed program after n instructions. */
  ghost function CleanAfter(isa: Isa, s: State, n: nat): Option<State> {
    if n == 0 then Some(s)
    else match CleanAfter(isa, s, n - 1)
      case None => None
      case Some(t) => CleanStep(isa, t)
  }

  /** The first n instructions of the undisturbed program respect their delay slots. */
  ghost predicate Disciplined(isa: Isa, s: State, n: nat) {
    forall k: nat :: k < n && CleanAfter(isa, s, k).Some? ==> DelaySafe(CleanAfter(isa, s, k).value.regs, At(isa, CleanAfter(isa, s, k).value))
  }

  /** ds[k] is the disturbed program when k instructions are complete. */
  ghost predicate Run(isa: Isa, ds: seq<State>, rounds: seq<Round>) {
    |ds| == |rounds| + 1 && forall k :: 0 <= k < |rounds| ==> RoundTo(isa, ds[k], rounds[k], ds[k + 1])
  }

  /** After n instructions the undisturbed program is in state d, but for the recorded fault address. */
  ghost predicate Unshown(isa: Isa, s: State, n: nat, d: State) {
    && CleanAfter(isa, s, n).Some?
    && var c := CleanAfter(isa, s, n).value; Alike(c.regs, d.regs) && c.mem == d.mem && Sound(c.regs) && Sound(d.regs)
  }

  /** Under any interleaving of interrupts and repaired page faults, the program has, after each instruction it
      completes, the registers (but for the recorded fault address) and the memory of the undisturbed program. */
  lemma {:induction false} Transparent(isa: Isa, s: State, ds: seq<State>, rounds: seq<Round>, n: nat)
    requires Run(isa, ds, rounds) && Sound(s.regs) && ds[0] == s && n <= |rounds| && Disciplined(isa, s, n)
    ensures Unshown(isa, s, n, ds[n])
  {
    if n == 0 {
      NoneUnshown(isa, s);
    } else {
      DisciplinedBefore(isa, s, n - 1);
      Transparent(isa, s, ds, rounds, n - 1);
      assert RoundTo(isa, ds[n - 1], rounds[n - 1], ds[n]);
      NextUnshown(isa, s, n - 1, ds[n - 1], rounds[n - 1], ds[n]);
    }
  }

  lemma NoneUnshown(isa: Isa, s: State)
    requires Sound(s.regs)
    ensures Unshown(isa, s, 0, s)
  {
  }

  lemma DisciplinedBefore(isa: Isa, s: State, n: nat)
    requires Disciplined(isa, s, n + 1)
    ensures Disciplined(isa, s, n)
  {
  }

  lemma NextUnshown(isa: Isa, s: State, n: nat, d: State, round: Round, r: State)
    requires Unshown(isa, s, n, d) && RoundTo(isa, d, round, r) && Disciplined(isa, s, n + 1)
    ensures Unshown(isa, s, n + 1, r)
  {
    RoundFollows(isa, CleanAfter(isa, s, n).value, d, round, r);
  }

  // ---------------------------------------------------------------- what an instruction leaves alone

  /** The registers an instruction writes at once. */
  function Writes(i: Instr): set<int> {
    match i.op
    case Register(_) => {i.rd}
    case WithExtra(_) => {i.rt}
    case ShiftBy(_) => {i.rd}
    case Branch(_, link) => if link then {R31} else {}
    case Jump(link) => if link then {R31} else {}
    case JumpRegister(link) => if link then {i.rd} else {}
    case Multiply(_) => {HiReg, LoReg}
    case Divide(_) => {HiReg, LoReg}
    case MoveFrom(_) => {i.rd}
    case MoveTo(half) => {HalfReg(half)}
    case _ => {}
  }

  lemma ExecuteWrites(isa: Isa, i: Instr, r: Regs, mem: seq<int>, mapped: int -> bool, j: int)
    requires 0 <= j < NumTotalRegs && j !in Writes(i) && Execute(isa, i, r, mem, mapped).Effect?
    ensures var e := Execute(isa, i, r, mem, mapped);
            && e.regs[j] == r[j] && (!i.op.Store? && !i.op.StorePart? ==> e.mem == mem)
            && (if i.op.Load? || i.op.LoadPart? then e.loadReg == i.rt else e.loadReg == 0 && e.loadValue == 0)
            && (!i.op.Branch? && !i.op.Jump? && !i.op.JumpRegister? ==> e.pcAfter == isa.plus(r[NextPCReg], 4))
  {
  }

  /** A completed instruction moves the program counters on, delivers the pending load, leaves its own load pending, and
      changes no register but those it writes; only stores change memory. */
  lemma Retires(isa: Isa, s: State, mapped: int -> bool)
    requires Sound(s.regs) && OneInstruction(isa, s.regs, s.mem, mapped).Done?
    ensures var n, i, p := OneInstruction(isa, s.regs, s.mem, mapped), At(isa, s), s.regs[LoadReg];
            && n.regs[PCReg] == s.regs[NextPCReg] && n.regs[PrevPCReg] == s.regs[PCReg]
            && (!i.op.Branch? && !i.op.Jump? && !i.op.JumpRegister? ==> n.regs[NextPCReg] == isa.plus(s.regs[NextPCReg], 4))
            && (p != 0 ==> n.regs[p] == s.regs[LoadValueReg])
            && n.regs[LoadReg] == (if i.op.Load? || i.op.LoadPart? then i.rt else 0)
            && (forall j :: 0 < j < PCReg && j != p && j !in Writes(i) ==> n.regs[j] == s.regs[j])
            && (!i.op.Store? && !i.op.StorePart? ==> n.mem == s.mem)
  {
    var i := At(isa, s);
    var e := Execute(isa, i, s.regs, s.mem, mapped);
    forall j | 0 <= j < NumTotalRegs && j !in Writes(i) ensures e.regs[j] == s.regs[j] { ExecuteWrites(isa, i, s.regs, s.mem, mapped, j); }
    ExecuteKeeps(isa, i, s.regs, s.mem, mapped);
    ExecuteWrites(isa, i, s.regs, s.mem, mapped, PCReg);
  }

  // ---------------------------------------------------------------- what goes wrong otherwise

  function Complete(e: Effect): Regs
    requires e.Effect? && 0 <= e.regs[LoadReg] < 32
  {
    Advance(DelayedLoad(e.regs, e.loadReg, e.loadValue), e.pcAfter)
  }

  /** Reading the pending register in the delay slot: an interrupt before the instruction shows in HI. */
  lemma ReadShows(isa: Isa, i: Instr, r: Regs, mem: seq<int>, mapped: int -> bool)
    requires Sound(r) && r[LoadReg] != 0 && i.op == MoveTo(Hi) && i.rs == r[LoadReg] && r[i.rs] != r[LoadValueReg]
    ensures Complete(Execute(isa, i, r, mem, mapped))[HiReg] == r[i.rs]
    ensures Complete(Execute(isa, i, Flush(r), mem, mapped))[HiReg] == r[LoadValueReg]
  {
  }

  /** Writing it: without the interrupt the load wins, with it the instruction does. */
  lemma WriteShows(isa: Isa, i: Instr, r: Regs, mem: seq<int>, mapped: int -> bool)
    requires Sound(r) && r[LoadReg] != 0 && i.op == MoveFrom(Hi) && i.rd == r[LoadReg] && r[HiReg] != r[LoadValueReg]
    ensures Complete(Execute(isa, i, r, mem, mapped))[i.rd] == r[LoadValueReg]
    ensures Complete(Execute(isa, i, Flush(r), mem, mapped))[i.rd] == r[HiReg]
  {
    assert Flush(r)[HiReg] == r[HiReg];
  }
}
