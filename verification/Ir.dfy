/** The addressless intermediate representation of one code section and its small-step
    semantics. Removed items and labels are silent steps; a fault is `None`. */
module Ir {
  import opened Words
  import opened Isa
  import opened Alu
  import opened Memory
  import opened Syscall

  datatype SymbolRef = SymbolRef(name: string, addend: i64)

  datatype IrInstruction = IrInstruction(machine: Instruction, symbol: Option<SymbolRef>)

  datatype Item =
    | Instr(ins: IrInstruction)
    | Label(name: string, local: bool)
    | Bytes(data: seq<u8>)
    | SymbolValue(width: nat, symbol: SymbolRef)
    | Space(size: u64, fill: u8)
    | Align(alignment: u64)

  /** A word is a number or the address of an item of the code section. Code addresses may be
      moved, pushed, popped and returned to; computing with them is outside the semantics. */
  datatype Value = Num(n: u64) | CodeAt(index: nat)

  type Registers = r: seq<Value> | |r| == REGISTER_COUNT
    witness [Num(0), Num(0), Num(0), Num(0), Num(0), Num(0), Num(0), Num(0),
             Num(0), Num(0), Num(0), Num(0), Num(0), Num(0), Num(0), Num(0)]

  datatype State = State(
    pc: nat, regs: Registers, stack: seq<Value>, flags: u64,
    memory: Memory, world: World, halted: bool, exitCode: u64, executed: nat)

  /** Addresses of the section's own labels, and of symbols outside it. */
  datatype Env = Env(labels: map<string, nat>, externals: map<string, u64>)

  /** The items of a section with the optimizer's removal marks. */
  datatype Program = Program(items: seq<Item>, remove: seq<bool>, externals: map<string, u64>) {
    predicate Valid() { |remove| == |items| }

    function Environment(): Env { Env(LabelMap(items), externals) }

    /** Item `i` is an instruction that is still there. */
    predicate Runs(i: nat)
      requires Valid()
    {
      i < |items| && !remove[i] && items[i].Instr?
    }
  }

  /** Words on the stack, growing upwards in the sequence; 2^20 bytes of stack memory. */
  const STACK_WORDS: nat := 0x2_0000

  // ----- labels -----

  /** The first definition of a name wins, as `emplace` keeps it. */
  function LabelMap(items: seq<Item>): (m: map<string, nat>)
    ensures PointsToLabels(items, 0, m)
  {
    LabelMapMeaning(items, 0);
    LabelMapFrom(items, 0)
  }

  function LabelMapFrom(items: seq<Item>, i: nat): map<string, nat>
    requires i <= |items|
    decreases |items| - i
  {
    if i == |items| then map[]
    else
      var rest := LabelMapFrom(items, i + 1);
      if items[i].Label? then rest[items[i].name := i] else rest
  }

  ghost predicate PointsToLabels(items: seq<Item>, i: nat, m: map<string, nat>) {
    && (forall name :: name in m ==> i <= m[name] < |items| && items[m[name]].Label? && items[m[name]].name == name)
    && (forall k :: i <= k < |items| && items[k].Label? ==> items[k].name in m && m[items[k].name] <= k)
  }

  lemma {:induction false} LabelMapMeaning(items: seq<Item>, i: nat)
    requires i <= |items|
    ensures PointsToLabels(items, i, LabelMapFrom(items, i))
    decreases |items| - i
  {
    if i < |items| {
      LabelMapMeaning(items, i + 1);
      var rest, m := LabelMapFrom(items, i + 1), LabelMapFrom(items, i);
      forall name | name in m
        ensures i <= m[name] < |items| && items[m[name]].Label? && items[m[name]].name == name
      {
        assert name in rest || (items[i].Label? && name == items[i].name);
      }
    }
  }

  predicate UniqueLabels(items: seq<Item>) {
    forall i, j :: 0 <= i < j < |items| && items[i].Label? && items[j].Label? ==> items[i].name != items[j].name
  }

  // ----- execution of one instruction -----

  /** The formats whose immediate the linker can fill in. */
  predicate TakesSymbol(op: Opcode) {
    var info := FindOpcode(op);
    info.Some? && (info.value.format.RegImm? || info.value.format.Jump?)
  }

  function Immediate(env: Env, ins: IrInstruction): Option<Value> {
    match ins.symbol
    case None => Some(Num(ToU64(ins.machine.imm)))
    case Some(s) =>
      if s.name in env.labels then
        if s.addend == 0 then Some(CodeAt(env.labels[s.name])) else None
      else if s.name in env.externals then Some(Num(Wrap(env.externals[s.name] + s.addend)))
      else None
  }

  /** Where a branch goes: only labels of this section. */
  function BranchTarget(env: Env, ins: IrInstruction): Option<nat> {
    match ins.symbol
    case None => None
    case Some(s) => if s.addend == 0 && s.name in env.labels then Some(env.labels[s.name]) else None
  }

  function Argument(regs: Registers, i: Reg): u64 {
    if regs[i].Num? then regs[i].n else 0
  }

  function ExecuteSyscall(number: u64, s: State, next: State): Option<State> {
    var count := ArgumentCount(number);
    if exists i: Reg :: 1 <= i <= count && s.regs[i].CodeAt? then None
    else
      var o := Invoke(number, Argument(s.regs, 1), Argument(s.regs, 2), Argument(s.regs, 3), s.memory, s.world);
      if o.None? then None
      else
        var r := o.value;
        var regs := if r.returned.Some? then s.regs[14 := Num(r.returned.value)] else s.regs;
        Some(next.(regs := regs, memory := r.memory, world := r.world,
                   halted := r.halt, exitCode := if r.halt then r.exitCode else s.exitCode))
  }

  function ExecuteAlu(op: Opcode, dst: Reg, d: Value, x: Value, next: State): Option<State> {
    if d.CodeAt? || (IsBinaryAlu(op) && x.CodeAt?) then None
    else
      var r := if IsBinaryAlu(op) then EvaluateBinary(op, d.n, x.n) else EvaluateUnary(op, d.n);
      if r.Err? then None
      else
        var a := r.value;
        Some(next.(regs := if a.writesValue then next.regs[dst := Num(a.value)] else next.regs,
                   flags := if a.writesFlags then a.flags else next.flags))
  }

  function Address(base: Value, imm: i64): Option<u64> {
    if base.CodeAt? then None else Some(Wrap(base.n + ToU64(imm)))
  }

  function Execute(env: Env, ins: IrInstruction, s: State): Option<State> {
    var m := ins.machine;
    var d, x := s.regs[m.dst], s.regs[m.src];
    var next := s.(pc := s.pc + 1, executed := s.executed + 1);
    if ins.symbol.Some? && !TakesSymbol(m.opcode) then None
    else match m.opcode
    case NOP => Some(next)
    case HALT => Some(next.(halted := true))
    case SYSCALL => ExecuteSyscall(ToU64(m.imm), s, next)
    case MOV => Some(next.(regs := s.regs[m.dst := x]))
    case MOVI | LEA =>
      var v := Immediate(env, ins);
      if v.None? then None else Some(next.(regs := s.regs[m.dst := v.value]))
    case LOAD =>
      var a := Address(x, m.imm);
      if a.None? then None
      else
        var v := ReadU64(s.memory, a.value);
        if v.Err? then None else Some(next.(regs := s.regs[m.dst := Num(v.value)]))
    case STORE =>
      var a := Address(d, m.imm);
      if a.None? || x.CodeAt? then None
      else
        var w := WriteU64(s.memory, a.value, x.n);
        if w.Err? then None else Some(next.(memory := w.value))
    case PUSH =>
      if |s.stack| >= STACK_WORDS then None else Some(next.(stack := s.stack + [d]))
    case POP =>
      if s.stack == [] then None
      else Some(next.(regs := s.regs[m.dst := s.stack[|s.stack| - 1]], stack := s.stack[..|s.stack| - 1]))
    case CALL =>
      var target := BranchTarget(env, ins);
      if target.None? || |s.stack| >= STACK_WORDS then None
      else Some(next.(stack := s.stack + [CodeAt(s.pc + 1)], pc := target.value))
    case RET =>
      if s.stack == [] || s.stack[|s.stack| - 1].Num? then None
      else Some(next.(pc := s.stack[|s.stack| - 1].index, stack := s.stack[..|s.stack| - 1]))
    case JMP | JE | JNE | JG | JL | JGE | JLE =>
      if BranchTaken(m.opcode, s.flags) then
        var target := BranchTarget(env, ins);
        if target.None? then None else Some(next.(pc := target.value))
      else Some(next)
    case Unknown(_) => None
    case _ => ExecuteAlu(m.opcode, m.dst, d, x, next)
  }

  // ----- runs -----

  function Step(p: Program, s: State): Option<State>
    requires p.Valid()
  {
    if s.halted then Some(s)
    else if s.pc >= |p.items| then None
    else if p.remove[s.pc] || p.items[s.pc].Label? then Some(s.(pc := s.pc + 1))
    else if p.items[s.pc].Instr? then Execute(p.Environment(), p.items[s.pc].ins, s)
    else None
  }

  function Run(p: Program, s: State, n: nat): Option<State>
    requires p.Valid()
    decreases n
  {
    if n == 0 then Some(s)
    else
      var t := Step(p, s);
      if t.None? then None else Run(p, t.value, n - 1)
  }

  lemma {:induction false} RunAdd(p: Program, s: State, m: nat, n: nat)
    requires p.Valid() && Run(p, s, m).Some?
    ensures Run(p, s, m + n) == Run(p, Run(p, s, m).value, n)
    decreases m
  {
    if m > 0 {
      RunAdd(p, Step(p, s).value, m - 1, n);
    }
  }

  // ----- what the metadata table promises about execution -----

  /** Registers, FLAGS and control change only where the opcode table says so. SYSCALL, which the
      table does not describe, may change R14. */
  lemma ExecuteRespectsTable(env: Env, ins: IrInstruction, s: State, t: State)
    requires Execute(env, ins, s) == Some(t)
    ensures t.executed == s.executed + 1
    ensures !WritesFlags(ins.machine.opcode) ==> t.flags == s.flags
    ensures !IsBranch(ins.machine.opcode) ==> t.pc == s.pc + 1
    ensures t.halted && !s.halted ==> ins.machine.opcode.HALT? || ins.machine.opcode.SYSCALL?
    ensures !ins.machine.opcode.SYSCALL? ==>
      forall r: Reg :: !WritesRegister(ins.machine, r) ==> t.regs[r] == s.regs[r]
  {
    hide ExecuteAlu, ExecuteSyscall, ReadU64, WriteU64, BranchTarget, BranchTaken, Immediate;
    var m := ins.machine;
    if m.opcode.SYSCALL? {
      SyscallRespectsTable(ToU64(m.imm), s, s.(pc := s.pc + 1, executed := s.executed + 1), t);
    } else if IsBinaryAlu(m.opcode) || IsUnaryAlu(m.opcode) {
      AluRespectsTable(m.opcode, m.dst, s.regs[m.dst], s.regs[m.src], s.(pc := s.pc + 1, executed := s.executed + 1), t);
    }
  }

  lemma SyscallRespectsTable(number: u64, s: State, next: State, t: State)
    requires ExecuteSyscall(number, s, next) == Some(t)
    ensures t.pc == next.pc && t.executed == next.executed && t.flags == next.flags
  {
    hide Invoke;
  }

  lemma AluRespectsTable(op: Opcode, dst: Reg, d: Value, x: Value, next: State, t: State)
    requires IsBinaryAlu(op) || IsUnaryAlu(op)
    requires ExecuteAlu(op, dst, d, x, next) == Some(t)
    ensures t == next.(regs := if WritesDst(op) then next.regs[dst := t.regs[dst]] else next.regs,
                       flags := if WritesFlags(op) then t.flags else next.flags)
  {
    hide EvaluateBinary, EvaluateUnary;
    if IsBinaryAlu(op) {
      BinaryResult(op, d.n, x.n);
    } else {
      UnaryResult(op, d.n);
    }
  }

  /** `regs` where the instruction writes its destination, taken from `from`. */
  function WithResult(machine: Instruction, regs: Registers, from: Registers): Registers {
    if machine.opcode.SYSCALL? then from
    else if WritesDst(machine.opcode) then regs[machine.dst := from[machine.dst]]
    else regs
  }

  /** The two states differ at most in registers, FLAGS and the instruction count. */
  predicate SameRest(s: State, t: State) {
    && s.pc == t.pc && s.stack == t.stack && s.memory == t.memory && s.world == t.world
    && s.halted == t.halted && s.exitCode == t.exitCode
  }

  /** What `Execute` gives in `s'` when it gives `t` in a state that agrees on everything read. */
  function Carried(ins: IrInstruction, t: State, s': State): State {
    t.(regs := WithResult(ins.machine, s'.regs, t.regs),
       flags := if WritesFlags(ins.machine.opcode) then t.flags else s'.flags,
       executed := s'.executed + 1)
  }

  predicate AgreeOnReads(ins: IrInstruction, s: State, s': State) {
    && SameRest(s, s')
    && (forall r: Reg :: ReadsRegister(ins.machine, r) || ins.machine.opcode.SYSCALL? ==> s'.regs[r] == s.regs[r])
    && (ReadsFlags(ins.machine.opcode) ==> s'.flags == s.flags)
  }

  /** Execution depends only on the registers and FLAGS the table says are read: from a state
      that agrees on those, the same results are produced and everything else is carried over. */
  lemma ExecuteReadsOnlyWhatTheTableSays(env: Env, ins: IrInstruction, s: State, t: State, s': State)
    requires Execute(env, ins, s) == Some(t)
    requires AgreeOnReads(ins, s, s')
    ensures Execute(env, ins, s') == Some(Carried(ins, t, s'))
  {
    var op := ins.machine.opcode;
    if op.SYSCALL? {
      assert s'.regs == s.regs;
    } else if IsBinaryAlu(op) {
      BinaryReadsOnly(env, ins, s, t, s');
    } else if IsUnaryAlu(op) {
      UnaryReadsOnly(env, ins, s, t, s');
    } else if IsBranch(op) || op.HALT? || op.NOP? {
      ControlReadsOnly(env, ins, s, t, s');
    } else {
      MoveReadsOnly(env, ins, s, t, s');
    }
  }

  lemma BinaryReadsOnly(env: Env, ins: IrInstruction, s: State, t: State, s': State)
    requires IsBinaryAlu(ins.machine.opcode)
    requires Execute(env, ins, s) == Some(t)
    requires AgreeOnReads(ins, s, s')
    ensures Execute(env, ins, s') == Some(Carried(ins, t, s'))
  {
    hide EvaluateBinary;
    var m := ins.machine;
    assert ReadsRegister(m, m.dst) && ReadsRegister(m, m.src);
    BinaryResult(m.opcode, s.regs[m.dst].n, s.regs[m.src].n);
  }

  lemma UnaryReadsOnly(env: Env, ins: IrInstruction, s: State, t: State, s': State)
    requires IsUnaryAlu(ins.machine.opcode)
    requires Execute(env, ins, s) == Some(t)
    requires AgreeOnReads(ins, s, s')
    ensures Execute(env, ins, s') == Some(Carried(ins, t, s'))
  {
    hide EvaluateUnary;
    var m := ins.machine;
    assert ReadsRegister(m, m.dst);
    UnaryResult(m.opcode, s.regs[m.dst].n);
  }

  lemma ControlReadsOnly(env: Env, ins: IrInstruction, s: State, t: State, s': State)
    requires IsBranch(ins.machine.opcode) || ins.machine.opcode.HALT? || ins.machine.opcode.NOP?
    requires Execute(env, ins, s) == Some(t)
    requires AgreeOnReads(ins, s, s')
    ensures Execute(env, ins, s') == Some(Carried(ins, t, s'))
  {
    hide ReadU64, WriteU64, ExecuteAlu, ExecuteSyscall, BranchTarget, Immediate;
  }

  lemma MoveReadsOnly(env: Env, ins: IrInstruction, s: State, t: State, s': State)
    requires ins.machine.opcode in {MOV, MOVI, LEA, LOAD, STORE, PUSH, POP}
    requires Execute(env, ins, s) == Some(t)
    requires AgreeOnReads(ins, s, s')
    ensures Execute(env, ins, s') == Some(Carried(ins, t, s'))
  {
    var m := ins.machine;
    assert ReadsDst(m.opcode) ==> ReadsRegister(m, m.dst);
    assert m.opcode.MOV? || m.opcode.LOAD? || m.opcode.STORE? ==> ReadsRegister(m, m.src);
  }

  /** The ALU writes a value and FLAGS exactly as the table records. */
  lemma BinaryResult(op: Opcode, a: u64, b: u64)
    requires IsBinaryAlu(op) && EvaluateBinary(op, a, b).Ok?
    ensures EvaluateBinary(op, a, b).value.writesValue == WritesDst(op)
    ensures EvaluateBinary(op, a, b).value.writesFlags == WritesFlags(op)
  {
  }

  lemma UnaryResult(op: Opcode, a: u64)
    requires IsUnaryAlu(op) && EvaluateUnary(op, a).Ok?
    ensures EvaluateUnary(op, a).value.writesValue == WritesDst(op)
    ensures EvaluateUnary(op, a).value.writesFlags == WritesFlags(op)
  {
  }
}
