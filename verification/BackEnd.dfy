/** The machine runs the image of a code section as the section's own semantics says: every IR step
    is matched by the machine, code addresses being the run-time addresses of the items. */
module BackEnd {
  import opened Words
  import opened Isa
  import opened Alu
  import opened ByteOrder
  import opened Memory
  import opened Syscall
  import opened Ir
  import opened Codec
  import opened Relocations
  import opened AssemblySpec
  import opened AssemblerProof
  import opened TextImage
  import opened VmSpec
  import opened HeapMemory
  import opened OptimizerProof
  import I = Ir
  import V = VmSpec
  import B = Bits

  /** The machine word of a value. */
  function Concrete(items: seq<Item>, base: u64, x: Value): u64 {
    match x
    case Num(n) => n
    case CodeAt(i) => if i <= |items| then CodeAddress(items, base, i) else 0
  }

  ghost predicate ValuesInside(items: seq<Item>, values: seq<Value>) {
    forall k :: 0 <= k < |values| && values[k].CodeAt? ==> values[k].index <= |items|
  }

  /** Offset of the k-th pushed word in the stack region. */
  function Slot(k: nat): int { STACK_SIZE - 8 * (k + 1) }

  ghost predicate StackHolds(items: seq<Item>, base: u64, data: seq<u8>, stack: seq<Value>) {
    && |data| == STACK_SIZE && |stack| <= STACK_WORDS
    && forall k :: 0 <= k < |stack| ==> data[Slot(k)..Slot(k) + 8] == ByteOrder.Bytes(Concrete(items, base, stack[k]), 8)
  }

  /** Everything but control. */
  ghost predicate DataMatches(items: seq<Item>, base: u64, code: seq<u8>, s: State, v: Machine) {
    && ValuesInside(items, s.regs) && ValuesInside(items, s.stack)
    && (forall r: Reg :: v.regs[r] == Concrete(items, base, s.regs[r]))
    && v.sp == STACK_TOP - 8 * |s.stack|
    && v.flags == s.flags <= FLAGS_MASK
    && ThreeRegions(v.memory) && v.memory.regions[0].base == base && v.memory.regions[0].data == code
    && StackHolds(items, base, v.memory.regions[1].data, s.stack)
    && s.memory == HeapPart(v.memory)
    && v.world == s.world && v.halted == s.halted && v.exitCode == s.exitCode
  }

  ghost predicate Matches(items: seq<Item>, base: u64, code: seq<u8>, s: State, v: Machine) {
    && DataMatches(items, base, code, s, v)
    && s.pc <= |items| && v.pc == CodeAddress(items, base, s.pc) && v.count == Wrap(s.executed)
  }

  /** What the theorem asks of the section and of its place. */
  ghost predicate Runnable(items: seq<Item>, base: u64, code: seq<u8>) {
    && CodeImage(items, base, code) && base % 8 == 0 && base + |code| < TWO64 && AlignedCode(items)
  }

  ghost predicate AlignedCode(items: seq<Item>) {
    forall i :: 0 <= i < |items| && items[i].Instr? ==> TrueOffset(items, i) % 8 == 0
  }

  lemma AddressOf(items: seq<Item>, base: u64, code: seq<u8>, i: nat)
    requires Runnable(items, base, code) && i <= |items|
    ensures CodeAddress(items, base, i) == base + TrueOffset(items, i) <= base + |code|
  {
    hide Stands;
    OffsetsGrow(items, i, |items|);
  }

  /** The state at the next item, before the instruction has had its effect. */
  function NextState(s: State): State { s.(pc := s.pc + 1, executed := s.executed + 1) }
  function NextMachine(v: Machine): Machine { v.(pc := Wrap(v.pc + INSTRUCTION_SIZE), count := Wrap(v.count + 1)) }

  lemma Advance(items: seq<Item>, base: u64, code: seq<u8>, s: State, v: Machine)
    requires Runnable(items, base, code) && Matches(items, base, code, s, v)
    requires s.pc < |items| && items[s.pc].Instr?
    ensures Matches(items, base, code, NextState(s), NextMachine(v))
  {
    hide DataMatches, CodeAddress, Runnable, Wrap;
    NextAddress(items, base, code, s.pc);
    SameData(items, base, code, s, v);
    CountOn(s.executed);
  }

  lemma CountOn(n: nat)
    ensures Wrap(Wrap(n) + 1) == Wrap(n + 1)
  {
  }

  lemma NextAddress(items: seq<Item>, base: u64, code: seq<u8>, i: nat)
    requires Runnable(items, base, code) && i < |items| && items[i].Instr?
    ensures CodeAddress(items, base, i + 1) == Wrap(CodeAddress(items, base, i) + INSTRUCTION_SIZE)
  {
    hide Runnable;
    AddressOf(items, base, code, i);
    AddressOf(items, base, code, i + 1);
  }

  lemma SameData(items: seq<Item>, base: u64, code: seq<u8>, s: State, v: Machine)
    requires DataMatches(items, base, code, s, v)
    ensures DataMatches(items, base, code, NextState(s), NextMachine(v))
  {
    hide StackHolds, ThreeRegions;
  }

  // ----- single instructions -----

  /** The machine executes `m` as the IR executes `ins`. */
  ghost predicate Follows(items: seq<Item>, base: u64, code: seq<u8>, t: State, e: Effect) {
    e.fault.None? && Matches(items, base, code, t, e.machine)
  }

  function SectionEnv(items: seq<Item>): Env { Env(LabelMap(items), map[]) }

  /** An instruction of the section about to be executed, in a pair of matching states. */
  ghost predicate About(items: seq<Item>, base: u64, code: seq<u8>, s: State, v: Machine, m: Instruction, t: State) {
    && Matches(items, base, code, s, v) && Matches(items, base, code, NextState(s), NextMachine(v))
    && !s.halted && s.pc < |items| && items[s.pc].Instr? && Stands(items, base, s.pc, m)
    && I.Execute(SectionEnv(items), items[s.pc].ins, s) == Some(t)
  }

  lemma SetRegister(items: seq<Item>, base: u64, code: seq<u8>, s: State, v: Machine, dst: Reg, x: Value, word: u64)
    requires Matches(items, base, code, s, v) && word == Concrete(items, base, x) && (x.CodeAt? ==> x.index <= |items|)
    ensures Matches(items, base, code, s.(regs := s.regs[dst := x]), v.(regs := v.regs[dst := word]))
  {
    hide StackHolds, ThreeRegions, CodeAddress;
  }

  lemma NoSymbol(items: seq<Item>, base: u64, s: State, m: Instruction, t: State)
    requires s.pc < |items| && items[s.pc].Instr? && Stands(items, base, s.pc, m)
    requires I.Execute(SectionEnv(items), items[s.pc].ins, s) == Some(t) && !TakesSymbol(m.opcode)
    ensures m == items[s.pc].ins.machine
  {
  }

  lemma MoveFollows(items: seq<Item>, base: u64, code: seq<u8>, s: State, v: Machine, m: Instruction, t: State)
    requires About(items, base, code, s, v, m, t) && m.opcode in {NOP, HALT, MOV, MOVI, LEA}
    ensures Follows(items, base, code, t, ExecuteInstruction(NextMachine(v), m, v.pc))
  {
    hide StackHolds, ThreeRegions, CodeAddress, Matches;
    var n, w := NextState(s), NextMachine(v);
    var ins := items[s.pc].ins;
    assert Matches(items, base, code, n, w) && DataMatches(items, base, code, s, v) by { MatchesData(items, base, code, s, v); }
    match m.opcode
    case NOP =>
    case HALT => HaltFollows(items, base, code, n, w);
    case MOV => SetRegister(items, base, code, n, w, m.dst, s.regs[m.src], v.regs[m.src]);
    case MOVI | LEA =>
      var x := I.Immediate(SectionEnv(items), ins).value;
      SetRegister(items, base, code, n, w, m.dst, x, ToU64(m.imm));
  }

  lemma MatchesData(items: seq<Item>, base: u64, code: seq<u8>, s: State, v: Machine)
    requires Matches(items, base, code, s, v)
    ensures DataMatches(items, base, code, s, v)
  {
    hide DataMatches;
  }

  lemma HaltFollows(items: seq<Item>, base: u64, code: seq<u8>, n: State, w: Machine)
    requires Matches(items, base, code, n, w)
    ensures Matches(items, base, code, n.(halted := true), w.(halted := true))
  {
    hide StackHolds, ThreeRegions, CodeAddress;
  }

  lemma SetHeap(items: seq<Item>, base: u64, code: seq<u8>, n: State, w: Machine, memory: Memory)
    requires Matches(items, base, code, n, w) && OnlyHeapChanged(w.memory, memory)
    ensures Matches(items, base, code, n.(memory := HeapPart(memory)), w.(memory := memory))
  {
    hide StackHolds, CodeAddress;
  }

  lemma DataFollows(items: seq<Item>, base: u64, code: seq<u8>, s: State, v: Machine, m: Instruction, t: State)
    requires About(items, base, code, s, v, m, t) && m.opcode in {LOAD, STORE}
    ensures Follows(items, base, code, t, ExecuteInstruction(NextMachine(v), m, v.pc))
  {
    hide StackHolds, CodeAddress, WriteU64, Fetch, Matches, Stands;
    var n, w := NextState(s), NextMachine(v);
    MatchesData(items, base, code, s, v);
    NoSymbol(items, base, s, m, t);
    if m.opcode.LOAD? {
      HeapFetch(v.memory, Wrap(v.regs[m.src] + ToU64(m.imm)), 8, Read);
      var value := ReadU64(v.memory, Wrap(v.regs[m.src] + ToU64(m.imm))).value;
      SetRegister(items, base, code, n, w, m.dst, Num(value), value);
    } else {
      var address := Wrap(v.regs[m.dst] + ToU64(m.imm));
      HeapWrite(v.memory, address, v.regs[m.src]);
      SetHeap(items, base, code, n, w, WriteU64(v.memory, address, v.regs[m.src]).value);
    }
  }

  lemma AluFollows(items: seq<Item>, base: u64, code: seq<u8>, s: State, v: Machine, m: Instruction, t: State)
    requires About(items, base, code, s, v, m, t) && (IsBinaryAlu(m.opcode) || IsUnaryAlu(m.opcode))
    ensures Follows(items, base, code, t, ExecuteInstruction(NextMachine(v), m, v.pc))
  {
    hide StackHolds, ThreeRegions, CodeAddress, EvaluateBinary, EvaluateUnary, Matches, Stands, MaskFlags, I.Execute, ExecuteInstruction;
    var n, w := NextState(s), NextMachine(v);
    MatchesData(items, base, code, s, v);
    NoSymbol(items, base, s, m, t);
    AluExecutes(items, s, t, w, v.pc);
    var a := if IsBinaryAlu(m.opcode) then EvaluateBinary(m.opcode, v.regs[m.dst], v.regs[m.src]) else EvaluateUnary(m.opcode, v.regs[m.dst]);
    assert a.Ok?;
    ResultFlags(m.opcode, v.regs[m.dst], v.regs[m.src]);
    ResultFollows(items, base, code, n, w, m.dst, a.value);
  }

  lemma AluExecutes(items: seq<Item>, s: State, t: State, w: Machine, pc: u64)
    requires s.pc < |items| && items[s.pc].Instr? && I.Execute(SectionEnv(items), items[s.pc].ins, s) == Some(t)
    requires var m := items[s.pc].ins.machine; IsBinaryAlu(m.opcode) || IsUnaryAlu(m.opcode)
    ensures var m := items[s.pc].ins.machine;
      && ExecuteAlu(m.opcode, m.dst, s.regs[m.dst], s.regs[m.src], NextState(s)) == Some(t)
      && ExecuteInstruction(w, m, pc) == ExecuteArithmetic(w, m, pc)
  {
    hide ExecuteAlu, ExecuteArithmetic;
  }

  lemma ResultFlags(op: Opcode, a: u64, b: u64)
    ensures IsBinaryAlu(op) && EvaluateBinary(op, a, b).Ok? ==> EvaluateBinary(op, a, b).value.flags <= FLAGS_MASK
    ensures IsUnaryAlu(op) && EvaluateUnary(op, a).Ok? ==> EvaluateUnary(op, a).value.flags <= FLAGS_MASK
  {
    FlagsStayInMask(op, a, b);
  }

  lemma MaskKeeps(flags: u64)
    requires flags <= FLAGS_MASK
    ensures MaskFlags(flags) == flags
  {
    assert Pow2(4) == 16;
    B.AndMask(flags, 4);
    B.HighLowUnique(0, flags, 4);
  }

  lemma ResultFollows(items: seq<Item>, base: u64, code: seq<u8>, n: State, w: Machine, dst: Reg, a: AluResult)
    requires Matches(items, base, code, n, w) && a.flags <= FLAGS_MASK
    ensures Matches(items, base, code,
      n.(regs := if a.writesValue then n.regs[dst := Num(a.value)] else n.regs, flags := if a.writesFlags then a.flags else n.flags),
      w.(regs := if a.writesValue then w.regs[dst := a.value] else w.regs, flags := if a.writesFlags then MaskFlags(a.flags) else w.flags))
  {
    hide StackHolds, ThreeRegions, CodeAddress, MaskFlags;
    MaskKeeps(a.flags);
  }

  // ----- the stack -----

  lemma PushFollows(items: seq<Item>, base: u64, code: seq<u8>, n: State, w: Machine, x: Value, word: u64, pc: u64)
    requires Matches(items, base, code, n, w) && word == Concrete(items, base, x) && (x.CodeAt? ==> x.index <= |items|)
    requires |n.stack| < STACK_WORDS
    ensures Follows(items, base, code, n.(stack := n.stack + [x]), V.Push(w, word, pc))
  {
    hide Splice, CodeAddress, ByteOrder.Bytes, StackHolds, WriteU64;
    StackSize(items, base, code, n, w);
    StackWrite(w.memory, w.sp - 8, word);
    var data := w.memory.regions[1].data;
    PushedSlot(items, base, data, n.stack, x, word);
    SetStack(items, base, code, n, w, n.stack + [x], V.Push(w, word, pc).machine);
  }

  lemma StackSize(items: seq<Item>, base: u64, code: seq<u8>, n: State, w: Machine)
    requires Matches(items, base, code, n, w)
    ensures ThreeRegions(w.memory) && |w.memory.regions[1].data| == STACK_SIZE && |n.stack| <= STACK_WORDS
    ensures w.sp == STACK_TOP - 8 * |n.stack| && StackHolds(items, base, w.memory.regions[1].data, n.stack)
  {
    hide CodeAddress, ByteOrder.Bytes;
  }

  /** Another stack, in both places. */
  lemma SetStack(items: seq<Item>, base: u64, code: seq<u8>, n: State, w: Machine, stack: seq<Value>, w': Machine)
    requires Matches(items, base, code, n, w) && ValuesInside(items, stack)
    requires w' == w.(sp := w'.sp, memory := w'.memory) && |w'.memory.regions| == 3 && ThreeRegions(w'.memory)
    requires w'.memory.regions[0] == w.memory.regions[0] && w'.memory.regions[2] == w.memory.regions[2]
    requires w'.memory.heapNext == w.memory.heapNext
    requires StackHolds(items, base, w'.memory.regions[1].data, stack) && w'.sp == STACK_TOP - 8 * |stack|
    ensures Matches(items, base, code, n.(stack := stack), w')
  {
    hide CodeAddress, StackHolds;
  }

  lemma PushedSlot(items: seq<Item>, base: u64, data: seq<u8>, stack: seq<Value>, x: Value, word: u64)
    requires StackHolds(items, base, data, stack) && |stack| < STACK_WORDS && word == Concrete(items, base, x)
    ensures StackHolds(items, base, Splice(data, Slot(|stack|), ByteOrder.Bytes(word, 8)), stack + [x])
  {
    hide Splice, CodeAddress, ByteOrder.Bytes;
    var data' := Splice(data, Slot(|stack|), ByteOrder.Bytes(word, 8));
    forall k | 0 <= k < |stack|
      ensures data'[Slot(k)..Slot(k) + 8] == data[Slot(k)..Slot(k) + 8]
    {
    }
  }

  lemma PopFollows(items: seq<Item>, base: u64, code: seq<u8>, n: State, w: Machine, pc: u64)
    requires Matches(items, base, code, n, w) && n.stack != []
    ensures V.Pop(w, pc).Ok?
    ensures V.Pop(w, pc).value.0 == Concrete(items, base, n.stack[|n.stack| - 1])
    ensures Matches(items, base, code, n.(stack := n.stack[..|n.stack| - 1]), V.Pop(w, pc).value.1)
  {
    hide CodeAddress, ByteOrder.Bytes, ReadU64;
    StackSize(items, base, code, n, w);
    var top := |n.stack| - 1;
    assert w.sp - STACK_LIMIT == Slot(top);
    StackRead(w.memory, w.sp, Concrete(items, base, n.stack[top]));
  }

  lemma PushInstruction(items: seq<Item>, base: u64, code: seq<u8>, s: State, v: Machine, m: Instruction, t: State)
    requires About(items, base, code, s, v, m, t) && m.opcode.PUSH?
    ensures Follows(items, base, code, t, ExecuteInstruction(NextMachine(v), m, v.pc))
  {
    hide StackHolds, ThreeRegions, CodeAddress, Matches, Stands, V.Push;
    MatchesData(items, base, code, s, v);
    NoSymbol(items, base, s, m, t);
    PushFollows(items, base, code, NextState(s), NextMachine(v), s.regs[m.dst], v.regs[m.dst], v.pc);
  }

  lemma PopInstruction(items: seq<Item>, base: u64, code: seq<u8>, s: State, v: Machine, m: Instruction, t: State)
    requires About(items, base, code, s, v, m, t) && m.opcode.POP?
    ensures Follows(items, base, code, t, ExecuteInstruction(NextMachine(v), m, v.pc))
  {
    hide StackHolds, ThreeRegions, CodeAddress, Matches, Stands, V.Pop;
    var n, w := NextState(s), NextMachine(v);
    MatchesData(items, base, code, s, v);
    NoSymbol(items, base, s, m, t);
    PopFollows(items, base, code, n, w, v.pc);
    var x := s.stack[|s.stack| - 1];
    SetRegister(items, base, code, n.(stack := n.stack[..|n.stack| - 1]), V.Pop(w, v.pc).value.1, m.dst, x, Concrete(items, base, x));
    PoppedRegisters(w, v.pc);
  }

  lemma ReturnInstruction(items: seq<Item>, base: u64, code: seq<u8>, s: State, v: Machine, m: Instruction, t: State)
    requires About(items, base, code, s, v, m, t) && m.opcode.RET?
    ensures Follows(items, base, code, t, ExecuteInstruction(NextMachine(v), m, v.pc))
  {
    hide StackHolds, ThreeRegions, CodeAddress, Matches, Stands, V.Pop;
    var n, w := NextState(s), NextMachine(v);
    MatchesData(items, base, code, s, v);
    NoSymbol(items, base, s, m, t);
    PopFollows(items, base, code, n, w, v.pc);
    SetControl(items, base, code, n.(stack := n.stack[..|n.stack| - 1]), V.Pop(w, v.pc).value.1, s.stack[|s.stack| - 1].index);
  }

  lemma PoppedRegisters(w: Machine, pc: u64)
    requires V.Pop(w, pc).Ok?
    ensures V.Pop(w, pc).value.1.regs == w.regs
  {
  }

  /** Control at item i on both sides. */
  lemma SetControl(items: seq<Item>, base: u64, code: seq<u8>, n: State, w: Machine, i: nat)
    requires Matches(items, base, code, n, w) && i <= |items|
    ensures Matches(items, base, code, n.(pc := i), w.(pc := CodeAddress(items, base, i)))
  {
    hide StackHolds, ThreeRegions, CodeAddress;
  }

  lemma BranchExecutes(items: seq<Item>, s: State, t: State, w: Machine, pc: u64, m: Instruction)
    requires s.pc < |items| && items[s.pc].Instr? && I.Execute(SectionEnv(items), items[s.pc].ins, s) == Some(t)
    requires m == items[s.pc].ins.machine.(imm := m.imm) && m.opcode in {JMP, JE, JNE, JG, JL, JGE, JLE}
    ensures ExecuteInstruction(w, m, pc) == if BranchTaken(m.opcode, w.flags) then Done(w.(pc := BranchAddress(pc, m.imm))) else Done(w)
    ensures if BranchTaken(m.opcode, s.flags)
      then BranchTarget(SectionEnv(items), items[s.pc].ins).Some? && t == NextState(s).(pc := BranchTarget(SectionEnv(items), items[s.pc].ins).value)
      else t == NextState(s)
  {
    hide BranchAddress, BranchTaken, BranchTarget;
  }

  lemma BranchFollows(items: seq<Item>, base: u64, code: seq<u8>, s: State, v: Machine, m: Instruction, t: State)
    requires About(items, base, code, s, v, m, t) && m.opcode in {JMP, JE, JNE, JG, JL, JGE, JLE}
    ensures Follows(items, base, code, t, ExecuteInstruction(NextMachine(v), m, v.pc))
  {
    hide StackHolds, ThreeRegions, CodeAddress, Matches, BranchAddress, BranchTaken, I.Execute, ExecuteInstruction;
    var n, w := NextState(s), NextMachine(v);
    MatchesData(items, base, code, s, v);
    BranchExecutes(items, s, t, w, v.pc, m);
    ControlIs(items, base, code, s, v);
    if BranchTaken(m.opcode, s.flags) {
      SetControl(items, base, code, n, w, t.pc);
    }
  }

  lemma ControlIs(items: seq<Item>, base: u64, code: seq<u8>, s: State, v: Machine)
    requires Matches(items, base, code, s, v)
    ensures s.pc <= |items| && v.pc == CodeAddress(items, base, s.pc)
  {
    hide DataMatches, CodeAddress;
  }

  lemma CallFollows(items: seq<Item>, base: u64, code: seq<u8>, s: State, v: Machine, m: Instruction, t: State)
    requires About(items, base, code, s, v, m, t) && m.opcode.CALL?
    ensures Follows(items, base, code, t, ExecuteInstruction(NextMachine(v), m, v.pc))
  {
    hide StackHolds, ThreeRegions, CodeAddress, Matches, BranchAddress, V.Push;
    var n, w := NextState(s), NextMachine(v);
    ControlIs(items, base, code, s, v);
    ControlIs(items, base, code, n, w);
    PushFollows(items, base, code, n, w, CodeAt(s.pc + 1), w.pc, v.pc);
    SetControl(items, base, code, n.(stack := n.stack + [CodeAt(s.pc + 1)]), V.Push(w, w.pc, v.pc).machine, t.pc);
  }

  lemma SyscallFollows(items: seq<Item>, base: u64, code: seq<u8>, s: State, v: Machine, m: Instruction, t: State)
    requires About(items, base, code, s, v, m, t) && m.opcode.SYSCALL?
    ensures Follows(items, base, code, t, ExecuteInstruction(NextMachine(v), m, v.pc))
  {
    hide StackHolds, CodeAddress, Matches, Stands, Invoke;
    var n, w := NextState(s), NextMachine(v);
    MatchesData(items, base, code, s, v);
    NoSymbol(items, base, s, m, t);
    var number := ToU64(m.imm);
    UnusedArguments(number, Argument(s.regs, 1), Argument(s.regs, 2), Argument(s.regs, 3), v.regs[1], v.regs[2], v.regs[3], s.memory, s.world);
    HeapInvoke(number, v.regs[1], v.regs[2], v.regs[3], v.memory, v.world);
    var o := Invoke(number, v.regs[1], v.regs[2], v.regs[3], v.memory, v.world).value;
    SetHeap(items, base, code, n, w, o.memory);
    SetWorld(items, base, code, n.(memory := HeapPart(o.memory)), w.(memory := o.memory), o);
  }

  lemma SetWorld(items: seq<Item>, base: u64, code: seq<u8>, n: State, w: Machine, o: Syscall.Outcome)
    requires Matches(items, base, code, n, w) && !n.halted
    ensures Matches(items, base, code,
      n.(regs := if o.returned.Some? then n.regs[14 := Num(o.returned.value)] else n.regs, world := o.world,
         halted := o.halt, exitCode := if o.halt then o.exitCode else n.exitCode),
      w.(regs := if o.returned.Some? then w.regs[14 := o.returned.value] else w.regs, world := o.world,
         halted := o.halt, exitCode := if o.halt then o.exitCode else w.exitCode))
  {
    hide StackHolds, ThreeRegions, CodeAddress;
  }

  /** Every instruction the IR can execute is executed alike by the machine. */
  lemma InstructionFollows(items: seq<Item>, base: u64, code: seq<u8>, s: State, v: Machine, m: Instruction, t: State)
    requires About(items, base, code, s, v, m, t)
    ensures Follows(items, base, code, t, ExecuteInstruction(NextMachine(v), m, v.pc))
  {
    hide Matches, Follows, ExecuteInstruction, StackHolds, CodeAddress;
    var op := m.opcode;
    if IsBinaryAlu(op) || IsUnaryAlu(op) {
      AluFollows(items, base, code, s, v, m, t);
    } else if op in {NOP, HALT, MOV, MOVI, LEA} {
      MoveFollows(items, base, code, s, v, m, t);
    } else if op in {LOAD, STORE} {
      DataFollows(items, base, code, s, v, m, t);
    } else if op.PUSH? {
      PushInstruction(items, base, code, s, v, m, t);
    } else if op.POP? {
      PopInstruction(items, base, code, s, v, m, t);
    } else if op.RET? {
      ReturnInstruction(items, base, code, s, v, m, t);
    } else if op in {JMP, JE, JNE, JG, JL, JGE, JLE} {
      BranchFollows(items, base, code, s, v, m, t);
    } else if op.CALL? {
      CallFollows(items, base, code, s, v, m, t);
    } else {
      assert op.SYSCALL?;
      SyscallFollows(items, base, code, s, v, m, t);
    }
  }

  // ----- steps and runs -----

  lemma ItemImage(items: seq<Item>, base: u64, code: seq<u8>, i: nat)
    requires Runnable(items, base, code) && i < |items| && items[i].Instr?
    ensures TrueOffset(items, i) + 8 <= |code|
    ensures CodeAddress(items, base, i) == base + TrueOffset(items, i) && CodeAddress(items, base, i) % 8 == 0
    ensures var word := Load64(TextImage.CodeAt(code, items, i));
      Decode(word).Ok? && Stands(items, base, i, Decode(word).value)
  {
    hide Stands, CodeAddress, Runnable, DecodeFrom;
    AddressOf(items, base, code, i);
    ImageAt(items, base, code, i);
    FieldDecodes(TextImage.CodeAt(code, items, i));
  }

  lemma ImageAt(items: seq<Item>, base: u64, code: seq<u8>, i: nat)
    requires Runnable(items, base, code) && i < |items| && items[i].Instr?
    ensures TrueOffset(items, i) + 8 <= |code| && base % 8 == 0 && TrueOffset(items, i) % 8 == 0
    ensures DecodeFrom(TextImage.CodeAt(code, items, i)).Ok?
    ensures Stands(items, base, i, DecodeFrom(TextImage.CodeAt(code, items, i)).value)
  {
    hide Stands, DecodeFrom, TrueOffset;
  }

  lemma FieldDecodes(field: seq<u8>)
    requires |field| == 8
    ensures DecodeFrom(field) == Decode(Load64(field))
  {
    hide Decode, Load64;
    assert field[..8] == field;
  }

  lemma CodeRegion(items: seq<Item>, base: u64, code: seq<u8>, s: State, v: Machine)
    requires Matches(items, base, code, s, v)
    ensures ThreeRegions(v.memory) && v.memory.regions[0].base == base && v.memory.regions[0].data == code
    ensures v.memory.regions[0].size == |code| && v.halted == s.halted && v.pc == CodeAddress(items, base, s.pc)
  {
    hide StackHolds, CodeAddress;
    assert v.memory.regions[0].Valid();
  }

  lemma FetchItem(items: seq<Item>, base: u64, code: seq<u8>, s: State, v: Machine)
    requires Runnable(items, base, code) && Matches(items, base, code, s, v) && s.pc < |items| && items[s.pc].Instr?
    ensures v.pc % INSTRUCTION_SIZE == 0 && FetchInstruction(v.memory, v.pc).Ok?
    ensures Decode(FetchInstruction(v.memory, v.pc).value).Ok?
    ensures Stands(items, base, s.pc, Decode(FetchInstruction(v.memory, v.pc).value).value)
  {
    hide Stands, CodeAddress, Decode, FetchInstruction, Matches, Runnable, ThreeRegions, Load64;
    CodeRegion(items, base, code, s, v);
    ItemImage(items, base, code, s.pc);
    CodeFetch(v.memory, v.pc, code);
  }

  /** A label is passed without a step of the machine; an instruction takes exactly one. */
  lemma StepMatches(items: seq<Item>, base: u64, code: seq<u8>, s: State, v: Machine)
    requires Runnable(items, base, code) && Matches(items, base, code, s, v) && !s.halted
    requires I.Step(Whole(items, map[]), s).Some?
    ensures var t := I.Step(Whole(items, map[]), s).value;
      if items[s.pc].Label? then Matches(items, base, code, t, v) else Follows(items, base, code, t, StepMachine(v))
  {
    hide ExecuteInstruction, I.Execute, Stands, FetchInstruction, Decode, Follows, CodeAddress, Matches, Runnable;
    var p := Whole(items, map[]);
    var t := I.Step(p, s).value;
    if items[s.pc].Label? {
      LabelTakesNothing(items, base, s.pc);
      MovedOn(items, base, code, s, v);
    } else {
      InstructionStep(items, base, code, s, v, t);
    }
  }

  lemma InstructionStep(items: seq<Item>, base: u64, code: seq<u8>, s: State, v: Machine, t: State)
    requires Runnable(items, base, code) && Matches(items, base, code, s, v) && !s.halted
    requires s.pc < |items| && items[s.pc].Instr? && I.Execute(SectionEnv(items), items[s.pc].ins, s) == Some(t)
    ensures Follows(items, base, code, t, StepMachine(v))
  {
    hide ExecuteInstruction, I.Execute, Stands, FetchInstruction, Decode, Follows, CodeAddress, Matches, Runnable, ThreeRegions;
    FetchItem(items, base, code, s, v);
    Advance(items, base, code, s, v);
    InstructionFollows(items, base, code, s, v, Decode(FetchInstruction(v.memory, v.pc).value).value, t);
    CodeRegion(items, base, code, s, v);
  }

  lemma LabelTakesNothing(items: seq<Item>, base: u64, i: nat)
    requires i < |items| && items[i].Label?
    ensures CodeAddress(items, base, i + 1) == CodeAddress(items, base, i)
  {
  }

  lemma MovedOn(items: seq<Item>, base: u64, code: seq<u8>, s: State, v: Machine)
    requires Matches(items, base, code, s, v) && s.pc < |items|
    requires CodeAddress(items, base, s.pc + 1) == CodeAddress(items, base, s.pc)
    ensures Matches(items, base, code, s.(pc := s.pc + 1), v)
  {
    hide StackHolds, ThreeRegions, CodeAddress;
  }

  /** Every run of the section is a run of the machine. */
  lemma {:induction false} RunMatches(items: seq<Item>, base: u64, code: seq<u8>, s: State, v: Machine, n: nat) returns (k: nat)
    requires Runnable(items, base, code) && Matches(items, base, code, s, v)
    requires I.Run(Whole(items, map[]), s, n).Some?
    ensures k <= n && RunMachine(v, k).Some?
    ensures Matches(items, base, code, I.Run(Whole(items, map[]), s, n).value, RunMachine(v, k).value)
    decreases n
  {
    hide Matches, Runnable, StepMachine, I.Execute;
    if n == 0 {
      k := 0;
      assert RunMachine(v, 0) == Some(v);
    } else if s.halted {
      k := RunMatches(items, base, code, s, v, n - 1);
    } else {
      var t := I.Step(Whole(items, map[]), s).value;
      StepMatches(items, base, code, s, v);
      if items[s.pc].Label? {
        k := RunMatches(items, base, code, t, v, n - 1);
      } else {
        k := RunMatches(items, base, code, t, StepMachine(v).machine, n - 1);
        k := k + 1;
      }
    }
  }
}
