/** The virtual CPU as functions on machine states: loading, one step, budgeted runs. A step gives
    the state it leaves behind even when it faults. */
module VmSpec {
  import opened Words
  import opened Isa
  import opened Alu
  import opened Memory
  import opened Syscall
  import opened Codec
  import opened ControlFlowGraph
  import opened Executables

  const STACK_TOP: u64 := 0x7FFF_0000
  const STACK_SIZE: u64 := 0x10_0000
  const STACK_LIMIT: u64 := STACK_TOP - STACK_SIZE
  const HEAP_BASE: u64 := 0x1000_0000
  const HEAP_SIZE: u64 := 0x10_0000

  type RegisterFile = r: seq<u64> | |r| == REGISTER_COUNT
    witness [0, 0, 0, 0, 0, 0, 0, 0, 0, 0, 0, 0, 0, 0, 0, 0]

  const NO_REGISTERS: RegisterFile := [0, 0, 0, 0, 0, 0, 0, 0, 0, 0, 0, 0, 0, 0, 0, 0]

  datatype Machine = Machine(
    regs: RegisterFile, pc: u64, sp: u64, flags: u64, halted: bool, count: u64, exitCode: u64,
    memory: Memory, world: World)

  datatype VMError =
    | InvalidMemoryAccess | PermissionViolation | IllegalInstruction | DivideByZero | StackOverflow
    | StackUnderflow | SyscallError | BudgetExhausted | NotLoaded

  datatype VMFault = VMFault(error: VMError, pc: u64)

  /** The state after a step, and the fault if there was one. */
  datatype Effect = Effect(machine: Machine, fault: Option<VMFault>)

  function Done(v: Machine): Effect { Effect(v, None) }
  function Faulted(v: Machine, error: VMError, pc: u64): Effect { Effect(v, Some(VMFault(error, pc))) }

  /** An unmapped access just below the stack is a stack overflow. */
  function FaultKind(f: MemoryFault): VMError {
    match f.kind
    case ReadDenied | WriteDenied | ExecuteDenied => PermissionViolation
    case Unmapped | CrossesRegionEnd =>
      if f.address < STACK_LIMIT && STACK_LIMIT - f.address <= STACK_SIZE then StackOverflow else InvalidMemoryAccess
    case OutOfMemory => InvalidMemoryAccess
  }

  // ----- the stack -----

  function Push(v: Machine, value: u64, pc: u64): Effect {
    if v.sp < STACK_LIMIT + 8 then Faulted(v, StackOverflow, pc)
    else
      var w := WriteU64(v.memory, v.sp - 8, value);
      if w.Err? then Faulted(v, FaultKind(w.error), pc) else Done(v.(memory := w.value, sp := v.sp - 8))
  }

  /** The popped value, with SP moved past it. */
  function Pop(v: Machine, pc: u64): Result<(u64, Machine), VMError> {
    if v.sp >= STACK_TOP then Err(StackUnderflow)
    else
      var r := ReadU64(v.memory, v.sp);
      if r.Err? then Err(FaultKind(r.error)) else Ok((r.value, v.(sp := Wrap(v.sp + 8))))
  }

  // ----- one instruction -----

  function ExecuteSyscall(v: Machine, number: u64, pc: u64): Effect {
    var o := Invoke(number, v.regs[1], v.regs[2], v.regs[3], v.memory, v.world);
    if o.None? then Faulted(v, SyscallError, pc)
    else
      var r := o.value;
      Done(v.(regs := if r.returned.Some? then v.regs[14 := r.returned.value] else v.regs,
              memory := r.memory, world := r.world, halted := r.halt || v.halted,
              exitCode := if r.halt then r.exitCode else v.exitCode))
  }

  function ExecuteArithmetic(v: Machine, m: Instruction, pc: u64): Effect {
    var r := if IsBinaryAlu(m.opcode) then EvaluateBinary(m.opcode, v.regs[m.dst], v.regs[m.src])
             else EvaluateUnary(m.opcode, v.regs[m.dst]);
    if r.Err? then Faulted(v, if r.error.DivisionByZero? then DivideByZero else IllegalInstruction, pc)
    else
      var a := r.value;
      Done(v.(regs := if a.writesValue then v.regs[m.dst := a.value] else v.regs,
              flags := if a.writesFlags then MaskFlags(a.flags) else v.flags))
  }

  /** `flags & kFlagsMask` */
  function MaskFlags(flags: u64): u64 {
    Bits.LowBound(flags, 4);
    Bits.AndMask(flags, 4);
    assert Pow2(4) == 16;
    Bits.BitAnd(flags, FLAGS_MASK)
  }

  function ExecuteInstruction(v: Machine, m: Instruction, pc: u64): Effect {
    match m.opcode
    case NOP => Done(v)
    case HALT => Done(v.(halted := true))
    case SYSCALL => ExecuteSyscall(v, ToU64(m.imm), pc)
    case MOV => Done(v.(regs := v.regs[m.dst := v.regs[m.src]]))
    case MOVI | LEA => Done(v.(regs := v.regs[m.dst := ToU64(m.imm)]))
    case LOAD =>
      var r := ReadU64(v.memory, Wrap(v.regs[m.src] + ToU64(m.imm)));
      if r.Err? then Faulted(v, FaultKind(r.error), pc) else Done(v.(regs := v.regs[m.dst := r.value]))
    case STORE =>
      var w := WriteU64(v.memory, Wrap(v.regs[m.dst] + ToU64(m.imm)), v.regs[m.src]);
      if w.Err? then Faulted(v, FaultKind(w.error), pc) else Done(v.(memory := w.value))
    case PUSH => Push(v, v.regs[m.dst], pc)
    case POP =>
      var p := Pop(v, pc);
      if p.Err? then Faulted(v, p.error, pc) else Done(p.value.1.(regs := v.regs[m.dst := p.value.0]))
    case CALL =>
      var p := Push(v, v.pc, pc);
      if p.fault.Some? then p else Done(p.machine.(pc := BranchAddress(pc, m.imm)))
    case RET =>
      var p := Pop(v, pc);
      if p.Err? then Faulted(v, p.error, pc) else Done(p.value.1.(pc := p.value.0))
    case JMP | JE | JNE | JG | JL | JGE | JLE =>
      if BranchTaken(m.opcode, v.flags) then Done(v.(pc := BranchAddress(pc, m.imm))) else Done(v)
    case _ => ExecuteArithmetic(v, m, pc)
  }

  /** `step`: fetch, decode, advance, execute. */
  function StepMachine(v: Machine): Effect {
    if v.halted then Done(v)
    else if v.pc % INSTRUCTION_SIZE != 0 then Faulted(v, IllegalInstruction, v.pc)
    else
      var word := FetchInstruction(v.memory, v.pc);
      if word.Err? then Faulted(v, FaultKind(word.error), v.pc)
      else
        var m := Decode(word.value);
        if m.Err? then Faulted(v, IllegalInstruction, v.pc)
        else ExecuteInstruction(v.(pc := Wrap(v.pc + INSTRUCTION_SIZE), count := Wrap(v.count + 1)), m.value, v.pc)
  }

  /** n steps; `None` when one of them faults. */
  function RunMachine(v: Machine, n: nat): Option<Machine>
    decreases n
  {
    if n == 0 then Some(v)
    else
      var o := StepMachine(v);
      if o.fault.Some? then None else RunMachine(o.machine, n - 1)
  }

  lemma {:induction false} RunMachineAdd(v: Machine, m: nat, n: nat)
    requires RunMachine(v, m).Some?
    ensures RunMachine(v, m + n) == RunMachine(RunMachine(v, m).value, n)
    decreases m
  {
    hide StepMachine;
    if m > 0 {
      RunMachineAdd(StepMachine(v).machine, m - 1, n);
    }
  }

  // ----- loading -----

  datatype LoadError = BadImage(fault: ImageError) | SegmentNotMapped(index: nat) | StackNotMapped | HeapNotMapped

  function RegionName(kind: SectionKind): string {
    match kind case Text => ".text" case Rodata => ".rodata" case Data => ".data" case Bss => ".bss"
  }

  /** Execute permission implies read. */
  function PermissionsOf(flags: Permission): Permission {
    Permission(flags.read || flags.exec, flags.write, flags.exec)
  }

  const EMPTY_MEMORY: Memory := RawMemory([], 0)
  const READ_WRITE: Permission := Permission(true, true, false)

  function MapSegment(m: Memory, s: Segment): Option<Memory> {
    AddRegion(m, RegionName(s.kind), s.address, s.size, PermissionsOf(s.flags), s.data)
  }

  function MapSegments(segments: seq<Segment>, n: nat): Result<Memory, LoadError>
    requires n <= |segments|
  {
    if n == 0 then Ok(EMPTY_MEMORY)
    else
      var before := MapSegments(segments, n - 1);
      if before.Err? then before
      else
        var m := MapSegment(before.value, segments[n - 1]);
        if m.None? then Err(SegmentNotMapped(n - 1)) else Ok(m.value)
  }

  function LoadImage(e: Executable, world: World): Result<Machine, LoadError> {
    var fault := Validate(e);
    if fault.Some? then Err(BadImage(fault.value))
    else
      var image := MapSegments(e.segments, |e.segments|);
      if image.Err? then Err(image.error)
      else
        var stack := AddRegion(image.value, "stack", STACK_LIMIT, STACK_SIZE, READ_WRITE, []);
        if stack.None? then Err(StackNotMapped)
        else
          var heap := AddRegion(stack.value, "heap", HEAP_BASE, HEAP_SIZE, READ_WRITE, []);
          if heap.None? then Err(HeapNotMapped)
          else Ok(Machine(NO_REGISTERS, e.entry, STACK_TOP, 0, false, 0, 0, heap.value, world))
  }

  /** The address space with the first n segments in it, up to the first that cannot be mapped. */
  function MappedFirst(segments: seq<Segment>, n: nat): Memory
    requires n <= |segments|
  {
    if n == 0 then EMPTY_MEMORY
    else if MapSegments(segments, n).Ok? then MapSegments(segments, n).value
    else MappedFirst(segments, n - 1)
  }

  /** The address space a load leaves: an invalid image does not touch it; otherwise it holds what could
      be mapped, whether or not the load succeeds. */
  function MemoryAfterLoad(e: Executable, before: Memory): Memory {
    if Validate(e).Some? then before
    else
      var image := MapSegments(e.segments, |e.segments|);
      if image.Err? then MappedFirst(e.segments, |e.segments|)
      else
        var stack := AddRegion(image.value, "stack", STACK_LIMIT, STACK_SIZE, READ_WRITE, []);
        if stack.None? then image.value
        else
          var heap := AddRegion(stack.value, "heap", HEAP_BASE, HEAP_SIZE, READ_WRITE, []);
          if heap.None? then stack.value else heap.value
  }
}
