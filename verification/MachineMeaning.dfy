/** What every instruction and every system call does to the machine, said of registers, addresses and
    bytes: what changes, what stays, and which fault there is instead. */
module MachineMeaning {
  import opened Words
  import opened Isa
  import opened Alu
  import opened Memory
  import opened Syscall
  import opened Codec
  import opened VmSpec
  import opened MemoryMeaning
  import AluMeaning
  import Bits
  import Ir

  /** Register r holds x, and nothing else has changed. */
  predicate Sets(v: Machine, v': Machine, r: Reg, x: u64) {
    v'.regs == v.regs[r := x] && v' == v.(regs := v'.regs)
  }

  /** The instruction faults and changes nothing. */
  predicate Traps(e: Effect, v: Machine, error: VMError, pc: u64) {
    e == Effect(v, Some(VMFault(error, pc)))
  }

  function Sum(x: int, y: int): u64 { (x + y) % 0x1_0000_0000_0000_0000 }

  lemma SignedSum(x: u64, y: i64)
    ensures Wrap(x + ToU64(y)) == Sum(x, y) && ToU64(y) == Sum(0, y)
  {
  }

  // ----- moves -----

  /** MOV copies a register; MOVI and LEA load the immediate, sign-extended. */
  lemma MoveEffect(v: Machine, m: Instruction, pc: u64)
    requires m.opcode.MOV? || m.opcode.MOVI? || m.opcode.LEA?
    ensures var e := ExecuteInstruction(v, m, pc);
            e.fault.None? && Sets(v, e.machine, m.dst, if m.opcode.MOV? then v.regs[m.src] else Sum(0, m.imm))
  {
    SignedSum(0, m.imm);
  }

  /** What a failed access is reported as: a missing permission, an address less than 2^20 below the
      stack, or any other address that is not there. */
  predicate ReportedAs(f: MemoryFault, error: VMError) {
    if f.kind.ReadDenied? || f.kind.WriteDenied? || f.kind.ExecuteDenied? then error == PermissionViolation
    else if f.kind.OutOfMemory? then error == InvalidMemoryAccess
    else if 0x7FDF_0000 <= f.address < 0x7FEF_0000 then error == StackOverflow
    else error == InvalidMemoryAccess
  }

  lemma FaultMeans(f: MemoryFault)
    ensures ReportedAs(f, FaultKind(f))
  {
  }

  /** An access that fails as the memory says. */
  ghost predicate AccessFails(e: Effect, v: Machine, pc: u64, address: u64, access: Access) {
    exists f :: Fails(v.memory, address, 8, access, f) && e.fault.Some? && ReportedAs(f, e.fault.value.error)
                && Traps(e, v, e.fault.value.error, pc)
  }

  /** LOAD puts the word at source plus displacement into the destination. */
  lemma LoadEffect(v: Machine, m: Instruction, pc: u64)
    requires m.opcode.LOAD?
    ensures var e, a := ExecuteInstruction(v, m, pc), Sum(v.regs[m.src], m.imm);
            if e.fault.None? then
              WordAt(v.memory, a, e.machine.regs[m.dst], Read) && Sets(v, e.machine, m.dst, e.machine.regs[m.dst])
            else AccessFails(e, v, pc, a, Read) && forall w: u64 :: !WordAt(v.memory, a, w, Read)
  {
    hide ReadU64, WordAt, Fails, FaultKind, ReportedAs;
    var a := Sum(v.regs[m.src], m.imm);
    SignedSum(v.regs[m.src], m.imm);
    hide Sum;
    var r := ReadU64(v.memory, a);
    if r.Ok? {
      ReadMeans(v.memory, a, r.value);
    } else {
      ReadMeans(v.memory, a, 0);
      FaultMeans(r.error);
      forall w: u64
        ensures !WordAt(v.memory, a, w, Read)
      {
        ReadMeans(v.memory, a, w);
      }
    }
  }

  /** STORE puts the source register at destination plus displacement. */
  lemma StoreEffect(v: Machine, m: Instruction, pc: u64)
    requires m.opcode.STORE?
    ensures var e, a := ExecuteInstruction(v, m, pc), Sum(v.regs[m.dst], m.imm);
            if e.fault.None? then
              Writable(v.memory, a, 8) && Wrote(v.memory, e.machine.memory, a, v.regs[m.src])
              && e.machine == v.(memory := e.machine.memory)
            else AccessFails(e, v, pc, a, Write) && !Writable(v.memory, a, 8)
  {
    hide WriteU64, Wrote, Fails, FaultKind, ReportedAs, Writable;
    var a := Sum(v.regs[m.dst], m.imm);
    SignedSum(v.regs[m.dst], m.imm);
    hide Sum;
    WriteMeans(v.memory, a, v.regs[m.src]);
    var w := WriteU64(v.memory, a, v.regs[m.src]);
    if w.Err? {
      FaultMeans(w.error);
    }
  }

  // ----- the stack -----

  /** SP is eight lower and the word stands there; nothing else has changed but what `rest` gives. */
  ghost predicate Pushed(v: Machine, v': Machine, word: u64, rest: Machine) {
    && v.sp >= 8 && Wrote(v.memory, v'.memory, v.sp - 8, word)
    && v' == rest.(sp := v.sp - 8, memory := v'.memory)
  }

  lemma PushMeans(v: Machine, word: u64, pc: u64)
    ensures var e := Push(v, word, pc);
            if v.sp < 0x7FEF_0008 then Traps(e, v, StackOverflow, pc)
            else if Writable(v.memory, v.sp - 8, 8) then e.fault.None? && Pushed(v, e.machine, word, v)
            else AccessFails(e, v, pc, v.sp - 8, Write)
  {
    hide WriteU64, Wrote, Fails, FaultKind, ReportedAs, Writable;
    if v.sp >= 8 {
      WriteMeans(v.memory, v.sp - 8, word);
      var w := WriteU64(v.memory, v.sp - 8, word);
      if w.Err? {
        FaultMeans(w.error);
      }
    }
  }

  /** PUSH, and CALL, which pushes the address behind it and goes to the target. */
  lemma PushEffect(v: Machine, m: Instruction, pc: u64)
    requires m.opcode.PUSH? || m.opcode.CALL?
    ensures var e := ExecuteInstruction(v, m, pc);
            var word := if m.opcode.PUSH? then v.regs[m.dst] else v.pc;
            var rest := if m.opcode.PUSH? then v else v.(pc := Sum(pc + 8, m.imm));
            if v.sp < 0x7FEF_0008 then Traps(e, v, StackOverflow, pc)
            else if Writable(v.memory, v.sp - 8, 8) then e.fault.None? && Pushed(v, e.machine, word, rest)
            else AccessFails(e, v, pc, v.sp - 8, Write)
  {
    hide WriteU64, Push, Wrote, Fails, ReportedAs, Writable, ExecuteArithmetic, ExecuteSyscall, Pop;
    PushMeans(v, if m.opcode.PUSH? then v.regs[m.dst] else v.pc, pc);
    BranchSum(pc, m.imm);
    hide BranchAddress, Sum;
  }

  lemma BranchSum(pc: u64, imm: i64)
    ensures BranchAddress(pc, imm) == Sum(pc + 8, imm)
  {
  }

  /** POP and RET take the word at SP and move SP past it: POP into its register, RET into PC. At the top
      of the stack there is nothing to take. */
  lemma PopEffect(v: Machine, m: Instruction, pc: u64)
    requires m.opcode.POP? || m.opcode.RET?
    ensures var e := ExecuteInstruction(v, m, pc);
            if v.sp >= 0x7FFF_0000 then Traps(e, v, StackUnderflow, pc)
            else if e.fault.None? then
              && WordAt(v.memory, v.sp, if m.opcode.POP? then e.machine.regs[m.dst] else e.machine.pc, Read)
              && (if m.opcode.POP? then Sets(v.(sp := v.sp + 8), e.machine, m.dst, e.machine.regs[m.dst])
                  else e.machine == v.(sp := v.sp + 8, pc := e.machine.pc))
            else AccessFails(e, v, pc, v.sp, Read)
  {
    hide ReadU64, WordAt, Fails, FaultKind, ReportedAs, ExecuteArithmetic, ExecuteSyscall, Push, BranchAddress;
    var r := ReadU64(v.memory, v.sp);
    if r.Ok? {
      ReadMeans(v.memory, v.sp, r.value);
    } else {
      ReadMeans(v.memory, v.sp, 0);
      FaultMeans(r.error);
    }
  }

  // ----- control -----

  /** Which branches are taken, on ZF, SF and OF (bits 0, 1 and 3). */
  predicate Taken(op: Opcode, flags: u64) {
    var zero, sign, overflow := flags % 2 == 1, flags % 4 >= 2, flags % 16 >= 8;
    match op
    case JMP => true
    case JE => zero
    case JNE => !zero
    case JL => sign != overflow
    case JGE => sign == overflow
    case JG => !zero && sign == overflow
    case JLE => zero || sign != overflow
    case _ => false
  }

  /** A taken branch goes to the address behind it plus the displacement; nothing else changes. */
  lemma JumpEffect(v: Machine, m: Instruction, pc: u64)
    requires m.opcode.JMP? || ReadsFlags(m.opcode)
    ensures ExecuteInstruction(v, m, pc) == Effect(if Taken(m.opcode, v.flags) then v.(pc := Sum(pc + 8, m.imm)) else v, None)
  {
    BranchSum(pc, m.imm);
    hide BranchAddress, Sum, ExecuteArithmetic, ExecuteSyscall, Push, Pop, ReadU64, WriteU64;
  }

  lemma HaltEffect(v: Machine, m: Instruction, pc: u64)
    requires m.opcode.HALT? || m.opcode.NOP?
    ensures ExecuteInstruction(v, m, pc) == Effect(if m.opcode.HALT? then v.(halted := true) else v, None)
  {
  }

  // ----- arithmetic -----

  /** Arithmetic works on the two registers and leaves value and FLAGS of the ALU behind, each only if
      the operation has one; dividing by zero traps. */
  lemma ArithmeticEffect(v: Machine, m: Instruction, pc: u64)
    requires IsBinaryAlu(m.opcode) || IsUnaryAlu(m.opcode)
    ensures var e := ExecuteInstruction(v, m, pc);
            var r := if IsBinaryAlu(m.opcode) then EvaluateBinary(m.opcode, v.regs[m.dst], v.regs[m.src])
                     else EvaluateUnary(m.opcode, v.regs[m.dst]);
            if (m.opcode.DIV? || m.opcode.MOD?) && v.regs[m.src] == 0 then Traps(e, v, DivideByZero, pc)
            else
              && r.Ok? && e.fault.None?
              && (if m.opcode.CMP? || m.opcode.TEST? then e.machine == v.(flags := r.value.flags)
                  else if m.opcode.NOT? then Sets(v, e.machine, m.dst, r.value.value)
                  else Sets(v.(flags := r.value.flags), e.machine, m.dst, r.value.value))
  {
    hide EvaluateBinary, EvaluateUnary, MaskFlags;
    var a, b := v.regs[m.dst], v.regs[m.src];
    if IsBinaryAlu(m.opcode) {
      AluMeaning.BinarySucceeds(m.opcode, a, b);
      if EvaluateBinary(m.opcode, a, b).Ok? {
        Ir.BinaryResult(m.opcode, a, b);
        FlagsStayInMask(m.opcode, a, b);
        MaskKeeps(EvaluateBinary(m.opcode, a, b).value.flags);
      }
    } else {
      AluMeaning.UnarySucceeds(m.opcode, a);
      Ir.UnaryResult(m.opcode, a);
      FlagsStayInMask(m.opcode, a, b);
      MaskKeeps(EvaluateUnary(m.opcode, a).value.flags);
    }
  }

  lemma MaskKeeps(flags: u64)
    requires flags <= 15
    ensures MaskFlags(flags) == flags
  {
    hide Bits.Low, Bits.High, Bits.Bitwise;
    assert Pow2(4) == 16;
    Bits.AndMask(flags, 4);
    Bits.HighLowIsDivMod(flags, 4);
  }

  // ----- one step -----

  /** A step executes the instruction whose word stands at PC, with PC moved behind it and one more
      instruction counted; a halted machine stays as it is. */
  lemma StepMeans(v: Machine, word: u64, m: Instruction)
    requires !v.halted && v.pc % 8 == 0 && WordAt(v.memory, v.pc, word, Exec) && Decode(word) == Ok(m)
    ensures StepMachine(v) == ExecuteInstruction(v.(pc := Sum(v.pc, 8), count := Sum(v.count, 1)), m, v.pc)
  {
    hide FetchInstruction, Decode, ExecuteInstruction, WordAt;
    ReadMeans(v.memory, v.pc, word);
  }

  /** Without one it faults: PC is not aligned, nothing can be fetched there, or the word is no
      instruction. */
  lemma StepFails(v: Machine)
    ensures v.halted ==> StepMachine(v) == Effect(v, None)
    ensures !v.halted && v.pc % 8 != 0 ==> Traps(StepMachine(v), v, IllegalInstruction, v.pc)
    ensures !v.halted && v.pc % 8 == 0 && (forall w: u64 :: !WordAt(v.memory, v.pc, w, Exec)) ==>
              AccessFails(StepMachine(v), v, v.pc, v.pc, Exec)
    ensures !v.halted && v.pc % 8 == 0 ==> forall w: u64 :: WordAt(v.memory, v.pc, w, Exec) && Decode(w).Err? ==>
              Traps(StepMachine(v), v, IllegalInstruction, v.pc)
  {
    hide FetchInstruction, Decode, ExecuteInstruction, WordAt, Fails, FaultKind, ReportedAs;
    var r := FetchInstruction(v.memory, v.pc);
    if r.Err? {
      ReadMeans(v.memory, v.pc, 0);
      FaultMeans(r.error);
    } else {
      ReadMeans(v.memory, v.pc, r.value);
    }
    forall w: u64 | WordAt(v.memory, v.pc, w, Exec)
      ensures r == Ok(w)
    {
      ReadMeans(v.memory, v.pc, w);
    }
  }

  // ----- system calls -----

  /** Call 0 ends the program with the exit code it is given. */
  lemma ExitMeans(code: u64, a2: u64, a3: u64, m: Memory, w: World)
    ensures Invoke(0, code, a2, a3, m, w) == Some(Outcome(None, m, w, true, code))
  {
  }

  /** Call 1 appends the bytes at the address to the output if the descriptor is 1 and to the error
      output if it is 2, and returns their number. Nothing else changes. */
  lemma WriteCallMeans(fd: u64, address: u64, length: u64, m: Memory, w: World)
    ensures Invoke(1, fd, address, length, m, w).Some? <==>
            (fd == 1 || fd == 2) && length <= 0x10_0000 && (length == 0 || Readable(m, address, length))
    ensures Invoke(1, fd, address, length, m, w).Some? ==>
            var o := Invoke(1, fd, address, length, m, w).value;
            && o == Outcome(Some(length), m, o.world, false, 0)
            && exists bytes: seq<u8> ::
                 && |bytes| == length && (length > 0 ==> BytesAt(m, address, bytes, Read))
                 && o.world == World(if fd == 1 then w.output + bytes else w.output,
                                     if fd == 2 then w.errorOutput + bytes else w.errorOutput, w.input)
  {
    hide ReadBytes, Readable, BytesAt;
    ReadBytesMeans(m, address, length);
    var r := ReadBytes(m, address, length);
    if Invoke(1, fd, address, length, m, w).Some? {
      var bytes := r.value;
      assert |bytes| == length;
    }
  }

  /** Call 2 takes as much of the input as there is and is asked for, puts it at the address and returns
      how much it was. */
  lemma ReadCallMeans(fd: u64, address: u64, length: u64, m: Memory, w: World)
    ensures var n := if length < |w.input| then length else |w.input|;
            var r := Invoke(2, fd, address, length, m, w);
            && (r.Some? <==> fd == 0 && length <= 0x10_0000 && (n == 0 || Writable(m, address, n)))
            && (r.Some? ==>
                  && r.value == Outcome(Some(n), r.value.memory, World(w.output, w.errorOutput, w.input[n..]), false, 0)
                  && (if n == 0 then r.value.memory == m else WroteBytes(m, r.value.memory, address, w.input[..n])))
  {
    hide WriteBytes, Writable, WroteBytes;
    var n := if length < |w.input| then length else |w.input|;
    WriteBytesMeans(m, address, w.input[..n]);
  }

  /** Call 3 returns the block that the allocator hands out, or 0. */
  lemma AllocateCallMeans(size: u64, a2: u64, a3: u64, m: Memory, w: World)
    ensures Invoke(3, size, a2, a3, m, w) ==
            Some(match Allocate(m, size)
                 case Ok(block) => Outcome(Some(block.0), block.1, w, false, 0)
                 case Err(_) => Outcome(Some(0), m, w, false, 0))
  {
    hide Allocate;
  }

  /** There are no other calls. */
  lemma NoOtherCall(number: u64, a1: u64, a2: u64, a3: u64, m: Memory, w: World)
    requires number > 3
    ensures Invoke(number, a1, a2, a3, m, w).None?
  {
  }

  /** SYSCALL passes R1, R2 and R3, puts what the call returns into R14, and halts if the call says so; a
      refused call traps. */
  lemma SyscallEffect(v: Machine, m: Instruction, pc: u64)
    requires m.opcode.SYSCALL? && m.imm >= 0
    ensures var e := ExecuteInstruction(v, m, pc);
            match Invoke(m.imm, v.regs[1], v.regs[2], v.regs[3], v.memory, v.world)
            case None => Traps(e, v, SyscallError, pc)
            case Some(o) =>
              && e.fault.None? && e.machine.memory == o.memory && e.machine.world == o.world
              && e.machine.halted == (v.halted || o.halt)
              && e.machine.exitCode == (if o.halt then o.exitCode else v.exitCode)
              && e.machine.regs == (if o.returned.Some? then v.regs[14 := o.returned.value] else v.regs)
              && e.machine == v.(memory := o.memory, world := o.world, halted := e.machine.halted,
                                 exitCode := e.machine.exitCode, regs := e.machine.regs)
  {
    hide Invoke;
  }
}
