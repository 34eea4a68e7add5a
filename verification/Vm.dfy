/** The machine object and its address space, changed in place step by step; each method is proved to
    do what `VmSpec` and `Memory` say. */
module Vm {
  import opened Words
  import opened Isa
  import opened Alu
  import opened ByteOrder
  import opened Memory
  import opened Syscall
  import opened Codec
  import opened Executables
  import opened VmSpec

  class VirtualMemory {
    var regions: seq<Region>
    var heapNext: u64

    ghost predicate Valid()
      reads this
    {
      RawMemory(regions, heapNext).Valid()
    }

    function Value(): Memory
      requires Valid()
      reads this
    {
      RawMemory(regions, heapNext)
    }

    constructor ()
      ensures Valid() && Value() == EMPTY_MEMORY
    {
      regions, heapNext := [], 0;
    }

    method Reset()
      modifies this
      ensures Valid() && Value() == EMPTY_MEMORY
    {
      regions, heapNext := [], 0;
    }

    /** Takes over another state of the same address space. */
    method Assign(m: Memory)
      modifies this
      ensures Valid() && Value() == m
    {
      regions, heapNext := m.regions, m.heapNext;
    }

    /** `addRegion` */
    method MapRegion(name: string, base: u64, size: u64, permissions: Permission, initial: seq<u8>) returns (mapped: bool)
      requires Valid()
      modifies this
      ensures Valid()
      ensures mapped <==> AddRegion(old(Value()), name, base, size, permissions, initial).Some?
      ensures Value() == if mapped then AddRegion(old(Value()), name, base, size, permissions, initial).value else old(Value())
    {
      if size == 0 || base > TWO64 - 1 - size {
        return false;
      }
      var i := 0;
      while i < |regions|
        invariant i <= |regions|
        invariant forall k :: 0 <= k < i ==> !(base < regions[k].base + regions[k].size && regions[k].base < base + size)
      {
        if base < regions[i].base + regions[i].size && regions[i].base < base + size {
          return false;
        }
        i := i + 1;
      }
      ghost var m := AddRegion(Value(), name, base, size, permissions, initial).value;
      var copied := if |initial| < size then |initial| else size;
      if name == "heap" {
        heapNext := base;
      }
      regions := regions + [Region(name, base, size, permissions, initial[..copied] + Zeros(size - copied))];
      assert RawMemory(regions, heapNext) == m;
      return true;
    }

    method FindRegion(address: u64) returns (i: nat)
      ensures i == RegionAt(regions, address)
    {
      i := 0;
      while i < |regions|
        invariant i <= |regions| && RegionAt(regions, address) == i + RegionAt(regions[i..], address)
      {
        if regions[i].Contains(address) {
          return;
        }
        assert regions[i..][1..] == regions[i + 1..];
        i := i + 1;
      }
    }

    method Check(address: u64, size: nat, needed: Access) returns (r: Result<nat, MemoryFault>)
      ensures r == CheckAccess(regions, address, size, needed)
    {
      var i := FindRegion(address);
      if i == |regions| {
        return Err(MemoryFault(Unmapped, address, size));
      }
      if size > regions[i].size - (address - regions[i].base) {
        return Err(MemoryFault(CrossesRegionEnd, address, size));
      }
      if !Grants(regions[i].permissions, needed) {
        return Err(MemoryFault(Denied(needed), address, size));
      }
      return Ok(i);
    }

    method ReadWord(address: u64, needed: Access) returns (r: Result<u64, MemoryFault>)
      requires Valid()
      ensures var f := Fetch(Value(), address, 8, needed);
        r == if f.Err? then Err(f.error) else Ok(Load64(f.value))
    {
      var c := Check(address, 8, needed);
      if c.Err? {
        return Err(c.error);
      }
      CheckAccessOk(Value(), address, 8, needed);
      var offset := address - regions[c.value].base;
      FromBytes64(regions[c.value].data[offset..offset + 8]);
      var value: u64 := LoadBytes(regions[c.value].data[offset..offset + 8]);
      return Ok(value);
    }

    /** `writeU64`: stores the word in the bytes of its region. */
    method WriteWord(address: u64, value: u64) returns (r: Result<(), MemoryFault>)
      requires Valid()
      modifies this
      ensures Valid()
      ensures var w := WriteU64(old(Value()), address, value);
        (w.Ok? ==> r.Ok? && Value() == w.value) && (w.Err? ==> r == Err(w.error) && Value() == old(Value()))
    {
      var c := Check(address, 8, Write);
      if c.Err? {
        return Err(c.error);
      }
      CheckAccessOk(Value(), address, 8, Write);
      ghost var w := WriteU64(Value(), address, value).value;
      var region := regions[c.value];
      var data := new u8[|region.data|](i requires 0 <= i < |region.data| => region.data[i]);
      assert data[..] == region.data;
      StoreBytes(data, address - region.base, value, 8);
      regions := regions[c.value := region.(data := data[..])];
      assert RawMemory(regions, heapNext) == w;
      return Ok(());
    }
  }

  class VirtualMachine {
    var regs: RegisterFile
    var pc: u64
    var sp: u64
    var flags: u64
    var halted: bool
    var count: u64
    var exitCode: u64
    var loaded: bool
    var world: World
    const memory: VirtualMemory

    ghost predicate Valid()
      reads this, memory
    {
      memory.Valid()
    }

    function State(): Machine
      requires Valid()
      reads this, memory
    {
      Machine(regs, pc, sp, flags, halted, count, exitCode, memory.Value(), world)
    }

    constructor (world: World)
      ensures Valid() && fresh(memory) && !loaded && this.world == world
    {
      regs, pc, sp, flags, halted, count, exitCode := NO_REGISTERS, 0, 0, 0, false, 0, 0;
      loaded := false;
      this.world := world;
      memory := new VirtualMemory();
    }

    /** The segments of the image, in an address space that starts empty. */
    method MapImage(segments: seq<Segment>) returns (error: Option<LoadError>)
      requires Valid()
      modifies memory
      ensures Valid()
      ensures var image := MapSegments(segments, |segments|);
        (error.None? <==> image.Ok?) && (error.Some? ==> image == Err(error.value)) && memory.Value() == MappedFirst(segments, |segments|)
    {
      hide MapSegment, MapSegments, MappedFirst;
      memory.Reset();
      NothingMapped(segments);
      var n := 0;
      while n < |segments|
        invariant n <= |segments| && Valid() && MapSegments(segments, n) == Ok(memory.Value())
      {
        var s := segments[n];
        OneMapped(segments, n);
        var mapped := memory.MapRegion(RegionName(s.kind), s.address, s.size, PermissionsOf(s.flags), s.data);
        if !mapped {
          MapFails(segments, n, n + 1, |segments|);
          return Some(SegmentNotMapped(n));
        }
        n := n + 1;
      }
      AllMapped(segments, n);
      return None;
    }

    method MapStackAndHeap() returns (error: Option<LoadError>)
      requires Valid()
      modifies memory
      ensures Valid()
      ensures var stack := AddRegion(old(memory.Value()), "stack", STACK_LIMIT, STACK_SIZE, READ_WRITE, []);
        if stack.None? then error == Some(StackNotMapped) && memory.Value() == old(memory.Value())
        else
          var heap := AddRegion(stack.value, "heap", HEAP_BASE, HEAP_SIZE, READ_WRITE, []);
          if heap.None? then error == Some(HeapNotMapped) && memory.Value() == stack.value
          else error == None && memory.Value() == heap.value
    {
      hide AddRegion;
      var mapped := memory.MapRegion("stack", STACK_LIMIT, STACK_SIZE, READ_WRITE, []);
      if !mapped {
        return Some(StackNotMapped);
      }
      mapped := memory.MapRegion("heap", HEAP_BASE, HEAP_SIZE, READ_WRITE, []);
      if !mapped {
        return Some(HeapNotMapped);
      }
      return None;
    }

    /** `load`: maps the segments, the stack and the heap, and resets the CPU. A failure leaves the CPU and
        the loaded mark as they were, over an address space that holds only what could be mapped. */
    method LoadProgram(e: Executable) returns (r: Result<(), LoadError>)
      requires Valid()
      modifies this, memory
      ensures Valid() && memory.Value() == MemoryAfterLoad(e, old(memory.Value()))
      ensures var l := LoadImage(e, old(world));
        && (l.Ok? ==> r.Ok? && loaded && State() == l.value)
        && (l.Err? ==> r == Err(l.error) && loaded == old(loaded)
                       && State() == old(State()).(memory := MemoryAfterLoad(e, old(memory.Value()))))
    {
      hide Validate, AddRegion, MapSegments, MappedFirst;
      var fault := ValidateImage(e);
      if fault.Some? {
        return Err(BadImage(fault.value));
      }
      AllMapped(e.segments, |e.segments|);
      var error := MapImage(e.segments);
      if error.Some? {
        return Err(error.value);
      }
      error := MapStackAndHeap();
      if error.Some? {
        return Err(error.value);
      }
      regs, pc, sp, flags, halted, count, exitCode := NO_REGISTERS, e.entry, STACK_TOP, 0, false, 0, 0;
      loaded := true;
      return Ok(());
    }

    method PushWord(value: u64, at: u64) returns (fault: Option<VMFault>)
      requires Valid()
      modifies this`sp, memory
      ensures Valid() && Effect(State(), fault) == Push(old(State()), value, at)
    {
      hide WriteU64;
      if sp < STACK_LIMIT + 8 {
        return Some(VMFault(StackOverflow, at));
      }
      var w := memory.WriteWord(sp - 8, value);
      if w.Err? {
        return Some(VMFault(FaultKind(w.error), at));
      }
      sp := sp - 8;
      return None;
    }

    method PopWord(at: u64) returns (r: Result<u64, VMFault>)
      requires Valid()
      modifies this`sp
      ensures Valid()
      ensures var p := Pop(old(State()), at);
        (p.Ok? ==> r == Ok(p.value.0) && State() == p.value.1) && (p.Err? ==> r == Err(VMFault(p.error, at)) && State() == old(State()))
    {
      hide Fetch;
      if sp >= STACK_TOP {
        return Err(VMFault(StackUnderflow, at));
      }
      var value := memory.ReadWord(sp, Read);
      if value.Err? {
        return Err(VMFault(FaultKind(value.error), at));
      }
      sp := Wrap(sp + 8);
      return Ok(value.value);
    }

    /** `execute` of the instructions that use memory, the stack or the system. */
    method ExecuteEffect(m: Instruction, at: u64) returns (fault: Option<VMFault>)
      requires Valid() && m.opcode in {SYSCALL, LOAD, STORE, PUSH, POP, CALL, RET}
      modifies this, memory
      ensures Valid() && Effect(State(), fault) == ExecuteInstruction(old(State()), m, at) && loaded == old(loaded)
    {
      hide Invoke, WriteU64, Fetch, Push, Pop, BranchAddress;
      match m.opcode {
        case SYSCALL =>
          var o := Invoke(ToU64(m.imm), regs[1], regs[2], regs[3], memory.Value(), world);
          if o.None? {
            return Some(VMFault(SyscallError, at));
          }
          memory.Assign(o.value.memory);
          world := o.value.world;
          if o.value.returned.Some? {
            regs := regs[14 := o.value.returned.value];
          }
          if o.value.halt {
            halted := true;
            exitCode := o.value.exitCode;
          }
        case LOAD =>
          var value := memory.ReadWord(Wrap(regs[m.src] + ToU64(m.imm)), Read);
          if value.Err? {
            return Some(VMFault(FaultKind(value.error), at));
          }
          regs := regs[m.dst := value.value];
        case STORE =>
          var w := memory.WriteWord(Wrap(regs[m.dst] + ToU64(m.imm)), regs[m.src]);
          if w.Err? {
            return Some(VMFault(FaultKind(w.error), at));
          }
        case PUSH =>
          fault := PushWord(regs[m.dst], at);
          return;
        case POP =>
          var value := PopWord(at);
          if value.Err? {
            return Some(value.error);
          }
          regs := regs[m.dst := value.value];
        case CALL =>
          fault := PushWord(pc, at);
          if fault.Some? {
            return;
          }
          pc := BranchAddress(at, m.imm);
        case RET =>
          var value := PopWord(at);
          if value.Err? {
            return Some(value.error);
          }
          pc := value.value;
      }
      return None;
    }

    method ExecuteAluOperation(m: Instruction, at: u64) returns (fault: Option<VMFault>)
      requires Valid()
      modifies this`regs, this`flags
      ensures Valid() && Effect(State(), fault) == ExecuteArithmetic(old(State()), m, at)
    {
      hide EvaluateBinary, EvaluateUnary, MaskFlags;
      var r := if IsBinaryAlu(m.opcode) then EvaluateBinary(m.opcode, regs[m.dst], regs[m.src])
               else EvaluateUnary(m.opcode, regs[m.dst]);
      if r.Err? {
        return Some(VMFault(if r.error.DivisionByZero? then DivideByZero else IllegalInstruction, at));
      }
      if r.value.writesValue {
        regs := regs[m.dst := r.value.value];
      }
      if r.value.writesFlags {
        flags := MaskFlags(r.value.flags);
      }
      return None;
    }

    method ExecuteSimple(m: Instruction, at: u64)
      requires Valid() && m.opcode in {NOP, HALT, MOV, MOVI, LEA, JMP, JE, JNE, JG, JL, JGE, JLE}
      modifies this`regs, this`pc, this`halted
      ensures Valid() && Done(State()) == ExecuteInstruction(old(State()), m, at)
    {
      hide BranchAddress, BranchTaken;
      match m.opcode {
        case NOP =>
        case HALT => halted := true;
        case MOV => regs := regs[m.dst := regs[m.src]];
        case MOVI | LEA => regs := regs[m.dst := ToU64(m.imm)];
        case JMP | JE | JNE | JG | JL | JGE | JLE =>
          if BranchTaken(m.opcode, flags) {
            pc := BranchAddress(at, m.imm);
          }
      }
    }

    /** `execute` */
    method Execute(m: Instruction, at: u64) returns (fault: Option<VMFault>)
      requires Valid()
      modifies this, memory
      ensures Valid() && Effect(State(), fault) == ExecuteInstruction(old(State()), m, at) && loaded == old(loaded)
    {
      hide ExecuteInstruction, ExecuteArithmetic;
      fault := None;
      match m.opcode {
        case NOP | HALT | MOV | MOVI | LEA | JMP | JE | JNE | JG | JL | JGE | JLE => ExecuteSimple(m, at);
        case SYSCALL | LOAD | STORE | PUSH | POP | CALL | RET => fault := ExecuteEffect(m, at);
        case _ =>
          TheRestIsAlu(State(), m, at);
          fault := ExecuteAluOperation(m, at);
      }
    }

    /** `step` */
    method Step() returns (fault: Option<VMFault>)
      requires Valid()
      modifies this, memory
      ensures Valid() && loaded == old(loaded)
      ensures loaded ==> Effect(State(), fault) == StepMachine(old(State()))
      ensures !loaded ==> fault == Some(VMFault(NotLoaded, old(pc))) && State() == old(State())
    {
      hide ExecuteInstruction, Decode, Fetch;
      if !loaded {
        return Some(VMFault(NotLoaded, pc));
      }
      if halted {
        return None;
      }
      var at := pc;
      if at % INSTRUCTION_SIZE != 0 {
        return Some(VMFault(IllegalInstruction, at));
      }
      var word := memory.ReadWord(at, Exec);
      if word.Err? {
        return Some(VMFault(FaultKind(word.error), at));
      }
      var m := Decode(word.value);
      if m.Err? {
        return Some(VMFault(IllegalInstruction, at));
      }
      pc := Wrap(at + INSTRUCTION_SIZE);
      count := Wrap(count + 1);
      fault := Execute(m.value, at);
    }

    /** `run`: at most `budget` steps. It ends without an error exactly when the machine halts within
        the budget, in the state those steps reach; out of budget in the state after that many steps; and
        with a fault in the state the faulting step leaves. */
    method Run(budget: u64) returns (error: Option<VMError>)
      requires Valid()
      modifies this, memory
      ensures Valid() && loaded == old(loaded)
      ensures !loaded ==> error == Some(NotLoaded) && State() == old(State())
      ensures loaded ==> (error == None <==> HaltsWithin(old(State()), budget))
      ensures loaded && error == None ==> State() == RunMachine(old(State()), budget).value
      ensures loaded && error == Some(BudgetExhausted) ==> RunMachine(old(State()), budget) == Some(State()) && !halted
      ensures loaded && error.Some? && error != Some(BudgetExhausted) ==>
        exists k :: 0 <= k < budget && FaultsAfter(old(State()), k, error.value, State())
    {
      hide StepMachine;
      if !loaded {
        return Some(NotLoaded);
      }
      ghost var start := State();
      var executed: nat := 0;
      while !halted
        invariant executed <= budget && Valid() && loaded
        invariant RunMachine(start, executed) == Some(State())
        decreases budget - executed
      {
        if executed >= budget {
          return Some(BudgetExhausted);
        }
        ghost var before := State();
        var fault := Step();
        RunMachineAdd(start, executed, 1);
        OneStep(before);
        executed := executed + 1;
        if fault.Some? {
          FaultIsFinal(start, executed, budget);
          StepFaultKind(before);
          assert FaultsAfter(start, executed - 1, fault.value.error, State());
          return Some(fault.value.error);
        }
      }
      RunMachineAdd(start, executed, budget - executed);
      HaltedStays(State(), budget - executed);
      return None;
    }
  }

  lemma TheRestIsAlu(v: Machine, m: Instruction, at: u64)
    requires m.opcode !in {NOP, HALT, MOV, MOVI, LEA, JMP, JE, JNE, JG, JL, JGE, JLE, SYSCALL, LOAD, STORE, PUSH, POP, CALL, RET}
    ensures ExecuteInstruction(v, m, at) == ExecuteArithmetic(v, m, at)
  {
    hide ExecuteArithmetic;
  }

  lemma NothingMapped(segments: seq<Segment>)
    ensures MapSegments(segments, 0) == Ok(EMPTY_MEMORY)
  {
  }

  lemma OneMapped(segments: seq<Segment>, n: nat)
    requires n < |segments| && MapSegments(segments, n).Ok?
    ensures var s := segments[n];
            var m := AddRegion(MapSegments(segments, n).value, RegionName(s.kind), s.address, s.size, PermissionsOf(s.flags), s.data);
      MapSegments(segments, n + 1) == if m.None? then Err(SegmentNotMapped(n)) else Ok(m.value)
  {
    hide AddRegion;
  }

  lemma AllMapped(segments: seq<Segment>, n: nat)
    requires n <= |segments|
    ensures MapSegments(segments, n).Ok? ==> MappedFirst(segments, n) == MapSegments(segments, n).value
  {
    hide MapSegment;
  }

  /** Mapping stops at the first segment that cannot be mapped. */
  lemma {:induction false} MapFails(segments: seq<Segment>, k: nat, m: nat, n: nat)
    requires k < m <= n <= |segments| && m == k + 1 && MapSegments(segments, k).Ok? && MapSegments(segments, m).Err?
    ensures MapSegments(segments, n) == MapSegments(segments, m) && MappedFirst(segments, n) == MapSegments(segments, k).value
  {
    hide MapSegment;
    if m < n {
      MapFails(segments, k, m, n - 1);
    } else {
      AllMapped(segments, k);
    }
  }

  /** The step after k good ones faults and leaves the machine in the state `v'`. */
  ghost predicate FaultsAfter(v: Machine, k: nat, error: VMError, v': Machine) {
    && RunMachine(v, k).Some?
    && var o := StepMachine(RunMachine(v, k).value);
       o.fault.Some? && o.fault.value.error == error && o.machine == v'
  }

  ghost predicate HaltsWithin(v: Machine, budget: nat) {
    RunMachine(v, budget).Some? && RunMachine(v, budget).value.halted
  }

  lemma OneStep(v: Machine)
    ensures RunMachine(v, 1) == if StepMachine(v).fault.Some? then None else Some(StepMachine(v).machine)
  {
    hide StepMachine;
    var o := StepMachine(v);
    assert RunMachine(o.machine, 0) == Some(o.machine);
  }

  lemma {:induction false} HaltedStays(v: Machine, n: nat)
    requires v.halted
    ensures RunMachine(v, n) == Some(v)
    decreases n
  {
    hide ExecuteInstruction;
    if n > 0 {
      HaltedStays(v, n - 1);
    }
  }

  lemma {:induction false} FaultIsFinal(v: Machine, m: nat, n: nat)
    requires m <= n && RunMachine(v, m).None?
    ensures RunMachine(v, n).None?
    decreases m
  {
    hide StepMachine;
    if m > 0 && StepMachine(v).fault.None? {
      FaultIsFinal(StepMachine(v).machine, m - 1, n - 1);
    }
  }

  /** No step runs out of budget. */
  lemma StepFaultKind(v: Machine)
    ensures StepMachine(v).fault.Some? ==> !StepMachine(v).fault.value.error.BudgetExhausted?
  {
    hide Invoke, WriteU64, ReadU64, BranchAddress, BranchTaken, EvaluateBinary, EvaluateUnary, MaskFlags, Decode;
  }
}
