/** What every state of every run keeps: SP stays aligned inside the stack, FLAGS inside its mask, the
    regions where they are, and no executable byte ever changes. */
module VmInvariant {
  import opened Words
  import opened Isa
  import opened Alu
  import opened ByteOrder
  import opened Memory
  import opened Syscall
  import opened Codec
  import opened Executables
  import opened VmSpec

  predicate SameFrame(a: Region, b: Region) {
    a.name == b.name && a.base == b.base && a.size == b.size && a.permissions == b.permissions
  }

  /** `m` is `m0` with at most writable bytes changed. */
  ghost predicate SameShape(m0: Memory, m: Memory) {
    && |m.regions| == |m0.regions|
    && forall k :: 0 <= k < |m.regions| ==>
         SameFrame(m0.regions[k], m.regions[k]) && (!m0.regions[k].permissions.write ==> m.regions[k].data == m0.regions[k].data)
  }

  /** No region is both writable and executable. */
  ghost predicate CodeProtected(m: Memory) {
    forall k :: 0 <= k < |m.regions| ==> !(m.regions[k].permissions.write && m.regions[k].permissions.exec)
  }

  ghost predicate Invariant(m0: Memory, v: Machine) {
    && v.sp % 8 == 0 && STACK_LIMIT <= v.sp <= STACK_TOP
    && v.flags <= FLAGS_MASK
    && SameShape(m0, v.memory)
  }

  lemma StoreKeepsShape(m0: Memory, m: Memory, address: u64, bytes: seq<u8>)
    requires SameShape(m0, m) && Store(m, address, bytes).Ok?
    ensures SameShape(m0, Store(m, address, bytes).value)
  {
    hide Splice;
    CheckAccessOk(m, address, |bytes|, Write);
  }

  lemma SyscallKeepsShape(m0: Memory, number: u64, a1: u64, a2: u64, a3: u64, m: Memory, w: World)
    requires SameShape(m0, m) && Invoke(number, a1, a2, a3, m, w).Some?
    ensures SameShape(m0, Invoke(number, a1, a2, a3, m, w).value.memory)
  {
    hide Store, Fetch;
    if number == READ {
      var count := if a3 < |w.input| then a3 else |w.input|;
      if w.input[..count] != [] {
        StoreKeepsShape(m0, m, a2, w.input[..count]);
      }
    }
  }

  lemma PushKeeps(m0: Memory, v: Machine, value: u64, pc: u64)
    requires Invariant(m0, v)
    ensures Invariant(m0, Push(v, value, pc).machine)
  {
    hide SameShape, Store, Bytes;
    if v.sp >= STACK_LIMIT + 8 && WriteU64(v.memory, v.sp - 8, value).Ok? {
      StoreKeepsShape(m0, v.memory, v.sp - 8, Bytes(value, 8));
    }
  }

  lemma PopKeeps(m0: Memory, v: Machine, pc: u64)
    requires Invariant(m0, v) && Pop(v, pc).Ok?
    ensures Invariant(m0, Pop(v, pc).value.1)
  {
    hide SameShape, Fetch;
  }

  lemma ExecuteKeeps(m0: Memory, v: Machine, m: Instruction, pc: u64)
    requires Invariant(m0, v)
    ensures Invariant(m0, ExecuteInstruction(v, m, pc).machine)
  {
    hide SameShape, Store, Bytes, Invoke, Fetch, Push, Pop, BranchAddress, BranchTaken, EvaluateBinary, EvaluateUnary, MaskFlags;
    match m.opcode
    case SYSCALL =>
      if Invoke(ToU64(m.imm), v.regs[1], v.regs[2], v.regs[3], v.memory, v.world).Some? {
        SyscallKeepsShape(m0, ToU64(m.imm), v.regs[1], v.regs[2], v.regs[3], v.memory, v.world);
      }
    case STORE =>
      var address := Wrap(v.regs[m.dst] + ToU64(m.imm));
      if WriteU64(v.memory, address, v.regs[m.src]).Ok? {
        StoreKeepsShape(m0, v.memory, address, Bytes(v.regs[m.src], 8));
      }
    case PUSH => PushKeeps(m0, v, v.regs[m.dst], pc);
    case CALL => PushKeeps(m0, v, v.pc, pc);
    case POP | RET =>
      if Pop(v, pc).Ok? {
        PopKeeps(m0, v, pc);
      }
    case _ => ArithmeticKeeps(m0, v, m, pc);
  }

  lemma ArithmeticKeeps(m0: Memory, v: Machine, m: Instruction, pc: u64)
    requires Invariant(m0, v)
    ensures Invariant(m0, ExecuteArithmetic(v, m, pc).machine)
  {
    hide SameShape, EvaluateBinary, EvaluateUnary;
    forall flags: u64
      ensures MaskFlags(flags) <= FLAGS_MASK
    {
      MaskBound(flags);
    }
  }

  lemma MaskBound(flags: u64)
    ensures MaskFlags(flags) <= FLAGS_MASK
  {
    Bits.LowBound(flags, 4);
    Bits.AndMask(flags, 4);
    assert Pow2(4) == 16;
  }

  /** One step keeps the invariant, also when it faults. */
  lemma StepKeeps(m0: Memory, v: Machine)
    requires Invariant(m0, v)
    ensures Invariant(m0, StepMachine(v).machine)
  {
    hide SameShape, ExecuteInstruction, Fetch, Decode;
    var v' := v.(pc := Wrap(v.pc + INSTRUCTION_SIZE), count := Wrap(v.count + 1));
    var word := FetchInstruction(v.memory, v.pc);
    if !v.halted && v.pc % INSTRUCTION_SIZE == 0 && word.Ok? && Decode(word.value).Ok? {
      ExecuteKeeps(m0, v', Decode(word.value).value, v.pc);
    }
  }

  /** The state after n calls of `step`, whatever they returned. */
  function After(v: Machine, n: nat): Machine
    decreases n
  {
    if n == 0 then v else After(StepMachine(v).machine, n - 1)
  }

  lemma {:induction false} RunKeeps(m0: Memory, v: Machine, n: nat)
    requires Invariant(m0, v)
    ensures Invariant(m0, After(v, n))
    decreases n
  {
    hide StepMachine;
    if n > 0 {
      StepKeeps(m0, v);
      RunKeeps(m0, StepMachine(v).machine, n - 1);
    }
  }

  // ----- what loading sets up -----

  lemma AddedRegion(m: Memory, name: string, base: u64, size: u64, permissions: Permission, initial: seq<u8>)
    requires AddRegion(m, name, base, size, permissions, initial).Some?
    ensures var m' := AddRegion(m, name, base, size, permissions, initial).value;
      && |m'.regions| == |m.regions| + 1 && m'.regions[..|m.regions|] == m.regions
      && m'.regions[|m.regions|].name == name && m'.regions[|m.regions|].base == base && m'.regions[|m.regions|].size == size
      && m'.regions[|m.regions|].permissions == permissions
      && (|initial| <= size ==> m'.regions[|m.regions|].data[..|initial|] == initial)
      && m'.heapNext == if name == "heap" then base else m.heapNext
  {
  }

  /** The region is the segment in memory, its initial bytes in front. */
  ghost predicate Maps(s: Segment, region: Region) {
    && region.base == s.address && region.size == s.size && region.permissions == PermissionsOf(s.flags)
    && s.data <= region.data
  }

  lemma {:induction false} SegmentsMapped(segments: seq<Segment>, n: nat)
    requires n <= |segments| && MapSegments(segments, n).Ok?
    requires forall k :: 0 <= k < n ==> SegmentFault(segments[k]).None?
    ensures var m := MapSegments(segments, n).value;
      && |m.regions| == n && CodeProtected(m) && m.heapNext == 0
      && forall k :: 0 <= k < n ==> Maps(segments[k], m.regions[k])
  {
    if n > 0 {
      hide AddRegion, Maps, PermissionsOf, CodeProtected, SegmentFault;
      SegmentsMapped(segments, n - 1);
      OneMoreMapped(MapSegments(segments, n - 1).value, segments[n - 1]);
    }
  }

  lemma OneMoreMapped(m: Memory, s: Segment)
    requires MapSegment(m, s).Some? && SegmentFault(s).None? && CodeProtected(m)
    ensures var m' := MapSegment(m, s).value;
      && |m'.regions| == |m.regions| + 1 && CodeProtected(m') && m'.heapNext == m.heapNext
      && Maps(s, m'.regions[|m.regions|]) && forall k :: 0 <= k < |m.regions| ==> m'.regions[k] == m.regions[k]
  {
    hide AddRegion;
    AddedRegion(m, RegionName(s.kind), s.address, s.size, PermissionsOf(s.flags), s.data);
    var m' := MapSegment(m, s).value;
    assert forall k :: 0 <= k < |m.regions| ==> m'.regions[k] == m'.regions[..|m.regions|][k];
  }

  /** A freshly loaded machine satisfies the invariant, and its code is protected. */
  lemma LoadEstablishes(e: Executable, world: World)
    requires LoadImage(e, world).Ok?
    ensures var v := LoadImage(e, world).value; Invariant(v.memory, v) && CodeProtected(v.memory)
  {
    hide AddRegion, Validate;
    ValidImage(e);
    SegmentsMapped(e.segments, |e.segments|);
    var image := MapSegments(e.segments, |e.segments|).value;
    var stack := AddRegion(image, "stack", STACK_LIMIT, STACK_SIZE, READ_WRITE, []).value;
    AddedRegion(image, "stack", STACK_LIMIT, STACK_SIZE, READ_WRITE, []);
    AddedRegion(stack, "heap", HEAP_BASE, HEAP_SIZE, READ_WRITE, []);
    var m := AddRegion(stack, "heap", HEAP_BASE, HEAP_SIZE, READ_WRITE, []).value;
    assert forall k :: 0 <= k < |stack.regions| ==> m.regions[k] == m.regions[..|stack.regions|][k] == stack.regions[k];
    assert forall k :: 0 <= k < |image.regions| ==> stack.regions[k] == stack.regions[..|image.regions|][k] == image.regions[k];
  }

  /** Instruction fetch sees the same word in every state that keeps the invariant. */
  lemma FetchConstant(m0: Memory, m: Memory, pc: u64)
    requires SameShape(m0, m) && CodeProtected(m0)
    ensures FetchInstruction(m, pc) == FetchInstruction(m0, pc)
  {
    MapRegions(m0, m);
    var i := RegionAt(m0.regions, pc);
    assert RegionAt(m.regions, pc) == i;
    if i < |m0.regions| {
      assert SameFrame(m0.regions[i], m.regions[i]);
    }
  }

  /** Every state of every run after a load, faults included: SP 8-aligned inside the stack, FLAGS
      within its mask, the regions in place and disjoint, and at every address the same instruction
      as when the program was loaded. */
  lemma WholeRunInvariant(e: Executable, world: World, n: nat, pc: u64)
    requires LoadImage(e, world).Ok?
    ensures var v0 := LoadImage(e, world).value; var v := After(v0, n);
      && v.sp % 8 == 0 && STACK_LIMIT <= v.sp <= STACK_TOP && v.flags <= FLAGS_MASK
      && SameShape(v0.memory, v.memory)
      && FetchInstruction(v.memory, pc) == FetchInstruction(v0.memory, pc)
  {
    hide SameShape, LoadImage, FetchInstruction;
    var v0 := LoadImage(e, world).value;
    LoadEstablishes(e, world);
    RunKeeps(v0.memory, v0, n);
    FetchConstant(v0.memory, After(v0, n).memory, pc);
  }

  /** What an instruction does to SP. */
  function StackEffect(op: Opcode): int {
    if op.PUSH? || op.CALL? then -8 else if op.POP? || op.RET? then 8 else 0
  }

  /** The instruction a step executes, if it gets that far. */
  function NextInstruction(v: Machine): Option<Instruction> {
    if v.halted || v.pc % INSTRUCTION_SIZE != 0 then None
    else
      var word := FetchInstruction(v.memory, v.pc);
      if word.Err? then None
      else
        var m := Decode(word.value);
        if m.Err? then None else Some(m.value)
  }

  /** SP moves down a word at PUSH and CALL, up a word at POP and RET, and at nothing else; a step that
      faults leaves it. */
  lemma StackMoves(v: Machine)
    requires STACK_LIMIT <= v.sp <= STACK_TOP
    ensures var o := StepMachine(v);
      o.machine.sp == if o.fault.Some? || NextInstruction(v).None? then v.sp else v.sp + StackEffect(NextInstruction(v).value.opcode)
  {
    hide Invoke, Fetch, Store, BranchAddress, BranchTaken, EvaluateBinary, EvaluateUnary, MaskFlags, Decode;
  }
}
