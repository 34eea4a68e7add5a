/** The tool chain end to end: a code section is assembled, linked, loaded and run, with or without
    the optimizer in front, and finishes the same way. */
module Compiler {
  import opened Words
  import opened Isa
  import opened Memory
  import opened Syscall
  import opened Ir
  import opened CodePointers
  import opened Passes
  import opened ControlFlowGraph
  import opened Accounting
  import opened AssemblySpec
  import opened AssemblerProof
  import opened Executables
  import opened LinkSpec
  import opened TextImage
  import opened VmSpec
  import opened HeapMemory
  import opened OptimizerProof
  import opened BackEnd
  import SettledSections

  // ----- loading -----

  /** The data memory a program starts with. */
  function FreshHeap(): Memory {
    var m := RawMemory([Region("heap", HEAP_BASE, HEAP_SIZE, READ_WRITE, Zeros(HEAP_SIZE))], HEAP_BASE);
    assert m.regions[0].Valid();
    m
  }

  function OneSegmentImage(entry: u64, base: u64, code: seq<u8>): Executable
    requires |code| < TWO64
  {
    Executable(entry, [Segment(Text, FlagsOf(Text), base, |code|, code)])
  }

  lemma AddedData(m: Memory, name: string, base: u64, size: u64, permissions: Permission, initial: seq<u8>)
    requires AddRegion(m, name, base, size, permissions, initial).Some? && |initial| <= size
    ensures AddRegion(m, name, base, size, permissions, initial).value
         == RawMemory(m.regions + [Region(name, base, size, permissions, initial + Zeros(size - |initial|))],
                      if name == "heap" then base else m.heapNext)
  {
    assert initial[..|initial|] == initial;
  }

  lemma LoadedText(entry: u64, base: u64, code: seq<u8>, world: World)
    requires 0 < |code| < TWO64 && LoadImage(OneSegmentImage(entry, base, code), world).Ok?
    ensures var v := LoadImage(OneSegmentImage(entry, base, code), world).value;
      && ThreeRegions(v.memory) && v.memory.regions[0].base == base && v.memory.regions[0].data == code
      && |v.memory.regions[1].data| == STACK_SIZE && HeapPart(v.memory) == FreshHeap()
      && v == Machine(NO_REGISTERS, entry, STACK_TOP, 0, false, 0, 0, v.memory, world)
  {
    hide Validate, AddRegion, Zeros;
    var e := OneSegmentImage(entry, base, code);
    assert MapSegments(e.segments, 0) == Ok(EMPTY_MEMORY);
    AddedData(EMPTY_MEMORY, ".text", base, |code|, PermissionsOf(FlagsOf(Text)), code);
    var image := MapSegments(e.segments, 1).value;
    assert code + Zeros(0) == code;
    assert image.regions == [Region(".text", base, |code|, PermissionsOf(FlagsOf(Text)), code)];
    AddedData(image, "stack", STACK_LIMIT, STACK_SIZE, READ_WRITE, []);
    var stack := AddRegion(image, "stack", STACK_LIMIT, STACK_SIZE, READ_WRITE, []).value;
    AddedData(stack, "heap", HEAP_BASE, HEAP_SIZE, READ_WRITE, []);
    assert [] + Zeros(HEAP_SIZE) == Zeros(HEAP_SIZE);
    assert [] + Zeros(STACK_SIZE) == Zeros(STACK_SIZE);
  }

  // ----- the back end -----

  /** A code section together with how it is assembled and linked. */
  datatype Unit = Unit(alignment: u64, items: seq<Item>, globals: seq<string>, options: LinkOptions)

  /** The unit assembles, links and loads. */
  ghost predicate Builds(u: Unit, world: World) {
    && u.options.Valid() && Assemble(TextModule(u.alignment, u.items, u.globals)).Ok?
    && Link([Assemble(TextModule(u.alignment, u.items, u.globals)).value], u.options).Ok?
    && LoadImage(Link([Assemble(TextModule(u.alignment, u.items, u.globals)).value], u.options).value, world).Ok?
  }

  /** The machine with the unit loaded. */
  ghost function Built(u: Unit, world: World): Machine
    requires Builds(u, world)
  {
    LoadImage(Link([Assemble(TextModule(u.alignment, u.items, u.globals)).value], u.options).value, world).value
  }

  /** What the simulation needs of the unit. */
  ghost predicate WellPlaced(u: Unit) {
    && u.options.Valid() && u.items != [] && WidthsOk(u.items) && AlignedCode(u.items)
    && u.options.entry in LabelMap(u.items) && u.options.bases[0] % 8 == 0
  }

  lemma StartMatches(items: seq<Item>, base: u64, code: seq<u8>, entry: string, world: World)
    requires entry in LabelMap(items) && 0 < |code| < TWO64
    requires LoadImage(OneSegmentImage(CodeAddress(items, base, LabelMap(items)[entry]), base, code), world).Ok?
    ensures Matches(items, base, code, Start(items, entry, FreshHeap(), world),
              LoadImage(OneSegmentImage(CodeAddress(items, base, LabelMap(items)[entry]), base, code), world).value)
  {
    hide LoadImage, CodeAddress, ThreeRegions, FreshHeap, OneSegmentImage;
    LoadedText(CodeAddress(items, base, LabelMap(items)[entry]), base, code, world);
  }

  /** Back-end correctness: if the section runs from its entry label to a state t, the machine with its
      image loaded runs to a matching state: same registers, SP, FLAGS, heap, output and exit code,
      code addresses being the addresses of the items, with one machine step per instruction. */
  lemma BackEndSimulation(u: Unit, world: World, n: nat, t: State) returns (code: seq<u8>, k: nat)
    requires WellPlaced(u) && Builds(u, world)
    requires Run(Whole(u.items, map[]), Start(u.items, u.options.entry, FreshHeap(), world), n) == Some(t)
    ensures CodeImage(u.items, u.options.bases[0], code)
    ensures RunMachine(Built(u, world), k).Some?
    ensures Matches(u.items, u.options.bases[0], code, t, RunMachine(Built(u, world), k).value)
  {
    hide Assemble, Link, LoadImage, Matches, Run, RunMachine, CodeImage, CodeAddress, Start, FreshHeap;
    code := TextLinks(u.alignment, u.items, u.globals, u.options);
    StartMatches(u.items, u.options.bases[0], code, u.options.entry, world);
    k := RunMatches(u.items, u.options.bases[0], code, Start(u.items, u.options.entry, FreshHeap(), world), Built(u, world), n);
  }

  // ----- with the optimizer -----

  /** Only instructions and labels. */
  predicate CodeOnly(items: seq<Item>) {
    forall i :: 0 <= i < |items| ==> items[i].Instr? || items[i].Label?
  }

  lemma {:induction false} CodeOnlyOffsets(items: seq<Item>, n: nat)
    requires CodeOnly(items) && n <= |items|
    ensures TrueOffset(items, n) % 8 == 0
  {
    if n > 0 {
      CodeOnlyOffsets(items, n - 1);
    }
  }

  lemma CodeOnlyPlaced(items: seq<Item>)
    requires CodeOnly(items)
    ensures WidthsOk(items) && AlignedCode(items)
  {
    hide TrueOffset;
    forall i | 0 <= i < |items|
      ensures TrueOffset(items, i) % 8 == 0
    {
      CodeOnlyOffsets(items, i);
    }
  }

  lemma {:induction false} NonCodeLabels(items: seq<Item>)
    ensures CodeOnly(items) <==> forall k :: 0 <= k < |NonCode(items)| ==> NonCode(items)[k].Label?
  {
    if items != [] {
      var init, last := items[..|items| - 1], items[|items| - 1];
      NonCodeLabels(init);
      assert items == init + [last];
      assert NonCode(items) == if last.Instr? then NonCode(init) else NonCode(init) + [last];
      assert CodeOnly(items) <==> CodeOnly(init) && (last.Instr? || last.Label?) by {
        assert forall i :: 0 <= i < |init| ==> items[i] == init[i];
      }
      if !last.Instr? {
        assert NonCode(items)[|NonCode(init)|] == last;
        assert forall k :: 0 <= k < |NonCode(init)| ==> NonCode(items)[k] == NonCode(init)[k];
      }
    }
  }

  lemma {:induction false} OptimizedCodeOnly(items: seq<Item>, rounds: nat)
    requires CodeOnly(items) && UniqueLabels(items)
    ensures CodeOnly(Optimized(items, rounds))
    decreases rounds
  {
    hide Pass, UniqueLabels, CodeOnly;
    if rounds > 0 {
      PassCounts(items);
      NonCodeLabels(items);
      NonCodeLabels(Pass(items));
      SettledSections.PassUnique(items);
      OptimizedCodeOnly(Pass(items), rounds - 1);
    }
  }

  /** How a register of the two machines compares: numbers are equal, code addresses are the addresses
      of the same item before and after optimization. */
  ghost predicate SameRegister(u: Unit, u': Unit, k: seq<nat>, x: Value, word: u64, word': u64)
    requires u.options.Valid()
  {
    match x
    case Num(n) => word == n == word'
    case CodeAt(i) =>
      && i < |k| && i <= |u.items| && k[i] <= |u'.items|
      && word == CodeAddress(u.items, u.options.bases[0], i) && word' == CodeAddress(u'.items, u.options.bases[0], k[i])
  }

  /** The optimized section. */
  ghost function OptimizedUnit(u: Unit, rounds: nat): Unit { u.(items := Optimized(u.items, rounds)) }

  /** The two machines have finished in the same state: same SP, exit code, output and heap, and the same
      registers up to where the code has moved. */
  ghost predicate FinishAlike(u: Unit, u': Unit, k: seq<nat>, t: State, v: Machine, v': Machine)
    requires u.options.Valid()
  {
    && v.halted && v'.halted && v'.sp == v.sp && v'.exitCode == v.exitCode && v'.world == v.world
    && |v.memory.regions| == 3 == |v'.memory.regions| && HeapPart(v'.memory) == HeapPart(v.memory)
    && forall r: Reg :: SameRegister(u, u', k, t.regs[r], v.regs[r], v'.regs[r])
  }

  lemma FinalStates(u: Unit, u': Unit, k: seq<nat>, code: seq<u8>, code': seq<u8>, t: State, t': State, v: Machine, v': Machine)
    requires u.options.Valid() && u'.options == u.options && |k| == |u.items| + 1
    requires Matches(u.items, u.options.bases[0], code, t, v) && Matches(u'.items, u.options.bases[0], code', t', v')
    requires SameOutcome(k, t, t')
    ensures FinishAlike(u, u', k, t, v, v')
  {
    hide StackHolds, CodeAddress;
    forall r: Reg
      ensures SameRegister(u, u', k, t.regs[r], v.regs[r], v'.regs[r])
    {
      assert t'.regs[r] == RenameValue(k, t.regs[r]);
      assert v'.regs[r] == Concrete(u'.items, u.options.bases[0], t'.regs[r]);
    }
  }

  /** The whole tool chain preserves meaning: if a code section halts, the machine halts on its image
      and on the image of its optimized form, with the same SP, exit code, output and heap, and the
      same registers up to where the code has moved. */
  lemma OptimizedImageFinishesAlike(u: Unit, world: World, n: nat, t: State, rounds: nat)
    returns (steps: nat, v: Machine, steps': nat, v': Machine)
    requires WellPlaced(u) && CodeOnly(u.items) && UniqueLabels(u.items) && Optimized(u.items, rounds) != []
    requires Builds(u, world) && Builds(OptimizedUnit(u, rounds), world)
    requires Run(Whole(u.items, map[]), Start(u.items, u.options.entry, FreshHeap(), world), n) == Some(t) && t.halted
    ensures RunMachine(Built(u, world), steps) == Some(v)
    ensures RunMachine(Built(OptimizedUnit(u, rounds), world), steps') == Some(v')
    ensures FinishAlike(u, OptimizedUnit(u, rounds), CodeMap(u.items, rounds), t, v, v')
  {
    hide *;
    var u' := OptimizedUnit(u, rounds);
    EntryGiven(u);
    var n', t' := OptimizerPreserves(u.items, map[], u.options.entry, FreshHeap(), world, n, t, rounds);
    OptimizedPlaced(u, rounds);
    var code, code';
    code, steps := BackEndSimulation(u, world, n, t);
    code', steps' := BackEndSimulation(u', world, n', t');
    v, v' := RunMachine(Built(u, world), steps).value, RunMachine(Built(u', world), steps').value;
    FinalStates(u, u', CodeMap(u.items, rounds), code, code', t, t', v, v');
  }

  lemma EntryGiven(u: Unit)
    requires WellPlaced(u)
    ensures u.options.Valid() && u.options.entry in LabelMap(u.items)
  {
  }

  lemma OptimizedPlaced(u: Unit, rounds: nat)
    requires WellPlaced(u) && CodeOnly(u.items) && UniqueLabels(u.items)
    requires Optimized(u.items, rounds) != [] && u.options.entry in LabelMap(Optimized(u.items, rounds))
    ensures WellPlaced(OptimizedUnit(u, rounds)) && OptimizedUnit(u, rounds).items == Optimized(u.items, rounds)
    ensures OptimizedUnit(u, rounds).options == u.options
  {
    hide LabelMap, WidthsOk, AlignedCode, UniqueLabels, CodeOnly, Optimized;
    OptimizedCodeOnly(u.items, rounds);
    CodeOnlyPlaced(Optimized(u.items, rounds));
  }
}
