/** The tool chain without hypotheses about its own stages: a section that is well formed builds, the
    optimizer keeps it well formed, and both images finish alike. */
module EndToEnd {
  import opened Words
  import opened Isa
  import opened Memory
  import opened Syscall
  import opened Ir
  import opened Codec
  import opened Passes
  import opened ControlFlowGraph
  import opened Accounting
  import opened PassFacts
  import opened AssemblySpec
  import opened AssemblerProof
  import opened LinkSpec
  import opened LinkLoads
  import opened VmSpec
  import opened OptimizerProof
  import opened SettledSections
  import opened TextImage
  import opened BackEnd
  import opened Compiler
  import opened Buildable
  import C = CompactProof
  import F = FoldProof

  /** A code section whose symbols are its own labels, whose instructions encode, that fits a region,
      and in which the entry label and every branch target have a terminator behind them. */
  ghost predicate WellMade(u: Unit) {
    && u.options.Valid() && u.options.bases == DEFAULT_BASES
    && Ready(u.alignment, u.items, u.globals) && Settled(u.items)
    && u.options.entry in u.globals && Anchored(u.items, LabelMap(u.items)[u.options.entry])
  }

  // ----- a well-made section builds -----

  lemma AnchoredInside(items: seq<Item>, p: nat)
    requires CodeOnly(items) && p < |items| && Anchored(items, p)
    ensures TrueOffset(items, p) < TrueOffset(items, |items|)
  {
    var j :| p < j < |items| && !items[j].Label? && (items[j].Instr? ==> IsTerminator(items[j].ins.machine.opcode));
    OffsetsGrow(items, p, j);
    OffsetsGrow(items, j + 1, |items|);
  }

  /** Every well-made section assembles, links with the default bases, and loads. */
  lemma WellMadeBuilds(u: Unit, world: World)
    requires WellMade(u)
    ensures Builds(u, world) && WellPlaced(u) && CodeOnly(u.items) && UniqueLabels(u.items)
  {
    hide Assemble, Link, LoadImage, Anchored, Settled, OperandsOk, CodeOnly, UniqueLabels, LabelMap, TrueOffset, WidthsOk, AlignedCode;
    CodeOnlyPlaced(u.items);
    AnchoredInside(u.items, LabelMap(u.items)[u.options.entry]);
    Links(u.alignment, u.items, u.globals, u.options);
    DefaultLinkLoads([Assemble(TextModule(u.alignment, u.items, u.globals)).value], u.options, world);
  }

  // ----- the optimizer keeps a section well made -----

  lemma {:induction false} CodeSize(items: seq<Item>)
    requires CodeOnly(items)
    ensures TrueOffset(items, |items|) == 8 * InstructionCount(items)
  {
    if items != [] {
      var init, last := items[..|items| - 1], items[|items| - 1];
      CodeSize(init);
      PrefixOffset(items, |items| - 1, |items| - 1);
    }
  }

  lemma {:induction false} PrefixOffset(items: seq<Item>, m: nat, n: nat)
    requires n <= m <= |items|
    ensures TrueOffset(items[..m], n) == TrueOffset(items, n)
  {
    if n > 0 {
      PrefixOffset(items, m, n - 1);
    }
  }

  /** The rewrites of a pass leave operands that encode and symbols that are labels. */
  lemma PeepholeOperand(items: seq<Item>, remove: seq<bool>, i: nat)
    requires |remove| == |items| && i < |items| && items[i].Instr? && OperandsOk(items)
    ensures PeepholeItem(items, remove, i).Instr? && OperandOk(items, PeepholeItem(items, remove, i).ins)
  {
    hide LabelMap, PackFields, FitsSigned, PairStart;
    assert OperandOk(items, items[i].ins);
    if PeepholeItem(items, remove, i) != items[i] {
      PairOps(items, remove, i);
    }
  }

  lemma PairOps(items: seq<Item>, remove: seq<bool>, i: nat)
    requires |remove| == |items| && PairStart(items, remove, i)
    ensures i + 1 < |items| && IsOp(items, i, PUSH) && IsOp(items, i + 1, POP)
  {
  }

  lemma FoldOperand(items0: seq<Item>, items: seq<Item>, remove: seq<bool>, i: nat)
    requires |remove| == |items| && i < |items| && items[i].Instr? && OperandOk(items0, items[i].ins)
    ensures FoldItem(items, remove, i).Instr? && OperandOk(items0, FoldItem(items, remove, i).ins)
  {
    hide LabelMap, ConstantsAt, FlagsNeeded, FoldedValue, Encode;
    var ins := items[i].ins;
    var v := FoldedValue(ins, ConstantsAt(items, remove, i), !FlagsNeeded(items, i + 1));
    if !remove[i] && v.Some? {
      F.FoldedFits(ins, ConstantsAt(items, remove, i), !FlagsNeeded(items, i + 1));
      ConstantEncodes(ins.machine, v.value);
    }
  }

  lemma ConstantEncodes(m: Instruction, value: u64)
    requires FitsImmediate(value)
    ensures Encode(LoadConstant(m, value)).Ok?
  {
    hide PackFields;
    Powers();
  }

  /** Item by item through the whole pass. */
  lemma PassOperand(items: seq<Item>, i: nat)
    requires UniqueLabels(items) && OperandsOk(items) && i < |items| && items[i].Instr?
    ensures PassMarked(items).0[i].Instr? && OperandOk(items, PassMarked(items).0[i].ins)
  {
    hide PeepholeItem, FoldItem, OperandsOk, OperandOk, IsDeadStore, IsIdentity, JumpsToNext, Reachable;
    var q := Steps(items, map[]);
    StepsArePasses(items, map[]);
    assert q[2].items[i] == PeepholeItem(items, q[1].remove, i);
    assert q[4].items[i] == FoldItem(q[2].items, q[3].remove, i);
    PeepholeOperand(items, q[1].remove, i);
    FoldOperand(items, q[2].items, q[3].remove, i);
  }

  /** A pass keeps the labels, by name. */
  lemma PassLabels(items: seq<Item>)
    requires UniqueLabels(items)
    ensures LabelMap(Pass(items)).Keys == LabelMap(items).Keys
    ensures forall name :: name in LabelMap(items) ==>
      LabelMap(items)[name] <= |PassMarked(items).1| == |items|
      && LabelMap(Pass(items))[name] == KeptBefore(PassMarked(items).1, LabelMap(items)[name])
  {
    hide PassMarked, LabelMap;
    var r := PassMarked(items);
    var p := Program(r.0, r.1, map[]);
    PassKinds(items);
    KindsKeepLabels(items, r.0);
    SameLabelMap(items, r.0);
    assert C.LabelsKept(p);
    C.LabelsMove(p);
  }

  lemma PassOperands(items: seq<Item>)
    requires UniqueLabels(items) && OperandsOk(items)
    ensures OperandsOk(Pass(items))
  {
    hide PassMarked, LabelMap, Encode;
    var r, after := PassMarked(items), Pass(items);
    PassLabels(items);
    PassKinds(items);
    forall i: nat | i < |after| && after[i].Instr?
      ensures OperandOk(after, after[i].ins)
    {
      var j := C.KeptFrom(r.0, r.1, i);
      PassOperand(items, j);
    }
  }

  lemma EntryStays(items: seq<Item>, name: string)
    requires UniqueLabels(items) && Settled(items) && name in LabelMap(items) && Anchored(items, LabelMap(items)[name])
    ensures name in LabelMap(Pass(items)) && Anchored(Pass(items), LabelMap(Pass(items))[name])
  {
    hide PassMarked, LabelMap, Anchored;
    var r, target := PassMarked(items), LabelMap(items)[name];
    PassKinds(items);
    PassLabels(items);
    var t := SurvivingAnchor(items, target);
    AnchorMoves(items, r.0, r.1, target, t);
  }

  lemma PassCodeOnly(items: seq<Item>)
    requires CodeOnly(items) && UniqueLabels(items)
    ensures CodeOnly(Pass(items)) && TrueOffset(Pass(items), |Pass(items)|) <= TrueOffset(items, |items|)
  {
    hide PassMarked, CodeOnly, UniqueLabels, TrueOffset;
    PassCounts(items);
    NonCodeLabels(items);
    NonCodeLabels(Pass(items));
    CodeSize(items);
    CodeSize(Pass(items));
  }

  /** One round of the optimizer keeps a section well made. */
  lemma PassWellMade(u: Unit)
    requires WellMade(u)
    ensures WellMade(u.(items := Pass(u.items)))
  {
    hide Pass, CodeOnly, UniqueLabels, TrueOffset, OperandsOk, Settled, Anchored, LabelMap;
    PassCodeOnly(u.items);
    PassKeepsSettled(u.items);
    PassOperands(u.items);
    PassLabels(u.items);
    EntryStays(u.items, u.options.entry);
    AnchoredSomewhere(Pass(u.items), LabelMap(Pass(u.items))[u.options.entry]);
  }

  lemma AnchoredSomewhere(items: seq<Item>, p: nat)
    requires Anchored(items, p)
    ensures items != []
  {
  }

  lemma {:induction false} OptimizedWellMade(u: Unit, rounds: nat)
    requires WellMade(u)
    ensures WellMade(OptimizedUnit(u, rounds))
    decreases rounds
  {
    hide Pass, WellMade;
    if rounds > 0 {
      PassWellMade(u);
      OptimizedWellMade(u.(items := Pass(u.items)), rounds - 1);
    }
  }

  // ----- the whole tool chain -----

  /** Every well-made section builds, with the optimizer and without it, and if it halts, both images
      run to the end: same SP, exit code, output and heap, and the same registers up to where the code
      has moved. */
  lemma WellMadeSectionsFinishAlike(u: Unit, world: World, n: nat, t: State, rounds: nat)
    returns (steps: nat, v: Machine, steps': nat, v': Machine)
    requires WellMade(u)
    requires Run(Whole(u.items, map[]), Start(u.items, u.options.entry, FreshHeap(), world), n) == Some(t) && t.halted
    ensures Builds(u, world) && Builds(OptimizedUnit(u, rounds), world) && u.options.Valid()
    ensures RunMachine(Built(u, world), steps) == Some(v)
    ensures RunMachine(Built(OptimizedUnit(u, rounds), world), steps') == Some(v')
    ensures FinishAlike(u, OptimizedUnit(u, rounds), CodeMap(u.items, rounds), t, v, v')
  {
    hide *;
    WellMadeBuilds(u, world);
    OptimizedWellMade(u, rounds);
    WellMadeBuilds(OptimizedUnit(u, rounds), world);
    PlacedUnit(u);
    PlacedUnit(OptimizedUnit(u, rounds));
    OptimizedItems(u, rounds);
    steps, v, steps', v' := OptimizedImageFinishesAlike(u, world, n, t, rounds);
  }

  lemma OptimizedItems(u: Unit, rounds: nat)
    ensures OptimizedUnit(u, rounds).items == Optimized(u.items, rounds)
  {
  }

  lemma PlacedUnit(u: Unit)
    requires WellPlaced(u)
    ensures u.items != [] && u.options.Valid()
  {
  }
}
