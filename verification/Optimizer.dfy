/** The optimizer: one round of all passes over a section, up to eight rounds, over every code
    section of a module. */
module Optimizer {
  import opened Words
  import opened Isa
  import opened Ir
  import opened Passes
  import opened Flow
  import opened ControlFlowGraph
  import opened PassLoops
  import opened Accounting
  import opened PassFacts
  import opened SettledSections

  datatype OptLevel = O0 | O1

  // ----- one round -----

  lemma PeepholeKeepsInside(items: seq<Item>, remove: seq<bool>)
    requires |remove| == |items| && BranchesInside(items)
    ensures BranchesInside(PeepholeItems(items, remove))
  {
    hide LabelMap, PeepholeItems;
    var items' := PeepholeItems(items, remove);
    PeepholeLighter(items, remove);
    SameLabelMap(items, items');
    forall i | 0 <= i < |items'| && FollowedBranch(items', i)
      ensures !Trailing(items', LabelMap(items')[items'[i].ins.symbol.value.name])
    {
      BranchUntouched(items, remove, i);
      assert FollowedBranch(items, i);
      var p := LabelMap(items)[items[i].ins.symbol.value.name];
      assert !Trailing(items, p);
    }
  }

  lemma BranchUntouched(items: seq<Item>, remove: seq<bool>, i: nat)
    requires |remove| == |items| && i < |items|
    requires PeepholeItems(items, remove)[i].Instr? && IsBranch(PeepholeItems(items, remove)[i].ins.machine.opcode)
    ensures PeepholeItems(items, remove)[i] == items[i]
  {
    assert PeepholeItems(items, remove)[i] == PeepholeItem(items, remove, i);
  }

  lemma {:induction false} NoneMarked(n: nat)
    ensures CountTrue(NoMarks(n)) == 0
  {
    if n > 0 {
      NoneMarked(n - 1);
      assert NoMarks(n)[..n - 1] == NoMarks(n - 1);
    }
  }

  lemma {:induction false} MarksCount(s: seq<bool>, s': seq<bool>)
    requires |s| == |s'| && forall i :: 0 <= i < |s| && s[i] ==> s'[i]
    ensures CountTrue(s) <= CountTrue(s')
  {
    if s != [] {
      MarksCount(s[..|s| - 1], s'[..|s| - 1]);
    }
  }

  /** The three peephole stages of a round, on the shared marks. */
  ghost predicate Peepholed(items: seq<Item>, items1: seq<Item>, marks: seq<bool>) {
    var r0 := MarkUnreachable(items);
    items1 == PeepholeItems(items, r0) && marks == JumpMarks(items1, PeepholeMarks(items, r0))
  }

  method RunPeepholes(section: Section, remove: array<bool>, stats: OptStats) returns (changed: bool)
    requires remove[..] == NoMarks(|section.items|) && UniqueLabels(section.items) && BranchesInside(section.items)
    modifies section, remove, stats
    ensures Peepholed(old(section.items), section.items, remove[..]) && BranchesInside(section.items)
    ensures remove.Length == |section.items| == |old(section.items)|
    ensures stats.Removed() == old(stats.Removed()) + CountTrue(remove[..])
    ensures stats.instructionsBefore == old(stats.instructionsBefore)
    ensures changed <==> CountTrue(remove[..]) > 0
  {
    hide MarkUnreachable, PeepholeItems, PeepholeMarks, JumpMarks, CountTrue, BranchesInside;
    NoneMarked(|section.items|);
    PeepholeKeepsInside(section.items, MarkUnreachable(section.items));
    var c0 := RemoveUnreachable(section, remove, stats);
    var c1 := ReplacePairs(section, remove, stats);
    var c2 := DropJumps(section, remove, stats);
    changed := c0 || c1 || c2;
  }

  /** `runPasses`: all passes over shared marks, compacted once. */
  method RunPasses(section: Section, stats: OptStats) returns (changed: bool)
    requires UniqueLabels(section.items) && BranchesInside(section.items)
    modifies section, stats
    ensures section.items == Pass(old(section.items))
    ensures changed <==> PassMarked(old(section.items)) != (old(section.items), NoMarks(|old(section.items)|))
    ensures stats.Removed() == old(stats.Removed()) + CountTrue(PassMarked(old(section.items)).1)
    ensures stats.instructionsBefore == old(stats.instructionsBefore)
  {
    hide PeepholeItems, PeepholeMarks, JumpMarks, FoldItems, IdentityMarks, DeadStoreMarks, CountTrue, BranchesInside, Tiles, Kept;
    ghost var items := section.items;
    var remove := new bool[|section.items|](_ => false);
    assert remove[..] == NoMarks(|items|);
    changed := RunPeepholes(section, remove, stats);
    ghost var items1, r2 := section.items, remove[..];
    var flow := new ControlFlow(section);
    assert Tiles(items1, flow.blocks);
    var c := FoldConstants(section, remove, flow, stats);
    changed := changed || c;
    FoldKeepsFrame(items1, r2);
    FrameTiles(items1, section.items, flow.blocks);
    c := RemoveIdentities(section, remove, flow, stats);
    changed := changed || c;
    c := RemoveDeadStores(section, remove, flow, stats);
    changed := changed || c;
    assert PassMarked(items) == (section.items, remove[..]);
    ChangedMeans(items, items1, r2, changed);
    if changed {
      Compact(section, remove);
    } else {
      KeptAll(section.items, remove[..]);
    }
  }

  lemma ChangedMeans(items: seq<Item>, items1: seq<Item>, r2: seq<bool>, changed: bool)
    requires Peepholed(items, items1, r2)
    requires changed <==> CountTrue(PassMarked(items).1) > 0 || PassMarked(items).0 != items1
    ensures changed <==> PassMarked(items) != (items, NoMarks(|items|))
  {
    hide MarkUnreachable, PeepholeItems, PeepholeMarks, FoldItems, CountTrue;
    var r := PassMarked(items);
    NoneMarked(|items|);
    if CountTrue(r.1) > 0 {
      assert r.1 != NoMarks(|items|);
    } else {
      NoMark(r.1);
      PairLeavesMark(items, items1, r2);
      assert items1 == items;
    }
  }

  lemma PairLeavesMark(items: seq<Item>, items1: seq<Item>, r2: seq<bool>)
    requires Peepholed(items, items1, r2)
    ensures forall i :: 0 <= i < |items| && items1[i] != items[i] ==> i + 1 < |items| && PassMarked(items).1[i + 1]
  {
    hide MarkUnreachable, PeepholeItems, PeepholeMarks, FoldItems;
    PeepholeLighter(items, MarkUnreachable(items));
    assert forall i :: 0 <= i < |items| && r2[i] ==> PassMarked(items).1[i];
  }

  // ----- rounds -----

  lemma {:induction false} RoundsAdd(items: seq<Item>, m: nat, n: nat)
    ensures Optimized(items, m + n) == Optimized(Optimized(items, m), n)
    decreases m
  {
    if m > 0 {
      RoundsAdd(Pass(items), m - 1, n);
    }
  }

  lemma {:induction false} FixedPointStays(items: seq<Item>, n: nat)
    requires Pass(items) == items
    ensures Optimized(items, n) == items
    decreases n
  {
    if n > 0 {
      FixedPointStays(items, n - 1);
    }
  }

  /** Without the cap, the rounds end: each one that changes something makes the section lighter,
      so a fixed point is reached within `Weight(items)` rounds. */
  lemma {:induction false} FixedPointReached(items: seq<Item>)
    requires UniqueLabels(items)
    ensures Pass(Optimized(items, Weight(items))) == Optimized(items, Weight(items))
    decreases Weight(items)
  {
    hide PassMarked, Weight;
    PassWeight(items);
    if Pass(items) == items {
      FixedPointStays(items, Weight(items));
    } else {
      PassUnique(items);
      var n := Weight(Pass(items));
      FixedPointReached(Pass(items));
      FixedPointStays(Optimized(Pass(items), n), Weight(items) - 1 - n);
      RoundsAdd(Pass(items), n, Weight(items) - 1 - n);
    }
  }

  /** The graph stays in bounds in every round, which is what the source needs of its input. */
  ghost predicate StaysInside(items: seq<Item>, rounds: nat) {
    forall k :: 0 <= k < rounds ==> BranchesInside(Optimized(items, k))
  }

  /** Settled branches do, for any number of rounds. */
  lemma {:induction false} SettledStaysInside(items: seq<Item>, rounds: nat)
    requires UniqueLabels(items) && Settled(items)
    ensures StaysInside(items, rounds)
  {
    hide BranchesInside, Settled, UniqueLabels, Pass;
    forall k: nat | k < rounds
      ensures BranchesInside(Optimized(items, k))
    {
      SettledRounds(items, k);
      SettledBranchesInside(Optimized(items, k));
    }
  }

  lemma {:induction false} SettledRounds(items: seq<Item>, n: nat)
    requires UniqueLabels(items) && Settled(items)
    ensures UniqueLabels(Optimized(items, n)) && Settled(Optimized(items, n))
    decreases n
  {
    hide Settled, UniqueLabels, Pass;
    if n > 0 {
      PassKeepsSettled(items);
      SettledRounds(Pass(items), n - 1);
    }
  }

  /** `optimizeSection`: stops at a round that changes nothing, at the latest after eight. */
  method OptimizeSection(section: Section, stats: OptStats)
    requires UniqueLabels(section.items) && StaysInside(section.items, MAX_ITERATIONS)
    modifies section, stats
    ensures section.items == Optimized(old(section.items), MAX_ITERATIONS)
    ensures InstructionCount(section.items) + stats.Removed() == InstructionCount(old(section.items)) + old(stats.Removed())
    ensures NonCode(section.items) == NonCode(old(section.items))
    ensures UniqueLabels(section.items)
    ensures stats.instructionsBefore == old(stats.instructionsBefore)
  {
    hide Pass, PassMarked, BranchesInside, UniqueLabels, InstructionCount, NonCode, Optimized;
    NoRoundsYet(section.items);
    ghost var items := section.items;
    var iteration: nat := 0;
    while iteration < MAX_ITERATIONS
      invariant iteration <= MAX_ITERATIONS
      invariant section.items == Optimized(items, iteration)
      invariant InstructionCount(section.items) + stats.Removed() == InstructionCount(items) + old(stats.Removed())
      invariant NonCode(section.items) == NonCode(items)
      invariant stats.instructionsBefore == old(stats.instructionsBefore)
      invariant UniqueLabels(section.items)
    {
      ghost var before := section.items;
      PassCounts(before);
      PassWeight(before);
      PassUnique(before);
      var changed := RunPasses(section, stats);
      OneMore(items, iteration);
      if !changed {
        FixedPointStays(before, MAX_ITERATIONS - iteration);
        RoundsAdd(items, iteration, MAX_ITERATIONS - iteration);
        return;
      }
      iteration := iteration + 1;
    }
  }

  lemma NoRoundsYet(items: seq<Item>)
    ensures Optimized(items, 0) == items
  {
  }

  lemma OneMore(items: seq<Item>, n: nat)
    ensures Optimized(items, n + 1) == Pass(Optimized(items, n))
  {
    hide Pass;
    RoundsAdd(items, n, 1);
    assert Optimized(Pass(Optimized(items, n)), 0) == Pass(Optimized(items, n));
  }

  // ----- the module -----

  ghost function TotalInstructions(contents: seq<seq<Item>>): nat {
    if contents == [] then 0
    else TotalInstructions(contents[..|contents| - 1]) + InstructionCount(contents[|contents| - 1])
  }

  ghost function Contents(sections: seq<Section>): (r: seq<seq<Item>>)
    reads sections
    ensures |r| == |sections| && forall i :: 0 <= i < |r| ==> r[i] == sections[i].items
  {
    seq(|sections|, i requires 0 <= i < |sections| reads sections => sections[i].items)
  }

  method CountSection(items: seq<Item>) returns (count: nat)
    ensures count == InstructionCount(items)
  {
    count := 0;
    var i := 0;
    while i < |items|
      invariant i <= |items| && count == InstructionCount(items[..i])
    {
      assert items[..i + 1][..i] == items[..i];
      if items[i].Instr? {
        count := count + 1;
      }
      i := i + 1;
    }
    assert items[..i] == items;
  }

  /** `Module::instructionCount` */
  method CountInstructions(sections: seq<Section>) returns (count: nat)
    ensures count == TotalInstructions(Contents(sections))
  {
    count := 0;
    var k := 0;
    while k < |sections|
      invariant k <= |sections| && count == TotalInstructions(Contents(sections)[..k])
    {
      assert Contents(sections)[..k + 1][..k] == Contents(sections)[..k];
      var c := CountSection(sections[k].items);
      count := count + c;
      k := k + 1;
    }
    assert Contents(sections)[..k] == Contents(sections);
  }

  /** What optimizing does to one section. */
  ghost function OptimizedSection(kind: SectionKind, items: seq<Item>, level: OptLevel): seq<Item> {
    if level.O0? || !kind.Text? then items else Optimized(items, MAX_ITERATIONS)
  }

  lemma {:induction false} TotalUpdate(contents: seq<seq<Item>>, k: nat, items: seq<Item>)
    requires k < |contents|
    ensures TotalInstructions(contents[k := items]) + InstructionCount(contents[k])
         == TotalInstructions(contents) + InstructionCount(items)
  {
    var last := |contents| - 1;
    if k < last {
      TotalUpdate(contents[..last], k, items);
      assert contents[k := items][..last] == contents[..last][k := items];
    } else {
      assert contents[k := items][..last] == contents[..last];
    }
  }

  /** `Optimizer::run`: the report accounts for every instruction that is gone. */
  method Run(sections: seq<Section>, level: OptLevel) returns (stats: OptStats)
    requires forall j, k :: 0 <= j < k < |sections| ==> sections[j] != sections[k]
    requires !level.O0? ==> forall k :: 0 <= k < |sections| && sections[k].kind.Text? ==>
      UniqueLabels(sections[k].items) && StaysInside(sections[k].items, MAX_ITERATIONS)
    modifies sections
    ensures fresh(stats)
    ensures forall k :: 0 <= k < |sections| ==>
      sections[k].items == OptimizedSection(sections[k].kind, old(sections[k].items), level)
    ensures stats.instructionsBefore == TotalInstructions(old(Contents(sections)))
    ensures stats.instructionsAfter == TotalInstructions(Contents(sections))
    ensures stats.instructionsBefore == stats.instructionsAfter + stats.Removed()
  {
    hide UniqueLabels, StaysInside, Optimized, InstructionCount, TotalInstructions;
    stats := new OptStats();
    stats.instructionsBefore := CountInstructions(sections);
    if !level.O0? {
      OptimizeSections(sections, stats);
    }
    stats.instructionsAfter := CountInstructions(sections);
  }

  method OptimizeSections(sections: seq<Section>, stats: OptStats)
    requires forall j, k :: 0 <= j < k < |sections| ==> sections[j] != sections[k]
    requires forall k :: 0 <= k < |sections| && sections[k].kind.Text? ==>
      UniqueLabels(sections[k].items) && StaysInside(sections[k].items, MAX_ITERATIONS)
    modifies sections, stats
    ensures forall k :: 0 <= k < |sections| ==>
      sections[k].items == OptimizedSection(sections[k].kind, old(sections[k].items), O1)
    ensures TotalInstructions(Contents(sections)) + stats.Removed() == old(TotalInstructions(Contents(sections)) + stats.Removed())
    ensures stats.instructionsBefore == old(stats.instructionsBefore)
  {
    hide *;
    var k := 0;
    while k < |sections|
      invariant k <= |sections|
      invariant forall j :: 0 <= j < k ==>
        sections[j].items == OptimizedSection(sections[j].kind, old(sections[j].items), O1)
      invariant forall j :: k <= j < |sections| ==> sections[j].items == old(sections[j].items)
      invariant TotalInstructions(Contents(sections)) + stats.Removed() == old(TotalInstructions(Contents(sections)) + stats.Removed())
      invariant stats.instructionsBefore == old(stats.instructionsBefore)
    {
      OptimizeKth(sections, k, stats);
      k := k + 1;
    }
  }

  method OptimizeKth(sections: seq<Section>, k: nat, stats: OptStats)
    requires forall i, j :: 0 <= i < j < |sections| ==> sections[i] != sections[j]
    requires k < |sections| && (sections[k].kind.Text? ==> UniqueLabels(sections[k].items) && StaysInside(sections[k].items, MAX_ITERATIONS))
    modifies sections[k], stats
    ensures sections[k].items == OptimizedSection(sections[k].kind, old(sections[k].items), O1)
    ensures TotalInstructions(Contents(sections)) + stats.Removed() == old(TotalInstructions(Contents(sections)) + stats.Removed())
    ensures stats.instructionsBefore == old(stats.instructionsBefore)
  {
    hide UniqueLabels, StaysInside, Optimized, InstructionCount, TotalInstructions;
    ghost var before := Contents(sections);
    if sections[k].kind.Text? {
      OptimizeSection(sections[k], stats);
    }
    TotalUpdate(before, k, sections[k].items);
    assert Contents(sections) == before[k := sections[k].items];
  }
}
