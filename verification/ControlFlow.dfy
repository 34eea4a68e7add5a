/** The control-flow graph object: splits a section into blocks, links their successors and
    iterates the FLAGS liveness equations to their least solution. */
module ControlFlowGraph {
  import opened Words
  import opened Isa
  import opened Ir
  import opened Passes
  import opened Flow
  import opened FlowProof

  datatype SectionKind = Text | Rodata | Data | Bss

  class Section {
    const kind: SectionKind
    var items: seq<Item>

    constructor (kind: SectionKind, items: seq<Item>)
      ensures this.kind == kind && this.items == items
    {
      this.kind := kind;
      this.items := items;
    }
  }

  function CountTrue(s: seq<bool>): nat {
    if s == [] then 0 else CountTrue(s[..|s| - 1]) + (if s[|s| - 1] then 1 else 0)
  }

  lemma {:induction false} CountTrueSet(s: seq<bool>, i: nat)
    requires i < |s| && !s[i]
    ensures CountTrue(s[i := true]) == CountTrue(s) + 1
  {
    var last := |s| - 1;
    if i < last {
      assert s[i := true][..last] == s[..last][i := true];
      CountTrueSet(s[..last], i);
    } else {
      assert s[i := true][..last] == s[..last];
    }
  }

  lemma {:induction false} CountTrueBound(s: seq<bool>)
    ensures CountTrue(s) <= |s|
  {
    if s != [] {
      CountTrueBound(s[..|s| - 1]);
    }
  }

  // ----- the state of the block splitter half way -----

  /** Finished blocks, with nothing but labels between them. */
  ghost predicate Closed(items: seq<Item>, blocks: seq<Block>) {
    && (forall k :: 0 <= k < |blocks| ==> BlockOk(items, blocks[k]) && blocks[k].begin < blocks[k].end)
    && (forall j, k :: 0 <= j < k < |blocks| ==> blocks[j].end <= blocks[k].begin)
    && (forall k {:trigger EndBefore(blocks, k)} :: 0 <= k < |blocks| ==>
         OnlyLabels(items, EndBefore(blocks, k), blocks[k].begin))
  }

  /** The blocks closed so far tile the items before `begin`; the open block runs to `i`. */
  ghost predicate TiledUpTo(items: seq<Item>, blocks: seq<Block>, begin: nat, i: nat) {
    && begin <= i <= |items| && Closed(items, blocks)
    && EndBefore(blocks, |blocks|) <= begin && OnlyLabels(items, EndBefore(blocks, |blocks|), begin)
    && Leader(items, begin)
    && forall j :: begin <= j < i ==> !items[j].Label? && !Ends(items, j)
  }

  /** The labels before item i lead to the block that will hold what follows them. */
  ghost predicate LabelsUpTo(items: seq<Item>, blocks: seq<Block>, begin: nat, labelBlock: map<string, nat>, i: nat) {
    && begin <= i <= |items|
    && (forall j :: 0 <= j < i && items[j].Label? ==> items[j].name in labelBlock)
    && forall name :: name in labelBlock ==>
         name in LabelMap(items) && LeadsSoFar(blocks, begin, LabelMap(items)[name], labelBlock[name])
  }

  ghost predicate LeadsSoFar(blocks: seq<Block>, begin: nat, p: nat, k: nat) {
    p < begin && k <= |blocks| && EndBefore(blocks, k) <= p && (k < |blocks| ==> p < blocks[k].begin)
  }

  lemma CloseBlock(items: seq<Item>, blocks: seq<Block>, b: Block)
    requires Closed(items, blocks) && BlockOk(items, b) && b.begin < b.end
    requires EndBefore(blocks, |blocks|) <= b.begin && OnlyLabels(items, EndBefore(blocks, |blocks|), b.begin)
    ensures Closed(items, blocks + [b])
  {
    hide BlockOk, OnlyLabels;
    var all := blocks + [b];
    forall j | 0 <= j < |blocks|
      ensures blocks[j].end <= b.begin
    {
      assert blocks[j].end <= blocks[|blocks| - 1].end;
    }
    forall k | 0 <= k < |all|
      ensures OnlyLabels(items, EndBefore(all, k), all[k].begin)
    {
      assert EndBefore(all, k) == EndBefore(blocks, k);
      assert k < |blocks| ==> OnlyLabels(items, EndBefore(blocks, k), blocks[k].begin);
    }
  }

  function NewBlock(begin: nat, end: nat): Block {
    Block(begin, end, [], false, true)
  }

  lemma NewBlockOk(items: seq<Item>, begin: nat, end: nat)
    requires begin <= end <= |items| && Leader(items, begin)
    requires forall j :: begin <= j < end ==> !items[j].Label? && (j + 1 < end ==> !Ends(items, j))
    ensures BlockOk(items, NewBlock(begin, end))
  {
  }

  /** Closing the open block at item i, if it holds anything. */
  function CloseAt(blocks: seq<Block>, begin: nat, end: nat): seq<Block> {
    if begin < end then blocks + [NewBlock(begin, end)] else blocks
  }

  lemma TilesAtLabel(items: seq<Item>, blocks: seq<Block>, begin: nat, i: nat)
    requires TiledUpTo(items, blocks, begin, i) && i < |items| && items[i].Label?
    ensures TiledUpTo(items, CloseAt(blocks, begin, i), i + 1, i + 1)
  {
    hide Closed, Ends, BlockOk;
    if begin < i {
      NewBlockOk(items, begin, i);
      CloseBlock(items, blocks, NewBlock(begin, i));
    }
  }

  lemma TilesAtEnder(items: seq<Item>, blocks: seq<Block>, begin: nat, i: nat)
    requires TiledUpTo(items, blocks, begin, i) && i < |items| && Ends(items, i)
    ensures TiledUpTo(items, CloseAt(blocks, begin, i + 1), i + 1, i + 1)
  {
    hide Closed, BlockOk;
    NewBlockOk(items, begin, i + 1);
    CloseBlock(items, blocks, NewBlock(begin, i + 1));
  }

  lemma InsideOpenBlock(items: seq<Item>, blocks: seq<Block>, begin: nat, labelBlock: map<string, nat>, i: nat)
    requires SplitState(items, blocks, begin, labelBlock, i)
    requires i < |items| && !items[i].Label?
    requires !(items[i].Instr? && EndsBlock(items[i].ins.machine.opcode))
    ensures SplitState(items, blocks, begin, labelBlock, i + 1)
  {
    hide LabelMap, BlockOk, OnlyLabels, Leader, EndsBlock;
  }

  lemma LabelsAfterClose(items: seq<Item>, blocks: seq<Block>, begin: nat, end: nat, labelBlock: map<string, nat>, i: nat)
    requires LabelsUpTo(items, blocks, begin, labelBlock, i) && begin <= end
    requires i < |items| && !items[i].Label?
    ensures LabelsUpTo(items, CloseAt(blocks, begin, end), i + 1, labelBlock, i + 1)
  {
    forall name | name in labelBlock
      ensures LeadsSoFar(CloseAt(blocks, begin, end), i + 1, LabelMap(items)[name], labelBlock[name])
    {
      assert LeadsSoFar(blocks, begin, LabelMap(items)[name], labelBlock[name]);
    }
  }

  /** The first label of a name is where the label map points, and leads to the next block. */
  lemma LabelsAtLabel(items: seq<Item>, blocks: seq<Block>, begin: nat, labelBlock: map<string, nat>, i: nat)
    requires TiledUpTo(items, blocks, begin, i) && LabelsUpTo(items, blocks, begin, labelBlock, i)
    requires i < |items| && items[i].Label?
    ensures var closed := CloseAt(blocks, begin, i);
      LabelsUpTo(items, closed, i + 1,
                 WithLabel(labelBlock, items[i].name, |closed|), i + 1)
  {
    hide LabelMap, BlockOk, OnlyLabels, Leader, Ends, Closed;
    var closed := CloseAt(blocks, begin, i);
    var labelBlock' := WithLabel(labelBlock, items[i].name, |closed|);
    forall name | name in labelBlock'
      ensures name in LabelMap(items) && LeadsSoFar(closed, i + 1, LabelMap(items)[name], labelBlock'[name])
    {
      if name in labelBlock {
        assert LeadsSoFar(blocks, begin, LabelMap(items)[name], labelBlock[name]);
      } else {
        FirstLabel(items, labelBlock, i);
      }
    }
  }

  lemma FirstLabel(items: seq<Item>, labelBlock: map<string, nat>, i: nat)
    requires i < |items| && items[i].Label? && items[i].name !in labelBlock
    requires forall j :: 0 <= j < i && items[j].Label? ==> items[j].name in labelBlock
    ensures items[i].name in LabelMap(items) && LabelMap(items)[items[i].name] == i
  {
    var p := LabelMap(items)[items[i].name];
    assert items[p].Label? && items[p].name == items[i].name && p <= i;
  }

  // ----- the loop of the splitter -----

  ghost predicate SplitState(items: seq<Item>, blocks: seq<Block>, begin: nat, labelBlock: map<string, nat>, i: nat) {
    && TiledUpTo(items, blocks, begin, i) && LabelsUpTo(items, blocks, begin, labelBlock, i)
    && Unlinked(blocks, 0)
  }

  lemma SplitStart(items: seq<Item>)
    ensures SplitState(items, [], 0, map[], 0)
  {
  }

  function WithLabel(labelBlock: map<string, nat>, name: string, k: nat): map<string, nat> {
    if name in labelBlock then labelBlock else labelBlock[name := k]
  }

  lemma OpenBlock(items: seq<Item>, blocks: seq<Block>, begin: nat, labelBlock: map<string, nat>, i: nat)
    requires SplitState(items, blocks, begin, labelBlock, i)
    ensures begin <= i <= |items|
  {
    hide Closed, LabelsUpTo, OnlyLabels;
  }

  lemma SplitAtLabel(items: seq<Item>, blocks: seq<Block>, begin: nat, labelBlock: map<string, nat>, i: nat)
    requires SplitState(items, blocks, begin, labelBlock, i) && i < |items| && items[i].Label?
    ensures var closed := if begin < i then blocks + [Block(begin, i, [], false, true)] else blocks;
      var name := items[i].name;
      SplitState(items, closed, i + 1, if name in labelBlock then labelBlock else labelBlock[name := |closed|], i + 1)
  {
    hide TiledUpTo, LabelsUpTo;
    OpenBlock(items, blocks, begin, labelBlock, i);
    TilesAtLabel(items, blocks, begin, i);
    LabelsAtLabel(items, blocks, begin, labelBlock, i);
  }

  lemma SplitAtEnder(items: seq<Item>, blocks: seq<Block>, begin: nat, labelBlock: map<string, nat>, i: nat)
    requires SplitState(items, blocks, begin, labelBlock, i) && i < |items|
    requires items[i].Instr? && EndsBlock(items[i].ins.machine.opcode)
    ensures SplitState(items, blocks + [Block(begin, i + 1, [], false, true)], i + 1, labelBlock, i + 1)
  {
    hide TiledUpTo, LabelsUpTo, EndsBlock;
    OpenBlock(items, blocks, begin, labelBlock, i);
    TilesAtEnder(items, blocks, begin, i);
    LabelsAfterClose(items, blocks, begin, i + 1, labelBlock, i);
  }

  /** The whole section split. */
  lemma SplitDone(items: seq<Item>, blocks: seq<Block>, begin: nat, labelBlock: map<string, nat>)
    requires SplitState(items, blocks, begin, labelBlock, |items|)
    ensures var all := if begin < |items| || blocks == [] then blocks + [Block(begin, |items|, [], false, true)] else blocks;
      Tiles(items, all) && LabelsLead(items, all, labelBlock) && Unlinked(all, 0)
  {
    AllTiled(items, blocks, begin);
    AllNamed(items, blocks, begin, labelBlock);
    AllLead(items, blocks, begin, labelBlock);
  }

  lemma AllNamed(items: seq<Item>, blocks: seq<Block>, begin: nat, labelBlock: map<string, nat>)
    requires LabelsUpTo(items, blocks, begin, labelBlock, |items|)
    ensures labelBlock.Keys == LabelMap(items).Keys
  {
    forall name | name in LabelMap(items)
      ensures name in labelBlock
    {
      assert items[LabelMap(items)[name]].Label?;
    }
  }

  lemma AllLead(items: seq<Item>, blocks: seq<Block>, begin: nat, labelBlock: map<string, nat>)
    requires LabelsUpTo(items, blocks, begin, labelBlock, |items|)
    requires labelBlock.Keys == LabelMap(items).Keys
    ensures var all := if begin < |items| || blocks == [] then blocks + [NewBlock(begin, |items|)] else blocks;
      LabelsLead(items, all, labelBlock)
  {
    hide LabelMap;
    var all := if begin < |items| || blocks == [] then blocks + [NewBlock(begin, |items|)] else blocks;
    forall name | name in labelBlock
      ensures LeadsTo(items, all, LabelMap(items)[name], labelBlock[name])
    {
      assert LeadsSoFar(blocks, begin, LabelMap(items)[name], labelBlock[name]);
    }
  }

  lemma AllTiled(items: seq<Item>, blocks: seq<Block>, begin: nat)
    requires TiledUpTo(items, blocks, begin, |items|)
    ensures Tiles(items, if begin < |items| || blocks == [] then blocks + [NewBlock(begin, |items|)] else blocks)
  {
    NewBlockOk(items, begin, |items|);
    if begin < |items| {
      CloseBlock(items, blocks, NewBlock(begin, |items|));
      ClosedTiles(items, blocks + [NewBlock(begin, |items|)]);
    } else if blocks == [] {
      assert OnlyLabels(items, 0, |items|);
    } else {
      ClosedTiles(items, blocks);
    }
  }

  lemma ClosedTiles(items: seq<Item>, blocks: seq<Block>)
    requires Closed(items, blocks) && OnlyLabels(items, EndBefore(blocks, |blocks|), |items|)
    ensures Tiles(items, blocks)
  {
    hide BlockOk, OnlyLabels;
    forall k | 0 <= k <= |blocks|
      ensures OnlyLabels(items, EndBefore(blocks, k), BeginOf(items, blocks, k))
    {
      if k < |blocks| {
        assert OnlyLabels(items, EndBefore(blocks, k), blocks[k].begin);
      }
    }
  }

  class ControlFlow {
    const section: Section
    var blocks: seq<Block>
    var labelBlock: map<string, nat>
    /** The items the graph was built from; the section may be rewritten afterwards. */
    ghost var original: seq<Item>
    ghost var live: seq<bool>

    ghost predicate Valid()
      reads this
    {
      && Linked(original, blocks, labelBlock) && LabelsLead(original, blocks, labelBlock) && InRange(blocks)
      && Solved(original, blocks, live) && Justified(original, blocks, live)
    }

    constructor (section: Section)
      requires BranchesInside(section.items)
      ensures Valid() && this.section == section && original == section.items
    {
      this.section := section;
      blocks := [];
      labelBlock := map[];
      original := section.items;
      live := [];
      new;
      SplitBlocks();
      LinkSuccessors();
      ComputeFlagLiveness();
    }

    /** One item of the section: a label closes the open block in front of it and is recorded,
        an instruction that ends a block closes the block behind it. */
    method SplitItem(items: seq<Item>, begin: nat, i: nat) returns (begin': nat)
      requires i < |items| && SplitState(items, blocks, begin, labelBlock, i)
      modifies this`blocks, this`labelBlock
      ensures SplitState(items, blocks, begin', labelBlock, i + 1)
    {
      hide *;
      begin' := begin;
      if items[i].Label? {
        SplitAtLabel(items, blocks, begin, labelBlock, i);
        if i > begin {
          blocks := blocks + [Block(begin, i, [], false, true)];
        }
        begin' := i + 1;
        if items[i].name !in labelBlock {
          labelBlock := labelBlock[items[i].name := |blocks|];
        }
      } else if items[i].Instr? && EndsBlock(items[i].ins.machine.opcode) {
        SplitAtEnder(items, blocks, begin, labelBlock, i);
        blocks := blocks + [Block(begin, i + 1, [], false, true)];
        begin' := i + 1;
      } else {
        InsideOpenBlock(items, blocks, begin, labelBlock, i);
      }
    }

    /** Splits the section into basic blocks. */
    method SplitBlocks()
      requires blocks == [] && labelBlock == map[] && original == section.items
      modifies this`blocks, this`labelBlock
      ensures Tiles(original, blocks) && LabelsLead(original, blocks, labelBlock) && Unlinked(blocks, 0)
    {
      hide *;
      var items := section.items;
      var begin: nat, i: nat := 0, 0;
      SplitStart(items);
      while i < |items|
        invariant i <= |items| && SplitState(items, blocks, begin, labelBlock, i)
      {
        begin := SplitItem(items, begin, i);
        i := i + 1;
      }
      SplitDone(items, blocks, begin, labelBlock);
      if begin < |items| || blocks == [] {
        blocks := blocks + [Block(begin, |items|, [], false, true)];
      }
    }

    /** The last instruction of a range, searched from its end. */
    method FindTerminator(begin: nat, end: nat) returns (last: Option<IrInstruction>)
      requires begin <= end <= |section.items|
      ensures last == Terminator(section.items, begin, end)
    {
      var i := end;
      while i > begin
        invariant begin <= i <= end
        invariant Terminator(section.items, begin, end) == Terminator(section.items, begin, i)
      {
        if section.items[i - 1].Instr? {
          return Some(section.items[i - 1].ins);
        }
        i := i - 1;
      }
      return None;
    }

    /** The fall-through block, the branch target, or an unknown successor. */
    method LinkBlock(k: nat)
      requires k < |blocks| && blocks[k].begin <= blocks[k].end <= |section.items|
      requires blocks[k].successors == [] && !blocks[k].unknownSuccessor
      modifies this`blocks
      ensures var s := Successors(Terminator(section.items, old(blocks[k]).begin, old(blocks[k]).end), k, |old(blocks)|, labelBlock);
        blocks == old(blocks)[k := old(blocks[k]).(successors := s.0, unknownSuccessor := s.1)]
    {
      var last := FindTerminator(blocks[k].begin, blocks[k].end);
      var endsWithBranch := last.Some? && IsBranch(last.value.machine.opcode);
      var fallsThrough := last.None? || !IsTerminator(last.value.machine.opcode);
      if fallsThrough && k + 1 < |blocks| {
        blocks := blocks[k := blocks[k].(successors := [k + 1])];
      }
      if endsWithBranch {
        if last.value.machine.opcode.CALL? || last.value.symbol.None? || last.value.symbol.value.name !in labelBlock {
          blocks := blocks[k := blocks[k].(unknownSuccessor := true)];
        } else {
          blocks := blocks[k := blocks[k].(successors := blocks[k].successors + [labelBlock[last.value.symbol.value.name]])];
        }
      }
    }

    method LinkSuccessors()
      requires original == section.items
      requires Tiles(original, blocks) && LabelsLead(original, blocks, labelBlock) && BranchesInside(original)
      requires Unlinked(blocks, 0)
      modifies this`blocks
      ensures Linked(original, blocks, labelBlock) && LabelsLead(original, blocks, labelBlock) && InRange(blocks)
    {
      hide *;
      ghost var split := blocks;
      var k := 0;
      LinkStart(original, split, labelBlock);
      while k < |blocks|
        invariant k <= |blocks| == |split| && LinkedUpTo(original, split, blocks, labelBlock, k)
      {
        LinkBounds(original, split, blocks, labelBlock, k);
        ghost var before := blocks;
        LinkBlock(k);
        LinkStep(original, split, before, labelBlock, k);
        k := k + 1;
      }
      LinkDone(original, split, blocks, labelBlock);
    }

    /** Does the block need the FLAGS its predecessor left behind? */
    method BlockReadsFlagsBeforeWriting(b: Block) returns (needs: bool)
      requires b.begin <= b.end <= |section.items|
      ensures needs == Scan(section.items, b.begin, b.end, false)
    {
      var i := b.begin;
      while i < b.end
        invariant b.begin <= i <= b.end
        invariant Scan(section.items, b.begin, b.end, false) == Scan(section.items, i, b.end, false)
      {
        if section.items[i].Instr? {
          if ReadsFlags(section.items[i].ins.machine.opcode) {
            return true;
          }
          if WritesFlags(section.items[i].ins.machine.opcode) {
            return false;
          }
        }
        i := i + 1;
      }
      return false;
    }

    method BlockWritesFlags(b: Block) returns (sets: bool)
      requires b.begin <= b.end <= |section.items|
      ensures sets == WritesInside(section.items, b.begin, b.end)
    {
      var i := b.begin;
      while i < b.end
        invariant b.begin <= i <= b.end
        invariant !WritesInside(section.items, b.begin, i)
      {
        if section.items[i].Instr? && WritesFlags(section.items[i].ins.machine.opcode) {
          return true;
        }
        i := i + 1;
      }
      return false;
    }

    method AnySuccessorLive(b: Block, liveIn: seq<bool>) returns (any: bool)
      requires forall j :: 0 <= j < |b.successors| ==> b.successors[j] < |liveIn|
      ensures any == LiveOut(b, liveIn)
    {
      any := b.unknownSuccessor;
      var j := 0;
      while j < |b.successors|
        invariant 0 <= j <= |b.successors|
        invariant any == (b.unknownSuccessor || AnyLive(b.successors[..j], liveIn))
      {
        AnyLiveStep(b.successors, j, liveIn);
        any := any || liveIn[b.successors[j]];
        j := j + 1;
      }
      assert b.successors[..j] == b.successors;
    }

    /** Recomputes live-out and live-in of one block; reports whether either bit changed. */
    method UpdateBlock(k: nat, liveIn: seq<bool>) returns (liveIn': seq<bool>, changed: bool)
      requires original == section.items && k < |blocks| == |liveIn| && InRange(blocks)
      requires blocks[k].begin <= blocks[k].end <= |original|
      modifies this`blocks
      ensures var out := LiveOut(old(blocks[k]), liveIn);
        && blocks == old(blocks)[k := old(blocks[k]).(flagsLiveOut := out)]
        && liveIn' == liveIn[k := Scan(original, old(blocks[k]).begin, old(blocks[k]).end, out)]
        && (changed <==> out != old(blocks[k]).flagsLiveOut || liveIn' != liveIn)
    {
      changed := false;
      liveIn' := liveIn;
      var liveOut := AnySuccessorLive(blocks[k], liveIn);
      if liveOut != blocks[k].flagsLiveOut {
        blocks := blocks[k := blocks[k].(flagsLiveOut := liveOut)];
        changed := true;
      }
      var needs := BlockReadsFlagsBeforeWriting(blocks[k]);
      var sets := BlockWritesFlags(blocks[k]);
      ScanSplit(original, blocks[k].begin, blocks[k].end, liveOut);
      var isLive := needs || (liveOut && !sets);
      if isLive != liveIn[k] {
        liveIn' := liveIn[k := isLive];
        changed := true;
      }
    }

    /** One sweep over all blocks, last to first. */
    method Sweep(liveIn: seq<bool>) returns (liveIn': seq<bool>, changed: bool)
      requires original == section.items && Analysis(original, blocks, labelBlock, liveIn)
      modifies this`blocks
      ensures Analysis(original, blocks, labelBlock, liveIn')
      ensures SweepEnd(original, old(blocks), blocks, liveIn, liveIn', changed)
    {
      hide Analysis, SweepState, SweepEnd, Scan, LiveOut, InRange;
      ghost var before := blocks;
      changed := false;
      liveIn' := liveIn;
      var i: nat := |blocks|;
      SweepStart(original, blocks, labelBlock, liveIn);
      while i > 0
        invariant i <= |blocks| && Analysis(original, blocks, labelBlock, liveIn')
        invariant SweepState(original, before, blocks, liveIn, liveIn', changed, i)
      {
        UpdateBounds(original, blocks, labelBlock, liveIn', i - 1);
        ghost var mid, midIn := blocks, liveIn';
        var c;
        liveIn', c := UpdateBlock(i - 1, liveIn');
        UpdateKeepsAnalysis(original, mid, labelBlock, midIn, i - 1);
        UpdateKeepsSweep(original, before, mid, labelBlock, liveIn, midIn, changed, c, i);
        changed := changed || c;
        i := i - 1;
      }
      SweepDone(original, before, blocks, liveIn, liveIn', changed);
    }

    method InitialLive() returns (liveIn: seq<bool>)
      requires original == section.items && Tiles(original, blocks)
      ensures |liveIn| == |blocks|
      ensures forall k :: 0 <= k < |blocks| ==>
        (blocks[k].begin <= blocks[k].end <= |original|
         && liveIn[k] == Scan(original, blocks[k].begin, blocks[k].end, false))
    {
      liveIn := [];
      var i := 0;
      while i < |blocks|
        invariant i <= |blocks| && |liveIn| == i
        invariant forall k :: 0 <= k < i ==>
          (blocks[k].begin <= blocks[k].end <= |original|
           && liveIn[k] == Scan(original, blocks[k].begin, blocks[k].end, false))
      {
        assert BlockOk(original, blocks[i]);
        var needs := BlockReadsFlagsBeforeWriting(blocks[i]);
        liveIn := liveIn + [needs];
        i := i + 1;
      }
    }

    /** Backward dataflow to a fixed point: the least solution of the liveness equations. */
    method ComputeFlagLiveness()
      requires original == section.items
      requires Linked(original, blocks, labelBlock) && LabelsLead(original, blocks, labelBlock) && InRange(blocks)
      modifies this`blocks, this`live
      ensures Valid()
    {
      var liveIn := InitialLive();
      AnalysisStart(original, blocks, labelBlock, liveIn);
      hide Analysis, Linked, LabelsLead, InRange, Solved, Justified, SweepEnd, CountTrue, Scan;
      var changed := true;
      while changed
        invariant Analysis(original, blocks, labelBlock, liveIn)
        invariant !changed ==> Solved(original, blocks, liveIn)
        decreases |liveIn| - CountTrue(liveIn), !Stable(blocks, liveIn), changed
      {
        ghost var before, beforeIn, beforeChanged := blocks, liveIn, changed;
        liveIn, changed := Sweep(liveIn);
        SweepProgress(original, labelBlock, before, blocks, beforeIn, liveIn, changed);
      }
      live := liveIn;
      AnalysisMeans(original, blocks, labelBlock, liveIn);
    }

    /** Can FLAGS written at `index` not be read before something overwrites it? The items behind
        `index` must still be those the graph was built from. */
    method FlagsDeadAfter(k: nat, index: nat) returns (dead: bool)
      requires Valid() && k < |blocks| && blocks[k].begin <= index < blocks[k].end
      requires |section.items| == |original| && forall i :: index < i < |original| ==> section.items[i] == original[i]
      requires original[index].Instr? && !EndsBlock(original[index].ins.machine.opcode)
      ensures dead <==> !FlagsNeeded(original, index + 1)
    {
      hide FlagsNeeded, LabelMap, LabelsLead, InRange, Justified;
      DeadIsExact(original, blocks, labelBlock, live, k, index);
      assert BlockOk(original, blocks[k]);
      var i := index + 1;
      while i < blocks[k].end
        invariant index < i <= blocks[k].end
        invariant Scan(original, index + 1, blocks[k].end, blocks[k].flagsLiveOut)
               == Scan(original, i, blocks[k].end, blocks[k].flagsLiveOut)
      {
        if section.items[i].Instr? {
          if ReadsFlags(section.items[i].ins.machine.opcode) {
            return false;
          }
          if WritesFlags(section.items[i].ins.machine.opcode) {
            return true;
          }
        }
        i := i + 1;
      }
      return !blocks[k].flagsLiveOut;
    }
  }

  // ----- linking -----

  ghost predicate Unlinked(blocks: seq<Block>, from: nat) {
    forall j :: from <= j < |blocks| ==> blocks[j].successors == [] && !blocks[j].unknownSuccessor
  }

  function WithSuccessors(b: Block, s: (seq<nat>, bool)): Block {
    b.(successors := s.0, unknownSuccessor := s.1)
  }

  ghost predicate LinkedUpTo(
    items: seq<Item>, split: seq<Block>, blocks: seq<Block>, labelBlock: map<string, nat>, k: nat) {
    && |blocks| == |split| && Tiles(items, split) && Unlinked(split, 0) && k <= |blocks|
    && forall j :: 0 <= j < |blocks| ==>
         && split[j].begin <= split[j].end <= |items|
         && blocks[j] == (if j < k
              then WithSuccessors(split[j], Successors(Terminator(items, split[j].begin, split[j].end), j, |split|, labelBlock))
              else split[j])
  }

  lemma LinkStart(items: seq<Item>, split: seq<Block>, labelBlock: map<string, nat>)
    requires Tiles(items, split) && Unlinked(split, 0)
    ensures LinkedUpTo(items, split, split, labelBlock, 0)
  {
    hide Terminator, Successors;
    forall j | 0 <= j < |split|
      ensures split[j].begin <= split[j].end <= |items|
    {
      assert BlockOk(items, split[j]);
    }
  }

  lemma LinkBounds(items: seq<Item>, split: seq<Block>, blocks: seq<Block>, labelBlock: map<string, nat>, k: nat)
    requires LinkedUpTo(items, split, blocks, labelBlock, k) && k < |blocks|
    ensures blocks[k].begin <= blocks[k].end <= |items|
    ensures blocks[k].successors == [] && !blocks[k].unknownSuccessor
  {
  }

  lemma LinkStep(items: seq<Item>, split: seq<Block>, blocks: seq<Block>, labelBlock: map<string, nat>, k: nat)
    requires LinkedUpTo(items, split, blocks, labelBlock, k) && k < |blocks|
    requires blocks[k].begin <= blocks[k].end <= |items|
    ensures var s := Successors(Terminator(items, blocks[k].begin, blocks[k].end), k, |blocks|, labelBlock);
      LinkedUpTo(items, split, blocks[k := blocks[k].(successors := s.0, unknownSuccessor := s.1)], labelBlock, k + 1)
  {
    hide Terminator, Successors, Tiles;
  }

  lemma LinkDone(items: seq<Item>, split: seq<Block>, blocks: seq<Block>, labelBlock: map<string, nat>)
    requires LinkedUpTo(items, split, blocks, labelBlock, |blocks|)
    requires LabelsLead(items, split, labelBlock) && BranchesInside(items)
    ensures Linked(items, blocks, labelBlock) && LabelsLead(items, blocks, labelBlock) && InRange(blocks)
  {
    hide Terminator, Successors, LabelMap;
    SameTiles(items, split, blocks);
    forall name | name in labelBlock
      ensures LeadsTo(items, blocks, LabelMap(items)[name], labelBlock[name])
    {
      assert LeadsTo(items, split, LabelMap(items)[name], labelBlock[name]);
    }
    forall k, j | 0 <= k < |blocks| && 0 <= j < |blocks[k].successors|
      ensures blocks[k].successors[j] < |blocks|
    {
      assert BlockOk(items, blocks[k]);
      SuccessorInRange(items, blocks, labelBlock, k, j);
    }
  }

  /** The terminator stands somewhere in its block. */
  lemma {:induction false} TerminatorStands(items: seq<Item>, begin: nat, end: nat) returns (i: nat)
    requires begin <= end <= |items| && Terminator(items, begin, end).Some?
    ensures begin <= i < end && items[i].Instr? && items[i].ins == Terminator(items, begin, end).value
    decreases end
  {
    i := end - 1;
    if !items[i].Instr? {
      i := TerminatorStands(items, begin, end - 1);
    }
  }

  lemma SuccessorInRange(items: seq<Item>, blocks: seq<Block>, labelBlock: map<string, nat>, k: nat, j: nat)
    requires Linked(items, blocks, labelBlock) && LabelsLead(items, blocks, labelBlock) && BranchesInside(items)
    requires k < |blocks| && j < |blocks[k].successors| && blocks[k].begin <= blocks[k].end <= |items|
    ensures blocks[k].successors[j] < |blocks|
  {
    hide LabelMap, Terminator, FindOpcode, Tiles, LabelsLead;
    var last := Terminator(items, blocks[k].begin, blocks[k].end);
    SuccessorKinds(last, k, |blocks|, labelBlock, j);
    if blocks[k].successors[j] != k + 1 || k + 1 >= |blocks| {
      var i := TerminatorStands(items, blocks[k].begin, blocks[k].end);
      FollowedTarget(items, blocks, labelBlock, i);
    }
  }

  lemma SuccessorKinds(last: Option<IrInstruction>, k: nat, count: nat, labelBlock: map<string, nat>, j: nat)
    requires j < |Successors(last, k, count, labelBlock).0|
    ensures var s := Successors(last, k, count, labelBlock).0[j];
      (s == k + 1 && s < count)
      || (last.Some? && last.value.symbol.Some? && last.value.symbol.value.name in labelBlock
          && IsBranch(last.value.machine.opcode) && !last.value.machine.opcode.CALL?
          && s == labelBlock[last.value.symbol.value.name])
  {
    hide FindOpcode;
  }

  lemma FollowedTarget(items: seq<Item>, blocks: seq<Block>, labelBlock: map<string, nat>, i: nat)
    requires Tiles(items, blocks) && LabelsLead(items, blocks, labelBlock) && BranchesInside(items)
    requires i < |items| && items[i].Instr? && IsBranch(items[i].ins.machine.opcode) && !items[i].ins.machine.opcode.CALL?
    requires items[i].ins.symbol.Some? && items[i].ins.symbol.value.name in labelBlock
    ensures labelBlock[items[i].ins.symbol.value.name] < |blocks|
  {
    hide LabelMap, Tiles;
    var name := items[i].ins.symbol.value.name;
    assert FollowedBranch(items, i);
    assert LeadsTo(items, blocks, LabelMap(items)[name], labelBlock[name]);
    BlockIndexOutOfRangeIff(items, blocks, labelBlock, name);
  }

  /** A label gets the index one past the last block exactly when it trails the section (and the
      section holds anything else): the case in which the liveness loop would read out of bounds. */
  lemma BlockIndexOutOfRangeIff(items: seq<Item>, blocks: seq<Block>, labelBlock: map<string, nat>, name: string)
    requires Tiles(items, blocks) && LabelsLead(items, blocks, labelBlock) && name in labelBlock
    requires exists i :: 0 <= i < |items| && !items[i].Label?
    ensures labelBlock[name] == |blocks| <==> Trailing(items, LabelMap(items)[name])
  {
    hide LabelMap;
    var p, k := LabelMap(items)[name], labelBlock[name];
    assert LeadsTo(items, blocks, p, k);
    assert OnlyLabels(items, EndBefore(blocks, k), BeginOf(items, blocks, k));
    if k < |blocks| {
      assert BlockOk(items, blocks[k]);
      assert blocks[k].begin < blocks[k].end ==> !items[blocks[k].begin].Label?;
    }
  }

  /** Where a followed branch leads is among the successors of its block. */
  lemma BranchListed(items: seq<Item>, blocks: seq<Block>, labelBlock: map<string, nat>, i: nat) returns (k: nat, j: nat)
    requires Linked(items, blocks, labelBlock) && i < |items| && FollowedBranch(items, i)
    requires items[i].ins.symbol.value.name in labelBlock
    ensures k < |blocks| && j < |blocks[k].successors| && blocks[k].successors[j] == labelBlock[items[i].ins.symbol.value.name]
  {
    hide LabelMap, FindOpcode, OnlyLabels;
    k := BlockOf(blocks, i);
    InsideBlock(items, blocks, i);
    assert BlockOk(items, blocks[k]);
    BranchEndsBlock(items, blocks[k], i);
    j := |blocks[k].successors| - 1;
  }

  /** The linked graph stays in bounds exactly when no followed branch goes to a trailing label. */
  lemma GraphInRangeIff(items: seq<Item>, blocks: seq<Block>, labelBlock: map<string, nat>)
    requires Linked(items, blocks, labelBlock) && LabelsLead(items, blocks, labelBlock)
    ensures InRange(blocks) <==> BranchesInside(items)
  {
    hide LabelMap, FindOpcode, Linked, LabelsLead, Trailing, Tiles;
    if BranchesInside(items) {
      forall k, j | 0 <= k < |blocks| && 0 <= j < |blocks[k].successors|
        ensures blocks[k].successors[j] < |blocks|
      {
        LinkedBounds(items, blocks, labelBlock, k);
        SuccessorInRange(items, blocks, labelBlock, k, j);
      }
    }
    if InRange(blocks) {
      forall i | 0 <= i < |items| && FollowedBranch(items, i)
        ensures !Trailing(items, LabelMap(items)[items[i].ins.symbol.value.name])
      {
        LinkedKeys(items, blocks, labelBlock);
        var k, j := BranchListed(items, blocks, labelBlock, i);
        BlockIndexOutOfRangeIff(items, blocks, labelBlock, items[i].ins.symbol.value.name);
      }
    }
  }

  lemma LinkedBounds(items: seq<Item>, blocks: seq<Block>, labelBlock: map<string, nat>, k: nat)
    requires Linked(items, blocks, labelBlock) && k < |blocks|
    ensures blocks[k].begin <= blocks[k].end <= |items|
  {
    assert BlockOk(items, blocks[k]);
  }

  lemma LinkedKeys(items: seq<Item>, blocks: seq<Block>, labelBlock: map<string, nat>)
    requires Linked(items, blocks, labelBlock) && LabelsLead(items, blocks, labelBlock)
    ensures Tiles(items, blocks) && labelBlock.Keys == LabelMap(items).Keys
  {
  }

  // ----- the liveness iteration -----

  lemma AnyLiveStep(successors: seq<nat>, j: nat, live: seq<bool>)
    requires j < |successors| && successors[j] < |live|
    ensures AnyLive(successors[..j + 1], live) == (AnyLive(successors[..j], live) || live[successors[j]])
  {
    var next := successors[..j + 1];
    assert next[j] == successors[j];
    assert forall k :: 0 <= k < j ==> next[k] == successors[..j][k];
  }

  /** The formula of the source, block by block. */
  lemma {:induction false} ScanSplit(items: seq<Item>, i: nat, end: nat, out: bool)
    requires i <= end <= |items|
    ensures Scan(items, i, end, out) == (Scan(items, i, end, false) || (out && !WritesInside(items, i, end)))
    decreases end - i
  {
    if i < end {
      ScanSplit(items, i + 1, end, out);
      if items[i].Instr? && WritesFlags(items[i].ins.machine.opcode) {
        assert WritesInside(items, i, end);
      }
    }
  }

  lemma ScanMonotone(items: seq<Item>, i: nat, end: nat, out: bool, out': bool)
    requires i <= end <= |items| && (out ==> out') && Scan(items, i, end, out)
    ensures Scan(items, i, end, out')
  {
    ScanSplit(items, i, end, out);
    ScanSplit(items, i, end, out');
  }

  /** The live-in bit the equations give to a block. */
  predicate Derived(items: seq<Item>, b: Block, live: seq<bool>) {
    b.begin <= b.end <= |items| && Scan(items, b.begin, b.end, LiveOut(b, live))
  }

  /** No bit is set without need, and every bit that is set stays derivable. */
  ghost predicate Analysis(items: seq<Item>, blocks: seq<Block>, labelBlock: map<string, nat>, live: seq<bool>) {
    && Linked(items, blocks, labelBlock) && LabelsLead(items, blocks, labelBlock) && InRange(blocks)
    && Justified(items, blocks, live)
    && forall k :: 0 <= k < |blocks| && live[k] ==> Derived(items, blocks[k], live)
  }

  lemma AnalysisMeans(items: seq<Item>, blocks: seq<Block>, labelBlock: map<string, nat>, live: seq<bool>)
    requires Analysis(items, blocks, labelBlock, live)
    ensures Linked(items, blocks, labelBlock) && LabelsLead(items, blocks, labelBlock) && InRange(blocks)
    ensures Justified(items, blocks, live) && |live| == |blocks|
  {
  }

  lemma AnalysisStart(items: seq<Item>, blocks: seq<Block>, labelBlock: map<string, nat>, live: seq<bool>)
    requires Linked(items, blocks, labelBlock) && LabelsLead(items, blocks, labelBlock) && InRange(blocks)
    requires |live| == |blocks|
    requires forall k :: 0 <= k < |blocks| ==>
      (blocks[k].begin <= blocks[k].end <= |items| && live[k] == Scan(items, blocks[k].begin, blocks[k].end, false))
    ensures Analysis(items, blocks, labelBlock, live)
  {
    hide Scan, LabelMap, FlagsNeeded, LiveOut;
    var none := seq(|blocks|, _ => false);
    forall k | 0 <= k < |blocks| && live[k]
      ensures FlagsNeeded(items, blocks[k].begin) && Derived(items, blocks[k], live)
    {
      ScanMonotone(items, blocks[k].begin, blocks[k].end, false, LiveOut(blocks[k], live));
      assert Justified(items, blocks, none);
      assert blocks[k].begin == blocks[k].end || blocks[k].begin < blocks[k].end;
      LiveIsNeeded(items, blocks, labelBlock, none, k, blocks[k].begin, false);
    }
  }

  function Updated(items: seq<Item>, blocks: seq<Block>, live: seq<bool>, k: nat): (seq<Block>, seq<bool>)
    requires k < |blocks| == |live| && blocks[k].begin <= blocks[k].end <= |items|
  {
    var out := LiveOut(blocks[k], live);
    (blocks[k := blocks[k].(flagsLiveOut := out)], live[k := Scan(items, blocks[k].begin, blocks[k].end, out)])
  }

  lemma UpdateBounds(items: seq<Item>, blocks: seq<Block>, labelBlock: map<string, nat>, live: seq<bool>, k: nat)
    requires Analysis(items, blocks, labelBlock, live) && k < |blocks|
    ensures |live| == |blocks| && InRange(blocks) && blocks[k].begin <= blocks[k].end <= |items|
  {
    assert BlockOk(items, blocks[k]);
  }

  /** A set bit is never cleared. */
  lemma UpdateGrows(items: seq<Item>, blocks: seq<Block>, labelBlock: map<string, nat>, live: seq<bool>, k: nat)
    requires Analysis(items, blocks, labelBlock, live) && k < |blocks| == |live|
    requires blocks[k].begin <= blocks[k].end <= |items|
    ensures live[k] ==> Updated(items, blocks, live, k).1 == live
  {
    hide Linked, LabelsLead, InRange, Justified;
    if live[k] {
      assert Derived(items, blocks[k], live);
      assert live[k := true] == live;
    }
  }

  lemma LiveOutMonotone(b: Block, b': Block, live: seq<bool>, live': seq<bool>)
    requires |live| == |live'| && forall k :: 0 <= k < |live| && live[k] ==> live'[k]
    requires b'.successors == b.successors && b'.unknownSuccessor == b.unknownSuccessor
    ensures LiveOut(b, live) ==> LiveOut(b', live')
  {
    if AnyLive(b.successors, live) {
      var j :| 0 <= j < |b.successors| && b.successors[j] < |live| && live[b.successors[j]];
      assert live'[b'.successors[j]];
    }
  }

  lemma DerivedMonotone(items: seq<Item>, b: Block, b': Block, live: seq<bool>, live': seq<bool>)
    requires |live| == |live'| && forall k :: 0 <= k < |live| && live[k] ==> live'[k]
    requires b'.successors == b.successors && b'.unknownSuccessor == b.unknownSuccessor
    requires b'.begin == b.begin && b'.end == b.end
    requires Derived(items, b, live)
    ensures Derived(items, b', live')
  {
    hide LiveOut, Scan;
    LiveOutMonotone(b, b', live, live');
    ScanMonotone(items, b.begin, b.end, LiveOut(b, live), LiveOut(b', live'));
  }

  lemma UpdateKeepsAnalysis(items: seq<Item>, blocks: seq<Block>, labelBlock: map<string, nat>, live: seq<bool>, k: nat)
    requires Analysis(items, blocks, labelBlock, live) && k < |blocks| == |live|
    requires blocks[k].begin <= blocks[k].end <= |items|
    ensures Analysis(items, Updated(items, blocks, live, k).0, labelBlock, Updated(items, blocks, live, k).1)
  {
    hide Linked, LabelsLead, InRange, Scan, LiveOut, FlagsNeeded;
    var u := Updated(items, blocks, live, k);
    UpdateGrows(items, blocks, labelBlock, live, k);
    SameShape(items, blocks, u.0, labelBlock);
    forall j | 0 <= j < |blocks| && u.1[j]
      ensures FlagsNeeded(items, u.0[j].begin) && Derived(items, u.0[j], u.1)
    {
      assert j == k || live[j];
      assert Derived(items, blocks[j], live);
      DerivedMonotone(items, blocks[j], u.0[j], live, u.1);
      if j == k {
        LiveIsNeeded(items, blocks, labelBlock, live, k, blocks[k].begin, LiveOut(blocks[k], live));
      }
    }
  }

  // ----- progress of one sweep -----

  ghost predicate Stable(blocks: seq<Block>, live: seq<bool>) {
    forall k :: 0 <= k < |blocks| ==> blocks[k].flagsLiveOut == LiveOut(blocks[k], live)
  }

  ghost predicate SweepState(
    items: seq<Item>, before: seq<Block>, blocks: seq<Block>, live0: seq<bool>, live: seq<bool>, changed: bool, i: nat) {
    && |blocks| == |before| == |live0| == |live| && i <= |blocks|
    && (forall k :: 0 <= k < i ==> blocks[k] == before[k])
    && (forall k :: 0 <= k < |live| && live0[k] ==> live[k])
    && CountTrue(live) >= CountTrue(live0) && (live != live0 ==> CountTrue(live) > CountTrue(live0))
    && (live == live0 ==> forall k :: i <= k < |blocks| ==> blocks[k].flagsLiveOut == LiveOut(blocks[k], live))
    && (!changed ==> live == live0 && blocks == before)
    && (!changed ==> forall k :: i <= k < |blocks| ==> live[k] == Derived(items, blocks[k], live))
    && (live == live0 && Stable(before, live0) ==> !changed)
  }

  ghost predicate SweepEnd(
    items: seq<Item>, before: seq<Block>, blocks: seq<Block>, live0: seq<bool>, live: seq<bool>, changed: bool) {
    SweepState(items, before, blocks, live0, live, changed, 0)
  }

  lemma SweepStart(items: seq<Item>, blocks: seq<Block>, labelBlock: map<string, nat>, live: seq<bool>)
    requires Analysis(items, blocks, labelBlock, live)
    ensures SweepState(items, blocks, blocks, live, live, false, |blocks|)
  {
    hide Linked, LabelsLead, InRange, CountTrue;
  }

  lemma SweepDone(
    items: seq<Item>, before: seq<Block>, blocks: seq<Block>, live0: seq<bool>, live: seq<bool>, changed: bool)
    requires SweepState(items, before, blocks, live0, live, changed, 0)
    ensures SweepEnd(items, before, blocks, live0, live, changed)
  {
  }

  lemma UpdateKeepsSweep(
    items: seq<Item>, before: seq<Block>, blocks: seq<Block>, labelBlock: map<string, nat>,
    live0: seq<bool>, live: seq<bool>, changed: bool, c: bool, i: nat)
    requires SweepState(items, before, blocks, live0, live, changed, i) && 0 < i <= |blocks|
    requires Analysis(items, blocks, labelBlock, live)
    requires blocks[i - 1].begin <= blocks[i - 1].end <= |items|
    requires var u := Updated(items, blocks, live, i - 1);
      c <==> u.0[i - 1].flagsLiveOut != blocks[i - 1].flagsLiveOut || u.1 != live
    ensures var u := Updated(items, blocks, live, i - 1);
      SweepState(items, before, u.0, live0, u.1, changed || c, i - 1)
  {
    hide Analysis, Scan, LiveOut;
    var k := i - 1;
    var u := Updated(items, blocks, live, k);
    UpdateGrows(items, blocks, labelBlock, live, k);
    if u.1 != live {
      assert !live[k] && u.1 == live[k := true] by { UpdatedOneBit(items, blocks, live, k); }
      CountTrueSet(live, k);
      assert u.1[k] && !live0[k];
    } else {
      SameLiveUpdate(items, before, blocks, live0, live, changed, c, i);
    }
  }

  lemma SetSame(live: seq<bool>, k: nat, bit: bool)
    requires k < |live|
    ensures live[k] == bit ==> live[k := bit] == live
  {
  }

  lemma UpdatedOneBit(items: seq<Item>, blocks: seq<Block>, live: seq<bool>, k: nat)
    requires k < |blocks| == |live| && blocks[k].begin <= blocks[k].end <= |items|
    requires live[k] ==> Updated(items, blocks, live, k).1 == live
    requires Updated(items, blocks, live, k).1 != live
    ensures !live[k] && Updated(items, blocks, live, k).1 == live[k := true]
  {
    hide Scan, LiveOut;
    var bit := Scan(items, blocks[k].begin, blocks[k].end, LiveOut(blocks[k], live));
    SetSame(live, k, bit);
  }

  lemma SameLiveUpdate(
    items: seq<Item>, before: seq<Block>, blocks: seq<Block>,
    live0: seq<bool>, live: seq<bool>, changed: bool, c: bool, i: nat)
    requires SweepState(items, before, blocks, live0, live, changed, i) && 0 < i <= |blocks|
    requires blocks[i - 1].begin <= blocks[i - 1].end <= |items|
    requires Updated(items, blocks, live, i - 1).1 == live
    requires c <==> Updated(items, blocks, live, i - 1).0[i - 1].flagsLiveOut != blocks[i - 1].flagsLiveOut
    ensures SweepState(items, before, Updated(items, blocks, live, i - 1).0, live0, live, changed || c, i - 1)
  {
    hide Scan, CountTrue, AnyLive;
    var k := i - 1;
    var blocks' := Updated(items, blocks, live, k).0;
    assert LiveOut(blocks'[k], live) == LiveOut(blocks[k], live);
    assert live[k] == live[k := Scan(items, blocks[k].begin, blocks[k].end, LiveOut(blocks[k], live))][k];
    assert live[k] == Derived(items, blocks[k], live) == Derived(items, blocks'[k], live);
    if !c {
      assert blocks' == blocks;
    }
  }

  /** What a finished sweep means for termination and for the equations. */
  lemma SweepProgress(
    items: seq<Item>, labelBlock: map<string, nat>, before: seq<Block>, blocks: seq<Block>,
    live0: seq<bool>, live: seq<bool>, changed: bool)
    requires SweepEnd(items, before, blocks, live0, live, changed) && Analysis(items, blocks, labelBlock, live)
    ensures !changed ==> Solved(items, blocks, live)
    ensures CountTrue(live0) <= |live0| == |live|
    ensures CountTrue(live) > CountTrue(live0) || (CountTrue(live) == CountTrue(live0) && Stable(blocks, live))
    ensures CountTrue(live) == CountTrue(live0) && Stable(before, live0) ==> !changed
  {
    hide LiveOut, Scan, LabelMap, LabelsLead;
    CountTrueBound(live0);
    if !changed {
      forall k | 0 <= k < |blocks|
        ensures BlockOk(items, blocks[k])
        ensures live[k] == Scan(items, blocks[k].begin, blocks[k].end, blocks[k].flagsLiveOut)
      {
        assert live[k] == Derived(items, blocks[k], live);
      }
    }
  }

  lemma StillInside(items: seq<Item>, blocks: seq<Block>, k: nat, p: nat)
    requires Tiles(items, blocks) && k < |blocks| && blocks[k].begin <= p < blocks[k].end
    ensures BlockOf(blocks, p) == k
  {
    BlockOfIs(items, blocks, p, k);
  }

  /** Scanning on from inside a block answers exactly whether FLAGS is needed. */
  lemma DeadIsExact(items: seq<Item>, blocks: seq<Block>, labelBlock: map<string, nat>, live: seq<bool>, k: nat, index: nat)
    requires Linked(items, blocks, labelBlock) && LabelsLead(items, blocks, labelBlock) && InRange(blocks)
    requires Solved(items, blocks, live) && Justified(items, blocks, live)
    requires k < |blocks| && blocks[k].begin <= index < blocks[k].end <= |items|
    requires items[index].Instr? && !EndsBlock(items[index].ins.machine.opcode)
    ensures Scan(items, index + 1, blocks[k].end, blocks[k].flagsLiveOut) <==> FlagsNeeded(items, index + 1)
  {
    hide FlagsNeeded, LabelMap, LabelsLead, Justified, LiveOut, Successors, FindOpcode, Tiles, Solved, InRange;
    LivenessIsExact(items, blocks, labelBlock, live, index + 1);
    if index + 1 < blocks[k].end {
      StillInside(items, blocks, k, index + 1);
    } else {
      OutAtFallThrough(items, blocks, labelBlock, live, k);
    }
  }
}
