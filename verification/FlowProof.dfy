/** The solved dataflow equations decide exactly whether FLAGS can still be read. */
module FlowProof {
  import opened Words
  import opened Isa
  import opened Ir
  import opened Passes
  import opened Flow
  import F = FoldProof

  lemma BlockOfIs(items: seq<Item>, blocks: seq<Block>, p: nat, k: nat)
    requires Tiles(items, blocks) && k <= |blocks|
    requires EndBefore(blocks, k) <= p && (k < |blocks| ==> p < blocks[k].end)
    ensures BlockOf(blocks, p) == k
  {
    forall j | 0 <= j < k
      ensures blocks[j].end <= EndBefore(blocks, k)
    {
      assert BlockOk(items, blocks[k - 1]);
    }
  }

  /** An item that is no label lies inside its block. */
  lemma InsideBlock(items: seq<Item>, blocks: seq<Block>, p: nat)
    requires Tiles(items, blocks) && p < |items| && !items[p].Label?
    ensures var k := BlockOf(blocks, p); k < |blocks| && blocks[k].begin <= p < blocks[k].end
  {
    var k := BlockOf(blocks, p);
    assert EndBefore(blocks, k) <= p;
    assert OnlyLabels(items, EndBefore(blocks, k), BeginOf(items, blocks, k));
  }

  /** Where a block begins, liveness is the block's live-in bit. */
  lemma LiveAtBegin(items: seq<Item>, blocks: seq<Block>, live: seq<bool>, p: nat, k: nat)
    requires Tiles(items, blocks) && Solved(items, blocks, live) && k < |blocks|
    requires EndBefore(blocks, k) <= p <= blocks[k].begin && p < blocks[k].end
    ensures LiveAt(items, blocks, p) == live[k]
  {
    BlockOfIs(items, blocks, p, k);
  }

  /** Behind the end of a block begins the next one, or nothing. */
  lemma LiveAtEnd(items: seq<Item>, blocks: seq<Block>, live: seq<bool>, k: nat)
    requires Tiles(items, blocks) && Solved(items, blocks, live) && k < |blocks|
    ensures LiveAt(items, blocks, blocks[k].end) == (k + 1 < |blocks| && live[k + 1])
  {
    if k + 1 < |blocks| {
      assert blocks[k].end <= blocks[k + 1].begin < blocks[k + 1].end;
      LiveAtBegin(items, blocks, live, blocks[k].end, k + 1);
    } else {
      BlockOfIs(items, blocks, blocks[k].end, k + 1);
    }
  }

  /** Liveness passes over a label unchanged. */
  lemma LiveAtLabel(items: seq<Item>, blocks: seq<Block>, labelBlock: map<string, nat>, live: seq<bool>, p: nat)
    requires Linked(items, blocks, labelBlock) && Solved(items, blocks, live) && InRange(blocks)
    requires p < |items| && items[p].Label?
    ensures LiveAt(items, blocks, p) == LiveAt(items, blocks, p + 1)
  {
    hide LabelMap, Successors, Terminator, FindOpcode, Leader, LiveOut;
    var k := BlockOf(blocks, p);
    if k < |blocks| {
      assert BlockOk(items, blocks[k]);
      assert p < blocks[k].begin;
      if p + 1 < blocks[k].end {
        BlockOfIs(items, blocks, p + 1, k);
      } else {
        assert |blocks| == 1 && blocks[k].begin == |items| == p + 1;
        LiveAtBegin(items, blocks, live, p, k);
        LiveAtEnd(items, blocks, live, k);
        EmptyIsDead(items, blocks, labelBlock, live, k);
      }
    } else {
      BlockOfIs(items, blocks, p + 1, k);
    }
  }

  /** A block that ends in no branch and no terminator falls through. */
  lemma {:induction false} FallsThrough(items: seq<Item>, begin: nat, end: nat)
    requires begin <= end <= |items|
    requires forall i :: begin <= i < end && Ends(items, i) ==>
      i + 1 == end && !IsBranch(items[i].ins.machine.opcode) && !IsTerminator(items[i].ins.machine.opcode)
    ensures var last := Terminator(items, begin, end);
      last.Some? ==> !IsBranch(last.value.machine.opcode) && !IsTerminator(last.value.machine.opcode)
    decreases end
  {
    if begin < end {
      if items[end - 1].Instr? {
        assert !Ends(items, end - 1) || Ends(items, end - 1);
      } else {
        FallsThrough(items, begin, end - 1);
      }
    }
  }

  /** The last item of a block that lets control go on gives liveness behind it to the block. */
  lemma OutAtFallThrough(items: seq<Item>, blocks: seq<Block>, labelBlock: map<string, nat>, live: seq<bool>, k: nat)
    requires Linked(items, blocks, labelBlock) && Solved(items, blocks, live) && InRange(blocks) && k < |blocks|
    requires blocks[k].begin < blocks[k].end
    requires var last := items[blocks[k].end - 1];
      last.Instr? ==> !IsBranch(last.ins.machine.opcode) && !IsTerminator(last.ins.machine.opcode)
    ensures blocks[k].flagsLiveOut == LiveAt(items, blocks, blocks[k].end)
  {
    var b := blocks[k];
    assert BlockOk(items, b);
    FallsThrough(items, b.begin, b.end);
    LiveAtEnd(items, blocks, live, k);
    assert (b.successors, b.unknownSuccessor) == Successors(Terminator(items, b.begin, b.end), k, |blocks|, labelBlock);
    assert b.successors == if k + 1 < |blocks| then [k + 1] else [];
    if k + 1 < |blocks| {
      assert b.successors[0] == k + 1;
    }
  }

  /** One step of liveness, item by item. */
  lemma LiveStep(items: seq<Item>, blocks: seq<Block>, labelBlock: map<string, nat>, live: seq<bool>, p: nat)
    requires Linked(items, blocks, labelBlock) && Solved(items, blocks, live) && InRange(blocks)
    requires p < |items| && !items[p].Label?
    requires items[p].Instr? ==>
      var op := items[p].ins.machine.opcode; !ReadsFlags(op) && !WritesFlags(op) && !IsBranch(op) && !IsTerminator(op)
    ensures LiveAt(items, blocks, p) == LiveAt(items, blocks, p + 1)
  {
    hide FindOpcode, LabelMap, LiveOut, Successors, Terminator, Tiles, Leader, Ends;
    InsideBlock(items, blocks, p);
    var k := BlockOf(blocks, p);
    if p + 1 < blocks[k].end {
      BlockOfIs(items, blocks, p + 1, k);
    } else {
      OutAtFallThrough(items, blocks, labelBlock, live, k);
      assert Scan(items, p + 1, blocks[k].end, blocks[k].flagsLiveOut) == blocks[k].flagsLiveOut;
    }
  }

  /** At a branch liveness is what leaves the block. */
  lemma LiveAtBranch(items: seq<Item>, blocks: seq<Block>, labelBlock: map<string, nat>, live: seq<bool>, p: nat)
    requires Linked(items, blocks, labelBlock) && Solved(items, blocks, live)
    requires p < |items| && items[p].Instr? && IsBranch(items[p].ins.machine.opcode) && !ReadsFlags(items[p].ins.machine.opcode)
    ensures var k := BlockOf(blocks, p);
      && k < |blocks| && p + 1 == blocks[k].end
      && LiveAt(items, blocks, p) == LiveOut(blocks[k], live)
      && (blocks[k].successors, blocks[k].unknownSuccessor) == Successors(Some(items[p].ins), k, |blocks|, labelBlock)
  {
    hide FindOpcode, LabelMap;
    InsideBlock(items, blocks, p);
    var k := BlockOf(blocks, p);
    var b := blocks[k];
    BranchEndsBlock(items, b, p);
    BranchWritesNoFlags(items[p].ins.machine.opcode);
    assert Scan(items, p + 1, b.end, b.flagsLiveOut) == b.flagsLiveOut;
  }

  lemma BranchEndsBlock(items: seq<Item>, b: Block, p: nat)
    requires BlockOk(items, b) && b.begin <= p < b.end && items[p].Instr? && IsBranch(items[p].ins.machine.opcode)
    ensures p + 1 == b.end && Terminator(items, b.begin, b.end) == Some(items[p].ins)
  {
    assert Ends(items, p);
  }

  lemma BranchWritesNoFlags(op: Opcode)
    requires IsBranch(op)
    ensures !WritesFlags(op)
  {
  }

  /** A branch to a label of the section is live when the label is, and only then if it is a JMP. */
  lemma LiveAtJump(items: seq<Item>, blocks: seq<Block>, labelBlock: map<string, nat>, live: seq<bool>, p: nat)
    requires Linked(items, blocks, labelBlock) && Solved(items, blocks, live) && InRange(blocks)
    requires LabelsLead(items, blocks, labelBlock)
    requires p < |items| && FollowedBranch(items, p) && !ReadsFlags(items[p].ins.machine.opcode)
    ensures LiveAt(items, blocks, p) == LiveAt(items, blocks, LabelMap(items)[items[p].ins.symbol.value.name])
  {
    hide FindOpcode, Scan, LiveAt, LabelMap, Tiles, BlockOk, Successors, LiveOut;
    LiveAtBranch(items, blocks, labelBlock, live, p);
    var k, name := BlockOf(blocks, p), items[p].ins.symbol.value.name;
    JumpSuccessor(items[p].ins, k, |blocks|, labelBlock);
    assert blocks[k].successors[0] < |blocks|;
    TargetBlock(items, blocks, labelBlock, live, name);
    LiveOutOfOne(blocks[k], live, labelBlock[name]);
  }

  lemma JumpSuccessor(ins: IrInstruction, k: nat, count: nat, labelBlock: map<string, nat>)
    requires IsBranch(ins.machine.opcode) && !ReadsFlags(ins.machine.opcode) && !ins.machine.opcode.CALL?
    requires ins.symbol.Some? && ins.symbol.value.name in labelBlock
    ensures Successors(Some(ins), k, count, labelBlock) == ([labelBlock[ins.symbol.value.name]], false)
  {
    BranchesAreTerminators(ins.machine.opcode);
    var target := labelBlock[ins.symbol.value.name];
    assert [] + [target] == [target];
  }

  lemma LiveOutOfOne(b: Block, live: seq<bool>, s: nat)
    requires b.successors == [s] && !b.unknownSuccessor && s < |live|
    ensures LiveOut(b, live) == live[s]
  {
    assert b.successors[0] == s;
  }

  lemma TargetBlock(items: seq<Item>, blocks: seq<Block>, labelBlock: map<string, nat>, live: seq<bool>, name: string)
    requires Tiles(items, blocks) && Solved(items, blocks, live) && LabelsLead(items, blocks, labelBlock)
    requires name in labelBlock && labelBlock[name] < |blocks|
    ensures LiveAt(items, blocks, LabelMap(items)[name]) == live[labelBlock[name]]
  {
    hide Scan, LiveOut, LabelMap, LiveAt;
    var s := labelBlock[name];
    assert LeadsTo(items, blocks, LabelMap(items)[name], s);
    assert BlockOk(items, blocks[s]);
    LiveAtBegin(items, blocks, live, LabelMap(items)[name], s);
  }

  lemma BranchesAreTerminators(op: Opcode)
    requires IsBranch(op) && !ReadsFlags(op) && !op.CALL?
    ensures IsTerminator(op)
  {
  }

  lemma ReaderIsLive(items: seq<Item>, blocks: seq<Block>, p: nat)
    requires Tiles(items, blocks) && p < |items| && items[p].Instr?
    ensures ReadsFlags(items[p].ins.machine.opcode) ==> LiveAt(items, blocks, p)
    ensures WritesFlags(items[p].ins.machine.opcode) && !ReadsFlags(items[p].ins.machine.opcode) ==> !LiveAt(items, blocks, p)
  {
    InsideBlock(items, blocks, p);
  }

  /** If some path reads FLAGS, the analysis says so. */
  lemma {:induction false} NeededIsLive(
    items: seq<Item>, blocks: seq<Block>, labelBlock: map<string, nat>, live: seq<bool>, p: nat, steps: nat)
    requires Linked(items, blocks, labelBlock) && Solved(items, blocks, live) && InRange(blocks)
    requires LabelsLead(items, blocks, labelBlock)
    requires FlagsNeededWithin(items, LabelMap(items), p, steps)
    ensures LiveAt(items, blocks, p)
    decreases steps
  {
    hide LiveAt, Tiles, Solved, LabelMap;
    if items[p].Label? {
      NeededIsLive(items, blocks, labelBlock, live, p + 1, steps - 1);
      LiveAtLabel(items, blocks, labelBlock, live, p);
    } else if !items[p].Instr? {
      NeededIsLive(items, blocks, labelBlock, live, p + 1, steps - 1);
      LiveStep(items, blocks, labelBlock, live, p);
    } else {
      var ins := items[p].ins;
      ReaderIsLive(items, blocks, p);
      if ReadsFlags(ins.machine.opcode) {
      } else if FollowedBranch(items, p) {
        NeededIsLive(items, blocks, labelBlock, live, LabelMap(items)[ins.symbol.value.name], steps - 1);
        LiveAtJump(items, blocks, labelBlock, live, p);
      } else if IsBranch(ins.machine.opcode) {
        LiveAtBranch(items, blocks, labelBlock, live, p);
      } else {
        OnlyHaltStops(ins.machine.opcode);
        NeededIsLive(items, blocks, labelBlock, live, p + 1, steps - 1);
        LiveStep(items, blocks, labelBlock, live, p);
      }
    }
  }

  lemma OnlyHaltStops(op: Opcode)
    ensures IsTerminator(op) && !IsBranch(op) ==> op.HALT?
  {
  }

  // ----- the converse -----

  /** Every live-in bit set so far is justified by a path. */
  ghost predicate Justified(items: seq<Item>, blocks: seq<Block>, live: seq<bool>) {
    |live| == |blocks| && forall k :: 0 <= k < |blocks| && live[k] ==> FlagsNeeded(items, blocks[k].begin)
  }

  lemma {:induction false} NeededOverLabels(items: seq<Item>, from: nat, to: nat)
    requires from <= to && OnlyLabels(items, from, to) && FlagsNeeded(items, to)
    ensures FlagsNeeded(items, from)
    decreases (to as int) - from
  {
    if from < to {
      NeededOverLabels(items, from + 1, to);
      F.NeededThrough(items, from);
    }
  }

  lemma BranchAway(items: seq<Item>, p: nat)
    requires p < |items| && items[p].Instr? && IsBranch(items[p].ins.machine.opcode) && !FollowedBranch(items, p)
    ensures FlagsNeeded(items, p)
  {
    hide LabelMap;
    BranchWritesNoFlags(items[p].ins.machine.opcode);
    HaltIsNoBranch(items[p].ins.machine.opcode);
    assert FlagsNeededWithin(items, LabelMap(items), p, 1);
  }

  lemma HaltIsNoBranch(op: Opcode)
    requires IsBranch(op)
    ensures !op.HALT?
  {
  }

  lemma NeededAtFollowed(items: seq<Item>, p: nat)
    requires p < |items| && FollowedBranch(items, p)
    requires FlagsNeeded(items, LabelMap(items)[items[p].ins.symbol.value.name])
    ensures FlagsNeeded(items, p)
  {
    hide LabelMap;
    var op, target := items[p].ins.machine.opcode, LabelMap(items)[items[p].ins.symbol.value.name];
    BranchWritesNoFlags(op);
    HaltIsNoBranch(op);
    var n: nat :| FlagsNeededWithin(items, LabelMap(items), target, n);
    assert FlagsNeededWithin(items, LabelMap(items), p, n + 1);
  }

  /** FLAGS live out of a block through its last item, if the successors' bits are justified. */
  lemma OutIsNeeded(items: seq<Item>, blocks: seq<Block>, labelBlock: map<string, nat>, live: seq<bool>, k: nat)
    requires Linked(items, blocks, labelBlock) && InRange(blocks) && LabelsLead(items, blocks, labelBlock)
    requires Justified(items, blocks, live) && k < |blocks| && LiveOut(blocks[k], live)
    requires blocks[k].begin < blocks[k].end
    requires var last := items[blocks[k].end - 1]; last.Instr? ==> !WritesFlags(last.ins.machine.opcode)
    ensures FlagsNeeded(items, blocks[k].end - 1)
  {
    hide FindOpcode, LabelMap, FlagsNeeded;
    var b := blocks[k];
    var p := b.end - 1;
    assert BlockOk(items, b);
    if items[p].Instr? && IsBranch(items[p].ins.machine.opcode) {
      if FollowedBranch(items, p) && !ReadsFlags(items[p].ins.machine.opcode) {
        JumpOutIsNeeded(items, blocks, labelBlock, live, k);
        NeededAtFollowed(items, p);
      } else if ReadsFlags(items[p].ins.machine.opcode) {
        F.NeededAtOnce(items, p);
      } else {
        BranchAway(items, p);
      }
    } else {
      NextOutIsNeeded(items, blocks, labelBlock, live, k);
      F.NeededThrough(items, p);
    }
  }

  lemma JumpOutIsNeeded(items: seq<Item>, blocks: seq<Block>, labelBlock: map<string, nat>, live: seq<bool>, k: nat)
    requires Linked(items, blocks, labelBlock) && InRange(blocks) && LabelsLead(items, blocks, labelBlock)
    requires Justified(items, blocks, live) && k < |blocks| && LiveOut(blocks[k], live)
    requires blocks[k].begin < blocks[k].end <= |items|
    requires FollowedBranch(items, blocks[k].end - 1) && !ReadsFlags(items[blocks[k].end - 1].ins.machine.opcode)
    ensures FlagsNeeded(items, LabelMap(items)[items[blocks[k].end - 1].ins.symbol.value.name])
  {
    hide FindOpcode, LabelMap, FlagsNeeded, LiveOut, LabelsLead, Linked;
    JumpEndsBlock(items, blocks, labelBlock, k);
    var name := items[blocks[k].end - 1].ins.symbol.value.name;
    assert blocks[k].successors[0] < |blocks|;
    LiveOutOfOne(blocks[k], live, labelBlock[name]);
    NeededAtTarget(items, blocks, labelBlock, name);
  }

  lemma JumpEndsBlock(items: seq<Item>, blocks: seq<Block>, labelBlock: map<string, nat>, k: nat)
    requires Linked(items, blocks, labelBlock) && LabelsLead(items, blocks, labelBlock)
    requires k < |blocks| && blocks[k].begin < blocks[k].end <= |items|
    requires FollowedBranch(items, blocks[k].end - 1) && !ReadsFlags(items[blocks[k].end - 1].ins.machine.opcode)
    ensures Tiles(items, blocks)
    ensures items[blocks[k].end - 1].ins.symbol.value.name in labelBlock
    ensures blocks[k].successors == [labelBlock[items[blocks[k].end - 1].ins.symbol.value.name]]
    ensures !blocks[k].unknownSuccessor
  {
    hide FindOpcode, LabelMap, Successors, OnlyLabels, LeadsTo;
    var b := blocks[k];
    assert BlockOk(items, b);
    BranchEndsBlock(items, b, b.end - 1);
    JumpSuccessor(items[b.end - 1].ins, k, |blocks|, labelBlock);
  }

  lemma NeededAtTarget(items: seq<Item>, blocks: seq<Block>, labelBlock: map<string, nat>, name: string)
    requires Tiles(items, blocks) && LabelsLead(items, blocks, labelBlock)
    requires name in labelBlock && labelBlock[name] < |blocks| && FlagsNeeded(items, blocks[labelBlock[name]].begin)
    ensures FlagsNeeded(items, LabelMap(items)[name])
  {
    hide FlagsNeeded, LabelMap;
    var s := labelBlock[name];
    assert LeadsTo(items, blocks, LabelMap(items)[name], s);
    assert OnlyLabels(items, EndBefore(blocks, s), BeginOf(items, blocks, s));
    NeededOverLabels(items, LabelMap(items)[name], blocks[s].begin);
  }

  lemma NextOutIsNeeded(items: seq<Item>, blocks: seq<Block>, labelBlock: map<string, nat>, live: seq<bool>, k: nat)
    requires Linked(items, blocks, labelBlock)
    requires Justified(items, blocks, live) && k < |blocks| && LiveOut(blocks[k], live)
    requires blocks[k].begin < blocks[k].end
    requires var last := items[blocks[k].end - 1]; last.Instr? ==> !IsBranch(last.ins.machine.opcode)
    ensures FlagsNeeded(items, blocks[k].end)
    ensures var last := items[blocks[k].end - 1]; last.Instr? ==> !last.ins.machine.opcode.HALT?
  {
    hide LabelMap, FlagsNeeded;
    var b := blocks[k];
    assert BlockOk(items, b);
    var last := Terminator(items, b.begin, b.end);
    NoBranchInside(items, b, b.end);
    assert (b.successors, b.unknownSuccessor) == Successors(last, k, |blocks|, labelBlock);
    assert b.successors == [k + 1];
    assert OnlyLabels(items, EndBefore(blocks, k + 1), BeginOf(items, blocks, k + 1));
    NeededOverLabels(items, b.end, blocks[k + 1].begin);
  }

  lemma {:induction false} NoBranchInside(items: seq<Item>, b: Block, end: nat)
    requires BlockOk(items, b) && b.begin <= end <= b.end
    requires b.begin < b.end && items[b.end - 1].Instr? ==> !IsBranch(items[b.end - 1].ins.machine.opcode)
    ensures var last := Terminator(items, b.begin, end); last.Some? ==> !IsBranch(last.value.machine.opcode)
    decreases end
  {
    if b.begin < end {
      if items[end - 1].Instr? {
        assert end < b.end ==> !Ends(items, end - 1);
      } else {
        NoBranchInside(items, b, end - 1);
      }
    }
  }

  /** Whatever the analysis derives from justified bits is justified. */
  lemma {:induction false} LiveIsNeeded(
    items: seq<Item>, blocks: seq<Block>, labelBlock: map<string, nat>, live: seq<bool>, k: nat, p: nat, out: bool)
    requires Linked(items, blocks, labelBlock) && InRange(blocks) && LabelsLead(items, blocks, labelBlock)
    requires Justified(items, blocks, live) && k < |blocks|
    requires out ==> LiveOut(blocks[k], live)
    requires blocks[k].begin <= p <= blocks[k].end && (p == blocks[k].end ==> blocks[k].begin == p)
    requires Scan(items, p, blocks[k].end, out)
    ensures FlagsNeeded(items, p)
    decreases blocks[k].end - p
  {
    hide FlagsNeeded, LabelMap, LiveOut, FindOpcode;
    var b := blocks[k];
    assert BlockOk(items, b);
    if p == b.end {
      EmptyIsDead(items, blocks, labelBlock, live, k);
    } else if items[p].Instr? && ReadsFlags(items[p].ins.machine.opcode) {
      F.NeededAtOnce(items, p);
    } else if p + 1 < b.end {
      LiveIsNeeded(items, blocks, labelBlock, live, k, p + 1, out);
      InnerItem(items, b, p);
      F.NeededThrough(items, p);
    } else {
      OutIsNeeded(items, blocks, labelBlock, live, k);
    }
  }

  lemma InnerItem(items: seq<Item>, b: Block, p: nat)
    requires BlockOk(items, b) && b.begin <= p && p + 1 < b.end
    ensures items[p].Instr? ==> !items[p].ins.machine.opcode.HALT? && !IsBranch(items[p].ins.machine.opcode)
  {
    assert !Ends(items, p);
  }

  lemma EmptyIsDead(items: seq<Item>, blocks: seq<Block>, labelBlock: map<string, nat>, live: seq<bool>, k: nat)
    requires Linked(items, blocks, labelBlock) && k < |blocks| && blocks[k].begin == blocks[k].end
    ensures !LiveOut(blocks[k], live)
  {
    hide LabelMap;
    assert (blocks[k].successors, blocks[k].unknownSuccessor) == Successors(None, k, |blocks|, labelBlock);
    assert |blocks| == 1;
  }

  /** The analysis is exact: with the equations solved and every bit justified, FLAGS is live at an
      item if and only if some path from it reads FLAGS before writing it or leaves the section. */
  lemma LivenessIsExact(items: seq<Item>, blocks: seq<Block>, labelBlock: map<string, nat>, live: seq<bool>, p: nat)
    requires Linked(items, blocks, labelBlock) && Solved(items, blocks, live) && InRange(blocks)
    requires LabelsLead(items, blocks, labelBlock) && Justified(items, blocks, live)
    ensures LiveAt(items, blocks, p) <==> FlagsNeeded(items, p)
  {
    if FlagsNeeded(items, p) {
      var n: nat :| FlagsNeededWithin(items, LabelMap(items), p, n);
      NeededIsLive(items, blocks, labelBlock, live, p, n);
    }
    if LiveAt(items, blocks, p) {
      var k := BlockOf(blocks, p);
      if p < blocks[k].begin {
        LiveIsNeeded(items, blocks, labelBlock, live, k, blocks[k].begin, blocks[k].flagsLiveOut);
        assert OnlyLabels(items, EndBefore(blocks, k), BeginOf(items, blocks, k));
        NeededOverLabels(items, p, blocks[k].begin);
      } else {
        LiveIsNeeded(items, blocks, labelBlock, live, k, p, blocks[k].flagsLiveOut);
      }
    }
  }

  /** `other` solves the liveness equations of these blocks. */
  ghost predicate Solution(items: seq<Item>, blocks: seq<Block>, other: seq<bool>)
    requires Tiles(items, blocks)
  {
    && |other| == |blocks|
    && forall j :: 0 <= j < |blocks| ==>
         BlockOk(items, blocks[j]) && other[j] == Scan(items, blocks[j].begin, blocks[j].end, LiveOut(blocks[j], other))
  }

  function WithOut(blocks: seq<Block>, other: seq<bool>): (r: seq<Block>)
    ensures |r| == |blocks|
    ensures forall j :: 0 <= j < |blocks| ==> r[j] == blocks[j].(flagsLiveOut := LiveOut(blocks[j], other))
  {
    seq(|blocks|, j requires 0 <= j < |blocks| => blocks[j].(flagsLiveOut := LiveOut(blocks[j], other)))
  }

  lemma SameShape(items: seq<Item>, blocks: seq<Block>, others: seq<Block>, labelBlock: map<string, nat>)
    requires Linked(items, blocks, labelBlock) && LabelsLead(items, blocks, labelBlock) && InRange(blocks)
    requires |others| == |blocks|
    requires forall j :: 0 <= j < |blocks| ==> others[j] == blocks[j].(flagsLiveOut := others[j].flagsLiveOut)
    ensures Linked(items, others, labelBlock) && LabelsLead(items, others, labelBlock) && InRange(others)
  {
    hide LabelMap, Successors;
    SameTiles(items, blocks, others);
    forall name | name in labelBlock
      ensures LeadsTo(items, others, LabelMap(items)[name], labelBlock[name])
    {
      assert LeadsTo(items, blocks, LabelMap(items)[name], labelBlock[name]);
    }
  }

  /** Tiling is a matter of where the blocks begin and end. */
  lemma SameTiles(items: seq<Item>, blocks: seq<Block>, others: seq<Block>)
    requires Tiles(items, blocks) && |others| == |blocks|
    requires forall j :: 0 <= j < |blocks| ==> others[j].begin == blocks[j].begin && others[j].end == blocks[j].end
    ensures Tiles(items, others)
  {
    forall k | 0 <= k < |others|
      ensures BlockOk(items, others[k])
    {
      assert BlockOk(items, blocks[k]);
    }
    forall k | 0 <= k <= |others|
      ensures OnlyLabels(items, EndBefore(others, k), BeginOf(items, others, k))
    {
      assert OnlyLabels(items, EndBefore(blocks, k), BeginOf(items, blocks, k));
    }
  }

  lemma OutIsSolved(items: seq<Item>, blocks: seq<Block>, other: seq<bool>)
    requires Tiles(items, blocks) && Solution(items, blocks, other)
    ensures Solved(items, WithOut(blocks, other), other)
  {
    hide Scan;
    forall k | 0 <= k < |blocks|
      ensures BlockOk(items, WithOut(blocks, other)[k])
    {
      assert BlockOk(items, blocks[k]);
    }
  }

  /** The computed bits are the least solution: they are below every solution of the equations. */
  lemma LeastSolution(
    items: seq<Item>, blocks: seq<Block>, labelBlock: map<string, nat>, live: seq<bool>, other: seq<bool>, k: nat)
    requires Linked(items, blocks, labelBlock) && InRange(blocks) && LabelsLead(items, blocks, labelBlock)
    requires Justified(items, blocks, live) && k < |blocks| && live[k]
    requires Solution(items, blocks, other)
    ensures other[k]
  {
    hide LabelMap, Scan, Successors, FindOpcode;
    var others := WithOut(blocks, other);
    SameShape(items, blocks, others, labelBlock);
    OutIsSolved(items, blocks, other);
    var p := blocks[k].begin;
    assert BlockOk(items, blocks[k]);
    assert FlagsNeeded(items, p);
    var n: nat :| FlagsNeededWithin(items, LabelMap(items), p, n);
    NeededIsLive(items, others, labelBlock, other, p, n);
    assert blocks[k].begin < blocks[k].end;
    assert EndBefore(others, k) <= p;
    LiveAtBegin(items, others, other, p, k);
  }
}
