/** The control-flow graph of a section and FLAGS liveness over it: what the basic blocks, their
    successors and the solved dataflow equations mean for single items. */
module Flow {
  import opened Words
  import opened Isa
  import opened Ir
  import opened Passes

  datatype Block = Block(begin: nat, end: nat, successors: seq<nat>, unknownSuccessor: bool, flagsLiveOut: bool)

  predicate Ends(items: seq<Item>, i: nat)
    requires i < |items|
  {
    items[i].Instr? && EndsBlock(items[i].ins.machine.opcode)
  }

  // ----- splitting into blocks -----

  ghost predicate BlockOk(items: seq<Item>, b: Block) {
    && b.begin <= b.end <= |items|
    && Leader(items, b.begin)
    && forall i :: b.begin <= i < b.end ==> !items[i].Label? && (i + 1 < b.end ==> !Ends(items, i))
  }

  /** Everything from `from` to `to` is labels. */
  ghost predicate OnlyLabels(items: seq<Item>, from: nat, to: nat) {
    to <= |items| && forall i :: from <= i < to ==> items[i].Label?
  }

  /** The blocks follow one another with nothing but labels between them. */
  ghost predicate Tiles(items: seq<Item>, blocks: seq<Block>) {
    && (forall k :: 0 <= k < |blocks| ==> BlockOk(items, blocks[k]))
    && (forall k :: 0 <= k < |blocks| ==> blocks[k].begin < blocks[k].end || (|blocks| == 1 && blocks[k].begin == |items|))
    && (forall j, k :: 0 <= j < k < |blocks| ==> blocks[j].end <= blocks[k].begin)
    && (forall k {:trigger EndBefore(blocks, k)} :: 0 <= k <= |blocks| ==>
         OnlyLabels(items, EndBefore(blocks, k), BeginOf(items, blocks, k)))
  }

  function EndBefore(blocks: seq<Block>, k: nat): nat
    requires k <= |blocks|
  {
    if k == 0 then 0 else blocks[k - 1].end
  }

  function BeginOf(items: seq<Item>, blocks: seq<Block>, k: nat): nat
    requires k <= |blocks|
  {
    if k == |blocks| then |items| else blocks[k].begin
  }

  /** A label leads to the first block after it. */
  ghost predicate LabelsLead(items: seq<Item>, blocks: seq<Block>, labelBlock: map<string, nat>) {
    && labelBlock.Keys == LabelMap(items).Keys
    && forall name :: name in labelBlock ==> LeadsTo(items, blocks, LabelMap(items)[name], labelBlock[name])
  }

  ghost predicate LeadsTo(items: seq<Item>, blocks: seq<Block>, p: nat, k: nat) {
    k <= |blocks| && EndBefore(blocks, k) <= p < |items| && p < BeginOf(items, blocks, k)
  }

  // ----- successors -----

  /** The last instruction of a range of items. */
  function Terminator(items: seq<Item>, begin: nat, end: nat): Option<IrInstruction>
    requires begin <= end <= |items|
    decreases end
  {
    if begin == end then None
    else if items[end - 1].Instr? then Some(items[end - 1].ins)
    else Terminator(items, begin, end - 1)
  }

  function Successors(last: Option<IrInstruction>, k: nat, count: nat, labelBlock: map<string, nat>): (seq<nat>, bool) {
    var fallsThrough := last.None? || !IsTerminator(last.value.machine.opcode);
    var next := if fallsThrough && k + 1 < count then [k + 1] else [];
    if last.None? || !IsBranch(last.value.machine.opcode) then (next, false)
    else if last.value.machine.opcode.CALL? || last.value.symbol.None? || last.value.symbol.value.name !in labelBlock then (next, true)
    else (next + [labelBlock[last.value.symbol.value.name]], false)
  }

  ghost predicate Linked(items: seq<Item>, blocks: seq<Block>, labelBlock: map<string, nat>) {
    && Tiles(items, blocks)
    && forall k :: 0 <= k < |blocks| ==>
         (blocks[k].successors, blocks[k].unknownSuccessor) ==
         Successors(Terminator(items, blocks[k].begin, blocks[k].end), k, |blocks|, labelBlock)
  }

  /** Every successor index names a block. */
  ghost predicate InRange(blocks: seq<Block>) {
    forall k, j :: 0 <= k < |blocks| && 0 <= j < |blocks[k].successors| ==> blocks[k].successors[j] < |blocks|
  }

  /** A label with no item but labels behind it. */
  ghost predicate Trailing(items: seq<Item>, p: nat) {
    OnlyLabels(items, p, |items|)
  }

  /** A branch that the graph follows to a label of the section. */
  predicate FollowedBranch(items: seq<Item>, i: nat)
    requires i < |items|
  {
    && items[i].Instr? && IsBranch(items[i].ins.machine.opcode) && !items[i].ins.machine.opcode.CALL?
    && items[i].ins.symbol.Some? && items[i].ins.symbol.value.name in LabelMap(items)
  }

  /** No followed branch goes to a trailing label. */
  ghost predicate BranchesInside(items: seq<Item>) {
    forall i :: 0 <= i < |items| && FollowedBranch(items, i) ==>
      !Trailing(items, LabelMap(items)[items[i].ins.symbol.value.name])
  }

  // ----- dataflow -----

  /** FLAGS liveness before item i of a block that ends at `end` with FLAGS live or not. */
  predicate Scan(items: seq<Item>, i: nat, end: nat, out: bool)
    requires i <= end <= |items|
    decreases end - i
  {
    if i == end then out
    else if !items[i].Instr? then Scan(items, i + 1, end, out)
    else if ReadsFlags(items[i].ins.machine.opcode) then true
    else if WritesFlags(items[i].ins.machine.opcode) then false
    else Scan(items, i + 1, end, out)
  }

  predicate WritesInside(items: seq<Item>, i: nat, end: nat)
    requires i <= end <= |items|
  {
    exists j :: i <= j < end && items[j].Instr? && WritesFlags(items[j].ins.machine.opcode)
  }

  predicate AnyLive(successors: seq<nat>, live: seq<bool>) {
    exists j :: 0 <= j < |successors| && successors[j] < |live| && live[successors[j]]
  }

  predicate LiveOut(b: Block, live: seq<bool>) {
    b.unknownSuccessor || AnyLive(b.successors, live)
  }

  /** The equations of the analysis hold. */
  ghost predicate Solved(items: seq<Item>, blocks: seq<Block>, live: seq<bool>) {
    && |live| == |blocks|
    && forall k :: 0 <= k < |blocks| ==>
         && blocks[k].flagsLiveOut == LiveOut(blocks[k], live)
         && BlockOk(items, blocks[k])
         && live[k] == Scan(items, blocks[k].begin, blocks[k].end, blocks[k].flagsLiveOut)
  }

  /** Index of the block that holds item p, or of the next one. */
  function BlockOf(blocks: seq<Block>, p: nat): (k: nat)
    ensures k <= |blocks|
    ensures k < |blocks| ==> p < blocks[k].end
    ensures forall j :: 0 <= j < k ==> blocks[j].end <= p
  {
    if blocks == [] then 0
    else if p < blocks[0].end then 0
    else 1 + BlockOf(blocks[1..], p)
  }

  /** What the solved graph says about FLAGS before item p. */
  ghost predicate LiveAt(items: seq<Item>, blocks: seq<Block>, p: nat)
    requires Tiles(items, blocks)
  {
    var k := BlockOf(blocks, p);
    k < |blocks| && Scan(items, if p < blocks[k].begin then blocks[k].begin else p, blocks[k].end, blocks[k].flagsLiveOut)
  }
}
