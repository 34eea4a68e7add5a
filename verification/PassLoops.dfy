/** The loops of the optimizer: each fills the shared removal marks or rewrites the section in
    place, and is proved to do what the item-by-item definition of its pass says. */
module PassLoops {
  import opened Words
  import opened Isa
  import opened Alu
  import opened Ir
  import opened Passes
  import opened Flow
  import opened ControlFlowGraph

  /** What the optimizer reports. */
  class OptStats {
    var constantsFolded: nat
    var identitiesEliminated: nat
    var deadStoresRemoved: nat
    var unreachableRemoved: nat
    var peepholesApplied: nat
    var instructionsBefore: nat
    var instructionsAfter: nat

    constructor ()
      ensures constantsFolded == 0 && Removed() == 0
    {
      constantsFolded, identitiesEliminated, deadStoresRemoved := 0, 0, 0;
      unreachableRemoved, peepholesApplied := 0, 0;
      instructionsBefore, instructionsAfter := 0, 0;
    }

    /** Instructions taken out of the section so far. */
    function Removed(): nat
      reads this
    {
      identitiesEliminated + deadStoresRemoved + unreachableRemoved + peepholesApplied
    }
  }

  /** Constants known to be in registers at a point of a block. */
  class ConstantMap {
    var values: Constants

    constructor ()
      ensures values == NO_CONSTANTS
    {
      values := NO_CONSTANTS;
    }

    method Set(reg: Reg, value: u64)
      modifies this
      ensures values == old(values)[reg := Some(value)]
    {
      values := values[reg := Some(value)];
    }

    method Clear(reg: Reg)
      modifies this
      ensures values == old(values)[reg := None]
    {
      values := values[reg := None];
    }

    function Get(reg: Reg): Option<u64>
      reads this
    {
      values[reg]
    }
  }

  method Mark(remove: array<bool>, i: nat)
    requires i < remove.Length && !remove[i]
    modifies remove
    ensures remove[..] == old(remove[..])[i := true]
    ensures CountTrue(remove[..]) == CountTrue(old(remove[..])) + 1
  {
    CountTrueSet(remove[..], i);
    remove[i] := true;
  }

  /** Item i has been marked if and only if the pass says so; later items are as before. */
  ghost predicate MarkedUpTo(now: seq<bool>, before: seq<bool>, after: seq<bool>, i: nat) {
    && |now| == |before| == |after| && i <= |now|
    && (forall k :: 0 <= k < i ==> now[k] == after[k])
    && (forall k :: i <= k < |now| ==> now[k] == before[k])
  }

  lemma MarkedAll(now: seq<bool>, before: seq<bool>, after: seq<bool>)
    requires MarkedUpTo(now, before, after, |now|)
    ensures now == after
  {
  }

  /** The instructions between a terminator and the next label. */
  method RemoveUnreachable(section: Section, remove: array<bool>, stats: OptStats) returns (changed: bool)
    requires remove[..] == NoMarks(|section.items|)
    modifies remove, stats`unreachableRemoved
    ensures remove[..] == MarkUnreachable(section.items)
    ensures stats.unreachableRemoved - old(stats.unreachableRemoved) == CountTrue(remove[..]) - CountTrue(old(remove[..]))
    ensures changed <==> CountTrue(remove[..]) > CountTrue(old(remove[..]))
  {
    hide IsTerminator, CountTrue;
    ghost var before, after := remove[..], MarkUnreachable(section.items);
    var reachable := true;
    changed := false;
    var i := 0;
    while i < |section.items|
      invariant i <= |section.items| && MarkedUpTo(remove[..], before, after, i)
      invariant reachable == Reachable(section.items, i)
      invariant stats.unreachableRemoved - old(stats.unreachableRemoved) == CountTrue(remove[..]) - CountTrue(before)
      invariant CountTrue(remove[..]) >= CountTrue(before)
      invariant changed <==> CountTrue(remove[..]) > CountTrue(before)
    {
      assert before[i] == remove[i] == false;
      if section.items[i].Label? {
        reachable := true;
      } else if section.items[i].Instr? {
        if !reachable {
          Mark(remove, i);
          stats.unreachableRemoved := stats.unreachableRemoved + 1;
          changed := true;
        } else if IsTerminator(section.items[i].ins.machine.opcode) {
          reachable := false;
        }
      }
      i := i + 1;
    }
    MarkedAll(remove[..], before, after);
  }

  // ----- PUSH / POP -----

  ghost predicate RewrittenUpTo(now: seq<Item>, before: seq<Item>, after: seq<Item>, i: nat) {
    && |now| == |before| == |after| && i <= |now|
    && (forall k :: 0 <= k < i ==> now[k] == after[k])
    && (forall k :: i <= k < |now| ==> now[k] == before[k])
  }

  lemma RewrittenAll(now: seq<Item>, before: seq<Item>, after: seq<Item>)
    requires RewrittenUpTo(now, before, after, |now|)
    ensures now == after
  {
  }

  /** Adjacent PUSH / POP pairs disappear or become a register move. */
  method ReplacePairs(section: Section, remove: array<bool>, stats: OptStats) returns (changed: bool)
    requires remove.Length == |section.items|
    modifies section, remove, stats`peepholesApplied
    ensures section.items == PeepholeItems(old(section.items), old(remove[..]))
    ensures remove[..] == PeepholeMarks(old(section.items), old(remove[..]))
    ensures stats.peepholesApplied - old(stats.peepholesApplied) == CountTrue(remove[..]) - CountTrue(old(remove[..]))
    ensures CountTrue(remove[..]) >= CountTrue(old(remove[..]))
    ensures changed <==> CountTrue(remove[..]) > CountTrue(old(remove[..]))
  {
    hide PairStart, PeepholeItems, PeepholeMarks, CountTrue;
    ghost var items, marks := section.items, remove[..];
    changed := false;
    var i: nat := 0;
    while i + 1 < |section.items|
      invariant i <= |section.items| == |items| == remove.Length
      invariant RewrittenUpTo(section.items, items, PeepholeItems(items, marks), i)
      invariant MarkedUpTo(remove[..], marks, PeepholeMarks(items, marks), i)
      invariant i == 0 || !PairStart(items, marks, i - 1)
      invariant stats.peepholesApplied - old(stats.peepholesApplied) == CountTrue(remove[..]) - CountTrue(marks)
      invariant CountTrue(remove[..]) >= CountTrue(marks)
      invariant changed <==> CountTrue(remove[..]) > CountTrue(marks)
    {
      var consumed := ReplacePairAt(section, remove, stats, i, items, marks);
      changed := changed || consumed;
      i := if consumed then i + 2 else i + 1;
    }
    LastItem(items, marks, i);
    RewrittenAll(section.items, items, PeepholeItems(items, marks));
    MarkedAll(remove[..], marks, PeepholeMarks(items, marks));
  }

  lemma LastItem(items: seq<Item>, marks: seq<bool>, i: nat)
    requires |marks| == |items| <= i + 1 && (i == 0 || (i - 1 < |items| && !PairStart(items, marks, i - 1)))
    ensures forall k :: i <= k < |items| ==> PeepholeItems(items, marks)[k] == items[k] && PeepholeMarks(items, marks)[k] == marks[k]
  {
    if i < |items| {
      assert !PairStart(items, marks, i);
    }
  }

  /** What the pass does to items i and i + 1 when no pair starts just before. */
  lemma PairAt(items: seq<Item>, marks: seq<bool>, i: nat)
    requires |marks| == |items| && i + 1 < |items| && (i == 0 || !PairStart(items, marks, i - 1))
    ensures PairStart(items, marks, i) <==> !marks[i] && !marks[i + 1] && IsOp(items, i, PUSH) && IsOp(items, i + 1, POP)
    ensures PeepholeItems(items, marks)[i] == PeepholeItem(items, marks, i)
    ensures !PairStart(items, marks, i) ==> PeepholeItems(items, marks)[i] == items[i] && PeepholeMarks(items, marks)[i] == marks[i]
    ensures PairStart(items, marks, i) ==>
      && !PairStart(items, marks, i + 1) && PeepholeItems(items, marks)[i + 1] == items[i + 1]
      && PeepholeMarks(items, marks)[i] == SamePair(items, i) && PeepholeMarks(items, marks)[i + 1]
  {
  }

  method ReplacePairAt(section: Section, remove: array<bool>, stats: OptStats, i: nat, ghost items: seq<Item>, ghost marks: seq<bool>)
    returns (consumed: bool)
    requires i + 1 < |section.items| == |items| == |marks| == remove.Length
    requires RewrittenUpTo(section.items, items, PeepholeItems(items, marks), i)
    requires MarkedUpTo(remove[..], marks, PeepholeMarks(items, marks), i)
    requires i == 0 || !PairStart(items, marks, i - 1)
    modifies section, remove, stats`peepholesApplied
    ensures |section.items| == |items|
    ensures var next := if consumed then i + 2 else i + 1;
      && RewrittenUpTo(section.items, items, PeepholeItems(items, marks), next)
      && MarkedUpTo(remove[..], marks, PeepholeMarks(items, marks), next)
      && !PairStart(items, marks, next - 1)
    ensures stats.peepholesApplied - old(stats.peepholesApplied) == CountTrue(remove[..]) - CountTrue(old(remove[..]))
    ensures CountTrue(remove[..]) >= CountTrue(old(remove[..]))
    ensures consumed <==> CountTrue(remove[..]) > CountTrue(old(remove[..]))
  {
    hide CountTrue, PairStart, PeepholeItems, PeepholeMarks;
    consumed := false;
    PairAt(items, marks, i);
    assert section.items[i] == items[i] && section.items[i + 1] == items[i + 1];
    assert remove[i] == remove[..][i] == marks[i] && remove[i + 1] == remove[..][i + 1] == marks[i + 1];
    if remove[i] || remove[i + 1] || !section.items[i].Instr? || !section.items[i + 1].Instr? {
      return;
    }
    var first, second := section.items[i].ins, section.items[i + 1].ins;
    if first.machine.opcode.PUSH? && second.machine.opcode.POP? {
      if first.machine.dst == second.machine.dst {
        Mark(remove, i);
        Mark(remove, i + 1);
        stats.peepholesApplied := stats.peepholesApplied + 2;
      } else {
        var m := first.machine;
        section.items := section.items[i := Instr(first.(machine := m.(opcode := MOV, dst := second.machine.dst, src := m.dst)))];
        Mark(remove, i + 1);
        stats.peepholesApplied := stats.peepholesApplied + 1;
      }
      consumed := true;
    }
  }

  // ----- jumps to the next instruction -----

  lemma {:induction false} LabelFollowsBehind(items: seq<Item>, r: seq<bool>, r': seq<bool>, j: nat, name: string)
    requires |r| == |items| == |r'| && j <= |items| && forall k :: j <= k < |items| ==> r[k] == r'[k]
    ensures LabelFollows(items, r, j, name) == LabelFollows(items, r', j, name)
    decreases |items| - j
  {
    if j < |items| {
      LabelFollowsBehind(items, r, r', j + 1, name);
    }
  }

  /** Does a label of this name follow, over removed items and other labels only? */
  method FindLabelAhead(items: seq<Item>, remove: array<bool>, from: nat, name: string) returns (found: bool)
    requires remove.Length == |items| && from <= |items|
    ensures found == LabelFollows(items, remove[..], from, name)
  {
    var j := from;
    while j < |items|
      invariant from <= j <= |items|
      invariant LabelFollows(items, remove[..], from, name) == LabelFollows(items, remove[..], j, name)
    {
      if !remove[j] {
        if !items[j].Label? {
          return false;
        }
        if items[j].name == name {
          return true;
        }
      }
      j := j + 1;
    }
    return false;
  }

  method DropJumps(section: Section, remove: array<bool>, stats: OptStats) returns (changed: bool)
    requires remove.Length == |section.items|
    modifies remove, stats`peepholesApplied
    ensures remove[..] == JumpMarks(section.items, old(remove[..]))
    ensures stats.peepholesApplied - old(stats.peepholesApplied) == CountTrue(remove[..]) - CountTrue(old(remove[..]))
    ensures CountTrue(remove[..]) >= CountTrue(old(remove[..]))
    ensures changed <==> CountTrue(remove[..]) > CountTrue(old(remove[..]))
  {
    hide CountTrue, LabelFollows;
    ghost var marks, items := remove[..], section.items;
    changed := false;
    var i := 0;
    while i < |section.items|
      invariant i <= |section.items|
      invariant MarkedUpTo(remove[..], marks, JumpMarks(items, marks), i)
      invariant stats.peepholesApplied - old(stats.peepholesApplied) == CountTrue(remove[..]) - CountTrue(marks)
      invariant CountTrue(remove[..]) >= CountTrue(marks)
      invariant changed <==> CountTrue(remove[..]) > CountTrue(marks)
    {
      assert remove[i] == remove[..][i] == marks[i];
      assert JumpMarks(items, marks)[i] == (marks[i] || JumpsToNext(items, marks, i));
      if !remove[i] && section.items[i].Instr? {
        var ins := section.items[i].ins;
        if ins.machine.opcode.JMP? && ins.symbol.Some? && ins.symbol.value.addend == 0 {
          LabelFollowsBehind(items, remove[..], marks, i + 1, ins.symbol.value.name);
          var found := FindLabelAhead(section.items, remove, i + 1, ins.symbol.value.name);
          if found {
            Mark(remove, i);
            stats.peepholesApplied := stats.peepholesApplied + 1;
            changed := true;
          }
        }
      }
      i := i + 1;
    }
    MarkedAll(remove[..], marks, JumpMarks(items, marks));
  }

  // ----- constant folding -----

  /** Folds the instruction at `i` if its value is known and its FLAGS, if any, are dead; keeps the
      constants up to date. */
  method FoldInstruction(section: Section, flow: ControlFlow, constants: ConstantMap, stats: OptStats, k: nat, i: nat)
    returns (changed: bool)
    requires flow.Valid() && flow.section == section
    requires k < |flow.blocks| && flow.blocks[k].begin <= i < flow.blocks[k].end
    requires |section.items| == |flow.original| && forall j :: i <= j < |flow.original| ==> section.items[j] == flow.original[j]
    requires i < |section.items| && section.items[i].Instr?
    modifies section, constants, stats`constantsFolded
    ensures var ins := old(section.items[i].ins);
      var v := FoldedValue(ins, old(constants.values), !FlagsNeeded(flow.original, i + 1));
      && constants.values == Transfer(ins, old(constants.values))
      && section.items == old(section.items)[i := if v.None? then Instr(ins) else Instr(ins.(machine := LoadConstant(ins.machine, v.value)))]
      && (changed <==> v.Some?)
    ensures stats.constantsFolded == old(stats.constantsFolded) + (if changed then 1 else 0)
  {
    hide EvaluateBinary, EvaluateUnary, FlagsNeeded;
    changed := false;
    var ins := section.items[i].ins;
    var m := ins.machine;
    assert section.items[i := Instr(ins)] == section.items;
    if ins.symbol.Some? {
      constants.Clear(m.dst);
    } else if m.opcode.MOVI? || m.opcode.LEA? {
      constants.Set(m.dst, ToU64(m.imm));
    } else if m.opcode.MOV? {
      var value := constants.Get(m.src);
      if value.Some? && FitsImmediate(value.value) {
        section.items := section.items[i := Instr(ins.(machine := LoadConstant(m, value.value)))];
        constants.Set(m.dst, value.value);
        stats.constantsFolded := stats.constantsFolded + 1;
        changed := true;
      } else if value.Some? {
        constants.Set(m.dst, value.value);
      } else {
        constants.Clear(m.dst);
      }
    } else {
      changed := FoldAlu(section, flow, constants, stats, k, i);
    }
  }

  method FoldAlu(section: Section, flow: ControlFlow, constants: ConstantMap, stats: OptStats, k: nat, i: nat)
    returns (changed: bool)
    requires flow.Valid() && flow.section == section
    requires k < |flow.blocks| && flow.blocks[k].begin <= i < flow.blocks[k].end
    requires |section.items| == |flow.original| && forall j :: i <= j < |flow.original| ==> section.items[j] == flow.original[j]
    requires i < |section.items| && section.items[i].Instr? && section.items[i].ins.symbol.None?
    requires var op := section.items[i].ins.machine.opcode; !op.MOV? && !op.MOVI? && !op.LEA?
    modifies section, constants, stats`constantsFolded
    ensures var ins := old(section.items[i].ins);
      var v := FoldedValue(ins, old(constants.values), !FlagsNeeded(flow.original, i + 1));
      && constants.values == Transfer(ins, old(constants.values))
      && section.items == old(section.items)[i := if v.None? then Instr(ins) else Instr(ins.(machine := LoadConstant(ins.machine, v.value)))]
      && (changed <==> v.Some?)
    ensures stats.constantsFolded == old(stats.constantsFolded) + (if changed then 1 else 0)
  {
    hide EvaluateBinary, EvaluateUnary, FlagsNeeded, FitsImmediate;
    changed := false;
    var ins := section.items[i].ins;
    var m := ins.machine;
    assert section.items[i := Instr(ins)] == section.items;
    var binary, unary := IsBinaryAlu(m.opcode), IsUnaryAlu(m.opcode);
    var lhs, rhs := constants.Get(m.dst), if binary then constants.Get(m.src) else Some(0);
    if (!binary && !unary) || lhs.None? || rhs.None? {
      if WritesRegister(m, m.dst) {
        constants.Clear(m.dst);
      }
      return;
    }
    var evaluated := if binary then EvaluateBinary(m.opcode, lhs.value, rhs.value) else EvaluateUnary(m.opcode, lhs.value);
    if evaluated.Err? {
      constants.Clear(m.dst);
      return;
    }
    if !evaluated.value.writesValue {
      return;
    }
    AluEndsNoBlock(m.opcode);
    var flagsDead := flow.FlagsDeadAfter(k, i);
    if (!evaluated.value.writesFlags || flagsDead) && FitsImmediate(evaluated.value.value) {
      section.items := section.items[i := Instr(ins.(machine := LoadConstant(m, evaluated.value.value)))];
      stats.constantsFolded := stats.constantsFolded + 1;
      changed := true;
    }
    constants.Set(m.dst, evaluated.value.value);
  }

  lemma AluEndsNoBlock(op: Opcode)
    requires IsBinaryAlu(op) || IsUnaryAlu(op)
    ensures !EndsBlock(op)
  {
  }

  /** The sweep through a block: everything before item i is folded, and `constants` is what is
      known before item i. */
  ghost predicate FoldState(
    items: seq<Item>, marks: seq<bool>, flow: ControlFlow, now: seq<Item>, constants: Constants, k: nat, i: nat)
    reads flow
  {
    && flow.Valid() && flow.original == items && |marks| == |items|
    && k < |flow.blocks| && flow.blocks[k].begin <= i <= flow.blocks[k].end <= |items|
    && RewrittenUpTo(now, items, FoldItems(items, marks), i)
    && (i < flow.blocks[k].end ==> constants == ConstantsAt(items, marks, i))
  }

  /** Between two items of a block the constants follow the transfer function. */
  lemma ConstantsInBlock(items: seq<Item>, marks: seq<bool>, b: Block, i: nat)
    requires |marks| == |items| && BlockOk(items, b) && b.begin <= i && i + 1 < b.end
    ensures ConstantsAt(items, marks, i + 1) ==
      if marks[i] || !items[i].Instr? then ConstantsAt(items, marks, i)
      else Transfer(items[i].ins, ConstantsAt(items, marks, i))
  {
    assert !items[i].Label? && !Ends(items, i);
  }

  method FoldItemAt(
    section: Section, remove: array<bool>, flow: ControlFlow, constants: ConstantMap, stats: OptStats, k: nat, i: nat,
    ghost items: seq<Item>)
    returns (changed: bool)
    requires flow.section == section && remove.Length == |items|
    requires FoldState(items, remove[..], flow, section.items, constants.values, k, i) && i < flow.blocks[k].end
    modifies section, constants, stats`constantsFolded
    ensures FoldState(items, remove[..], flow, section.items, constants.values, k, i + 1)
    ensures stats.constantsFolded == old(stats.constantsFolded) + (if changed then 1 else 0)
    ensures changed <==> FoldItem(items, remove[..], i) != items[i]
  {
    hide Transfer, FoldedValue, FlagsNeeded, ConstantsAt;
    ghost var marks, before := remove[..], section.items;
    changed := false;
    assert BlockOk(items, flow.blocks[k]);
    assert FoldItems(items, marks)[i] == FoldItem(items, marks, i);
    if i + 1 < flow.blocks[k].end {
      ConstantsInBlock(items, marks, flow.blocks[k], i);
    }
    assert section.items[i] == items[i] && remove[i] == marks[i];
    if !remove[i] && section.items[i].Instr? {
      FoldChanges(items[i].ins, constants.values, !FlagsNeeded(items, i + 1));
      changed := FoldInstruction(section, flow, constants, stats, k, i);
    }
  }

  /** A folded instruction is a different instruction. */
  lemma FoldChanges(ins: IrInstruction, c: Constants, flagsDead: bool)
    ensures var v := FoldedValue(ins, c, flagsDead);
      v.Some? ==> ins.(machine := LoadConstant(ins.machine, v.value)) != ins
  {
    hide EvaluateBinary, EvaluateUnary, FitsImmediate;
  }

  lemma FoldSkipsLabels(items: seq<Item>, marks: seq<bool>, now: seq<Item>, i: nat, j: nat)
    requires |marks| == |items| && i <= j <= |items| && OnlyLabels(items, i, j)
    requires RewrittenUpTo(now, items, FoldItems(items, marks), i)
    ensures RewrittenUpTo(now, items, FoldItems(items, marks), j)
  {
    hide FoldedValue, ConstantsAt, FlagsNeeded;
  }

  /** Some item in a range is folded. */
  ghost predicate FoldsBetween(items: seq<Item>, marks: seq<bool>, from: nat, to: nat)
    requires |marks| == |items|
  {
    exists j :: from <= j < to && j < |items| && FoldItem(items, marks, j) != items[j]
  }

  lemma FoldsJoin(items: seq<Item>, marks: seq<bool>, from: nat, mid: nat, to: nat)
    requires |marks| == |items| && from <= mid <= to
    ensures FoldsBetween(items, marks, from, to) <==> FoldsBetween(items, marks, from, mid) || FoldsBetween(items, marks, mid, to)
  {
    hide FoldItem;
    if FoldsBetween(items, marks, from, to) && !FoldsBetween(items, marks, from, mid) {
      var j :| from <= j < to && j < |items| && FoldItem(items, marks, j) != items[j];
      assert mid <= j;
    }
  }

  lemma NoFolds(items: seq<Item>, marks: seq<bool>)
    requires |marks| == |items|
    ensures !FoldsBetween(items, marks, 0, 0)
  {
  }

  lemma FoldsOne(items: seq<Item>, marks: seq<bool>, i: nat)
    requires |marks| == |items| && i < |items|
    ensures FoldsBetween(items, marks, i, i + 1) <==> FoldItem(items, marks, i) != items[i]
    ensures !FoldsBetween(items, marks, i, i)
  {
    hide FoldItem;
  }

  method FoldBlock(
    section: Section, remove: array<bool>, flow: ControlFlow, stats: OptStats, k: nat, ghost items: seq<Item>)
    returns (changed: bool)
    requires flow.section == section && remove.Length == |items| && flow.Valid() && flow.original == items && k < |flow.blocks|
    requires RewrittenUpTo(section.items, items, FoldItems(items, remove[..]), EndBefore(flow.blocks, k))
    modifies section, stats`constantsFolded
    ensures RewrittenUpTo(section.items, items, FoldItems(items, remove[..]), flow.blocks[k].end)
    ensures stats.constantsFolded >= old(stats.constantsFolded)
    ensures changed <==> stats.constantsFolded > old(stats.constantsFolded)
    ensures changed <==> FoldsBetween(items, remove[..], EndBefore(flow.blocks, k), flow.blocks[k].end)
  {
    hide FoldItem, ConstantsAt, FlagsNeeded, FoldsBetween, FoldItems;
    ghost var marks, blocks := remove[..], flow.blocks;
    assert BlockOk(items, blocks[k]);
    assert OnlyLabels(items, EndBefore(blocks, k), BeginOf(items, blocks, k));
    var constants := new ConstantMap();
    FoldSkipsLabels(items, marks, section.items, EndBefore(blocks, k), blocks[k].begin);
    StartsUnknown(items, marks, blocks[k]);
    LabelsStay(items, marks, EndBefore(blocks, k), blocks[k].begin);
    changed := false;
    var i := flow.blocks[k].begin;
    while i < flow.blocks[k].end
      invariant blocks[k].begin <= i <= blocks[k].end <= |items|
      invariant remove[..] == marks && flow.blocks == blocks
      invariant FoldState(items, marks, flow, section.items, constants.values, k, i)
      invariant stats.constantsFolded >= old(stats.constantsFolded)
      invariant changed <==> stats.constantsFolded > old(stats.constantsFolded)
      invariant changed <==> FoldsBetween(items, marks, EndBefore(blocks, k), i)
    {
      FoldsJoin(items, marks, EndBefore(blocks, k), i, i + 1);
      FoldsOne(items, marks, i);
      var c := FoldItemAt(section, remove, flow, constants, stats, k, i, items);
      changed := changed || c;
      i := i + 1;
    }
  }

  lemma StartsUnknown(items: seq<Item>, marks: seq<bool>, b: Block)
    requires |marks| == |items| && BlockOk(items, b)
    ensures ConstantsAt(items, marks, b.begin) == NO_CONSTANTS
  {
  }

  lemma LabelsStay(items: seq<Item>, marks: seq<bool>, from: nat, to: nat)
    requires |marks| == |items| && OnlyLabels(items, from, to)
    ensures forall j :: from <= j < to ==> FoldItem(items, marks, j) == items[j]
    ensures !FoldsBetween(items, marks, from, to)
  {
  }

  /** Constant folding over all blocks, with the liveness computed before any fold. */
  method FoldConstants(section: Section, remove: array<bool>, flow: ControlFlow, stats: OptStats) returns (changed: bool)
    requires flow.Valid() && flow.section == section && section.items == flow.original && remove.Length == |section.items|
    modifies section, stats`constantsFolded
    ensures section.items == FoldItems(old(section.items), remove[..])
    ensures changed <==> section.items != old(section.items)
    ensures changed <==> stats.constantsFolded > old(stats.constantsFolded)
    ensures stats.constantsFolded >= old(stats.constantsFolded)
  {
    hide FoldItem, FlagsNeeded, FoldsBetween, FoldItems, ConstantsAt, BlockOk;
    ghost var items, marks, blocks := section.items, remove[..], flow.blocks;
    NoFolds(items, marks);
    changed := false;
    var k := 0;
    while k < |flow.blocks|
      invariant k <= |blocks| && flow.blocks == blocks && flow.Valid() && flow.original == items && remove[..] == marks
      invariant EndBefore(blocks, k) <= |items|
      invariant RewrittenUpTo(section.items, items, FoldItems(items, marks), EndBefore(blocks, k))
      invariant stats.constantsFolded >= old(stats.constantsFolded)
      invariant changed <==> stats.constantsFolded > old(stats.constantsFolded)
      invariant changed <==> FoldsBetween(items, marks, 0, EndBefore(blocks, k))
    {
      NextEnd(items, blocks, k);
      FoldsJoin(items, marks, 0, EndBefore(blocks, k), blocks[k].end);
      var c := FoldBlock(section, remove, flow, stats, k, items);
      changed := changed || c;
      k := k + 1;
    }
    assert OnlyLabels(items, EndBefore(blocks, k), BeginOf(items, blocks, k));
    FoldSkipsLabels(items, marks, section.items, EndBefore(blocks, k), |items|);
    LabelsStay(items, marks, EndBefore(blocks, k), |items|);
    FoldsJoin(items, marks, 0, EndBefore(blocks, k), |items|);
    RewrittenAll(section.items, items, FoldItems(items, marks));
    FoldItemsSame(items, marks);
  }

  lemma NextEnd(items: seq<Item>, blocks: seq<Block>, k: nat)
    requires Tiles(items, blocks) && k < |blocks|
    ensures EndBefore(blocks, k) <= blocks[k].begin <= blocks[k].end <= |items|
  {
    assert BlockOk(items, blocks[k]);
  }

  lemma FoldItemsSame(items: seq<Item>, marks: seq<bool>)
    requires |marks| == |items|
    ensures FoldItems(items, marks) == items <==> !FoldsBetween(items, marks, 0, |items|)
  {
    hide FoldItem;
    if FoldItems(items, marks) == items {
      forall j | 0 <= j < |items|
        ensures FoldItem(items, marks, j) == items[j]
      {
        assert FoldItems(items, marks)[j] == FoldItem(items, marks, j);
      }
    }
  }

  // ----- identities and dead stores, block by block -----

  /** The blocks still tile the section: folding rewrites no label and ends no block. */
  ghost predicate SameFrame(items: seq<Item>, items': seq<Item>) {
    && |items| == |items'|
    && forall j :: 0 <= j < |items| ==> items[j].Label? == items'[j].Label? && Ends(items, j) == Ends(items', j)
  }

  lemma FoldKeepsFrame(items: seq<Item>, marks: seq<bool>)
    requires |marks| == |items|
    ensures SameFrame(items, FoldItems(items, marks))
  {
    hide FlagsNeeded, ConstantsAt;
    forall j | 0 <= j < |items|
      ensures items[j].Label? == FoldItems(items, marks)[j].Label? && Ends(items, j) == Ends(FoldItems(items, marks), j)
    {
      assert FoldItems(items, marks)[j] == FoldItem(items, marks, j);
      if FoldItem(items, marks, j) != items[j] {
        FoldedEndsNothing(items[j].ins, ConstantsAt(items, marks, j), !FlagsNeeded(items, j + 1));
      }
    }
  }

  lemma FoldedEndsNothing(ins: IrInstruction, c: Constants, flagsDead: bool)
    requires FoldedValue(ins, c, flagsDead).Some?
    ensures !EndsBlock(ins.machine.opcode) && !EndsBlock(MOVI)
  {
    hide EvaluateBinary, EvaluateUnary, FitsImmediate;
  }

  lemma FrameTiles(items: seq<Item>, items': seq<Item>, blocks: seq<Block>)
    requires Tiles(items, blocks) && SameFrame(items, items')
    ensures Tiles(items', blocks)
  {
    hide Ends;
    forall k | 0 <= k < |blocks|
      ensures BlockOk(items', blocks[k])
    {
      assert BlockOk(items, blocks[k]);
      FrameLeader(items, items', blocks[k].begin);
    }
    forall k | 0 <= k <= |blocks|
      ensures OnlyLabels(items', EndBefore(blocks, k), BeginOf(items', blocks, k))
    {
      assert OnlyLabels(items, EndBefore(blocks, k), BeginOf(items, blocks, k));
    }
  }

  lemma FrameLeader(items: seq<Item>, items': seq<Item>, i: nat)
    requires SameFrame(items, items') && i <= |items|
    ensures Leader(items, i) == Leader(items', i)
  {
    if i > 0 {
      assert Ends(items, i - 1) == Ends(items', i - 1);
    }
  }

  method RemoveIdentities(section: Section, remove: array<bool>, flow: ControlFlow, stats: OptStats) returns (changed: bool)
    requires Tiles(section.items, flow.blocks) && remove.Length == |section.items|
    modifies remove, stats`identitiesEliminated
    ensures remove[..] == IdentityMarks(section.items, old(remove[..]))
    ensures stats.identitiesEliminated - old(stats.identitiesEliminated) == CountTrue(remove[..]) - CountTrue(old(remove[..]))
    ensures CountTrue(remove[..]) >= CountTrue(old(remove[..]))
    ensures changed <==> CountTrue(remove[..]) > CountTrue(old(remove[..]))
  {
    hide CountTrue, IsIdentity, IdentityMarks, BlockOk, OnlyLabels;
    ghost var marks, items, blocks := remove[..], section.items, flow.blocks;
    changed := false;
    var k := 0;
    while k < |flow.blocks|
      invariant k <= |blocks|
      invariant EndBefore(blocks, k) <= |items|
      invariant MarkedUpTo(remove[..], marks, IdentityMarks(items, marks), EndBefore(blocks, k))
      invariant stats.identitiesEliminated - old(stats.identitiesEliminated) == CountTrue(remove[..]) - CountTrue(marks)
      invariant CountTrue(remove[..]) >= CountTrue(marks)
      invariant changed <==> CountTrue(remove[..]) > CountTrue(marks)
    {
      NextEnd(items, blocks, k);
      LabelsAreNoIdentities(items, marks, EndBefore(blocks, k), blocks[k].begin, blocks, k);
      var i := flow.blocks[k].begin;
      while i < flow.blocks[k].end
        invariant blocks[k].begin <= i <= blocks[k].end
        invariant MarkedUpTo(remove[..], marks, IdentityMarks(items, marks), i)
        invariant stats.identitiesEliminated - old(stats.identitiesEliminated) == CountTrue(remove[..]) - CountTrue(marks)
        invariant CountTrue(remove[..]) >= CountTrue(marks)
        invariant changed <==> CountTrue(remove[..]) > CountTrue(marks)
      {
        var c := RemoveIdentityAt(section, remove, stats, i, marks);
        changed := changed || c;
        i := i + 1;
      }
      k := k + 1;
    }
    LabelsAreNoIdentities(items, marks, EndBefore(blocks, k), |items|, blocks, k);
    MarkedAll(remove[..], marks, IdentityMarks(items, marks));
  }

  lemma LabelsAreNoIdentities(items: seq<Item>, marks: seq<bool>, from: nat, to: nat, blocks: seq<Block>, k: nat)
    requires Tiles(items, blocks) && k <= |blocks| && from == EndBefore(blocks, k) && to == BeginOf(items, blocks, k)
    requires |marks| == |items|
    ensures to <= |items| && forall j :: from <= j < to ==> IdentityMarks(items, marks)[j] == marks[j]
  {
    assert OnlyLabels(items, from, to);
  }

  method RemoveIdentityAt(section: Section, remove: array<bool>, stats: OptStats, i: nat, ghost marks: seq<bool>)
    returns (changed: bool)
    requires remove.Length == |section.items| == |marks| && i < |section.items|
    requires MarkedUpTo(remove[..], marks, IdentityMarks(section.items, marks), i)
    modifies remove, stats`identitiesEliminated
    ensures MarkedUpTo(remove[..], marks, IdentityMarks(section.items, marks), i + 1)
    ensures stats.identitiesEliminated - old(stats.identitiesEliminated) == CountTrue(remove[..]) - CountTrue(old(remove[..]))
    ensures CountTrue(remove[..]) >= CountTrue(old(remove[..]))
    ensures changed <==> CountTrue(remove[..]) > CountTrue(old(remove[..]))
  {
    hide CountTrue;
    changed := false;
    assert remove[i] == remove[..][i] == marks[i];
    if !remove[i] && IsIdentity(section.items[i]) {
      Mark(remove, i);
      stats.identitiesEliminated := stats.identitiesEliminated + 1;
      changed := true;
    }
  }

  lemma {:induction false} OverwrittenBehind(items: seq<Item>, r: seq<bool>, r': seq<bool>, j: nat, reg: Reg)
    requires |r| == |items| == |r'| && j <= |items| && forall k :: j <= k < |items| ==> r[k] == r'[k]
    ensures Overwritten(items, r, j, reg) == Overwritten(items, r', j, reg)
    decreases |items| - j
  {
    if j < |items| {
      OverwrittenBehind(items, r, r', j + 1, reg);
    }
  }

  lemma BlockStops(items: seq<Item>, blocks: seq<Block>, k: nat)
    requires Tiles(items, blocks) && k < |blocks| && blocks[k].begin < blocks[k].end
    ensures blocks[k].end == |items| || Leader(items, blocks[k].end) || items[blocks[k].end].Label?
  {
    var end := blocks[k].end;
    assert OnlyLabels(items, EndBefore(blocks, k + 1), BeginOf(items, blocks, k + 1));
    if k + 1 < |blocks| && blocks[k + 1].begin == end {
      assert BlockOk(items, blocks[k + 1]);
    }
  }

  /** Is the register written again in the block before it is read? */
  method IsOverwritten(items: seq<Item>, remove: array<bool>, from: nat, end: nat, reg: Reg) returns (found: bool)
    requires remove.Length == |items| && from <= end <= |items|
    requires forall j :: from <= j < end ==> !Leader(items, j) && !items[j].Label?
    requires end == |items| || Leader(items, end) || items[end].Label?
    ensures found == Overwritten(items, remove[..], from, reg)
  {
    hide ReadsRegister, WritesRegister, EndsBlock;
    var j := from;
    while j < end
      invariant from <= j <= end
      invariant Overwritten(items, remove[..], from, reg) == Overwritten(items, remove[..], j, reg)
    {
      if !remove[j] && items[j].Instr? {
        var later := items[j].ins.machine;
        if ReadsRegister(later, reg) {
          return false;
        }
        if WritesRegister(later, reg) {
          return true;
        }
      }
      j := j + 1;
    }
    return false;
  }

  method RemoveDeadStores(section: Section, remove: array<bool>, flow: ControlFlow, stats: OptStats) returns (changed: bool)
    requires Tiles(section.items, flow.blocks) && remove.Length == |section.items|
    modifies remove, stats`deadStoresRemoved
    ensures remove[..] == DeadStoreMarks(section.items, old(remove[..]))
    ensures stats.deadStoresRemoved - old(stats.deadStoresRemoved) == CountTrue(remove[..]) - CountTrue(old(remove[..]))
    ensures CountTrue(remove[..]) >= CountTrue(old(remove[..]))
    ensures changed <==> CountTrue(remove[..]) > CountTrue(old(remove[..]))
  {
    hide CountTrue, Overwritten, PureDefine, IsDeadStore;
    ghost var marks, items, blocks := remove[..], section.items, flow.blocks;
    changed := false;
    var k := 0;
    while k < |flow.blocks|
      invariant k <= |blocks|
      invariant EndBefore(blocks, k) <= |items|
      invariant MarkedUpTo(remove[..], marks, DeadStoreMarks(items, marks), EndBefore(blocks, k))
      invariant stats.deadStoresRemoved - old(stats.deadStoresRemoved) == CountTrue(remove[..]) - CountTrue(marks)
      invariant CountTrue(remove[..]) >= CountTrue(marks)
      invariant changed <==> CountTrue(remove[..]) > CountTrue(marks)
    {
      NextEnd(items, blocks, k);
      LabelsAreNoStores(items, marks, EndBefore(blocks, k), blocks[k].begin, blocks, k);
      var i := flow.blocks[k].begin;
      while i < flow.blocks[k].end
        invariant blocks[k].begin <= i <= blocks[k].end
        invariant MarkedUpTo(remove[..], marks, DeadStoreMarks(items, marks), i)
        invariant stats.deadStoresRemoved - old(stats.deadStoresRemoved) == CountTrue(remove[..]) - CountTrue(marks)
        invariant CountTrue(remove[..]) >= CountTrue(marks)
        invariant changed <==> CountTrue(remove[..]) > CountTrue(marks)
      {
        var c := RemoveDeadStoreAt(section, remove, flow, stats, k, i, marks);
        changed := changed || c;
        i := i + 1;
      }
      k := k + 1;
    }
    LabelsAreNoStores(items, marks, EndBefore(blocks, k), |items|, blocks, k);
    MarkedAll(remove[..], marks, DeadStoreMarks(items, marks));
  }

  lemma LabelsAreNoStores(items: seq<Item>, marks: seq<bool>, from: nat, to: nat, blocks: seq<Block>, k: nat)
    requires Tiles(items, blocks) && k <= |blocks| && from == EndBefore(blocks, k) && to == BeginOf(items, blocks, k)
    requires |marks| == |items|
    ensures to <= |items| && forall j :: from <= j < to ==> DeadStoreMarks(items, marks)[j] == marks[j]
  {
    assert OnlyLabels(items, from, to);
  }

  method RemoveDeadStoreAt(
    section: Section, remove: array<bool>, flow: ControlFlow, stats: OptStats, k: nat, i: nat, ghost marks: seq<bool>)
    returns (changed: bool)
    requires Tiles(section.items, flow.blocks) && remove.Length == |section.items| == |marks| && k < |flow.blocks|
    requires flow.blocks[k].begin <= i < flow.blocks[k].end <= |section.items|
    requires MarkedUpTo(remove[..], marks, DeadStoreMarks(section.items, marks), i)
    modifies remove, stats`deadStoresRemoved
    ensures MarkedUpTo(remove[..], marks, DeadStoreMarks(section.items, marks), i + 1)
    ensures stats.deadStoresRemoved - old(stats.deadStoresRemoved) == CountTrue(remove[..]) - CountTrue(old(remove[..]))
    ensures CountTrue(remove[..]) >= CountTrue(old(remove[..]))
    ensures changed <==> CountTrue(remove[..]) > CountTrue(old(remove[..]))
  {
    hide CountTrue, Overwritten, Tiles;
    ghost var items := section.items;
    changed := false;
    assert remove[i] == remove[..][i] == marks[i];
    assert DeadStoreMarks(items, marks)[i] == (marks[i] || IsDeadStore(items, marks, i));
    if !remove[i] && section.items[i].Instr? && PureDefine(section.items[i].ins.machine.opcode) {
      var reg := section.items[i].ins.machine.dst;
      BlockBody(items, flow.blocks, k, i);
      OverwrittenBehind(items, remove[..], marks, i + 1, reg);
      var found := IsOverwritten(section.items, remove, i + 1, flow.blocks[k].end, reg);
      if found {
        Mark(remove, i);
        stats.deadStoresRemoved := stats.deadStoresRemoved + 1;
        changed := true;
      }
    }
  }

  lemma BlockBody(items: seq<Item>, blocks: seq<Block>, k: nat, i: nat)
    requires Tiles(items, blocks) && k < |blocks| && blocks[k].begin <= i < blocks[k].end
    requires items[i].Instr? && PureDefine(items[i].ins.machine.opcode)
    ensures forall j :: i < j < blocks[k].end ==> !Leader(items, j) && !items[j].Label?
    ensures blocks[k].end == |items| || Leader(items, blocks[k].end) || items[blocks[k].end].Label?
  {
    assert BlockOk(items, blocks[k]);
    BlockStops(items, blocks, k);
    forall j | i < j < blocks[k].end
      ensures !Leader(items, j) && !items[j].Label?
    {
      assert !items[j - 1].Label? && !Ends(items, j - 1);
    }
  }

  // ----- compaction -----

  /** Drops the marked items. */
  method Compact(section: Section, remove: array<bool>)
    requires remove.Length == |section.items|
    modifies section
    ensures section.items == Kept(old(section.items), remove[..])
  {
    var kept: seq<Item> := [];
    var i := 0;
    while i < |section.items|
      invariant i <= |section.items|
      invariant kept == Kept(section.items[..i], remove[..][..i])
    {
      assert section.items[..i + 1][..i] == section.items[..i] && remove[..][..i + 1][..i] == remove[..][..i];
      if !remove[i] {
        kept := kept + [section.items[i]];
      }
      i := i + 1;
    }
    assert section.items[..i] == section.items && remove[..][..i] == remove[..];
    section.items := kept;
  }
}
