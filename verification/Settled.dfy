/** Branches stay inside their section, round after round: what the control-flow graph needs of its
    input, and that one round keeps it. */
module SettledSections {
  import opened Words
  import opened Isa
  import opened Ir
  import opened Passes
  import opened Flow
  import opened Accounting
  import opened PassFacts
  import opened OptimizerProof
  import C = CompactProof
  import P = PeepholeProof

  /** Something behind item p outlives every pass: a terminator or a data item. */
  ghost predicate Anchored(items: seq<Item>, p: nat) {
    exists j :: p < j < |items| && !items[j].Label? && (items[j].Instr? ==> IsTerminator(items[j].ins.machine.opcode))
  }

  /** Every label the graph follows a branch to has a terminator or data behind it. */
  ghost predicate Settled(items: seq<Item>) {
    forall i :: 0 <= i < |items| && FollowedBranch(items, i) ==> Anchored(items, LabelMap(items)[items[i].ins.symbol.value.name])
  }

  lemma SettledBranchesInside(items: seq<Item>)
    requires Settled(items)
    ensures BranchesInside(items)
  {
    hide LabelMap;
  }

  /** A branch to a label in front of a single NOP, which the first round deletes. */
  function Unsettled(): (items: seq<Item>) {
    [Instr(IrInstruction(Instruction(JE, 0, 0, 0), Some(SymbolRef("L", 0)))), Label("L", false),
     Instr(IrInstruction(Instruction(NOP, 0, 0, 0), None))]
  }

  /** Without settled branches, one round can turn a section the graph accepts into one it does not. */
  lemma UnsettledExample()
    ensures BranchesInside(Unsettled()) && Pass(Unsettled()) == Unsettled()[..2] && !BranchesInside(Pass(Unsettled()))
  {
    hide PassMarked, Kept, BranchesInside;
    UnsettledMarks();
    UnsettledKept();
    UnsettledBranch();
  }

  lemma UnsettledKept()
    ensures Kept(Unsettled(), [false, false, true]) == Unsettled()[..2]
  {
    var items := Unsettled();
    KeptAll(items[..2], [false, false]);
    assert [false, false, true][..2] == [false, false];
  }

  lemma UnsettledBranch()
    ensures BranchesInside(Unsettled()) && !BranchesInside(Unsettled()[..2])
  {
    hide LabelMap;
    var items := Unsettled();
    UnsettledLabel(items);
    UnsettledLabel(items[..2]);
    assert !items[2].Label?;
    assert FollowedBranch(items[..2], 0);
    assert Trailing(items[..2], 1);
  }

  lemma UnsettledLabel(items: seq<Item>)
    requires items == Unsettled() || items == Unsettled()[..2]
    ensures "L" in LabelMap(items) && LabelMap(items)["L"] == 1
  {
    assert items[1].name == "L";
  }

  lemma UnsettledMarks()
    ensures PassMarked(Unsettled()) == (Unsettled(), [false, false, true])
  {
    hide FlagsNeeded, ConstantsAt, LabelFollows, FindOpcode;
    var items, none := Unsettled(), [false, false, false];
    assert MarkUnreachable(items) == none by {
      assert Reachable(items, 0) && Reachable(items, 2);
    }
    assert PeepholeItems(items, none) == items && PeepholeMarks(items, none) == none;
    assert JumpMarks(items, none) == none;
    assert FoldItems(items, none) == items;
    assert IdentityMarks(items, none) == [false, false, true];
    assert DeadStoreMarks(items, [false, false, true]) == [false, false, true];
  }

  /** A terminator or a branch is never rewritten, and no pass creates one. */
  lemma ControlStays(items: seq<Item>, i: nat)
    requires UniqueLabels(items) && i < |items|
    ensures items[i].Instr? && (IsTerminator(items[i].ins.machine.opcode) || IsBranch(items[i].ins.machine.opcode))
            ==> PassMarked(items).0[i] == items[i]
    ensures var after := PassMarked(items).0[i];
            after.Instr? && (IsTerminator(after.ins.machine.opcode) || IsBranch(after.ins.machine.opcode)) ==> after == items[i]
  {
    hide FoldedValue, ConstantsAt, FlagsNeeded, IsDeadStore, IsIdentity, JumpsToNext, Reachable;
    var q := Steps(items, map[]);
    StepsArePasses(items, map[]);
    assert q[2].items[i] == PeepholeItem(items, q[1].remove, i);
    assert q[4].items[i] == FoldItem(q[2].items, q[3].remove, i);
    if FoldItem(q[2].items, q[3].remove, i) != q[2].items[i] {
      var ins := q[2].items[i].ins;
      FoldedIsArithmetic(ins, ConstantsAt(q[2].items, q[3].remove, i), !FlagsNeeded(q[2].items, i + 1));
    }
  }

  lemma FoldedIsArithmetic(ins: IrInstruction, c: Constants, flagsDead: bool)
    requires FoldedValue(ins, c, flagsDead).Some?
    ensures !IsTerminator(ins.machine.opcode) && !IsBranch(ins.machine.opcode)
  {
  }

  /** From item t on, marked instructions and labels only until the label `name`. */
  ghost predicate MarksBehind(items: seq<Item>, r: seq<bool>, t: nat, name: string)
    requires t < |items|
  {
    |r| == |items| && LabelFollows(items, r, t + 1, name) && forall c :: 0 <= c < |items| && r[c] ==> items[c].Instr?
  }

  lemma NoLateMark(items: seq<Item>, remove: seq<bool>, t: nat)
    requires |remove| == |items| && t < |items| && items[t].Instr? && IsTerminator(items[t].ins.machine.opcode)
    requires DeadStoreMarks(items, IdentityMarks(items, remove))[t]
    ensures remove[t]
  {
    hide Overwritten;
  }

  lemma ControlStaysEarly(items: seq<Item>, remove: seq<bool>, t: nat)
    requires |remove| == |items| && t < |items| && items[t].Instr? && IsTerminator(items[t].ins.machine.opcode)
    ensures PeepholeItems(items, remove)[t] == items[t] && (PeepholeMarks(items, remove)[t] ==> remove[t])
  {
    assert PeepholeItems(items, remove)[t] == PeepholeItem(items, remove, t);
    assert PeepholeMarks(items, remove)[t] == PeepholeMark(items, remove, t);
  }

  /** A reachable terminator is marked only if it is a jump to what follows it. */
  lemma TerminatorMarked(items: seq<Item>, t: nat)
    requires UniqueLabels(items) && t < |items| && items[t].Instr? && IsTerminator(items[t].ins.machine.opcode)
    requires Reachable(items, t) && PassMarked(items).1[t]
    ensures items[t].ins.machine.opcode.JMP? && items[t].ins.symbol.Some?
    ensures exists r: seq<bool> :: MarksBehind(items, r, t, items[t].ins.symbol.value.name)
  {
    hide LabelFollows, FoldItems, PeepholeItems, PeepholeMarks, IsDeadStore, FindOpcode, Reachable;
    var r0 := MarkUnreachable(items);
    var items1, r1 := PeepholeItems(items, r0), PeepholeMarks(items, r0);
    var r2 := JumpMarks(items1, r1);
    var items2 := FoldItems(items1, r2);
    var marks := DeadStoreMarks(items2, IdentityMarks(items2, r2));
    assert PassMarked(items) == (items2, marks);
    ControlStays(items, t);
    NoLateMark(items2, r2, t);
    ControlStaysEarly(items, r0, t);
    assert JumpsToNext(items1, r1, t);
    PeepholeLighter(items, r0);
    assert SameLabels(items, items1);
    var name := items[t].ins.symbol.value.name;
    LabelFollowsSame(items, items1, r1, t + 1, name);
    PassKinds(items);
    forall c | 0 <= c < |items| && r1[c]
      ensures items[c].Instr?
    {
      assert marks[c];
    }
    assert MarksBehind(items, r1, t, name);
  }

  lemma {:induction false} LabelFollowsSame(items: seq<Item>, items': seq<Item>, r: seq<bool>, j: nat, name: string)
    requires SameLabels(items, items') && |r| == |items| && j <= |items|
    ensures LabelFollows(items, r, j, name) == LabelFollows(items', r, j, name)
    decreases |items| - j
  {
    if j < |items| {
      LabelFollowsSame(items, items', r, j + 1, name);
    }
  }

  /** The first terminator behind a label is reachable. */
  lemma {:induction false} FirstTerminator(items: seq<Item>, p: nat, i: nat, j: nat) returns (t: nat)
    requires p < i <= j < |items| && items[p].Label? && Reachable(items, i)
    requires items[j].Instr? && IsTerminator(items[j].ins.machine.opcode)
    ensures i <= t <= j && items[t].Instr? && IsTerminator(items[t].ins.machine.opcode) && Reachable(items, t)
    decreases j - i
  {
    if items[i].Instr? && IsTerminator(items[i].ins.machine.opcode) {
      t := i;
    } else {
      t := FirstTerminator(items, p, i + 1, j);
    }
  }

  /** Behind every label the graph follows a branch to, something anchoring survives the pass. */
  lemma {:induction false} SurvivingAnchor(items: seq<Item>, p: nat) returns (t: nat)
    requires UniqueLabels(items) && Settled(items)
    requires p < |items| && items[p].Label? && Anchored(items, p)
    ensures p < t < |items| && !items[t].Label? && !PassMarked(items).1[t]
    ensures items[t].Instr? ==> IsTerminator(items[t].ins.machine.opcode) && PassMarked(items).0[t] == items[t]
    decreases |items| - p
  {
    hide PassMarked, Reachable, LabelMap, FindOpcode;
    var j :| p < j < |items| && !items[j].Label? && (items[j].Instr? ==> IsTerminator(items[j].ins.machine.opcode));
    PassKinds(items);
    if !items[j].Instr? {
      t := j;
    } else {
      ReachableBehindLabel(items, p);
      t := FirstTerminator(items, p, p + 1, j);
      ControlStays(items, t);
      if PassMarked(items).1[t] {
        var l := JumpTarget(items, t);
        t := SurvivingAnchor(items, l);
      }
    }
  }

  lemma ReachableBehindLabel(items: seq<Item>, p: nat)
    requires p < |items| && items[p].Label?
    ensures Reachable(items, p + 1)
  {
  }

  lemma JumpTarget(items: seq<Item>, t: nat) returns (l: nat)
    requires UniqueLabels(items) && Settled(items) && t < |items| && items[t].Instr?
    requires IsTerminator(items[t].ins.machine.opcode) && Reachable(items, t) && PassMarked(items).1[t]
    ensures t < l < |items| && items[l].Label? && Anchored(items, l)
  {
    hide PassMarked, LabelMap, Anchored;
    TerminatorMarked(items, t);
    var name := items[t].ins.symbol.value.name;
    var r: seq<bool> :| MarksBehind(items, r, t, name);
    l := P.LabelAhead(items, r, t + 1, name);
    LabelIsWhereItStands(items, l);
    assert FollowedBranch(items, t);
  }

  lemma PassUnique(items: seq<Item>)
    requires UniqueLabels(items)
    ensures UniqueLabels(Pass(items))
  {
    hide PassMarked;
    var r := PassMarked(items);
    PassKinds(items);
    KindsKeepLabels(items, r.0);
    C.KeptUnique(Program(r.0, r.1, map[]));
  }

  /** One round keeps every branch inside the section. */
  lemma PassKeepsSettled(items: seq<Item>)
    requires UniqueLabels(items) && Settled(items)
    ensures UniqueLabels(Pass(items)) && Settled(Pass(items))
  {
    hide PassMarked, LabelMap, Anchored, FindOpcode;
    var r, after := PassMarked(items), Pass(items);
    var p := Program(r.0, r.1, map[]);
    PassKinds(items);
    KindsKeepLabels(items, r.0);
    SameLabelMap(items, r.0);
    assert C.LabelsKept(p);
    C.KeptUnique(p);
    C.LabelsMove(p);
    forall i | 0 <= i < |after| && FollowedBranch(after, i)
      ensures Anchored(after, LabelMap(after)[after[i].ins.symbol.value.name])
    {
      var from := C.KeptFrom(r.0, r.1, i);
      ControlStays(items, from);
      var name := after[i].ins.symbol.value.name;
      assert FollowedBranch(items, from);
      var target := LabelMap(items)[name];
      var t := SurvivingAnchor(items, target);
      AnchorMoves(items, r.0, r.1, target, t);
      assert LabelMap(after)[name] == KeptMap(r.1)[target];
    }
  }

  lemma KindsKeepLabels(items: seq<Item>, items': seq<Item>)
    requires SameKinds(items, items')
    ensures SameLabels(items, items')
    ensures UniqueLabels(items) ==> UniqueLabels(items')
  {
  }

  lemma AnchorMoves(items: seq<Item>, items': seq<Item>, remove: seq<bool>, p: nat, t: nat)
    requires SameKinds(items, items') && OnlyInstructionsMarked(items', remove)
    requires p < t < |items| && items[p].Label? && !items[t].Label? && !remove[t]
    requires items[t].Instr? ==> IsTerminator(items[t].ins.machine.opcode) && items'[t] == items[t]
    ensures Anchored(Kept(items', remove), KeptBefore(remove, p))
  {
    C.KeptAt(items', remove, t);
    C.KeptMonotone(remove, p, t);
    assert Kept(items', remove)[KeptBefore(remove, t)] == items'[t];
  }
}
