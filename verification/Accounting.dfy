/** What a pass does to the size of a section: the instruction count falls by exactly the marks,
    labels and data stay as they are, and a pass that changes anything makes the section lighter. */
module Accounting {
  import opened Words
  import opened Isa
  import opened Alu
  import opened Ir
  import opened Passes
  import opened ControlFlowGraph
  import opened OptimizerProof

  function InstructionCount(items: seq<Item>): nat {
    if items == [] then 0
    else InstructionCount(items[..|items| - 1]) + (if items[|items| - 1].Instr? then 1 else 0)
  }

  /** The items that are no instructions, in order. */
  function NonCode(items: seq<Item>): seq<Item> {
    if items == [] then []
    else NonCode(items[..|items| - 1]) + (if items[|items| - 1].Instr? then [] else [items[|items| - 1]])
  }

  /** Two for an instruction, one for the load of a constant. */
  function ItemWeight(item: Item): nat {
    if !item.Instr? then 0 else if item.ins.machine.opcode.MOVI? then 1 else 2
  }

  function Weight(items: seq<Item>): nat {
    if items == [] then 0 else Weight(items[..|items| - 1]) + ItemWeight(items[|items| - 1])
  }

  /** Weight of what is left after the marks. */
  function MarkedWeight(items: seq<Item>, remove: seq<bool>): nat
    requires |remove| == |items|
  {
    if items == [] then 0
    else
      var last := |items| - 1;
      MarkedWeight(items[..last], remove[..last]) + (if remove[last] then 0 else ItemWeight(items[last]))
  }

  ghost predicate OnlyInstructionsMarked(items: seq<Item>, remove: seq<bool>) {
    |remove| == |items| && forall i :: 0 <= i < |items| && remove[i] ==> items[i].Instr?
  }

  lemma Snoc(init: seq<Item>, x: Item)
    ensures InstructionCount(init + [x]) == InstructionCount(init) + (if x.Instr? then 1 else 0)
    ensures NonCode(init + [x]) == NonCode(init) + (if x.Instr? then [] else [x])
    ensures Weight(init + [x]) == Weight(init) + ItemWeight(x)
  {
    assert (init + [x])[..|init|] == init;
  }

  lemma {:induction false} KeptCount(items: seq<Item>, remove: seq<bool>)
    requires OnlyInstructionsMarked(items, remove)
    ensures InstructionCount(Kept(items, remove)) + CountTrue(remove) == InstructionCount(items)
    ensures NonCode(Kept(items, remove)) == NonCode(items)
    ensures Weight(Kept(items, remove)) == MarkedWeight(items, remove)
  {
    if items != [] {
      hide ItemWeight;
      var last := |items| - 1;
      KeptCount(items[..last], remove[..last]);
      var init := Kept(items[..last], remove[..last]);
      Snoc(init, items[last]);
      assert Kept(items, remove) == if remove[last] then init else init + [items[last]];
      assert NonCode(init) + [] == NonCode(init);
    }
  }

  /** Passes rewrite instructions into instructions and nothing else. */
  ghost predicate SameKinds(items: seq<Item>, items': seq<Item>) {
    && |items| == |items'|
    && forall i :: 0 <= i < |items| ==> items[i].Instr? == items'[i].Instr? && (!items[i].Instr? ==> items[i] == items'[i])
  }

  lemma {:induction false} SameKindsCount(items: seq<Item>, items': seq<Item>)
    requires SameKinds(items, items')
    ensures InstructionCount(items') == InstructionCount(items) && NonCode(items') == NonCode(items)
  {
    if items != [] {
      SameKindsCount(items[..|items| - 1], items'[..|items| - 1]);
    }
  }

  lemma {:induction false} LighterWeight(items: seq<Item>, items': seq<Item>, remove: seq<bool>)
    requires |items| == |items'| == |remove|
    requires forall i :: 0 <= i < |items| ==> remove[i] || ItemWeight(items'[i]) <= ItemWeight(items[i])
    ensures MarkedWeight(items', remove) <= Weight(items)
    ensures (exists i :: 0 <= i < |items| && (if remove[i] then 0 else ItemWeight(items'[i])) < ItemWeight(items[i]))
            ==> MarkedWeight(items', remove) < Weight(items)
  {
    if items != [] {
      var last := |items| - 1;
      LighterWeight(items[..last], items'[..last], remove[..last]);
      if i :| 0 <= i < |items| && (if remove[i] then 0 else ItemWeight(items'[i])) < ItemWeight(items[i]) {
        if i < last {
          assert (if remove[..last][i] then 0 else ItemWeight(items'[..last][i])) < ItemWeight(items[..last][i]);
        }
      }
    }
  }

  /** What one item can become: itself, a register move from a PUSH, or the load of a constant. */
  ghost predicate LighterItem(item: Item, item': Item) {
    item' == item || (item.Instr? && item'.Instr? && ItemWeight(item') <= ItemWeight(item))
  }

  lemma PeepholeLighter(items: seq<Item>, remove: seq<bool>)
    requires |remove| == |items|
    ensures forall i :: 0 <= i < |items| ==> LighterItem(items[i], PeepholeItems(items, remove)[i])
    ensures forall i :: 0 <= i < |items| && PeepholeItems(items, remove)[i] != items[i] ==>
      i + 1 < |items| && PeepholeMarks(items, remove)[i + 1] && items[i + 1].Instr?
  {
    forall i | 0 <= i < |items|
      ensures LighterItem(items[i], PeepholeItems(items, remove)[i])
      ensures PeepholeItems(items, remove)[i] != items[i] ==>
        i + 1 < |items| && PeepholeMarks(items, remove)[i + 1] && items[i + 1].Instr?
    {
      assert PeepholeItems(items, remove)[i] == PeepholeItem(items, remove, i);
      if PairStart(items, remove, i) {
        assert PeepholeMark(items, remove, i + 1);
      }
    }
  }

  lemma FoldLighter(items: seq<Item>, remove: seq<bool>)
    requires |remove| == |items|
    ensures forall i :: 0 <= i < |items| ==> LighterItem(items[i], FoldItems(items, remove)[i])
    ensures forall i :: 0 <= i < |items| && FoldItems(items, remove)[i] != items[i] ==>
      !remove[i] && ItemWeight(FoldItems(items, remove)[i]) < ItemWeight(items[i])
  {
    hide FlagsNeeded, ConstantsAt;
    forall i | 0 <= i < |items|
      ensures LighterItem(items[i], FoldItems(items, remove)[i])
      ensures FoldItems(items, remove)[i] != items[i] ==>
        !remove[i] && ItemWeight(FoldItems(items, remove)[i]) < ItemWeight(items[i])
    {
      assert FoldItems(items, remove)[i] == FoldItem(items, remove, i);
      if FoldItem(items, remove, i) != items[i] {
        FoldedIsNoLoad(items[i].ins, ConstantsAt(items, remove, i), !FlagsNeeded(items, i + 1));
      }
    }
  }

  lemma FoldedIsNoLoad(ins: IrInstruction, c: Constants, flagsDead: bool)
    requires FoldedValue(ins, c, flagsDead).Some?
    ensures !ins.machine.opcode.MOVI?
  {
    hide EvaluateBinary, EvaluateUnary, FitsImmediate;
  }

  /** The marks of a whole pass fall on instructions only, and every step is lighter or the same. */
  lemma PassKinds(items: seq<Item>)
    requires UniqueLabels(items)
    ensures OnlyInstructionsMarked(PassMarked(items).0, PassMarked(items).1)
    ensures SameKinds(items, PassMarked(items).0)
  {
    hide FoldItem, PeepholeItem;
    var q := Steps(items, map[]);
    StepsFacts(items, map[]);
    StepsArePasses(items, map[]);
    PeepholeLighter(items, q[1].remove);
    FoldLighter(q[2].items, q[3].remove);
    forall i | 0 <= i < |items|
      ensures items[i].Instr? == PassMarked(items).0[i].Instr? && (!items[i].Instr? ==> items[i] == PassMarked(items).0[i])
    {
      assert LighterItem(items[i], q[2].items[i]) && LighterItem(q[2].items[i], q[4].items[i]);
    }
  }

  /** Counting across a pass. */
  lemma PassCounts(items: seq<Item>)
    requires UniqueLabels(items)
    ensures InstructionCount(Pass(items)) + CountTrue(PassMarked(items).1) == InstructionCount(items)
    ensures NonCode(Pass(items)) == NonCode(items)
  {
    hide PassMarked;
    var r := PassMarked(items);
    PassKinds(items);
    KeptCount(r.0, r.1);
    SameKindsCount(items, r.0);
  }

  lemma {:induction false} SomeMark(s: seq<bool>)
    requires CountTrue(s) > 0
    ensures exists i :: 0 <= i < |s| && s[i]
  {
    var last := |s| - 1;
    if !s[last] {
      SomeMark(s[..last]);
      var i :| 0 <= i < last && s[..last][i];
      assert s[i];
    }
  }

  lemma {:induction false} NoMark(s: seq<bool>)
    requires CountTrue(s) == 0
    ensures s == NoMarks(|s|)
  {
    if s != [] {
      NoMark(s[..|s| - 1]);
      assert forall i :: 0 <= i < |s| - 1 ==> s[i] == s[..|s| - 1][i];
    }
  }

  lemma {:induction false} KeptAll(items: seq<Item>, remove: seq<bool>)
    requires remove == NoMarks(|items|)
    ensures Kept(items, remove) == items
  {
    if items != [] {
      var last := |items| - 1;
      assert remove[..last] == NoMarks(last);
      KeptAll(items[..last], remove[..last]);
      assert items[..last] + [items[last]] == items;
    }
  }

  /** A pass that marks or rewrites anything makes the section strictly lighter; one that does
      neither leaves it alone. */
  lemma PassWeight(items: seq<Item>)
    requires UniqueLabels(items)
    ensures PassMarked(items) != (items, NoMarks(|items|)) ==> Weight(Pass(items)) < Weight(items)
    ensures PassMarked(items) == (items, NoMarks(|items|)) ==> Pass(items) == items
  {
    hide PassMarked;
    var r := PassMarked(items);
    PassKinds(items);
    KeptCount(r.0, r.1);
    if r == (items, NoMarks(|items|)) {
      KeptAll(items, r.1);
    } else {
      PassLighter(items);
      LighterSomewhere(items, r.0, r.1);
    }
  }

  lemma LighterSomewhere(items: seq<Item>, items': seq<Item>, remove: seq<bool>)
    requires |items| == |items'| && OnlyInstructionsMarked(items', remove) && SameKinds(items, items')
    requires forall i :: 0 <= i < |items| ==> LighterItem(items[i], items'[i])
    requires remove == NoMarks(|items|) ==>
      forall i :: 0 <= i < |items| && items'[i] != items[i] ==> ItemWeight(items'[i]) < ItemWeight(items[i])
    requires (items', remove) != (items, NoMarks(|items|))
    ensures MarkedWeight(items', remove) < Weight(items)
  {
    LighterWeight(items, items', remove);
    if remove != NoMarks(|items|) {
      var i :| 0 <= i < |items| && remove[i];
      assert ItemWeight(items[i]) > 0;
    } else {
      assert items' != items;
      var i :| 0 <= i < |items| && items'[i] != items[i];
    }
  }

  lemma PassLighter(items: seq<Item>)
    requires UniqueLabels(items)
    ensures var r := PassMarked(items);
      && (forall i :: 0 <= i < |items| ==> LighterItem(items[i], r.0[i]))
      && (r.1 == NoMarks(|items|) ==> forall i :: 0 <= i < |items| && r.0[i] != items[i] ==> ItemWeight(r.0[i]) < ItemWeight(items[i]))
  {
    hide FoldItem, PeepholeItem, PeepholeMark, IsDeadStore, IsIdentity, JumpsToNext;
    var q := Steps(items, map[]);
    StepsArePasses(items, map[]);
    PeepholeLighter(items, q[1].remove);
    FoldLighter(q[2].items, q[3].remove);
    forall i | 0 <= i < |items|
      ensures LighterItem(items[i], q[4].items[i])
      ensures q[6].remove == NoMarks(|items|) && q[4].items[i] != items[i] ==> ItemWeight(q[4].items[i]) < ItemWeight(items[i])
    {
      assert LighterItem(items[i], q[2].items[i]) && LighterItem(q[2].items[i], q[4].items[i]);
      if q[2].items[i] != items[i] {
        assert q[2].remove[i + 1] && q[3].remove[i + 1] && q[6].remove[i + 1];
      }
    }
  }
}
