/** Facts the correctness proofs of the passes share. */
module PassFacts {
  import opened Words
  import opened Isa
  import opened Ir
  import opened CodePointers
  import opened Passes

  ghost predicate SameLabels(items: seq<Item>, items': seq<Item>) {
    && |items| == |items'|
    && forall i :: 0 <= i < |items| ==>
         items[i].Label? == items'[i].Label? && (items[i].Label? ==> items[i] == items'[i])
  }

  lemma {:induction false} SameLabelMapFrom(items: seq<Item>, items': seq<Item>, i: nat)
    requires SameLabels(items, items') && i <= |items|
    ensures LabelMapFrom(items, i) == LabelMapFrom(items', i)
    decreases |items| - i
  {
    if i < |items| {
      SameLabelMapFrom(items, items', i + 1);
    }
  }

  lemma SameLabelMap(items: seq<Item>, items': seq<Item>)
    requires SameLabels(items, items')
    ensures LabelMap(items) == LabelMap(items')
  {
    SameLabelMapFrom(items, items', 0);
  }

  lemma LabelIsWhereItStands(items: seq<Item>, i: nat)
    requires UniqueLabels(items) && i < |items| && items[i].Label?
    ensures items[i].name in LabelMap(items) && LabelMap(items)[items[i].name] == i
  {
    var p := LabelMap(items)[items[i].name];
    assert items[p].Label? && items[p].name == items[i].name && p <= i;
  }

  /** Rewriting instructions without touching terminators keeps the reachability scan. */
  lemma {:induction false} SameReachable(items: seq<Item>, items': seq<Item>, i: nat)
    requires SameLabels(items, items') && i <= |items|
    requires forall k :: 0 <= k < |items| ==>
      items[k].Instr? == items'[k].Instr?
      && (items[k].Instr? ==> IsTerminator(items[k].ins.machine.opcode) == IsTerminator(items'[k].ins.machine.opcode))
    ensures Reachable(items, i) == Reachable(items', i)
  {
    if i > 0 {
      SameReachable(items, items', i - 1);
    }
  }

  /** Where a code address can point: a label, or the item after a reachable CALL. */
  ghost predicate IsEntry(items: seq<Item>, i: nat) {
    || (i < |items| && items[i].Label?)
    || (0 < i <= |items| && IsOp(items, i - 1, CALL) && Reachable(items, i - 1))
  }

  ghost function EntryPoints(items: seq<Item>): set<nat> {
    set i: nat | i <= |items| && IsEntry(items, i)
  }

  lemma LabelsAreEntries(items: seq<Item>)
    ensures forall name :: name in LabelMap(items) ==> LabelMap(items)[name] in EntryPoints(items)
  {
  }

  /** An entry is never in the middle of a block. */
  lemma EntriesStartBlocks(items: seq<Item>, i: nat)
    requires i in EntryPoints(items)
    ensures (i < |items| && items[i].Label?) || Leader(items, i)
  {
  }

  /** A state in which every code address is an entry point. */
  ghost predicate Sound(items: seq<Item>, s: State) {
    s.pc <= |items| && CodesIn(s, EntryPoints(items))
  }

  /** Executing a reachable instruction keeps the state sound and says where control goes. */
  lemma ExecuteSound(p: Program, s: State, t: State)
    requires p.Valid() && p.Runs(s.pc) && !s.halted && Sound(p.items, s) && Reachable(p.items, s.pc)
    requires Step(p, s) == Some(t)
    ensures Sound(p.items, t)
    ensures ControlGoes(p.Environment(), p.items[s.pc].ins, s, t)
    ensures t.pc == s.pc + 1 || t.pc in EntryPoints(p.items)
  {
    var ins := p.items[s.pc].ins;
    LabelsAreEntries(p.items);
    ExecuteKeepsCodes(p.Environment(), ins, s, t, EntryPoints(p.items));
    ExecuteControl(p.Environment(), ins, s, t);
  }

  /** The marks made so far: only instructions, and every unreachable one. */
  ghost predicate MarksUnreachable(p: Program) {
    && p.Valid()
    && (forall i :: 0 <= i < |p.items| && p.remove[i] ==> p.items[i].Instr?)
    && (forall i :: 0 <= i < |p.items| && p.items[i].Instr? && !p.remove[i] ==> Reachable(p.items, i))
  }
}
