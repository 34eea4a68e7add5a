/** What each pass finds, said of the section alone: no scan, no constant map, no fixpoint. A pass does
    exactly this, no less and no more, so a round leaves a section alone exactly when nothing of the
    kind is left in it. */
module PassMeaning {
  import opened Words
  import opened Isa
  import opened Alu
  import AluMeaning
  import opened Ir
  import opened Passes

  /** An instruction that is not marked. */
  ghost predicate Stays(items: seq<Item>, remove: seq<bool>, i: int) {
    0 <= i < |items| == |remove| && !remove[i] && items[i].Instr?
  }

  // ----- unreachable code -----

  ghost predicate Stops(items: seq<Item>, j: nat)
    requires j < |items|
  {
    items[j].Instr? && var op := items[j].ins.machine.opcode; op.HALT? || op.JMP? || op.RET?
  }

  ghost predicate NoLabelBetween(items: seq<Item>, j: nat, i: nat) {
    forall k :: j <= k < i && k < |items| ==> !items[k].Label?
  }

  /** A HALT, JMP or RET stands before item i, with no label between. */
  ghost predicate AfterStop(items: seq<Item>, i: nat) {
    exists j :: 0 <= j < i && j < |items| && Stops(items, j) && NoLabelBetween(items, j + 1, i)
  }

  lemma {:induction false} ReachableMeans(items: seq<Item>, i: nat)
    requires i <= |items|
    ensures Reachable(items, i) <==> !AfterStop(items, i)
  {
    if i > 0 {
      ReachableMeans(items, i - 1);
      StopOneEarlier(items, i);
    }
  }

  lemma StopOneEarlier(items: seq<Item>, i: nat)
    requires 0 < i <= |items|
    ensures AfterStop(items, i) <==> !items[i - 1].Label? && (Stops(items, i - 1) || AfterStop(items, i - 1))
  {
    if AfterStop(items, i) {
      var j :| 0 <= j < i && j < |items| && Stops(items, j) && NoLabelBetween(items, j + 1, i);
      if j < i - 1 {
        assert NoLabelBetween(items, j + 1, i - 1);
      }
    }
    if !items[i - 1].Label? {
      if Stops(items, i - 1) {
        assert NoLabelBetween(items, i, i);
      }
      if AfterStop(items, i - 1) {
        var j :| 0 <= j < i - 1 && j < |items| && Stops(items, j) && NoLabelBetween(items, j + 1, i - 1);
        assert NoLabelBetween(items, j + 1, i);
      }
    }
  }

  /** Exactly the instructions behind a HALT, JMP or RET, up to the next label, are marked. */
  lemma UnreachableMeans(items: seq<Item>, i: nat)
    requires i < |items|
    ensures MarkUnreachable(items)[i] <==> items[i].Instr? && AfterStop(items, i)
  {
    ReachableMeans(items, i);
  }

  // ----- PUSH / POP pairs -----

  /** A PUSH with a POP right behind it, both still there. */
  ghost predicate PairAt(items: seq<Item>, remove: seq<bool>, i: int) {
    && Stays(items, remove, i) && Stays(items, remove, i + 1)
    && items[i].ins.machine.opcode.PUSH? && items[i + 1].ins.machine.opcode.POP?
  }

  lemma PairMeans(items: seq<Item>, remove: seq<bool>, i: nat)
    requires |remove| == |items|
    ensures PairStart(items, remove, i) <==> PairAt(items, remove, i)
  {
  }

  /** Every such pair goes: both instructions if they name the same register; otherwise the PUSH becomes
      the move it amounts to and the POP goes. Nothing else changes. */
  lemma PeepholeMeans(items: seq<Item>, remove: seq<bool>, i: nat)
    requires |remove| == |items| && i < |items|
    ensures PairAt(items, remove, i) && items[i].ins.machine.dst == items[i + 1].ins.machine.dst ==>
              PeepholeMarks(items, remove)[i] && PeepholeMarks(items, remove)[i + 1]
    ensures PairAt(items, remove, i) && items[i].ins.machine.dst != items[i + 1].ins.machine.dst ==>
              && !PeepholeMarks(items, remove)[i] && PeepholeMarks(items, remove)[i + 1]
              && PeepholeItems(items, remove)[i] ==
                 Instr(IrInstruction(
                         Instruction(MOV, items[i + 1].ins.machine.dst, items[i].ins.machine.dst, items[i].ins.machine.imm),
                         items[i].ins.symbol))
    ensures !PairAt(items, remove, i) && !PairAt(items, remove, i - 1) ==>
              PeepholeMarks(items, remove)[i] == remove[i] && PeepholeItems(items, remove)[i] == items[i]
  {
    PairMeans(items, remove, i);
    if i > 0 {
      PairMeans(items, remove, i - 1);
    }
  }

  // ----- jumps to the next instruction -----

  ghost predicate NamedLabel(items: seq<Item>, j: nat, name: string) {
    j < |items| && items[j].Label? && items[j].name == name
  }

  ghost predicate OnlyLabelsLeft(items: seq<Item>, remove: seq<bool>, i: nat, j: nat) {
    forall k :: i <= k < j && k < |items| && k < |remove| && !remove[k] ==> items[k].Label?
  }

  /** Going on from item i, label `name` comes before anything that is left but a label. */
  ghost predicate Ahead(items: seq<Item>, remove: seq<bool>, i: nat, name: string) {
    exists j :: i <= j < |items| == |remove| && !remove[j] && NamedLabel(items, j, name) && OnlyLabelsLeft(items, remove, i, j)
  }

  lemma {:induction false} AheadMeans(items: seq<Item>, remove: seq<bool>, i: nat, name: string)
    requires |remove| == |items| && i <= |items|
    ensures LabelFollows(items, remove, i, name) <==> Ahead(items, remove, i, name)
    decreases |items| - i
  {
    if i < |items| {
      AheadMeans(items, remove, i + 1, name);
      AheadLater(items, remove, i, name);
    }
  }

  lemma AheadLater(items: seq<Item>, remove: seq<bool>, i: nat, name: string)
    requires |remove| == |items| && i < |items|
    ensures Ahead(items, remove, i, name) <==>
            || (!remove[i] && NamedLabel(items, i, name))
            || ((remove[i] || items[i].Label?) && Ahead(items, remove, i + 1, name))
  {
    if Ahead(items, remove, i, name) {
      var j :| i <= j < |items| && !remove[j] && NamedLabel(items, j, name) && OnlyLabelsLeft(items, remove, i, j);
      if i < j {
        assert OnlyLabelsLeft(items, remove, i + 1, j);
      }
    }
    if !remove[i] && NamedLabel(items, i, name) {
      assert OnlyLabelsLeft(items, remove, i, i);
    }
    if (remove[i] || items[i].Label?) && Ahead(items, remove, i + 1, name) {
      var j :| i + 1 <= j < |items| && !remove[j] && NamedLabel(items, j, name) && OnlyLabelsLeft(items, remove, i + 1, j);
      assert OnlyLabelsLeft(items, remove, i, j);
    }
  }

  ghost predicate JumpOverLabels(items: seq<Item>, remove: seq<bool>, i: nat) {
    && i < |items| && items[i].Instr? && items[i].ins.machine.opcode.JMP?
    && items[i].ins.symbol.Some? && items[i].ins.symbol.value.addend == 0
    && Ahead(items, remove, i + 1, items[i].ins.symbol.value.name)
  }

  /** Exactly the jumps to a label that only labels separate from them are marked. */
  lemma JumpMeans(items: seq<Item>, remove: seq<bool>, i: nat)
    requires |remove| == |items| && i < |items|
    ensures JumpMarks(items, remove)[i] <==> remove[i] || JumpOverLabels(items, remove, i)
  {
    if items[i].Instr? && items[i].ins.symbol.Some? {
      AheadMeans(items, remove, i + 1, items[i].ins.symbol.value.name);
    }
  }

  // ----- straight-line code -----

  /** The instructions that end a block: everything that can go elsewhere, and SYSCALL. */
  ghost predicate Control(op: Opcode) {
    || op.HALT? || op.SYSCALL? || op.JMP? || op.CALL? || op.RET? || op.Unknown?
    || op.JE? || op.JNE? || op.JG? || op.JL? || op.JGE? || op.JLE?
  }

  ghost predicate Plain(item: Item) {
    !item.Label? && (item.Instr? ==> !Control(item.ins.machine.opcode))
  }

  /** Items j to i - 1 are no labels and no such instructions, so control runs through them to item i. */
  ghost predicate Straight(items: seq<Item>, j: nat, i: nat) {
    forall k :: j <= k < i && k < |items| ==> Plain(items[k])
  }

  lemma LeaderMeans(items: seq<Item>, i: nat)
    requires i <= |items|
    ensures Leader(items, i) <==> i == 0 || !Plain(items[i - 1])
  {
  }

  // ----- constants -----

  /** The instruction gives `reg` a new value, or may when the linker has filled in its symbol. */
  ghost predicate Defines(ins: IrInstruction, reg: Reg) {
    ins.machine.dst == reg && (ins.symbol.Some? || WritesDst(ins.machine.opcode))
  }

  /** Item j is the last one before item i to define `reg`, in the same straight-line code. */
  ghost predicate LastDefinition(items: seq<Item>, remove: seq<bool>, i: nat, reg: Reg, j: nat) {
    && j < i <= |items| && Stays(items, remove, j) && Defines(items[j].ins, reg)
    && Straight(items, j, i)
    && forall k :: j < k < i && Stays(items, remove, k) ==> !Defines(items[k].ins, reg)
  }

  /** The text before item i in its straight-line code gives `reg` the value v. */
  ghost predicate KnownBefore(items: seq<Item>, remove: seq<bool>, i: nat, reg: Reg, v: u64)
    decreases i, 1
  {
    exists j: nat :: j < i && LastDefinition(items, remove, i, reg, j) && Yields(items, remove, j, v)
  }

  /** Item j computes v from values that are known before it. */
  ghost predicate Yields(items: seq<Item>, remove: seq<bool>, j: nat, v: u64)
    decreases j, 2
  {
    && j < |items| && items[j].Instr? && items[j].ins.symbol.None?
    && var m := items[j].ins.machine;
       if m.opcode.MOVI? || m.opcode.LEA? then v == ToU64(m.imm)
       else if m.opcode.MOV? then KnownBefore(items, remove, j, m.src, v)
       else if IsBinaryAlu(m.opcode) then
         exists a: u64, b: u64 ::
           KnownBefore(items, remove, j, m.dst, a) && KnownBefore(items, remove, j, m.src, b)
           && Computes(EvaluateBinary(m.opcode, a, b), v)
       else if IsUnaryAlu(m.opcode) then
         exists a: u64 :: KnownBefore(items, remove, j, m.dst, a) && Computes(EvaluateUnary(m.opcode, a), v)
       else false
  }

  ghost predicate Computes(r: Result<AluResult, AluError>, v: u64) {
    r.Ok? && r.value.writesValue && r.value.value == v
  }

  /** One instruction on known values. */
  ghost predicate YieldsFrom(ins: IrInstruction, c: Constants, v: u64) {
    var m := ins.machine;
    && ins.symbol.None?
    && if m.opcode.MOVI? || m.opcode.LEA? then v == ToU64(m.imm)
       else if m.opcode.MOV? then c[m.src] == Some(v)
       else if IsBinaryAlu(m.opcode) then
         c[m.dst].Some? && c[m.src].Some? && Computes(EvaluateBinary(m.opcode, c[m.dst].value, c[m.src].value), v)
       else IsUnaryAlu(m.opcode) && c[m.dst].Some? && Computes(EvaluateUnary(m.opcode, c[m.dst].value), v)
  }

  lemma TransferMeans(ins: IrInstruction, c: Constants, reg: Reg, v: u64)
    ensures Transfer(ins, c)[reg] == Some(v) <==> if Defines(ins, reg) then YieldsFrom(ins, c, v) else c[reg] == Some(v)
  {
    hide EvaluateBinary, EvaluateUnary;
    var m := ins.machine;
    if IsBinaryAlu(m.opcode) && c[m.dst].Some? && c[m.src].Some? {
      var a, b := c[m.dst].value, c[m.src].value;
      AluMeaning.BinarySucceeds(m.opcode, a, b);
      if EvaluateBinary(m.opcode, a, b).Ok? {
        BinaryResult(m.opcode, a, b);
      }
    } else if IsUnaryAlu(m.opcode) && c[m.dst].Some? {
      AluMeaning.UnarySucceeds(m.opcode, c[m.dst].value);
      UnaryResult(m.opcode, c[m.dst].value);
    }
  }

  ghost predicate SameKnowledge(items: seq<Item>, remove: seq<bool>, i: nat)
    requires |remove| == |items| && i <= |items|
  {
    forall reg: Reg, v: u64 :: ConstantsAt(items, remove, i)[reg] == Some(v) <==> KnownBefore(items, remove, i, reg, v)
  }

  lemma YieldsMeans(items: seq<Item>, remove: seq<bool>, j: nat, v: u64)
    requires |remove| == |items| && j < |items| && items[j].Instr?
    requires SameKnowledge(items, remove, j)
    ensures Yields(items, remove, j, v) <==> YieldsFrom(items[j].ins, ConstantsAt(items, remove, j), v)
  {
    hide EvaluateBinary, EvaluateUnary, ConstantsAt, KnownBefore, IsBinaryAlu, IsUnaryAlu, Computes;
    var c, m := ConstantsAt(items, remove, j), items[j].ins.machine;
    assert forall reg: Reg, v: u64 :: c[reg] == Some(v) <==> KnownBefore(items, remove, j, reg, v);
    if YieldsFrom(items[j].ins, c, v) && !m.opcode.MOVI? && !m.opcode.LEA? && !m.opcode.MOV? {
      assert KnownBefore(items, remove, j, m.dst, c[m.dst].value);
    }
  }

  /** The constant map before an item holds exactly the values that the text gives. */
  lemma {:induction false} ConstantsMean(items: seq<Item>, remove: seq<bool>, i: nat)
    requires |remove| == |items| && i <= |items|
    ensures SameKnowledge(items, remove, i)
  {
    hide Transfer, YieldsFrom, Yields, ConstantsAt;
    if i > 0 {
      ConstantsMean(items, remove, i - 1);
    }
    forall reg: Reg, v: u64
      ensures ConstantsAt(items, remove, i)[reg] == Some(v) <==> KnownBefore(items, remove, i, reg, v)
    {
      ConstantMeans(items, remove, i, reg, v);
    }
  }

  lemma ConstantMeans(items: seq<Item>, remove: seq<bool>, i: nat, reg: Reg, v: u64)
    requires |remove| == |items| && i <= |items|
    requires i > 0 ==> SameKnowledge(items, remove, i - 1)
    ensures ConstantsAt(items, remove, i)[reg] == Some(v) <==> KnownBefore(items, remove, i, reg, v)
  {
    hide Transfer, YieldsFrom, Yields, Control, Defines, EndsBlock;
    LeaderMeans(items, i);
    if Leader(items, i) {
      NothingKnown(items, remove, i, reg, v);
    } else if Stays(items, remove, i - 1) {
      var ins, c := items[i - 1].ins, ConstantsAt(items, remove, i - 1);
      TransferMeans(ins, c, reg, v);
      YieldsMeans(items, remove, i - 1, v);
      if Defines(ins, reg) {
        DefinedLast(items, remove, i, reg, v);
      } else {
        DefinedEarlier(items, remove, i, reg, v);
      }
    } else {
      DefinedEarlier(items, remove, i, reg, v);
    }
  }

  lemma NothingKnown(items: seq<Item>, remove: seq<bool>, i: nat, reg: Reg, v: u64)
    requires i <= |items| && (i == 0 || !Plain(items[i - 1]))
    ensures !KnownBefore(items, remove, i, reg, v)
  {
    hide Yields, Plain;
  }

  lemma DefinedLast(items: seq<Item>, remove: seq<bool>, i: nat, reg: Reg, v: u64)
    requires 0 < i <= |items| && Stays(items, remove, i - 1) && Plain(items[i - 1]) && Defines(items[i - 1].ins, reg)
    ensures KnownBefore(items, remove, i, reg, v) <==> Yields(items, remove, i - 1, v)
  {
    hide Yields, Plain, Defines;
    if KnownBefore(items, remove, i, reg, v) {
      var j: nat :| j < i && LastDefinition(items, remove, i, reg, j) && Yields(items, remove, j, v);
      assert j == i - 1;
    } else {
      assert LastDefinition(items, remove, i, reg, i - 1);
    }
  }

  lemma DefinedEarlier(items: seq<Item>, remove: seq<bool>, i: nat, reg: Reg, v: u64)
    requires 0 < i <= |items| && Plain(items[i - 1])
    requires !Stays(items, remove, i - 1) || !Defines(items[i - 1].ins, reg)
    ensures KnownBefore(items, remove, i, reg, v) <==> KnownBefore(items, remove, i - 1, reg, v)
  {
    hide Yields, Plain, Defines;
    if KnownBefore(items, remove, i, reg, v) {
      var j: nat :| j < i && LastDefinition(items, remove, i, reg, j) && Yields(items, remove, j, v);
      assert LastDefinition(items, remove, i - 1, reg, j);
    }
    if KnownBefore(items, remove, i - 1, reg, v) {
      var j: nat :| j < i - 1 && LastDefinition(items, remove, i - 1, reg, j) && Yields(items, remove, j, v);
      assert LastDefinition(items, remove, i, reg, j);
    }
  }

  // ----- FLAGS -----

  predicate TestsFlags(op: Opcode) { op.JE? || op.JNE? || op.JG? || op.JL? || op.JGE? || op.JLE? }

  /** All arithmetic, logic and comparison but NOT. */
  predicate SetsFlags(op: Opcode) {
    || op.ADD? || op.SUB? || op.MUL? || op.DIV? || op.MOD? || op.INC? || op.DEC? || op.NEG?
    || op.AND? || op.OR? || op.XOR? || op.SHL? || op.SHR? || op.SAR? || op.CMP? || op.TEST?
  }

  ghost predicate FirstLabel(items: seq<Item>, name: string, j: nat) {
    NamedLabel(items, j, name) && forall k: nat :: k < j ==> !NamedLabel(items, k, name)
  }

  /** Control can go from item i to item j with FLAGS as they are. */
  ghost predicate Goes(items: seq<Item>, i: nat, j: nat) {
    && i < |items|
    && if !items[i].Instr? then j == i + 1
       else
         var ins := items[i].ins;
         var op := ins.machine.opcode;
         && !TestsFlags(op) && !SetsFlags(op) && !op.HALT? && !op.CALL?
         && if op.JMP? || op.RET? then ins.symbol.Some? && FirstLabel(items, ins.symbol.value.name, j) else j == i + 1
  }

  /** Item i tests FLAGS, or sends control where the section does not show it. */
  ghost predicate Looks(items: seq<Item>, i: nat) {
    && i < |items| && items[i].Instr?
    && var ins := items[i].ins;
       var op := ins.machine.opcode;
       || TestsFlags(op) || op.CALL?
       || ((op.JMP? || op.RET?) && (ins.symbol.None? || forall j: nat :: !NamedLabel(items, j, ins.symbol.value.name)))
  }

  /** A path of control flow from item i to one that looks at FLAGS. */
  ghost predicate Path(items: seq<Item>, i: nat, path: seq<nat>) {
    && path != [] && path[0] == i
    && (forall k :: 0 <= k < |path| - 1 ==> Goes(items, path[k], path[k + 1]))
    && Looks(items, path[|path| - 1])
  }

  ghost predicate SomePath(items: seq<Item>, i: nat) {
    exists path: seq<nat> :: Path(items, i, path)
  }

  lemma FirstLabelMeans(items: seq<Item>, name: string, j: nat)
    ensures FirstLabel(items, name, j) <==> name in LabelMap(items) && LabelMap(items)[name] == j
    ensures name !in LabelMap(items) <==> forall k: nat :: !NamedLabel(items, k, name)
  {
    var labels := LabelMap(items);
    assert PointsToLabels(items, 0, labels);
    if name in labels {
      assert NamedLabel(items, labels[name], name);
    }
  }

  lemma StepMeans(items: seq<Item>, i: nat, steps: nat)
    requires i < |items|
    ensures FlagsNeededWithin(items, LabelMap(items), i, steps + 1) <==>
            Looks(items, i) || exists j: nat :: Goes(items, i, j) && FlagsNeededWithin(items, LabelMap(items), j, steps)
  {
    hide LabelMap, NamedLabel, FirstLabel;
    var labels := LabelMap(items);
    if items[i].Instr? && items[i].ins.symbol.Some? {
      var name := items[i].ins.symbol.value.name;
      FirstLabelMeans(items, name, 0);
      forall j: nat
        ensures FirstLabel(items, name, j) <==> name in labels && labels[name] == j
      {
        FirstLabelMeans(items, name, j);
      }
    }
    StepGoes(items, i, steps);
  }

  lemma StepGoes(items: seq<Item>, i: nat, steps: nat)
    requires i < |items|
    requires items[i].Instr? && items[i].ins.symbol.Some? ==>
      var name := items[i].ins.symbol.value.name;
      && (forall j: nat :: FirstLabel(items, name, j) <==> name in LabelMap(items) && LabelMap(items)[name] == j)
      && (name !in LabelMap(items) <==> forall k: nat :: !NamedLabel(items, k, name))
    ensures FlagsNeededWithin(items, LabelMap(items), i, steps + 1) <==>
            Looks(items, i) || exists j: nat :: Goes(items, i, j) && FlagsNeededWithin(items, LabelMap(items), j, steps)
  {
    hide LabelMap, NamedLabel, FirstLabel;
    var labels := LabelMap(items);
    if !items[i].Instr? {
      assert Goes(items, i, i + 1);
    } else {
      var ins := items[i].ins;
      var op := ins.machine.opcode;
      if TestsFlags(op) || op.CALL? || SetsFlags(op) || op.HALT? {
        assert forall j: nat :: !Goes(items, i, j);
      } else if op.JMP? || op.RET? {
        assert IsBranch(op);
        if ins.symbol.Some? && ins.symbol.value.name in labels {
          assert FirstLabel(items, ins.symbol.value.name, labels[ins.symbol.value.name]);
          assert Goes(items, i, labels[ins.symbol.value.name]);
        }
      } else {
        assert !IsBranch(op) && !WritesFlags(op);
        assert Goes(items, i, i + 1);
      }
    }
  }

  lemma {:induction false} NeededHasPath(items: seq<Item>, i: nat, steps: nat) returns (path: seq<nat>)
    requires FlagsNeededWithin(items, LabelMap(items), i, steps)
    ensures Path(items, i, path)
    decreases steps
  {
    StepMeans(items, i, steps - 1);
    hide FlagsNeededWithin, LabelMap, Goes, Looks;
    if Looks(items, i) {
      path := [i];
    } else {
      var j: nat :| Goes(items, i, j) && FlagsNeededWithin(items, LabelMap(items), j, steps - 1);
      var rest := NeededHasPath(items, j, steps - 1);
      path := [i] + rest;
      assert forall k :: 0 < k < |path| ==> path[k] == rest[k - 1];
    }
  }

  lemma {:induction false} PathIsNeeded(items: seq<Item>, i: nat, path: seq<nat>)
    requires Path(items, i, path)
    ensures FlagsNeededWithin(items, LabelMap(items), i, |path|)
    decreases |path|
  {
    assert |path| > 1 ==> Goes(items, path[0], path[1]);
    StepMeans(items, i, |path| - 1);
    hide FlagsNeededWithin, LabelMap, Looks;
    if |path| > 1 {
      assert Goes(items, path[0], path[1]);
      PathIsNeeded(items, path[1], path[1..]);
    }
  }

  /** FLAGS are needed at an item exactly when some path of control flow from it tests them, or leaves
      what the section shows, before anything sets them. */
  lemma FlagsNeededMeans(items: seq<Item>, i: nat)
    ensures FlagsNeeded(items, i) <==> SomePath(items, i)
  {
    hide FlagsNeededWithin, LabelMap, Path;
    if FlagsNeeded(items, i) {
      var steps: nat :| FlagsNeededWithin(items, LabelMap(items), i, steps);
      var path := NeededHasPath(items, i, steps);
    }
    if SomePath(items, i) {
      var path: seq<nat> :| Path(items, i, path);
      PathIsNeeded(items, i, path);
    }
  }

  // ----- folding -----

  /** Item i is a move or a computation, its value is known, fits the immediate field, and nobody looks
      at the FLAGS it sets. */
  ghost predicate FoldsTo(items: seq<Item>, remove: seq<bool>, i: nat, v: u64) {
    && Stays(items, remove, i)
    && var op := items[i].ins.machine.opcode;
       && !op.MOVI? && !op.LEA?
       && Yields(items, remove, i, v)
       && -0x8000_0000_0000 <= ToI64(v) < 0x8000_0000_0000
       && (SetsFlags(op) ==> !SomePath(items, i + 1))
  }

  /** Every such item is replaced by a load of its value, and nothing else changes. */
  lemma FoldMeans(items: seq<Item>, remove: seq<bool>, i: nat)
    requires |remove| == |items| && i < |items|
    ensures forall v: u64 :: FoldsTo(items, remove, i, v) ==>
              FoldItems(items, remove)[i] == Instr(IrInstruction(Instruction(MOVI, items[i].ins.machine.dst, 0, ToI64(v)), None))
    ensures (forall v: u64 :: !FoldsTo(items, remove, i, v)) ==> FoldItems(items, remove)[i] == items[i]
  {
    hide EvaluateBinary, EvaluateUnary, ConstantsAt, Yields, SomePath, FlagsNeeded;
    if Stays(items, remove, i) {
      ConstantsMean(items, remove, i);
      FlagsNeededMeans(items, i + 1);
      var c, ins := ConstantsAt(items, remove, i), items[i].ins;
      forall v: u64
        ensures FoldsTo(items, remove, i, v) <==> FoldedValue(ins, c, !FlagsNeeded(items, i + 1)) == Some(v)
      {
        YieldsMeans(items, remove, i, v);
        FoldedValueMeans(ins, c, !FlagsNeeded(items, i + 1), v);
      }
      hide FoldsTo, FoldedValue;
      assert FoldItem(items, remove, i) == FoldItems(items, remove)[i];
      FoldedNeedsNoSymbol(ins, c, !FlagsNeeded(items, i + 1));
      var r := FoldedValue(ins, c, !FlagsNeeded(items, i + 1));
      if r.Some? {
        assert FoldsTo(items, remove, i, r.value);
      }
    }
  }

  lemma FoldedNeedsNoSymbol(ins: IrInstruction, c: Constants, flagsDead: bool)
    ensures FoldedValue(ins, c, flagsDead).Some? ==> ins.symbol.None?
  {
    hide KnownResult, FitsImmediate;
  }

  lemma FoldedValueMeans(ins: IrInstruction, c: Constants, flagsDead: bool, v: u64)
    ensures FoldedValue(ins, c, flagsDead) == Some(v) <==>
            && !ins.machine.opcode.MOVI? && !ins.machine.opcode.LEA?
            && YieldsFrom(ins, c, v)
            && -0x8000_0000_0000 <= ToI64(v) < 0x8000_0000_0000
            && (SetsFlags(ins.machine.opcode) ==> flagsDead)
  {
    hide EvaluateBinary, EvaluateUnary;
    var m := ins.machine;
    if IsBinaryAlu(m.opcode) && c[m.dst].Some? && c[m.src].Some? {
      var a, b := c[m.dst].value, c[m.src].value;
      if EvaluateBinary(m.opcode, a, b).Ok? {
        BinaryResult(m.opcode, a, b);
      }
    } else if IsUnaryAlu(m.opcode) && c[m.dst].Some? {
      AluMeaning.UnarySucceeds(m.opcode, c[m.dst].value);
      UnaryResult(m.opcode, c[m.dst].value);
    }
  }

  // ----- identities -----

  /** A NOP, or a move of a register to itself. */
  ghost predicate DoesNothing(items: seq<Item>, i: nat) {
    && i < |items| && items[i].Instr? && items[i].ins.symbol.None?
    && var m := items[i].ins.machine;
       m.opcode.NOP? || (m.opcode.MOV? && m.src == m.dst)
  }

  lemma IdentityMeans(items: seq<Item>, remove: seq<bool>, i: nat)
    requires |remove| == |items| && i < |items|
    ensures IdentityMarks(items, remove)[i] <==> remove[i] || DoesNothing(items, i)
  {
  }

  // ----- dead stores -----

  ghost predicate NoReadBetween(items: seq<Item>, remove: seq<bool>, j: nat, k: nat, reg: Reg) {
    forall m :: j <= m < k && Stays(items, remove, m) ==> !ReadsRegister(items[m].ins.machine, reg)
  }

  /** Item k writes `reg` in the same straight-line code as item j, before anything from item j on
      reads it. */
  ghost predicate OverwrittenAt(items: seq<Item>, remove: seq<bool>, j: nat, reg: Reg, k: nat) {
    && j <= k && Stays(items, remove, k)
    && WritesRegister(items[k].ins.machine, reg)
    && Straight(items, j, k)
    && NoReadBetween(items, remove, j, k + 1, reg)
  }

  ghost predicate OverwrittenLater(items: seq<Item>, remove: seq<bool>, j: nat, reg: Reg) {
    exists k: nat :: OverwrittenAt(items, remove, j, reg, k)
  }

  lemma {:induction false} OverwrittenMeans(items: seq<Item>, remove: seq<bool>, j: nat, reg: Reg)
    requires |remove| == |items| && 0 < j <= |items| && Plain(items[j - 1])
    ensures Overwritten(items, remove, j, reg) <==> OverwrittenLater(items, remove, j, reg)
    decreases |items| - j
  {
    hide OverwrittenAt, Leader, ReadsRegister, WritesRegister, Control, OverwrittenLater;
    OverwrittenNext(items, remove, j, reg);
    LeaderMeans(items, j);
    if j < |items| && Plain(items[j]) {
      OverwrittenMeans(items, remove, j + 1, reg);
    } else if j < |items| && !items[j].Label? {
      LeaderMeans(items, j + 1);
    }
  }

  lemma OverwrittenNext(items: seq<Item>, remove: seq<bool>, j: nat, reg: Reg)
    requires |remove| == |items| && j <= |items|
    ensures OverwrittenLater(items, remove, j, reg) <==>
            && j < |items|
            && (Stays(items, remove, j) ==> !ReadsRegister(items[j].ins.machine, reg))
            && (|| (Stays(items, remove, j) && WritesRegister(items[j].ins.machine, reg))
                || (Plain(items[j]) && OverwrittenLater(items, remove, j + 1, reg)))
  {
    hide ReadsRegister, WritesRegister, Plain;
    if OverwrittenLater(items, remove, j, reg) {
      var k: nat :| OverwrittenAt(items, remove, j, reg, k);
      if k > j {
        assert OverwrittenAt(items, remove, j + 1, reg, k);
      }
    }
    if j < |items| && (Stays(items, remove, j) ==> !ReadsRegister(items[j].ins.machine, reg)) {
      if Stays(items, remove, j) && WritesRegister(items[j].ins.machine, reg) {
        assert OverwrittenAt(items, remove, j, reg, j);
      }
      if Plain(items[j]) && OverwrittenLater(items, remove, j + 1, reg) {
        var k: nat :| OverwrittenAt(items, remove, j + 1, reg, k);
        assert OverwrittenAt(items, remove, j, reg, k);
      }
    }
  }

  /** A MOVI, MOV or LEA whose register is written again before it is read. */
  ghost predicate DeadStoreAt(items: seq<Item>, remove: seq<bool>, i: nat) {
    && i < |items| && items[i].Instr?
    && var m := items[i].ins.machine;
       && (m.opcode.MOVI? || m.opcode.MOV? || m.opcode.LEA?)
       && OverwrittenLater(items, remove, i + 1, m.dst)
  }

  /** Exactly these stores are marked. */
  lemma DeadStoreMeans(items: seq<Item>, remove: seq<bool>, i: nat)
    requires |remove| == |items| && i < |items|
    ensures DeadStoreMarks(items, remove)[i] <==> remove[i] || DeadStoreAt(items, remove, i)
  {
    hide Overwritten, OverwrittenLater;
    if items[i].Instr? && PureDefine(items[i].ins.machine.opcode) {
      OverwrittenMeans(items, remove, i + 1, items[i].ins.machine.dst);
    }
  }
}
