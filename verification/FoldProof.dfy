/** Constant folding: every constant the folder tracks is the register's run-time value, and all
    folds of one sweep together leave FLAGS intact wherever FLAGS can still be read. */
module FoldProof {
  import opened Words
  import opened Isa
  import opened Alu
  import opened Ir
  import opened CodePointers
  import opened Simulation
  import opened Passes
  import opened PassFacts
  import opened PeepholeProof

  /** Why item c may have been marked before folding: it is unreachable, half of a PUSH/POP pair,
      or a jump to what follows. */
  ghost predicate FairMark(p: Program, c: nat)
    requires p.Valid() && c < |p.items|
  {
    && p.items[c].Instr?
    && (|| !Reachable(p.items, c)
        || IsOp(p.items, c, PUSH) || IsOp(p.items, c, POP)
        || JumpsToNext(p.items, p.remove, c))
  }

  ghost predicate Foldable(p: Program) {
    && MarksUnreachable(p) && UniqueLabels(p.items)
    && forall c :: 0 <= c < |p.items| && p.remove[c] ==> FairMark(p, c)
  }

  ghost function Folded(p: Program): (q: Program)
    requires p.Valid()
    ensures q.Valid()
  {
    p.(items := FoldItems(p.items, p.remove))
  }

  /** The next item from i on that has an effect. */
  function Land(p: Program, i: nat): (j: nat)
    requires p.Valid()
    ensures j >= i
    ensures i < j <= |p.items| || j == i
    decreases |p.items| - i
  {
    if i < |p.items| && (p.remove[i] || p.items[i].Label?) then Land(p, i + 1) else i
  }

  predicate Known(c: Constants, regs: Registers) {
    forall r: Reg :: c[r].Some? ==> regs[r] == Num(c[r].value)
  }

  ghost predicate Related(p: Program, s: State, s': State) {
    && p.Valid() && Sound(p.items, s) && SameRest(s, s') && s'.regs == s.regs && s'.executed == s.executed
    && (!s.halted ==>
      && (FlagsNeeded(p.items, Land(p, s.pc)) ==> s'.flags == s.flags)
      && ((s.pc < |p.items| && p.items[s.pc].Label?) || Known(ConstantsAt(p.items, p.remove, s.pc), s.regs)))
  }

  // ----- FLAGS -----

  lemma NeededThrough(items: seq<Item>, i: nat)
    requires i < |items| && FlagsNeeded(items, i + 1)
    requires items[i].Instr? ==>
      var op := items[i].ins.machine.opcode; !WritesFlags(op) && !op.HALT? && !IsBranch(op)
    ensures FlagsNeeded(items, i)
  {
    var n: nat :| FlagsNeededWithin(items, LabelMap(items), i + 1, n);
    assert FlagsNeededWithin(items, LabelMap(items), i, n + 1);
  }

  lemma NeededThroughJump(items: seq<Item>, i: nat, name: string)
    requires i < |items| && IsOp(items, i, JMP) && items[i].ins.symbol.Some? && items[i].ins.symbol.value.name == name
    requires name in LabelMap(items) && FlagsNeeded(items, LabelMap(items)[name])
    ensures FlagsNeeded(items, i)
  {
    var n: nat :| FlagsNeededWithin(items, LabelMap(items), LabelMap(items)[name], n);
    assert FlagsNeededWithin(items, LabelMap(items), i, n + 1);
  }

  lemma NeededAtOnce(items: seq<Item>, i: nat)
    requires i < |items| && items[i].Instr?
    requires var ins := items[i].ins;
             ReadsFlags(ins.machine.opcode) || ins.machine.opcode.CALL? || (ins.machine.opcode.RET? && ins.symbol.None?)
    ensures FlagsNeeded(items, i)
  {
    assert FlagsNeededWithin(items, LabelMap(items), i, 1);
  }

  lemma {:induction false} LandSkips(p: Program, i: nat, l: nat)
    requires p.Valid() && i <= l <= |p.items|
    requires forall k :: i <= k < l ==> p.remove[k] || p.items[k].Label?
    ensures Land(p, i) == Land(p, l)
    decreases l - i
  {
    if i < l {
      LandSkips(p, i + 1, l);
    }
  }

  /** Stepping back over removed items, FLAGS stays needed. */
  lemma {:induction false} LandNeeded(p: Program, i: nat)
    requires Foldable(p) && i <= |p.items|
    requires Reachable(p.items, i) || (i < |p.items| && p.items[i].Label?)
    requires FlagsNeeded(p.items, Land(p, i))
    ensures FlagsNeeded(p.items, i)
    decreases |p.items| - i
  {
    if i < |p.items| && (p.remove[i] || p.items[i].Label?) {
      if p.items[i].Instr? && JumpsToNext(p.items, p.remove, i) && !IsOp(p.items, i, PUSH) {
        var name := p.items[i].ins.symbol.value.name;
        var l := LabelAhead(p.items, p.remove, i + 1, name);
        LandSkips(p, i + 1, l);
        LandNeeded(p, l);
        LabelIsWhereItStands(p.items, l);
        NeededThroughJump(p.items, i, name);
      } else {
        assert p.remove[i] ==> FairMark(p, i);
        LandNeeded(p, i + 1);
        NeededThrough(p.items, i);
      }
    }
  }

  /** If FLAGS is needed where an instruction that does not write it goes, it was needed before. */
  lemma NeededBefore(p: Program, s: State, t: State)
    requires Foldable(p) && !s.halted && p.Runs(s.pc) && Sound(p.items, s) && Step(p, s) == Some(t)
    requires !WritesFlags(p.items[s.pc].ins.machine.opcode) && !t.halted
    requires FlagsNeeded(p.items, Land(p, t.pc))
    ensures FlagsNeeded(p.items, s.pc)
  {
    hide Execute;
    var ins := p.items[s.pc].ins;
    var op := ins.machine.opcode;
    ExecuteSound(p, s, t);
    ExecuteControl(p.Environment(), ins, s, t);
    RetHasNoSymbol(p.Environment(), ins, s);
    if ReadsFlags(op) || op.CALL? || op.RET? {
      NeededAtOnce(p.items, s.pc);
    } else {
      LandNeeded(p, t.pc);
      if op.JMP? {
        NeededThroughJump(p.items, s.pc, ins.symbol.value.name);
      } else {
        NeededThrough(p.items, s.pc);
      }
    }
  }

  lemma RetHasNoSymbol(env: Env, ins: IrInstruction, s: State)
    requires Execute(env, ins, s).Some?
    ensures ins.machine.opcode.RET? ==> ins.symbol.None?
    ensures !ins.machine.opcode.Unknown?
  {
  }

  // ----- constants -----

  /** The tracked constants stay true across an instruction inside a block. */
  lemma TransferSound(env: Env, ins: IrInstruction, c: Constants, s: State, t: State)
    requires Known(c, s.regs) && Execute(env, ins, s) == Some(t) && !EndsBlock(ins.machine.opcode)
    ensures Known(Transfer(ins, c), t.regs)
  {
    var m := ins.machine;
    ExecuteRespectsTable(env, ins, s, t);
    if ins.symbol.None? && (IsBinaryAlu(m.opcode) || IsUnaryAlu(m.opcode)) && KnownResult(m, c).Some? {
      KnownResultSound(env, ins, c, s, t);
    }
  }

  /** The ALU result computed from tracked constants is the one execution produces. */
  lemma KnownResultSound(env: Env, ins: IrInstruction, c: Constants, s: State, t: State)
    requires Known(c, s.regs) && Execute(env, ins, s) == Some(t) && ins.symbol.None?
    requires KnownResult(ins.machine, c).Some?
    ensures KnownResult(ins.machine, c).value.Ok?
    ensures var a := KnownResult(ins.machine, c).value.value;
      t == s.(pc := s.pc + 1, executed := s.executed + 1,
              regs := if a.writesValue then s.regs[ins.machine.dst := Num(a.value)] else s.regs,
              flags := if a.writesFlags then a.flags else s.flags)
  {
    hide EvaluateBinary, EvaluateUnary;
  }

  lemma FlagsOfKnownResult(m: Instruction, c: Constants)
    requires KnownResult(m, c).Some? && KnownResult(m, c).value.Ok?
    ensures KnownResult(m, c).value.value.writesFlags == WritesFlags(m.opcode)
  {
    hide EvaluateBinary, EvaluateUnary;
    if IsBinaryAlu(m.opcode) {
      BinaryResult(m.opcode, c[m.dst].value, c[m.src].value);
    } else {
      UnaryResult(m.opcode, c[m.dst].value);
    }
  }

  lemma ImmediateRoundTrip(value: u64)
    requires FitsImmediate(value)
    ensures ToU64(ToI64(value)) == value
  {
  }

  /** Executing the load of a folded value has the effect of the original, FLAGS aside. */
  lemma FoldedValueIsRight(env: Env, ins: IrInstruction, c: Constants, flagsDead: bool, s: State, t: State)
    requires Known(c, s.regs) && Execute(env, ins, s) == Some(t)
    requires FoldedValue(ins, c, flagsDead).Some?
    ensures var v := FoldedValue(ins, c, flagsDead).value;
      t == s.(pc := s.pc + 1, executed := s.executed + 1, regs := s.regs[ins.machine.dst := Num(v)], flags := t.flags)
    ensures if WritesFlags(ins.machine.opcode) then flagsDead else t.flags == s.flags
  {
    hide EvaluateBinary, EvaluateUnary;
    ExecuteRespectsTable(env, ins, s, t);
    if !ins.machine.opcode.MOV? {
      KnownResultSound(env, ins, c, s, t);
      FlagsOfKnownResult(ins.machine, c);
    }
  }

  /** The replacement instruction. */
  lemma LoadConstantStep(q: Program, s: State, m: Instruction, v: u64)
    requires q.Valid() && !s.halted && q.Runs(s.pc) && FitsImmediate(v)
    requires q.items[s.pc].ins == IrInstruction(LoadConstant(m, v), None)
    ensures Step(q, s) == Some(s.(pc := s.pc + 1, executed := s.executed + 1, regs := s.regs[m.dst := Num(v)]))
  {
    ImmediateRoundTrip(v);
  }

  // ----- the simulation -----

  lemma FoldSimulation(p: Program)
    requires Foldable(p)
    ensures StepSimulation(p, Folded(p), (a, b) => Related(p, a, b))
  {
    var rel := (a, b) => Related(p, a, b);
    forall a, b | rel(a, b) && Step(p, a).Some?
      ensures Follows(Folded(p), b, Step(p, a).value, rel)
    {
      if a.halted {
        FollowsAtOnce(Folded(p), b, Step(p, a).value, rel);
      } else {
        if !p.Runs(a.pc) {
          SilentStep(p, a, b);
        } else if Folded(p).items[a.pc] == p.items[a.pc] {
          UnfoldedStep(p, a, b);
        } else {
          FoldedStep(p, a, b);
        }
        FollowsInOneStep(Folded(p), b, Step(p, a).value, rel);
      }
    }
  }

  lemma SilentStep(p: Program, s: State, s': State)
    requires Foldable(p) && Related(p, s, s') && !s.halted && !p.Runs(s.pc) && Step(p, s).Some?
    ensures Step(Folded(p), s').Some? && Related(p, Step(p, s).value, Step(Folded(p), s').value)
  {
    hide Execute, FlagsNeeded, UniqueLabels, MarksUnreachable, Reachable, JumpsToNext, Transfer, FoldedValue;
    assert Folded(p).items[s.pc] == p.items[s.pc];
  }

  /** After an instruction the tracked constants are those of the next item. */
  lemma NextKnown(p: Program, s: State, t: State)
    requires Foldable(p) && !s.halted && p.Runs(s.pc) && Step(p, s) == Some(t)
    requires Sound(p.items, s) && Known(ConstantsAt(p.items, p.remove, s.pc), s.regs)
    ensures Sound(p.items, t)
    ensures (t.pc < |p.items| && p.items[t.pc].Label?) || Known(ConstantsAt(p.items, p.remove, t.pc), t.regs)
  {
    hide Execute;
    hide Transfer;
    hide Reachable, Sound;
    var ins := p.items[s.pc].ins;
    ExecuteSound(p, s, t);
    if t.pc in EntryPoints(p.items) {
      EntriesStartBlocks(p.items, t.pc);
    } else if !EndsBlock(ins.machine.opcode) {
      TransferSound(p.Environment(), ins, ConstantsAt(p.items, p.remove, s.pc), s, t);
    }
  }

  lemma UnfoldedStep(p: Program, s: State, s': State)
    requires Foldable(p) && Related(p, s, s') && !s.halted && p.Runs(s.pc) && Step(p, s).Some?
    requires Folded(p).items[s.pc] == p.items[s.pc]
    ensures Step(Folded(p), s').Some? && Related(p, Step(p, s).value, Step(Folded(p), s').value)
  {
    hide Execute;
    hide ConstantsAt;
    var ins, t := p.items[s.pc].ins, Step(p, s).value;
    assert Land(p, s.pc) == s.pc;
    NextKnown(p, s, t);
    SameFoldLabels(p);
    if ReadsFlags(ins.machine.opcode) {
      NeededAtOnce(p.items, s.pc);
    }
    ExecuteReadsOnlyWhatTheTableSays(p.Environment(), ins, s, t, s');
    ExecuteRespectsTable(p.Environment(), ins, s, t);
    assert WithResult(ins.machine, s'.regs, t.regs) == t.regs;
    if !t.halted && FlagsNeeded(p.items, Land(p, t.pc)) && !WritesFlags(ins.machine.opcode) {
      NeededBefore(p, s, t);
    }
  }

  lemma SameFoldLabels(p: Program)
    requires p.Valid()
    ensures Folded(p).Environment() == p.Environment()
  {
    hide FoldedValue, ConstantsAt;
    SameLabelMap(p.items, Folded(p).items);
  }

  lemma FoldedStep(p: Program, s: State, s': State)
    requires Foldable(p) && Related(p, s, s') && !s.halted && p.Runs(s.pc) && Step(p, s).Some?
    requires Folded(p).items[s.pc] != p.items[s.pc]
    ensures Step(Folded(p), s').Some? && Related(p, Step(p, s).value, Step(Folded(p), s').value)
  {
    hide Execute, ConstantsAt, FoldedValue, LabelMap;
    var ins, t := p.items[s.pc].ins, Step(p, s).value;
    BothLoad(p, s, s');
    NextKnown(p, s, t);
    if FlagsNeeded(p.items, Land(p, t.pc)) {
      FoldedFlags(p, s, t);
    }
  }

  /** The original computes and the replacement loads the same word. */
  lemma BothLoad(p: Program, s: State, s': State)
    requires Foldable(p) && Related(p, s, s') && !s.halted && p.Runs(s.pc) && Step(p, s).Some?
    requires Folded(p).items[s.pc] != p.items[s.pc]
    ensures var ins, t := p.items[s.pc].ins, Step(p, s).value;
      && !EndsBlock(ins.machine.opcode)
      && t.pc == s.pc + 1 && !t.halted
      && (if WritesFlags(ins.machine.opcode) then !FlagsNeeded(p.items, t.pc) else t.flags == s.flags)
      && Step(Folded(p), s') == Some(t.(flags := s'.flags))
  {
    hide Execute, ConstantsAt, FlagsNeeded, FoldedValue, LabelMap, ToI64, Known;
    var ins, t, q := p.items[s.pc].ins, Step(p, s).value, Folded(p);
    var c, dead := ConstantsAt(p.items, p.remove, s.pc), !FlagsNeeded(p.items, s.pc + 1);
    var v := FoldedValue(ins, c, dead);
    assert q.items[s.pc] == FoldItem(p.items, p.remove, s.pc);
    assert v.Some? && q.items[s.pc].ins == ins.(machine := LoadConstant(ins.machine, v.value));
    FoldedFits(ins, c, dead);
    assert ins.(machine := LoadConstant(ins.machine, v.value)) == IrInstruction(LoadConstant(ins.machine, v.value), None);
    FoldedValueIsRight(p.Environment(), ins, c, dead, s, t);
    LoadConstantStep(q, s', ins.machine, v.value);
  }

  /** Where FLAGS is still needed after a folded instruction, the original did not write it. */
  lemma FoldedFlags(p: Program, s: State, t: State)
    requires Foldable(p) && !s.halted && p.Runs(s.pc) && Step(p, s) == Some(t) && t.pc == s.pc + 1
    requires Sound(p.items, s) && !t.halted && !EndsBlock(p.items[s.pc].ins.machine.opcode)
    requires WritesFlags(p.items[s.pc].ins.machine.opcode) ==> !FlagsNeeded(p.items, t.pc)
    requires FlagsNeeded(p.items, Land(p, t.pc))
    ensures !WritesFlags(p.items[s.pc].ins.machine.opcode) && FlagsNeeded(p.items, Land(p, s.pc))
  {
    hide Execute;
    if WritesFlags(p.items[s.pc].ins.machine.opcode) {
      LandNeeded(p, t.pc);
    } else {
      NeededBefore(p, s, t);
    }
  }

  lemma FoldedFits(ins: IrInstruction, c: Constants, flagsDead: bool)
    requires FoldedValue(ins, c, flagsDead).Some?
    ensures FitsImmediate(FoldedValue(ins, c, flagsDead).value) && ins.symbol.None?
    ensures !EndsBlock(ins.machine.opcode)
  {
    hide EvaluateBinary, EvaluateUnary;
  }
}
