/** Replacing adjacent PUSH / POP pairs and dropping jumps to the next instruction. */
module PeepholeProof {
  import opened Words
  import opened Isa
  import opened Ir
  import opened CodePointers
  import opened Simulation
  import opened Passes
  import opened PassFacts

  function Rewritten(p: Program): (q: Program)
    requires p.Valid()
    ensures q.Valid()
  {
    p.(items := PeepholeItems(p.items, p.remove), remove := PeepholeMarks(p.items, p.remove))
  }

  /** Item i is the POP of a consumed pair. */
  ghost predicate PairEnd(p: Program, i: nat)
    requires p.Valid()
  {
    0 < i < |p.items| && PairStart(p.items, p.remove, i - 1)
  }

  /** The two machines agree, except between the PUSH and the POP of a pair: there the original
      holds the word on the stack that the rewritten program has already moved. */
  ghost predicate Related(p: Program, s: State, s': State) {
    && p.Valid() && Sound(p.items, s)
    && s'.executed <= s.executed
    && if !s.halted && PairEnd(p, s.pc) then
         var dst := p.items[s.pc].ins.machine.dst;
         && s.stack != []
         && var top := s.stack[|s.stack| - 1];
         && s' == s.(stack := s.stack[..|s.stack| - 1], regs := s.regs[dst := top], executed := s'.executed)
         && (SamePair(p.items, s.pc - 1) ==> s.regs[dst] == top)
       else
         s' == s.(executed := s'.executed)
  }

  lemma PeepholeSimulation(p: Program)
    requires MarksUnreachable(p)
    ensures StepSimulation(p, Rewritten(p), (a, b) => Related(p, a, b))
  {
    var rel := (a, b) => Related(p, a, b);
    forall a, b | rel(a, b) && Step(p, a).Some?
      ensures Follows(Rewritten(p), b, Step(p, a).value, rel)
    {
      var c := Step(p, a).value;
      if a.halted {
        FollowsAtOnce(Rewritten(p), b, c, rel);
      } else {
        if PairEnd(p, a.pc) {
          PairEndStep(p, a, b);
        } else if PairStart(p.items, p.remove, a.pc) {
          PairStartStep(p, a, b);
        } else {
          OtherStep(p, a, b);
        }
        FollowsInOneStep(Rewritten(p), b, c, rel);
      }
    }
  }

  lemma SameEnvironment(p: Program)
    requires p.Valid()
    ensures Rewritten(p).Environment() == p.Environment()
  {
    SameLabelMap(p.items, Rewritten(p).items);
  }

  /** What a PUSH does. */
  lemma PushStep(p: Program, s: State, t: State)
    requires p.Valid() && !s.halted && p.Runs(s.pc) && IsOp(p.items, s.pc, PUSH) && Step(p, s) == Some(t)
    ensures t == s.(pc := s.pc + 1, executed := s.executed + 1,
                    stack := s.stack + [s.regs[p.items[s.pc].ins.machine.dst]])
    ensures p.items[s.pc].ins.symbol.None?
  {
  }

  /** What a plain MOV does. */
  lemma MovStep(p: Program, s: State)
    requires p.Valid() && !s.halted && p.Runs(s.pc) && IsOp(p.items, s.pc, MOV) && p.items[s.pc].ins.symbol.None?
    ensures var m := p.items[s.pc].ins.machine;
            Step(p, s) == Some(s.(pc := s.pc + 1, executed := s.executed + 1, regs := s.regs[m.dst := s.regs[m.src]]))
  {
  }

  lemma PairStartStep(p: Program, s: State, s': State)
    requires MarksUnreachable(p) && Related(p, s, s') && !s.halted
    requires PairStart(p.items, p.remove, s.pc) && Step(p, s).Some?
    ensures Step(Rewritten(p), s').Some?
    ensures Related(p, Step(p, s).value, Step(Rewritten(p), s').value)
  {
    hide Execute;
    var t, q, i := Step(p, s).value, Rewritten(p), s.pc;
    ExecuteSound(p, s, t);
    PushStep(p, s, t);
    var pushed, dst := s.regs[p.items[i].ins.machine.dst], p.items[i + 1].ins.machine.dst;
    assert t.stack[..|t.stack| - 1] == s.stack;
    if SamePair(p.items, i) {
      assert q.remove[i];
      assert s.regs[dst := pushed] == s.regs;
    } else {
      assert q.items[i] == PeepholeItem(p.items, p.remove, i) && !q.remove[i];
      MovStep(q, s');
    }
  }

  lemma PairEndStep(p: Program, s: State, s': State)
    requires MarksUnreachable(p) && Related(p, s, s') && !s.halted
    requires PairEnd(p, s.pc) && Step(p, s).Some?
    ensures Step(Rewritten(p), s').Some?
    ensures Related(p, Step(p, s).value, Step(Rewritten(p), s').value)
  {
    ExecuteSound(p, s, Step(p, s).value);
    var dst := p.items[s.pc].ins.machine.dst;
    if SamePair(p.items, s.pc - 1) {
      assert s.regs[dst := s.regs[dst]] == s.regs;
    }
  }

  lemma OtherStep(p: Program, s: State, s': State)
    requires MarksUnreachable(p) && Related(p, s, s') && !s.halted
    requires !PairEnd(p, s.pc) && !PairStart(p.items, p.remove, s.pc) && Step(p, s).Some?
    ensures Step(Rewritten(p), s').Some?
    ensures Related(p, Step(p, s).value, Step(Rewritten(p), s').value)
  {
    hide Execute;
    var t := Step(p, s).value;
    assert Rewritten(p).items[s.pc] == p.items[s.pc] && Rewritten(p).remove[s.pc] == p.remove[s.pc];
    if p.Runs(s.pc) {
      var ins := p.items[s.pc].ins;
      SameEnvironment(p);
      ExecuteSound(p, s, t);
      ExecuteReadsOnlyWhatTheTableSays(p.Environment(), ins, s, t, s');
      ExecuteRespectsTable(p.Environment(), ins, s, t);
      CarriedCount(ins, s, t, s');
      NotIntoPair(p, s, t);
    }
  }

  /** Control enters a pair only at its PUSH. */
  lemma NotIntoPair(p: Program, s: State, t: State)
    requires p.Valid() && !PairStart(p.items, p.remove, s.pc)
    requires t.pc == s.pc + 1 || t.pc in EntryPoints(p.items)
    ensures !PairEnd(p, t.pc)
  {
  }

  /** States that differ in the instruction count alone stay so. */
  lemma CarriedCount(ins: IrInstruction, s: State, t: State, s': State)
    requires s' == s.(executed := s'.executed)
    requires forall r: Reg :: !WritesRegister(ins.machine, r) && !ins.machine.opcode.SYSCALL? ==> t.regs[r] == s.regs[r]
    requires !WritesFlags(ins.machine.opcode) ==> t.flags == s.flags
    ensures Carried(ins, t, s') == t.(executed := s'.executed + 1)
  {
    assert WithResult(ins.machine, s'.regs, t.regs) == t.regs;
  }

  // ----- jumps to the next instruction -----

  function Unjumped(p: Program): (q: Program)
    requires p.Valid()
    ensures q.Valid()
  {
    p.(remove := JumpMarks(p.items, p.remove))
  }

  ghost predicate SameButCount(p: Program, s: State, s': State) {
    p.Valid() && s'.executed <= s.executed && s' == s.(executed := s'.executed)
  }

  lemma {:induction false} LabelAhead(items: seq<Item>, remove: seq<bool>, j: nat, name: string) returns (l: nat)
    requires |remove| == |items| && j <= |items| && LabelFollows(items, remove, j, name)
    ensures j <= l < |items| && items[l].Label? && items[l].name == name
    ensures forall i :: j <= i < l ==> remove[i] || items[i].Label?
    decreases |items| - j
  {
    if !remove[j] && items[j].Label? && items[j].name == name {
      l := j;
    } else {
      l := LabelAhead(items, remove, j + 1, name);
    }
  }

  lemma JumpSimulation(p: Program)
    requires MarksUnreachable(p) && UniqueLabels(p.items)
    ensures StepSimulation(p, Unjumped(p), (a, b) => SameButCount(p, a, b))
  {
    var rel := (a, b) => SameButCount(p, a, b);
    forall a, b | rel(a, b) && Step(p, a).Some?
      ensures Follows(Unjumped(p), b, Step(p, a).value, rel)
    {
      if !a.halted && p.Runs(a.pc) && JumpsToNext(p.items, p.remove, a.pc) {
        DroppedJump(p, a, b);
      } else {
        KeptStep(p, a, b);
        FollowsInOneStep(Unjumped(p), b, Step(p, a).value, rel);
      }
    }
  }

  lemma KeptStep(p: Program, s: State, s': State)
    requires p.Valid() && SameButCount(p, s, s') && Step(p, s).Some?
    requires s.halted || !p.Runs(s.pc) || !JumpsToNext(p.items, p.remove, s.pc)
    ensures Step(Unjumped(p), s').Some? && SameButCount(p, Step(p, s).value, Step(Unjumped(p), s').value)
  {
    hide Execute;
    if !s.halted && p.Runs(s.pc) {
      var ins, t := p.items[s.pc].ins, Step(p, s).value;
      ExecuteReadsOnlyWhatTheTableSays(p.Environment(), ins, s, t, s');
      ExecuteRespectsTable(p.Environment(), ins, s, t);
      CarriedCount(ins, s, t, s');
      ExecuteControl(p.Environment(), ins, s, t);
    }
  }

  lemma DroppedJump(p: Program, s: State, s': State)
    requires MarksUnreachable(p) && UniqueLabels(p.items)
    requires SameButCount(p, s, s') && !s.halted && p.Runs(s.pc) && JumpsToNext(p.items, p.remove, s.pc)
    requires Step(p, s).Some?
    ensures Follows(Unjumped(p), s', Step(p, s).value, (a, b) => SameButCount(p, a, b))
  {
    var name := p.items[s.pc].ins.symbol.value.name;
    var l := LabelAhead(p.items, p.remove, s.pc + 1, name);
    LabelIsWhereItStands(p.items, l);
    var t := Step(p, s).value;
    assert t == s.(pc := l, executed := s.executed + 1);
    SilentRun(Unjumped(p), s', l);
    var rel := (a, b) => SameButCount(p, a, b);
    assert rel(t, s'.(pc := l));
  }
}
