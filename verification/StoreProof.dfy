/** Deleting identities and dead stores. */
module StoreProof {
  import opened Words
  import opened Isa
  import opened Ir
  import opened CodePointers
  import opened Simulation
  import opened Passes
  import opened PeepholeProof

  // ----- identities -----

  function Unpadded(p: Program): (q: Program)
    requires p.Valid()
    ensures q.Valid()
  {
    p.(remove := IdentityMarks(p.items, p.remove))
  }

  lemma IdentitySimulation(p: Program)
    requires p.Valid()
    ensures StepSimulation(p, Unpadded(p), (a, b) => SameButCount(p, a, b))
  {
    var rel := (a, b) => SameButCount(p, a, b);
    forall a, b | rel(a, b) && Step(p, a).Some?
      ensures Follows(Unpadded(p), b, Step(p, a).value, rel)
    {
      if !a.halted && p.Runs(a.pc) && IsIdentity(p.items[a.pc]) {
        var m := p.items[a.pc].ins.machine;
        assert a.regs[m.dst := a.regs[m.dst]] == a.regs;
      } else {
        SameStep(p, a, b);
      }
      FollowsInOneStep(Unpadded(p), b, Step(p, a).value, rel);
    }
  }

  lemma SameStep(p: Program, s: State, s': State)
    requires p.Valid() && SameButCount(p, s, s') && Step(p, s).Some?
    requires s.halted || !p.Runs(s.pc) || !IsIdentity(p.items[s.pc])
    ensures Step(Unpadded(p), s').Some? && SameButCount(p, Step(p, s).value, Step(Unpadded(p), s').value)
  {
    hide Execute;
    if !s.halted && p.Runs(s.pc) {
      var ins, t := p.items[s.pc].ins, Step(p, s).value;
      ExecuteReadsOnlyWhatTheTableSays(p.Environment(), ins, s, t, s');
      ExecuteRespectsTable(p.Environment(), ins, s, t);
      CarriedCount(ins, s, t, s');
    }
  }

  // ----- dead stores -----

  function Swept(p: Program): (q: Program)
    requires p.Valid()
    ensures q.Valid()
  {
    p.(remove := DeadStoreMarks(p.items, p.remove))
  }

  /** At the current point the block still overwrites `reg` before reading it. */
  predicate Dead(p: Program, s: State, reg: Reg)
    requires p.Valid()
  {
    !s.halted && s.pc <= |p.items| && Overwritten(p.items, p.remove, s.pc, reg)
  }

  /** The machines agree except on registers that are about to be overwritten. */
  ghost predicate Related(p: Program, s: State, s': State) {
    && p.Valid() && SameRest(s, s') && s'.flags == s.flags && s'.executed <= s.executed
    && forall r: Reg :: s'.regs[r] == s.regs[r] || Dead(p, s, r)
  }

  lemma DeadStoreSimulation(p: Program)
    requires p.Valid()
    ensures StepSimulation(p, Swept(p), (a, b) => Related(p, a, b))
  {
    var rel := (a, b) => Related(p, a, b);
    forall a, b | rel(a, b) && Step(p, a).Some?
      ensures Follows(Swept(p), b, Step(p, a).value, rel)
    {
      if a.halted || !p.Runs(a.pc) {
        SilentStep(p, a, b);
      } else if IsDeadStore(p.items, p.remove, a.pc) {
        DroppedStore(p, a, b);
      } else {
        KeptInstruction(p, a, b);
      }
      FollowsInOneStep(Swept(p), b, Step(p, a).value, rel);
    }
  }

  lemma SilentStep(p: Program, s: State, s': State)
    requires p.Valid() && Related(p, s, s') && (s.halted || !p.Runs(s.pc)) && Step(p, s).Some?
    ensures Step(Swept(p), s').Some? && Related(p, Step(p, s).value, Step(Swept(p), s').value)
  {
    hide Execute;
  }

  /** An instruction reads no register that is dead before it, and a register that is dead and not
      written by it is still dead after it, in the same block. */
  lemma DeadAcross(p: Program, s: State, t: State, reg: Reg)
    requires p.Valid() && !s.halted && p.Runs(s.pc) && Dead(p, s, reg) && Step(p, s) == Some(t)
    ensures !ReadsRegister(p.items[s.pc].ins.machine, reg)
    ensures !p.items[s.pc].ins.machine.opcode.SYSCALL?
    ensures WritesRegister(p.items[s.pc].ins.machine, reg) || Dead(p, t, reg)
  {
    hide Execute;
    var ins := p.items[s.pc].ins;
    ExecuteControl(p.Environment(), ins, s, t);
    if EndsBlock(ins.machine.opcode) {
      EndersWriteNothing(ins.machine.opcode);
      assert !Overwritten(p.items, p.remove, s.pc + 1, reg);
    }
  }

  lemma EndersWriteNothing(op: Opcode)
    requires EndsBlock(op)
    ensures !WritesDst(op)
  {
  }

  lemma DroppedStore(p: Program, s: State, s': State)
    requires p.Valid() && Related(p, s, s') && !s.halted && p.Runs(s.pc) && Step(p, s).Some?
    requires IsDeadStore(p.items, p.remove, s.pc)
    ensures Step(Swept(p), s').Some? && Related(p, Step(p, s).value, Step(Swept(p), s').value)
  {
    hide Execute;
    var ins, t := p.items[s.pc].ins, Step(p, s).value;
    StoreStep(p.Environment(), ins, s, t);
    forall r: Reg
      ensures s'.regs[r] == t.regs[r] || Dead(p, t, r)
    {
      if r != ins.machine.dst && Dead(p, s, r) {
        DeadAcross(p, s, t, r);
      }
    }
  }

  lemma StoreStep(env: Env, ins: IrInstruction, s: State, t: State)
    requires PureDefine(ins.machine.opcode) && Execute(env, ins, s) == Some(t)
    ensures t == s.(pc := s.pc + 1, executed := s.executed + 1, regs := t.regs)
    ensures forall r: Reg :: r != ins.machine.dst ==> t.regs[r] == s.regs[r]
  {
  }

  lemma KeptInstruction(p: Program, s: State, s': State)
    requires p.Valid() && Related(p, s, s') && !s.halted && p.Runs(s.pc) && Step(p, s).Some?
    requires !IsDeadStore(p.items, p.remove, s.pc)
    ensures Step(Swept(p), s').Some? && Related(p, Step(p, s).value, Step(Swept(p), s').value)
  {
    hide Execute;
    var ins, t := p.items[s.pc].ins, Step(p, s).value;
    forall r: Reg
      ensures s'.regs[r] == s.regs[r]
        || (!ReadsRegister(ins.machine, r) && !ins.machine.opcode.SYSCALL?
            && (WritesRegister(ins.machine, r) || Dead(p, t, r)))
    {
      if Dead(p, s, r) {
        DeadAcross(p, s, t, r);
      }
    }
    ExecuteReadsOnlyWhatTheTableSays(p.Environment(), ins, s, t, s');
    ExecuteRespectsTable(p.Environment(), ins, s, t);
    var t' := Carried(ins, t, s');
    forall r: Reg
      ensures t'.regs[r] == t.regs[r] || Dead(p, t, r)
    {
      if !WritesRegister(ins.machine, r) && !ins.machine.opcode.SYSCALL? {
        assert t'.regs[r] == s'.regs[r] && t.regs[r] == s.regs[r];
      }
    }
  }
}
