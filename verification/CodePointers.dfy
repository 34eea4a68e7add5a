/** How execution treats code addresses: it copies them, pushes them and jumps to them, so it
    commutes with any renaming of code addresses that follows the control flow. */
module CodePointers {
  import opened Words
  import opened Isa
  import opened Alu
  import opened Memory
  import opened Syscall
  import opened Ir

  /** Every code address held in a register or on the stack is in `entries`. */
  ghost predicate CodesIn(s: State, entries: set<nat>) {
    && (forall r: Reg :: s.regs[r].CodeAt? ==> s.regs[r].index in entries)
    && (forall k :: 0 <= k < |s.stack| && s.stack[k].CodeAt? ==> s.stack[k].index in entries)
  }

  lemma ExecuteKeepsCodes(env: Env, ins: IrInstruction, s: State, t: State, entries: set<nat>)
    requires Execute(env, ins, s) == Some(t)
    requires CodesIn(s, entries)
    requires forall name :: name in env.labels ==> env.labels[name] in entries
    requires ins.machine.opcode.CALL? ==> s.pc + 1 in entries
    ensures CodesIn(t, entries)
  {
    hide EvaluateBinary, EvaluateUnary, BranchTaken, Invoke;
    var op := ins.machine.opcode;
    if op.SYSCALL? || IsBinaryAlu(op) || IsUnaryAlu(op) {
      ComputesNumbers(env, ins, s, t);
    } else if op.PUSH? || op.POP? || op.CALL? || op.RET? {
      StackKeepsCodes(env, ins, s, t, entries);
    }
  }

  lemma ComputesNumbers(env: Env, ins: IrInstruction, s: State, t: State)
    requires ins.machine.opcode.SYSCALL? || IsBinaryAlu(ins.machine.opcode) || IsUnaryAlu(ins.machine.opcode)
    requires Execute(env, ins, s) == Some(t)
    ensures t.stack == s.stack
    ensures forall r: Reg :: t.regs[r] == s.regs[r] || t.regs[r].Num?
  {
    hide EvaluateBinary, EvaluateUnary, Invoke;
  }

  lemma StackKeepsCodes(env: Env, ins: IrInstruction, s: State, t: State, entries: set<nat>)
    requires ins.machine.opcode in {PUSH, POP, CALL, RET}
    requires Execute(env, ins, s) == Some(t) && CodesIn(s, entries)
    requires ins.machine.opcode.CALL? ==> s.pc + 1 in entries
    ensures CodesIn(t, entries)
  {
  }

  /** Where one instruction can leave the program counter. */
  predicate ControlGoes(env: Env, ins: IrInstruction, s: State, t: State) {
    var op := ins.machine.opcode;
    if op.RET? then
      s.stack != [] && s.stack[|s.stack| - 1] == CodeAt(t.pc)
    else if IsBranch(op) then
      || (t.pc == s.pc + 1 && !op.JMP? && !op.CALL?)
      || (ins.symbol.Some? && ins.symbol.value.name in env.labels
          && ins.symbol.value.addend == 0 && t.pc == env.labels[ins.symbol.value.name])
    else t.pc == s.pc + 1
  }

  lemma ExecuteControl(env: Env, ins: IrInstruction, s: State, t: State)
    requires Execute(env, ins, s) == Some(t)
    ensures ControlGoes(env, ins, s, t)
    ensures !s.halted ==> (t.halted ==> ins.machine.opcode.HALT? || ins.machine.opcode.SYSCALL?)
    ensures ins.machine.opcode.HALT? ==> t.halted
  {
    hide ExecuteAlu, ExecuteSyscall, ReadU64, WriteU64, Immediate;
    var next := s.(pc := s.pc + 1, executed := s.executed + 1);
    if ins.machine.opcode.SYSCALL? {
      SyscallRespectsTable(ToU64(ins.machine.imm), s, next, t);
    } else if IsBinaryAlu(ins.machine.opcode) || IsUnaryAlu(ins.machine.opcode) {
      AluRespectsTable(ins.machine.opcode, ins.machine.dst, s.regs[ins.machine.dst], s.regs[ins.machine.src], next, t);
    }
  }

  // ----- renaming -----

  function RenameValue(k: seq<nat>, v: Value): Value {
    if v.CodeAt? && v.index < |k| then CodeAt(k[v.index]) else v
  }

  function RenameAll(k: seq<nat>, values: seq<Value>): (r: seq<Value>)
    ensures |r| == |values|
    ensures forall i :: 0 <= i < |values| ==> r[i] == RenameValue(k, values[i])
  {
    seq(|values|, i requires 0 <= i < |values| => RenameValue(k, values[i]))
  }

  function Rename(k: seq<nat>, s: State): State {
    s.(pc := if s.pc < |k| then k[s.pc] else s.pc, regs := RenameAll(k, s.regs), stack := RenameAll(k, s.stack))
  }

  function RenameLabels(k: seq<nat>, labels: map<string, nat>): map<string, nat> {
    map name | name in labels :: if labels[name] < |k| then k[labels[name]] else labels[name]
  }

  /** Execution commutes with a renaming that moves the instruction and its successor together. */
  lemma ExecuteRenamed(env: Env, ins: IrInstruction, s: State, t: State, k: seq<nat>)
    requires Execute(env, ins, s) == Some(t)
    requires s.pc + 1 < |k| && k[s.pc + 1] == k[s.pc] + 1
    requires forall name :: name in env.labels ==> env.labels[name] < |k|
    ensures Execute(Env(RenameLabels(k, env.labels), env.externals), ins, Rename(k, s)) == Some(Rename(k, t))
  {
    hide ExecuteAlu, ReadU64, WriteU64, BranchTaken, ExecuteSyscall;
    var op := ins.machine.opcode;
    if op.SYSCALL? {
      RenamedSyscall(ToU64(ins.machine.imm), s, s.(pc := s.pc + 1, executed := s.executed + 1), t, k);
    } else if IsBinaryAlu(op) || IsUnaryAlu(op) {
      RenamedAlu(env, ins, s, t, k);
    } else if op.PUSH? || op.POP? || op.CALL? || op.RET? {
      RenamedStack(env, ins, s, t, k);
    } else if IsBranch(op) {
      RenamedBranch(env, ins, s, t, k);
    } else {
      RenamedMove(env, ins, s, t, k);
    }
  }

  lemma RenamedBranch(env: Env, ins: IrInstruction, s: State, t: State, k: seq<nat>)
    requires ins.machine.opcode in {JMP, JE, JNE, JG, JL, JGE, JLE}
    requires Execute(env, ins, s) == Some(t)
    requires s.pc + 1 < |k| && k[s.pc + 1] == k[s.pc] + 1
    requires forall name :: name in env.labels ==> env.labels[name] < |k|
    ensures Execute(Env(RenameLabels(k, env.labels), env.externals), ins, Rename(k, s)) == Some(Rename(k, t))
  {
    hide BranchTaken;
  }

  lemma RenamedUpdate(k: seq<nat>, regs: seq<Value>, r: nat, v: Value)
    requires r < |regs|
    ensures RenameAll(k, regs[r := v]) == RenameAll(k, regs)[r := RenameValue(k, v)]
  {
  }

  lemma RenamedSyscall(number: u64, s: State, next: State, t: State, k: seq<nat>)
    requires ExecuteSyscall(number, s, next) == Some(t)
    requires next.pc < |k| && next.regs == s.regs
    ensures ExecuteSyscall(number, Rename(k, s), Rename(k, next)) == Some(Rename(k, t))
  {
    hide Invoke;
    assert forall r: Reg :: Argument(RenameAll(k, s.regs), r) == Argument(s.regs, r);
    var o := Invoke(number, Argument(s.regs, 1), Argument(s.regs, 2), Argument(s.regs, 3), s.memory, s.world);
    if o.value.returned.Some? {
      RenamedUpdate(k, s.regs, 14, Num(o.value.returned.value));
    }
  }

  lemma RenamedAlu(env: Env, ins: IrInstruction, s: State, t: State, k: seq<nat>)
    requires IsBinaryAlu(ins.machine.opcode) || IsUnaryAlu(ins.machine.opcode)
    requires Execute(env, ins, s) == Some(t)
    requires s.pc + 1 < |k| && k[s.pc + 1] == k[s.pc] + 1
    ensures Execute(Env(RenameLabels(k, env.labels), env.externals), ins, Rename(k, s)) == Some(Rename(k, t))
  {
    hide ExecuteAlu, RenameLabels, RenameAll;
    var m := ins.machine;
    var next := s.(pc := s.pc + 1, executed := s.executed + 1);
    assert Rename(k, next) == Rename(k, s).(pc := k[s.pc] + 1, executed := s.executed + 1);
    RenamedResult(m.opcode, m.dst, s.regs[m.dst], s.regs[m.src], next, k);
  }

  lemma RenamedResult(op: Opcode, dst: Reg, d: Value, x: Value, next: State, k: seq<nat>)
    requires ExecuteAlu(op, dst, d, x, next).Some?
    ensures ExecuteAlu(op, dst, RenameValue(k, d), RenameValue(k, x), Rename(k, next))
         == Some(Rename(k, ExecuteAlu(op, dst, d, x, next).value))
  {
    hide EvaluateBinary, EvaluateUnary;
    var t := ExecuteAlu(op, dst, d, x, next).value;
    RenamedUpdate(k, next.regs, dst, t.regs[dst]);
  }

  lemma RenamedStack(env: Env, ins: IrInstruction, s: State, t: State, k: seq<nat>)
    requires ins.machine.opcode in {PUSH, POP, CALL, RET}
    requires Execute(env, ins, s) == Some(t)
    requires s.pc + 1 < |k| && k[s.pc + 1] == k[s.pc] + 1
    requires forall name :: name in env.labels ==> env.labels[name] < |k|
    ensures Execute(Env(RenameLabels(k, env.labels), env.externals), ins, Rename(k, s)) == Some(Rename(k, t))
  {
    var m := ins.machine;
    RenamedUpdate(k, s.regs, m.dst, t.regs[m.dst]);
    if m.opcode.PUSH? || m.opcode.CALL? {
      assert RenameAll(k, t.stack) == RenameAll(k, s.stack) + [RenameValue(k, t.stack[|s.stack|])];
    } else {
      assert RenameAll(k, t.stack) == RenameAll(k, s.stack)[..|s.stack| - 1];
    }
  }

  lemma RenamedMove(env: Env, ins: IrInstruction, s: State, t: State, k: seq<nat>)
    requires ins.machine.opcode in {NOP, HALT, MOV, MOVI, LEA, LOAD, STORE}
    requires Execute(env, ins, s) == Some(t)
    requires s.pc + 1 < |k| && k[s.pc + 1] == k[s.pc] + 1
    requires forall name :: name in env.labels ==> env.labels[name] < |k|
    ensures Execute(Env(RenameLabels(k, env.labels), env.externals), ins, Rename(k, s)) == Some(Rename(k, t))
  {
    hide ReadU64, WriteU64;
    var m := ins.machine;
    RenamedUpdate(k, s.regs, m.dst, t.regs[m.dst]);
  }

  lemma ComposeRenames(k: seq<nat>, k': seq<nat>, values: seq<Value>)
    requires forall i :: 0 <= i < |k| ==> k[i] < |k'|
    requires forall i :: 0 <= i < |values| && values[i].CodeAt? ==> values[i].index < |k|
    ensures RenameAll(k', RenameAll(k, values)) == RenameAll(Compose(k, k'), values)
  {
  }

  function Compose(k: seq<nat>, k': seq<nat>): (r: seq<nat>)
    requires forall i :: 0 <= i < |k| ==> k[i] < |k'|
    ensures |r| == |k| && forall i :: 0 <= i < |k| ==> r[i] == k'[k[i]]
  {
    seq(|k|, i requires 0 <= i < |k| => k'[k[i]])
  }
}
