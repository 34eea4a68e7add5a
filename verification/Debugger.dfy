/** The debugger: single steps with watchpoints, `continue`, and stepping over a call, which stops
    where the call returns even when the callee recursed. */
module Debugger {
  import opened Words
  import opened Isa
  import opened Memory
  import opened Codec
  import opened VmSpec
  import opened Vm
  import opened VmInvariant

  datatype Breakpoint = Breakpoint(id: nat, address: u64, enabled: bool, hits: nat)

  datatype Watchpoint = Watchpoint(id: nat, address: u64, enabled: bool, previous: u64)

  datatype StopReason = StepComplete | Halted | Fault(error: VMError) | AtBreakpoint | AtWatchpoint | NotRunning

  datatype StopEvent = StopEvent(reason: StopReason, pc: u64)

  /** A debugging session over a machine. */
  datatype Session = Session(machine: Machine, breakpoints: seq<Breakpoint>, watchpoints: seq<Watchpoint>, started: bool)

  predicate Fires(m: Memory, w: Watchpoint) {
    w.enabled && ReadU64(m, w.address).Ok? && ReadU64(m, w.address).value != w.previous
  }

  /** The first watchpoint whose word has changed, or `|watchpoints|`. */
  function FirstFiring(m: Memory, watchpoints: seq<Watchpoint>): (i: nat)
    ensures i <= |watchpoints| && (i < |watchpoints| ==> Fires(m, watchpoints[i]))
    ensures forall k :: 0 <= k < i ==> !Fires(m, watchpoints[k])
  {
    if watchpoints == [] || Fires(m, watchpoints[0]) then 0 else 1 + FirstFiring(m, watchpoints[1..])
  }

  /** The first enabled breakpoint at an address, or `|breakpoints|`. */
  function BreakpointAt(breakpoints: seq<Breakpoint>, address: u64): (i: nat)
    ensures i <= |breakpoints|
    ensures i < |breakpoints| ==> breakpoints[i].enabled && breakpoints[i].address == address
    ensures forall k :: 0 <= k < i ==> !(breakpoints[k].enabled && breakpoints[k].address == address)
  {
    if breakpoints == [] || (breakpoints[0].enabled && breakpoints[0].address == address) then 0
    else 1 + BreakpointAt(breakpoints[1..], address)
  }

  /** `singleStep` of a loaded machine. */
  function SingleStep(d: Session): (Session, StopEvent) {
    if d.machine.halted then (d, StopEvent(Halted, d.machine.pc))
    else
      var o := StepMachine(d.machine);
      var d' := d.(machine := o.machine, started := true);
      if o.fault.Some? then (d', StopEvent(Fault(o.fault.value.error), o.fault.value.pc))
      else
        var i := FirstFiring(o.machine.memory, d.watchpoints);
        if i < |d.watchpoints| then
          var w := d.watchpoints[i];
          (d'.(watchpoints := d.watchpoints[i := w.(previous := ReadU64(o.machine.memory, w.address).value)]),
           StopEvent(AtWatchpoint, o.machine.pc))
        else if o.machine.halted then (d', StopEvent(Halted, o.machine.pc))
        else (d', StopEvent(StepComplete, o.machine.pc))
  }

  /** The instruction at PC is a CALL. */
  predicate AtCall(v: Machine) {
    var word := FetchInstruction(v.memory, v.pc);
    word.Ok? && Decode(word.value).Ok? && Decode(word.value).value.opcode.CALL?
  }

  /** The loop of `stepOver`, with what is left of the budget. */
  function RunToReturn(d: Session, resume: u64, depth: u64, budget: nat): (Session, StopEvent)
    decreases budget
  {
    if budget == 0 then (d, StopEvent(Fault(BudgetExhausted), d.machine.pc))
    else
      var (d', event) := SingleStep(d);
      if !event.reason.StepComplete? then (d', event)
      else if d'.machine.pc == resume && d'.machine.sp >= depth then (d', event)
      else if BreakpointAt(d'.breakpoints, d'.machine.pc) < |d'.breakpoints| then (d', StopEvent(AtBreakpoint, d'.machine.pc))
      else RunToReturn(d', resume, depth, budget - 1)
  }

  function StepOver(d: Session, budget: nat): (Session, StopEvent) {
    if AtCall(d.machine) then RunToReturn(d, Wrap(d.machine.pc + INSTRUCTION_SIZE), d.machine.sp, budget) else SingleStep(d)
  }

  // ----- where a call returns -----

  /** k steps without a fault, a halt, or anything to stop at. */
  ghost predicate Undisturbed(d: Session, k: nat) {
    && (forall i :: 0 <= i < |d.breakpoints| ==> !d.breakpoints[i].enabled)
    && (forall i :: 0 <= i < |d.watchpoints| ==> !d.watchpoints[i].enabled)
    && forall j :: 0 <= j < k ==> StepsOn(After(d.machine, j))
  }

  ghost predicate StepsOn(v: Machine) {
    !v.halted && StepMachine(v).fault.None? && !StepMachine(v).machine.halted
  }

  /** The k-th state is the first with the stack back at `depth` or above. */
  ghost predicate FirstBack(v: Machine, depth: u64, k: nat) {
    && k > 0 && After(v, k).sp >= depth
    && forall j :: 0 < j < k ==> After(v, j).sp < depth
  }

  lemma {:induction false} AfterNext(v: Machine, k: nat)
    ensures After(v, k + 1) == StepMachine(After(v, k)).machine
    decreases k
  {
    hide StepMachine;
    if k > 0 {
      AfterNext(StepMachine(v).machine, k - 1);
    } else {
      assert After(StepMachine(v).machine, 0) == StepMachine(v).machine;
    }
  }

  /** SP moves by one word at a time: when the stack is back, it is back exactly, and the step that
      brought it back popped the word just below. */
  lemma BackExactly(m0: Memory, v: Machine, k: nat)
    requires Invariant(m0, v) && AtCall(v) && StepsOn(v) && FirstBack(v, v.sp, k)
    ensures k >= 2 && After(v, k).sp == v.sp && After(v, k - 1).sp == v.sp - 8
  {
    hide StepMachine, AtCall, SameShape;
    CallPushes(v);
    assert After(v, 1) == StepMachine(v).machine by {
      assert After(StepMachine(v).machine, 0) == StepMachine(v).machine;
    }
    RunKeeps(m0, v, k - 1);
    RunKeeps(m0, v, k);
    AfterNext(v, k - 1);
    StackMoves(After(v, k - 1));
  }

  lemma CallPushes(v: Machine)
    requires AtCall(v) && StepsOn(v)
    ensures v.sp >= 8 && StepMachine(v).machine.sp == v.sp - 8
  {
    hide FetchInstruction, Decode, WriteU64, BranchAddress;
  }

  /** A RET that pops an address continues there. */
  lemma ReturnGoes(v: Machine, address: u64)
    requires StepsOn(v) && FetchInstruction(v.memory, v.pc).Ok? && Decode(FetchInstruction(v.memory, v.pc).value).Ok?
    requires Decode(FetchInstruction(v.memory, v.pc).value).value.opcode.RET? && ReadU64(v.memory, v.sp) == Ok(address)
    ensures StepMachine(v).machine.pc == address
  {
    hide FetchInstruction, Decode, ReadU64;
  }

  lemma QuietStep(d: Session)
    requires Undisturbed(d, 1)
    ensures SingleStep(d) == (d.(machine := StepMachine(d.machine).machine, started := true),
                              StopEvent(StepComplete, StepMachine(d.machine).machine.pc))
    ensures BreakpointAt(d.breakpoints, StepMachine(d.machine).machine.pc) == |d.breakpoints|
  {
    hide StepMachine;
    assert After(d.machine, 0) == d.machine;
  }

  /** The loop goes on as long as the stack is deeper than the call, and stops at the first state where
      it is back with PC at the resume address. */
  lemma {:induction false} LoopStops(d: Session, resume: u64, depth: u64, k: nat, budget: nat)
    requires Undisturbed(d, k) && FirstBack(d.machine, depth, k) && k <= budget
    requires After(d.machine, k).pc == resume
    ensures RunToReturn(d, resume, depth, budget)
         == (d.(machine := After(d.machine, k), started := true), StopEvent(StepComplete, resume))
    decreases k
  {
    hide StepMachine, SingleStep, StepsOn;
    var v := d.machine;
    assert StepsOn(After(v, 0)) && After(v, 0) == v;
    QuietStep(d);
    var d' := SingleStep(d).0;
    assert After(v, 1) == d'.machine by {
      assert After(StepMachine(v).machine, 0) == StepMachine(v).machine;
    }
    if k > 1 {
      forall j | 0 <= j < k
        ensures After(v, j + 1) == After(d'.machine, j)
      {
      }
      forall j | 0 <= j < k - 1
        ensures StepsOn(After(d'.machine, j))
      {
        assert StepsOn(After(v, j + 1));
      }
      forall j | 0 < j < k - 1
        ensures After(d'.machine, j).sp < depth
      {
        assert After(v, j + 1).sp < depth;
      }
      LoopStops(d', resume, depth, k - 1, budget - 1);
    }
  }

  /** Stepping over a call, recursion included: nothing disturbs the run, the k-th state is the first
      with the stack no deeper than before the call, and it was reached by a RET that found the return
      address where the CALL had put it. Then `stepOver` stops in that state and in no earlier one,
      behind the call and with SP exactly as before. */
  lemma StepOverReturns(m0: Memory, d: Session, k: nat, budget: nat)
    requires Invariant(m0, d.machine) && AtCall(d.machine) && Undisturbed(d, k) && FirstBack(d.machine, d.machine.sp, k) && k <= budget
    requires var u := After(d.machine, k - 1);
      && FetchInstruction(u.memory, u.pc).Ok? && Decode(FetchInstruction(u.memory, u.pc).value).Ok?
      && Decode(FetchInstruction(u.memory, u.pc).value).value.opcode.RET?
      && d.machine.sp >= 8 && ReadU64(u.memory, d.machine.sp - 8) == Ok(Wrap(d.machine.pc + INSTRUCTION_SIZE))
    ensures StepOver(d, budget)
         == (d.(machine := After(d.machine, k), started := true), StopEvent(StepComplete, Wrap(d.machine.pc + INSTRUCTION_SIZE)))
    ensures After(d.machine, k).sp == d.machine.sp && After(d.machine, k).pc == Wrap(d.machine.pc + INSTRUCTION_SIZE)
  {
    hide StepMachine, AtCall, FetchInstruction, Decode, ReadU64, Invariant, RunToReturn, StepsOn;
    var v := d.machine;
    assert StepsOn(After(v, 0)) && After(v, 0) == v && StepsOn(After(v, k - 1));
    BackExactly(m0, v, k);
    AfterNext(v, k - 1);
    ReturnGoes(After(v, k - 1), Wrap(v.pc + INSTRUCTION_SIZE));
    LoopStops(d, Wrap(v.pc + INSTRUCTION_SIZE), v.sp, k, budget);
  }

  // ----- the object -----

  class Debug {
    const machine: VirtualMachine
    var breakpoints: seq<Breakpoint>
    var watchpoints: seq<Watchpoint>
    var started: bool

    ghost predicate Valid()
      reads this, machine, machine.memory
    {
      machine.Valid()
    }

    ghost function Value(): Session
      requires Valid()
      reads this, machine, machine.memory
    {
      Session(machine.State(), breakpoints, watchpoints, started)
    }

    constructor (machine: VirtualMachine)
      requires machine.Valid()
      ensures this.machine == machine && Valid() && breakpoints == [] && watchpoints == [] && !started
    {
      this.machine := machine;
      breakpoints, watchpoints, started := [], [], false;
    }

    /** `checkWatchpoints` */
    method CheckWatchpoints() returns (event: Option<StopEvent>)
      requires Valid()
      modifies this`watchpoints
      ensures Valid()
      ensures var i := FirstFiring(machine.State().memory, old(watchpoints));
        if i == |old(watchpoints)| then event == None && watchpoints == old(watchpoints)
        else
          && event == Some(StopEvent(AtWatchpoint, machine.pc))
          && watchpoints == old(watchpoints)[i := old(watchpoints)[i].(previous := ReadU64(machine.State().memory, old(watchpoints)[i].address).value)]
    {
      hide Fetch;
      ghost var m := machine.State().memory;
      var i := 0;
      while i < |watchpoints|
        invariant i <= |watchpoints| && watchpoints == old(watchpoints) && Valid() && machine.State().memory == m
        invariant FirstFiring(m, watchpoints) == i + FirstFiring(m, watchpoints[i..])
      {
        assert watchpoints[i..][1..] == watchpoints[i + 1..];
        if watchpoints[i].enabled {
          var value := machine.memory.ReadWord(watchpoints[i].address, Read);
          if value.Ok? && value.value != watchpoints[i].previous {
            watchpoints := watchpoints[i := watchpoints[i].(previous := value.value)];
            return Some(StopEvent(AtWatchpoint, machine.pc));
          }
        }
        i := i + 1;
      }
      return None;
    }

    method FindBreakpoint(address: u64) returns (i: nat)
      ensures i == BreakpointAt(breakpoints, address)
    {
      i := 0;
      while i < |breakpoints|
        invariant i <= |breakpoints| && BreakpointAt(breakpoints, address) == i + BreakpointAt(breakpoints[i..], address)
      {
        assert breakpoints[i..][1..] == breakpoints[i + 1..];
        if breakpoints[i].enabled && breakpoints[i].address == address {
          return;
        }
        i := i + 1;
      }
    }

    /** `singleStep` */
    method DoSingleStep() returns (event: StopEvent)
      requires Valid() && machine.loaded
      modifies this, machine, machine.memory
      ensures Valid() && machine.loaded && (Value(), event) == SingleStep(old(Value()))
    {
      hide StepMachine, FirstFiring;
      if machine.halted {
        return StopEvent(Halted, machine.pc);
      }
      var fault := machine.Step();
      started := true;
      if fault.Some? {
        return StopEvent(Fault(fault.value.error), fault.value.pc);
      }
      var triggered := CheckWatchpoints();
      if triggered.Some? {
        return triggered.value;
      }
      return StopEvent(if machine.halted then Halted else StepComplete, machine.pc);
    }

    /** `stepOver` */
    method DoStepOver(budget: u64) returns (event: StopEvent)
      requires Valid()
      modifies this, machine, machine.memory
      ensures Valid() && machine.loaded == old(machine.loaded)
      ensures !machine.loaded ==> event == StopEvent(NotRunning, 0) && Value() == old(Value())
      ensures machine.loaded ==> (Value(), event) == StepOver(old(Value()), budget)
    {
      hide SingleStep, Fetch, Decode;
      if !machine.loaded {
        return StopEvent(NotRunning, 0);
      }
      ghost var start := Value();
      var pc := machine.pc;
      var word := machine.memory.ReadWord(pc, Exec);
      if word.Err? || Decode(word.value).Err? || !Decode(word.value).value.opcode.CALL? {
        event := DoSingleStep();
        return;
      }
      event := DoRunToReturn(Wrap(pc + INSTRUCTION_SIZE), machine.sp, budget);
    }

    method DoRunToReturn(resume: u64, depth: u64, budget: u64) returns (event: StopEvent)
      requires Valid() && machine.loaded
      modifies this, machine, machine.memory
      ensures Valid() && machine.loaded && (Value(), event) == RunToReturn(old(Value()), resume, depth, budget)
    {
      hide SingleStep;
      var executed: nat := 0;
      while executed < budget
        invariant executed <= budget && Valid() && machine.loaded
        invariant RunToReturn(Value(), resume, depth, budget - executed) == RunToReturn(old(Value()), resume, depth, budget)
      {
        event := DoSingleStep();
        if !event.reason.StepComplete? {
          return;
        }
        if machine.pc == resume && machine.sp >= depth {
          return;
        }
        var hit := FindBreakpoint(machine.pc);
        if hit < |breakpoints| {
          return StopEvent(AtBreakpoint, machine.pc);
        }
        executed := executed + 1;
      }
      return StopEvent(Fault(BudgetExhausted), machine.pc);
    }

    /** `run`: continues until something stops it; the breakpoint it is parked on is not reported again. */
    method DoRun(budget: u64) returns (event: StopEvent)
      requires Valid()
      modifies this, machine, machine.memory
      ensures Valid() && machine.loaded == old(machine.loaded)
      ensures !machine.loaded ==> event == StopEvent(NotRunning, 0) && Value() == old(Value())
      ensures machine.loaded ==> (Value(), event) == Continue(old(Value()), old(started), budget)
    {
      hide SingleStep;
      if !machine.loaded {
        return StopEvent(NotRunning, 0);
      }
      ghost var parked := started;
      var executed: nat := 0;
      while executed < budget
        invariant executed <= budget && Valid() && machine.loaded && (executed == 0 ==> started == parked)
        invariant Continue(Value(), parked && executed == 0, budget - executed) == Continue(old(Value()), old(started), budget)
      {
        if executed > 0 || !started {
          var hit := FindBreakpoint(machine.pc);
          if hit < |breakpoints| {
            started := true;
            CountHit(breakpoints[hit].id);
            return StopEvent(AtBreakpoint, machine.pc);
          }
        }
        event := DoSingleStep();
        if !event.reason.StepComplete? {
          return;
        }
        executed := executed + 1;
      }
      return StopEvent(Fault(BudgetExhausted), machine.pc);
    }

    method CountHit(id: nat)
      modifies this`breakpoints
      ensures breakpoints == WithHit(old(breakpoints), id)
    {
      var i := 0;
      while i < |breakpoints|
        invariant i <= |breakpoints| == |old(breakpoints)|
        invariant breakpoints == WithHit(old(breakpoints)[..i], id) + old(breakpoints)[i..]
      {
        assert old(breakpoints)[..i + 1] == old(breakpoints)[..i] + [old(breakpoints)[i]];
        if breakpoints[i].id == id {
          breakpoints := breakpoints[i := breakpoints[i].(hits := breakpoints[i].hits + 1)];
        }
        i := i + 1;
      }
      assert old(breakpoints)[..i] == old(breakpoints);
    }
  }

  /** Breakpoints with the hit of one of them counted. */
  function WithHit(breakpoints: seq<Breakpoint>, id: nat): (r: seq<Breakpoint>)
    ensures |r| == |breakpoints|
  {
    seq(|breakpoints|, i requires 0 <= i < |breakpoints| =>
      if breakpoints[i].id == id then breakpoints[i].(hits := breakpoints[i].hits + 1) else breakpoints[i])
  }

  /** `run` from a session, with what is left of the budget; `parked` skips the breakpoint at PC once. */
  function Continue(d: Session, parked: bool, budget: nat): (Session, StopEvent)
    decreases budget
  {
    if budget == 0 then (d, StopEvent(Fault(BudgetExhausted), d.machine.pc))
    else
      var hit := BreakpointAt(d.breakpoints, d.machine.pc);
      if !parked && hit < |d.breakpoints| then
        (d.(started := true, breakpoints := WithHit(d.breakpoints, d.breakpoints[hit].id)), StopEvent(AtBreakpoint, d.machine.pc))
      else
        var (d', event) := SingleStep(d);
        if !event.reason.StepComplete? then (d', event) else Continue(d', false, budget - 1)
  }
}
