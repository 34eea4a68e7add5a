/** Where `run` and `stepOver` stop: at the first state of the machine's own run at which there is
    something to report, and what they report and change there. */
module DebuggerRuns {
  import opened Words
  import opened Isa
  import opened Memory
  import opened VmSpec
  import opened VmInvariant
  import opened Debugger

  /** Breakpoint i is the first enabled one at the address. */
  ghost predicate FirstHit(breakpoints: seq<Breakpoint>, address: u64, i: nat) {
    && i < |breakpoints| && breakpoints[i].enabled && breakpoints[i].address == address
    && forall j :: 0 <= j < i ==> !(breakpoints[j].enabled && breakpoints[j].address == address)
  }

  ghost predicate AnyHit(breakpoints: seq<Breakpoint>, address: u64) {
    exists i :: 0 <= i < |breakpoints| && breakpoints[i].enabled && breakpoints[i].address == address
  }

  /** The watched word can be read and is not the recorded one. */
  ghost predicate Changed(m: Memory, w: Watchpoint) {
    w.enabled && ReadU64(m, w.address).Ok? && ReadU64(m, w.address).value != w.previous
  }

  ghost predicate FirstChanged(m: Memory, watchpoints: seq<Watchpoint>, i: nat) {
    && i < |watchpoints| && Changed(m, watchpoints[i])
    && forall j :: 0 <= j < i ==> !Changed(m, watchpoints[j])
  }

  ghost predicate NoneChanged(m: Memory, watchpoints: seq<Watchpoint>) {
    forall i :: 0 <= i < |watchpoints| ==> !Changed(m, watchpoints[i])
  }

  /** A step with nothing to report: no halt before or after, no fault, no watched word changed. */
  ghost predicate Calm(v: Machine, watchpoints: seq<Watchpoint>) {
    && !v.halted && StepMachine(v).fault.None? && !StepMachine(v).machine.halted
    && NoneChanged(StepMachine(v).machine.memory, watchpoints)
  }

  /** The session after k calm steps. */
  ghost function Later(d: Session, k: nat): Session {
    d.(machine := After(d.machine, k), started := d.started || k > 0)
  }

  /** What a step that is not calm reports, and the session it leaves. */
  ghost predicate Reports(d: Session, d': Session, event: StopEvent) {
    var v, o := d.machine, StepMachine(d.machine);
    if v.halted then d' == d && event == StopEvent(Halted, v.pc)
    else
      && d'.machine == o.machine && d'.started && d'.breakpoints == d.breakpoints
      && if o.fault.Some? then
           d'.watchpoints == d.watchpoints && event == StopEvent(Fault(o.fault.value.error), o.fault.value.pc)
         else if NoneChanged(o.machine.memory, d.watchpoints) then
           d'.watchpoints == d.watchpoints && o.machine.halted && event == StopEvent(Halted, o.machine.pc)
         else
           event == StopEvent(AtWatchpoint, o.machine.pc)
           && exists i: nat :: FirstChanged(o.machine.memory, d.watchpoints, i) && Recorded(o.machine.memory, d.watchpoints, d'.watchpoints, i)
  }

  /** Watchpoint i now records the word it has seen; the others are as they were. */
  ghost predicate Recorded(m: Memory, before: seq<Watchpoint>, after: seq<Watchpoint>, i: nat) {
    && i < |before| == |after| && ReadU64(m, before[i].address).Ok?
    && after == before[i := Watchpoint(before[i].id, before[i].address, before[i].enabled, ReadU64(m, before[i].address).value)]
  }

  lemma FiringMeans(m: Memory, watchpoints: seq<Watchpoint>)
    ensures NoneChanged(m, watchpoints) <==> FirstFiring(m, watchpoints) == |watchpoints|
    ensures FirstFiring(m, watchpoints) < |watchpoints| ==> FirstChanged(m, watchpoints, FirstFiring(m, watchpoints))
  {
    hide ReadU64;
    forall i | 0 <= i < |watchpoints|
      ensures Changed(m, watchpoints[i]) <==> Fires(m, watchpoints[i])
    {
    }
    hide Changed, Fires;
    var i := FirstFiring(m, watchpoints);
    if i < |watchpoints| {
      assert Changed(m, watchpoints[i]);
    }
  }

  /** A single step: calm, or as reported. */
  lemma SingleStepMeans(d: Session)
    ensures Calm(d.machine, d.watchpoints) ==> SingleStep(d) == (Later(d, 1), StopEvent(StepComplete, After(d.machine, 1).pc))
    ensures !Calm(d.machine, d.watchpoints) ==>
              !SingleStep(d).1.reason.StepComplete? && Reports(d, SingleStep(d).0, SingleStep(d).1)
  {
    hide StepMachine, ReadU64, Changed;
    assert After(d.machine, 1) == StepMachine(d.machine).machine by {
      assert After(StepMachine(d.machine).machine, 0) == StepMachine(d.machine).machine;
    }
    var m := StepMachine(d.machine).machine.memory;
    FiringMeans(m, d.watchpoints);
    var i := FirstFiring(m, d.watchpoints);
    if i < |d.watchpoints| {
      FiresReads(m, d.watchpoints[i]);
      if !d.machine.halted && StepMachine(d.machine).fault.None? {
        assert Recorded(m, d.watchpoints, SingleStep(d).0.watchpoints, i);
      }
    }
    hide FirstFiring, NoneChanged, FirstChanged;
  }

  lemma FiresReads(m: Memory, w: Watchpoint)
    requires Fires(m, w)
    ensures ReadU64(m, w.address).Ok?
  {
    hide ReadU64;
  }

  lemma HitMeans(breakpoints: seq<Breakpoint>, address: u64)
    ensures AnyHit(breakpoints, address) <==> BreakpointAt(breakpoints, address) < |breakpoints|
    ensures AnyHit(breakpoints, address) ==> FirstHit(breakpoints, address, BreakpointAt(breakpoints, address))
  {
  }

  // ----- run -----

  /** The first k steps are calm and come by no breakpoint; parked, the one at the start is passed. */
  ghost predicate PassesBy(d: Session, parked: bool, k: nat) {
    forall j :: 0 <= j < k ==> PassesAt(d, parked, j)
  }

  ghost predicate PassesAt(d: Session, parked: bool, j: nat) {
    && Calm(After(d.machine, j), d.watchpoints)
    && (j > 0 || !parked ==> !AnyHit(d.breakpoints, After(d.machine, j).pc))
  }

  /** Breakpoints with the hits of one id one higher. */
  ghost predicate Counted(before: seq<Breakpoint>, after: seq<Breakpoint>, id: nat) {
    && |after| == |before|
    && forall j :: 0 <= j < |before| ==>
         after[j] == Breakpoint(before[j].id, before[j].address, before[j].enabled,
                                if before[j].id == id then before[j].hits + 1 else before[j].hits)
  }

  /** `run` has stopped after k steps: out of budget, at a breakpoint, or for what the next step reports. */
  ghost predicate StopsAfter(d: Session, parked: bool, budget: nat, k: nat, d': Session, event: StopEvent) {
    var here := Later(d, k);
    && PassesBy(d, parked, k) && k <= budget
    && if k == budget then d' == here && event == StopEvent(Fault(BudgetExhausted), here.machine.pc)
       else if (k > 0 || !parked) && AnyHit(d.breakpoints, here.machine.pc) then
         && event == StopEvent(AtBreakpoint, here.machine.pc)
         && d' == here.(started := true, breakpoints := d'.breakpoints)
         && exists i: nat :: FirstHit(d.breakpoints, here.machine.pc, i) && Counted(d.breakpoints, d'.breakpoints, d.breakpoints[i].id)
       else !Calm(here.machine, d.watchpoints) && Reports(here, d', event)
  }

  lemma LaterNext(d: Session, k: nat)
    ensures Later(Later(d, 1), k) == Later(d, k + 1)
    ensures After(After(d.machine, 1), k) == After(d.machine, k + 1)
    ensures Later(d, 0) == d
  {
    hide StepMachine;
    assert After(StepMachine(d.machine).machine, 0) == StepMachine(d.machine).machine;
  }

  /** The stop of a run that has passed its first state is the stop of the run. */
  lemma StopShifts(d: Session, parked: bool, budget: nat, k: nat, d': Session, event: StopEvent)
    requires budget > 0 && PassesAt(d, parked, 0)
    requires StopsAfter(Later(d, 1), false, budget - 1, k, d', event)
    ensures StopsAfter(d, parked, budget, k + 1, d', event)
  {
    hide After, Calm, AnyHit, Reports, FirstHit, Counted;
    LaterNext(d, k);
    forall j | 0 <= j < k + 1
      ensures PassesAt(d, parked, j)
    {
      if j > 0 {
        LaterNext(d, j - 1);
        assert PassesAt(Later(d, 1), false, j - 1);
      }
    }
  }

  lemma StopHere(d: Session, parked: bool, budget: nat)
    requires budget == 0 || !PassesAt(d, parked, 0)
    ensures StopsAfter(d, parked, budget, 0, Continue(d, parked, budget).0, Continue(d, parked, budget).1)
  {
    hide Calm, Reports, SingleStep, BreakpointAt, AnyHit, FirstHit;
    LaterNext(d, 0);
    assert After(d.machine, 0) == d.machine;
    HitMeans(d.breakpoints, d.machine.pc);
    SingleStepMeans(d);
    if budget > 0 && !parked && AnyHit(d.breakpoints, d.machine.pc) {
      var i := BreakpointAt(d.breakpoints, d.machine.pc);
      assert Counted(d.breakpoints, WithHit(d.breakpoints, d.breakpoints[i].id), d.breakpoints[i].id);
    }
  }

  lemma ContinueStep(d: Session, parked: bool, budget: nat)
    requires budget > 0 && PassesAt(d, parked, 0)
    ensures Continue(d, parked, budget) == Continue(Later(d, 1), false, budget - 1)
  {
    hide Calm, SingleStep, BreakpointAt, AnyHit, Later;
    assert After(d.machine, 0) == d.machine;
    HitMeans(d.breakpoints, d.machine.pc);
    SingleStepMeans(d);
  }

  /** `run` stops at the first state with something to stop for, and nowhere else: after k steps that
      are calm and come by no breakpoint, because the budget is used up, because an enabled breakpoint
      is at PC (then the hits of its id are one higher), or because the next step halts, faults or
      changes a watched word. */
  lemma {:induction false} RunStops(d: Session, parked: bool, budget: nat) returns (k: nat)
    ensures StopsAfter(d, parked, budget, k, Continue(d, parked, budget).0, Continue(d, parked, budget).1)
    decreases budget
  {
    hide StopsAfter, PassesAt, Continue, Later;
    if budget == 0 || !PassesAt(d, parked, 0) {
      StopHere(d, parked, budget);
      k := 0;
    } else {
      ContinueStep(d, parked, budget);
      var r := RunStops(Later(d, 1), false, budget - 1);
      StopShifts(d, parked, budget, r, Continue(d, parked, budget).0, Continue(d, parked, budget).1);
      k := r + 1;
    }
  }

  lemma StopPasses(d: Session, parked: bool, budget: nat, k: nat, d': Session, event: StopEvent)
    requires StopsAfter(d, parked, budget, k, d', event)
    ensures PassesBy(d, parked, k) && k <= budget && (k < budget ==> !PassesAt(d, parked, k))
  {
    hide After, Calm, AnyHit, Reports, FirstHit, Counted;
  }

  /** There is only one such state. */
  lemma StopIsUnique(d: Session, parked: bool, budget: nat, j: nat, k: nat, d1: Session, e1: StopEvent, d2: Session, e2: StopEvent)
    requires StopsAfter(d, parked, budget, j, d1, e1) && StopsAfter(d, parked, budget, k, d2, e2)
    ensures j == k
  {
    hide StopsAfter, PassesAt;
    StopPasses(d, parked, budget, j, d1, e1);
    StopPasses(d, parked, budget, k, d2, e2);
  }

  /** An enabled breakpoint that a calm run comes to first: `run` stops there, before the instruction. */
  lemma RunStopsAtBreakpoint(d: Session, parked: bool, budget: nat, k: nat)
    requires PassesBy(d, parked, k) && k < budget && (k > 0 || !parked)
    requires AnyHit(d.breakpoints, After(d.machine, k).pc)
    ensures var (d', event) := Continue(d, parked, budget);
            && event == StopEvent(AtBreakpoint, After(d.machine, k).pc)
            && d'.machine == After(d.machine, k) && d'.started && d'.watchpoints == d.watchpoints
            && exists i: nat :: FirstHit(d.breakpoints, After(d.machine, k).pc, i)
                                && Counted(d.breakpoints, d'.breakpoints, d.breakpoints[i].id)
  {
    hide After, Calm, AnyHit, Reports, FirstHit, Counted, Continue;
    var (d', event) := Continue(d, parked, budget);
    var r := RunStops(d, parked, budget);
    NotPast(d, parked, budget, k, r, d', event);
  }

  lemma NotPast(d: Session, parked: bool, budget: nat, k: nat, r: nat, d': Session, event: StopEvent)
    requires PassesBy(d, parked, k) && k < budget && !PassesAt(d, parked, k)
    requires StopsAfter(d, parked, budget, r, d', event)
    ensures r == k
  {
    hide StopsAfter, PassesAt;
    StopPasses(d, parked, budget, r, d', event);
  }

  // ----- stepping over a call -----

  /** The call has returned: control is behind it and the stack no deeper than before it. */
  ghost predicate Returned(v: Machine, resume: u64, depth: u64) { v.pc == resume && v.sp >= depth }

  ghost predicate GoesOn(d: Session, resume: u64, depth: u64, j: nat) {
    && Calm(After(d.machine, j), d.watchpoints)
    && !Returned(After(d.machine, j + 1), resume, depth) && !AnyHit(d.breakpoints, After(d.machine, j + 1).pc)
  }

  /** `stepOver` of a call has stopped in step k: out of budget, because the call has returned, at a
      breakpoint (whose hits are not counted), or for what the step reports. */
  ghost predicate ReturnsAfter(d: Session, resume: u64, depth: u64, budget: nat, k: nat, d': Session, event: StopEvent) {
    var here, next := Later(d, k), Later(d, k + 1);
    && (forall j :: 0 <= j < k ==> GoesOn(d, resume, depth, j)) && k <= budget
    && if k == budget then d' == here && event == StopEvent(Fault(BudgetExhausted), here.machine.pc)
       else if Calm(here.machine, d.watchpoints) then
         && d' == next
         && if Returned(next.machine, resume, depth) then event == StopEvent(StepComplete, next.machine.pc)
            else AnyHit(d.breakpoints, next.machine.pc) && event == StopEvent(AtBreakpoint, next.machine.pc)
       else Reports(here, d', event)
  }

  lemma ReturnShifts(d: Session, resume: u64, depth: u64, budget: nat, k: nat, d': Session, event: StopEvent)
    requires budget > 0 && GoesOn(d, resume, depth, 0)
    requires ReturnsAfter(Later(d, 1), resume, depth, budget - 1, k, d', event)
    ensures ReturnsAfter(d, resume, depth, budget, k + 1, d', event)
  {
    hide After, Calm, AnyHit, Reports, Returned;
    LaterNext(d, k);
    LaterNext(d, k + 1);
    forall j | 0 <= j < k + 1
      ensures GoesOn(d, resume, depth, j)
    {
      if j > 0 {
        LaterNext(d, j - 1);
        LaterNext(d, j);
        assert GoesOn(Later(d, 1), resume, depth, j - 1);
      }
    }
  }

  lemma ReturnHere(d: Session, resume: u64, depth: u64, budget: nat)
    requires budget == 0 || !GoesOn(d, resume, depth, 0)
    ensures ReturnsAfter(d, resume, depth, budget, 0, RunToReturn(d, resume, depth, budget).0, RunToReturn(d, resume, depth, budget).1)
  {
    hide Calm, Reports, SingleStep, BreakpointAt, AnyHit;
    LaterNext(d, 0);
    assert After(d.machine, 0) == d.machine;
    HitMeans(d.breakpoints, After(d.machine, 1).pc);
    SingleStepMeans(d);
    hide StepMachine;
  }

  lemma ReturnStep(d: Session, resume: u64, depth: u64, budget: nat)
    requires budget > 0 && GoesOn(d, resume, depth, 0)
    ensures RunToReturn(d, resume, depth, budget) == RunToReturn(Later(d, 1), resume, depth, budget - 1)
  {
    hide Calm, SingleStep, BreakpointAt, AnyHit;
    assert After(d.machine, 0) == d.machine;
    HitMeans(d.breakpoints, After(d.machine, 1).pc);
    SingleStepMeans(d);
    hide StepMachine;
  }

  /** Stepping over a call stops in the first step with something to stop for, and in no other. */
  lemma {:induction false} StepOverStops(d: Session, resume: u64, depth: u64, budget: nat) returns (k: nat)
    ensures ReturnsAfter(d, resume, depth, budget, k, RunToReturn(d, resume, depth, budget).0, RunToReturn(d, resume, depth, budget).1)
    decreases budget
  {
    hide ReturnsAfter, GoesOn, RunToReturn, Later;
    if budget == 0 || !GoesOn(d, resume, depth, 0) {
      ReturnHere(d, resume, depth, budget);
      k := 0;
    } else {
      ReturnStep(d, resume, depth, budget);
      var r := StepOverStops(Later(d, 1), resume, depth, budget - 1);
      ReturnShifts(d, resume, depth, budget, r, RunToReturn(d, resume, depth, budget).0, RunToReturn(d, resume, depth, budget).1);
      k := r + 1;
    }
  }

  /** Stepping over anything but a call is a single step; stepping over a call ends with its return. */
  lemma StepOverMeans(d: Session, budget: nat) returns (k: nat)
    ensures AtCall(d.machine) ==>
              ReturnsAfter(d, (d.machine.pc + 8) % 0x1_0000_0000_0000_0000, d.machine.sp, budget, k,
                           StepOver(d, budget).0, StepOver(d, budget).1)
    ensures !AtCall(d.machine) && Calm(d.machine, d.watchpoints) ==>
              StepOver(d, budget) == (Later(d, 1), StopEvent(StepComplete, After(d.machine, 1).pc))
    ensures !AtCall(d.machine) && !Calm(d.machine, d.watchpoints) ==>
              Reports(d, StepOver(d, budget).0, StepOver(d, budget).1)
  {
    hide ReturnsAfter, RunToReturn, SingleStep, Calm, Reports, Later, AtCall, After;
    SingleStepMeans(d);
    k := StepOverStops(d, Wrap(d.machine.pc + INSTRUCTION_SIZE), d.machine.sp, budget);
  }
}
