/** Deleting the instructions between a terminator and the next label. */
module UnreachableProof {
  import opened Words
  import opened Ir
  import opened CodePointers
  import opened Simulation
  import opened Passes
  import opened PassFacts

  ghost predicate ControlReachable(items: seq<Item>, i: nat) {
    i <= |items| && (Reachable(items, i) || (i < |items| && items[i].Label?))
  }

  ghost predicate Related(items: seq<Item>, s: State, s': State) {
    s' == s && Sound(items, s) && (s.halted || ControlReachable(items, s.pc))
  }

  function Marked(p: Program): Program {
    p.(remove := MarkUnreachable(p.items))
  }

  /** Control never comes to an unreachable instruction, so a run does not see the marks. */
  lemma UnreachableSimulation(p: Program)
    requires p.remove == NoMarks(|p.items|)
    ensures StepSimulation(p, Marked(p), (a, b) => Related(p.items, a, b))
  {
    var rel := (a, b) => Related(p.items, a, b);
    forall a, b | rel(a, b) && Step(p, a).Some?
      ensures Follows(Marked(p), b, Step(p, a).value, rel)
    {
      OneStep(p, a);
      FollowsInOneStep(Marked(p), b, Step(p, a).value, rel);
    }
  }

  lemma OneStep(p: Program, s: State)
    requires p.remove == NoMarks(|p.items|)
    requires Related(p.items, s, s) && Step(p, s).Some?
    ensures Step(Marked(p), s) == Step(p, s)
    ensures Related(p.items, Step(p, s).value, Step(p, s).value)
  {
    hide Execute;
    if !s.halted && p.items[s.pc].Instr? {
      var t := Step(p, s).value;
      ExecuteSound(p, s, t);
      StaysReachable(p, s, t);
    }
  }

  lemma StaysReachable(p: Program, s: State, t: State)
    requires p.remove == NoMarks(|p.items|)
    requires !s.halted && s.pc < |p.items| && p.items[s.pc].Instr? && Reachable(p.items, s.pc)
    requires Sound(p.items, s) && Sound(p.items, t) && Step(p, s) == Some(t)
    requires t.pc == s.pc + 1 || t.pc in EntryPoints(p.items)
    ensures t.halted || ControlReachable(p.items, t.pc)
  {
    var ins := p.items[s.pc].ins;
    ExecuteControl(p.Environment(), ins, s, t);
    if t.pc in EntryPoints(p.items) {
      EntryReachable(p.items, t.pc);
    }
  }

  lemma EntryReachable(items: seq<Item>, i: nat)
    requires i in EntryPoints(items)
    ensures ControlReachable(items, i)
  {
  }
}
