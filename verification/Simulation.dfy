/** Forward simulation between two programs, from one step to whole runs. */
module Simulation {
  import opened Words
  import opened Ir

  /** From `b`, the program `q` reaches a state related to `c`. */
  ghost predicate Follows(q: Program, b: State, c: State, rel: (State, State) -> bool)
    requires q.Valid()
  {
    exists k: nat :: Run(q, b, k).Some? && rel(c, Run(q, b, k).value)
  }

  ghost predicate StepSimulation(p: Program, q: Program, rel: (State, State) -> bool)
    requires p.Valid() && q.Valid()
  {
    forall a, b :: rel(a, b) && Step(p, a).Some? ==> Follows(q, b, Step(p, a).value, rel)
  }

  /** If every step of `p` is followed by `q`, so is every run. */
  lemma {:induction false} RunSimulates(p: Program, q: Program, rel: (State, State) -> bool, s: State, s': State, n: nat)
    requires p.Valid() && q.Valid() && StepSimulation(p, q, rel)
    requires rel(s, s') && Run(p, s, n).Some?
    ensures Follows(q, s', Run(p, s, n).value, rel)
    decreases n
  {
    hide Step;
    if n == 0 {
      assert Run(q, s', 0) == Some(s');
    } else {
      var t := Step(p, s).value;
      assert Follows(q, s', t, rel);
      var k: nat :| Run(q, s', k).Some? && rel(t, Run(q, s', k).value);
      var t' := Run(q, s', k).value;
      RunSimulates(p, q, rel, t, t', n - 1);
      var m: nat :| Run(q, t', m).Some? && rel(Run(p, t, n - 1).value, Run(q, t', m).value);
      RunAdd(q, s', k, m);
      assert Run(q, s', k + m) == Run(q, t', m);
    }
  }

  lemma FollowsAtOnce(q: Program, b: State, c: State, rel: (State, State) -> bool)
    requires q.Valid() && rel(c, b)
    ensures Follows(q, b, c, rel)
  {
    assert Run(q, b, 0) == Some(b);
  }

  lemma FollowsInOneStep(q: Program, b: State, c: State, rel: (State, State) -> bool)
    requires q.Valid() && Step(q, b).Some? && rel(c, Step(q, b).value)
    ensures Follows(q, b, c, rel)
  {
    var d := Step(q, b).value;
    assert Run(q, d, 0) == Some(d);
    assert Run(q, b, 1) == Some(d);
  }

  /** Removed items and labels from `s.pc` up to `stop` are stepped over silently. */
  lemma {:induction false} SilentRun(q: Program, s: State, stop: nat)
    requires q.Valid() && !s.halted && s.pc <= stop <= |q.items|
    requires forall i :: s.pc <= i < stop ==> q.remove[i] || q.items[i].Label?
    ensures Run(q, s, stop - s.pc) == Some(s.(pc := stop))
    decreases stop - s.pc
  {
    if s.pc < stop {
      SilentRun(q, s.(pc := s.pc + 1), stop);
    }
  }
}
