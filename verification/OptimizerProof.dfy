/** Whole-run preservation: if the code section halts, the optimized section halts with the same
    registers, stack, memory, output and exit code, in no more instructions. */
module OptimizerProof {
  import opened Words
  import opened Isa
  import opened Memory
  import opened Syscall
  import opened Ir
  import opened CodePointers
  import opened Simulation
  import opened Passes
  import opened PassFacts
  import U = UnreachableProof
  import P = PeepholeProof
  import F = FoldProof
  import S = StoreProof
  import C = CompactProof

  /** The state the loader creates: zero registers, empty stack, control at the entry label. */
  function Start(items: seq<Item>, entry: string, memory: Memory, world: World): State
    requires entry in LabelMap(items)
  {
    State(LabelMap(items)[entry], ZERO_REGISTERS, [], 0, memory, world, false, 0, 0)
  }

  const ZERO_REGISTERS: Registers :=
    [Num(0), Num(0), Num(0), Num(0), Num(0), Num(0), Num(0), Num(0),
     Num(0), Num(0), Num(0), Num(0), Num(0), Num(0), Num(0), Num(0)]

  /** A section as it is run: nothing removed. */
  function Whole(items: seq<Item>, externals: map<string, u64>): (p: Program)
    ensures p.Valid()
  {
    Program(items, NoMarks(|items|), externals)
  }

  /** Everything a finished run leaves behind, FLAGS aside, with code addresses renamed by `k`. */
  ghost predicate SameOutcome(k: seq<nat>, t: State, t': State) {
    && t.halted && t'.halted
    && t'.regs == RenameAll(k, t.regs) && t'.stack == RenameAll(k, t.stack)
    && t'.memory == t.memory && t'.world == t.world && t'.exitCode == t.exitCode
    && t'.executed <= t.executed
  }

  ghost predicate EndsLike(k: seq<nat>, q: Program, s': State, t: State)
    requires q.Valid()
  {
    exists m: nat :: Run(q, s', m).Some? && SameOutcome(k, t, Run(q, s', m).value)
  }

  lemma NoRenaming(t: State)
    ensures RenameAll([], t.regs) == t.regs && RenameAll([], t.stack) == t.stack
  {
  }

  /** One transformation after another. */
  lemma Chain(p: Program, q: Program, rel: (State, State) -> bool, s: State, s': State, t: State, k: seq<nat>)
    requires p.Valid() && q.Valid() && StepSimulation(p, q, rel) && rel(s, s')
    requires forall a, b :: rel(a, b) && a.halted ==> SameOutcome(k, a, b)
    requires EndsLike([], p, s, t)
    ensures EndsLike(k, q, s', t)
  {
    hide Run;
    var n: nat :| Run(p, s, n).Some? && SameOutcome([], t, Run(p, s, n).value);
    var a := Run(p, s, n).value;
    NoRenaming(t);
    RunSimulates(p, q, rel, s, s', n);
    var m: nat :| Run(q, s', m).Some? && rel(a, Run(q, s', m).value);
    assert SameOutcome(k, a, Run(q, s', m).value);
  }

  // ----- the programs between the passes -----

  ghost function Steps(items: seq<Item>, externals: map<string, u64>): (r: seq<Program>)
    ensures |r| == 7 && forall i :: 0 <= i < 7 ==> r[i].Valid()
  {
    var p0 := Whole(items, externals);
    var p1 := U.Marked(p0);
    var p2 := P.Rewritten(p1);
    var p3 := P.Unjumped(p2);
    var p4 := F.Folded(p3);
    var p5 := S.Unpadded(p4);
    [p0, p1, p2, p3, p4, p5, S.Swept(p5)]
  }

  lemma StepsArePasses(items: seq<Item>, externals: map<string, u64>)
    ensures var q := Steps(items, externals)[6]; (q.items, q.remove) == PassMarked(items) && q.externals == externals
    ensures C.Compacted(Steps(items, externals)[6]) == Whole(Pass(items), externals)
  {
    hide FoldItem, PeepholeItem, IsDeadStore;
  }

  lemma RewrittenFacts(p: Program)
    requires MarksUnreachable(p) && UniqueLabels(p.items)
    ensures var q := P.Rewritten(p); MarksUnreachable(q) && UniqueLabels(q.items) && SameLabels(p.items, q.items)
    ensures forall c :: 0 <= c < |p.items| && !p.remove[c] && P.Rewritten(p).remove[c] ==>
              IsOp(P.Rewritten(p).items, c, PUSH) || IsOp(P.Rewritten(p).items, c, POP)
    ensures forall c :: 0 <= c <= |p.items| ==> Reachable(P.Rewritten(p).items, c) == Reachable(p.items, c)
  {
    var q := P.Rewritten(p);
    forall c | 0 <= c < |p.items| && !p.remove[c] && q.remove[c]
      ensures IsOp(q.items, c, PUSH) || IsOp(q.items, c, POP)
    {
      assert PeepholeMark(p.items, p.remove, c);
      assert q.items[c] == PeepholeItem(p.items, p.remove, c);
    }
    forall c | 0 <= c <= |p.items|
      ensures Reachable(q.items, c) == Reachable(p.items, c)
    {
      SameReachable(p.items, q.items, c);
    }
  }

  lemma {:induction false} MoreMarksFollow(items: seq<Item>, r: seq<bool>, r': seq<bool>, j: nat, name: string)
    requires |r| == |items| == |r'| && j <= |items| && LabelFollows(items, r, j, name)
    requires forall i :: 0 <= i < |items| && r[i] ==> r'[i]
    requires forall i :: 0 <= i < |items| && r'[i] ==> items[i].Instr?
    ensures LabelFollows(items, r', j, name)
    decreases |items| - j
  {
    if r[j] || !(items[j].name == name) {
      MoreMarksFollow(items, r, r', j + 1, name);
    }
  }

  lemma UnjumpedFacts(p: Program)
    requires MarksUnreachable(p) && UniqueLabels(p.items)
    requires forall c :: 0 <= c < |p.items| && p.remove[c] ==>
               !Reachable(p.items, c) || IsOp(p.items, c, PUSH) || IsOp(p.items, c, POP)
    ensures F.Foldable(P.Unjumped(p))
  {
    var q := P.Unjumped(p);
    forall c | 0 <= c < |q.items| && q.remove[c]
      ensures F.FairMark(q, c)
    {
      if !p.remove[c] {
        MoreMarksFollow(p.items, p.remove, q.remove, c + 1, p.items[c].ins.symbol.value.name);
      }
    }
  }

  lemma FoldedFacts(p: Program)
    requires F.Foldable(p)
    ensures SameLabels(p.items, F.Folded(p).items) && C.LabelsKept(F.Folded(p))
  {
    hide FoldedValue, ConstantsAt;
  }

  lemma StoreFacts(p: Program)
    requires C.LabelsKept(p)
    ensures C.LabelsKept(S.Swept(S.Unpadded(p)))
  {
  }

  lemma MarkedFacts(p: Program)
    requires p.remove == NoMarks(|p.items|)
    ensures MarksUnreachable(U.Marked(p))
  {
  }

  // ----- one pass -----

  ghost function PassMap(items: seq<Item>): seq<nat> {
    KeptMap(PassMarked(items).1)
  }

  lemma StepsFacts(items: seq<Item>, externals: map<string, u64>)
    requires UniqueLabels(items)
    ensures var q := Steps(items, externals);
      && MarksUnreachable(q[1]) && MarksUnreachable(q[2]) && UniqueLabels(q[2].items)
      && F.Foldable(q[3]) && C.LabelsKept(q[6])
      && SameLabels(items, q[2].items) && q[3].items == q[2].items
      && SameLabels(items, q[4].items) && q[5].items == q[4].items && q[6].items == q[4].items
  {
    hide FoldItem, PeepholeItem, IsDeadStore, Reachable;
    var q := Steps(items, externals);
    MarkedFacts(q[0]);
    RewrittenFacts(q[1]);
    forall c | 0 <= c < |items| && q[2].remove[c]
      ensures !Reachable(q[2].items, c) || IsOp(q[2].items, c, PUSH) || IsOp(q[2].items, c, POP)
    {
      if q[1].remove[c] {
        assert Unreachable(items, c);
      }
    }
    UnjumpedFacts(q[2]);
    FoldedFacts(q[3]);
    StoreFacts(q[4]);
  }

  /** A fresh machine at a label. */
  ghost predicate Fresh(items: seq<Item>, s: State) {
    && !s.halted && s.pc < |items| && items[s.pc].Label? && s.stack == [] && forall r: Reg :: s.regs[r].Num?
  }

  lemma FreshIsSound(items: seq<Item>, s: State)
    requires Fresh(items, s)
    ensures Sound(items, s)
  {
  }

  lemma UnreachableEnds(p: Program, s: State, t: State)
    requires p.remove == NoMarks(|p.items|) && Fresh(p.items, s) && EndsLike([], p, s, t)
    ensures EndsLike([], U.Marked(p), s, t)
  {
    hide Run, StepSimulation;
    U.UnreachableSimulation(p);
    Chain(p, U.Marked(p), (a, b) => U.Related(p.items, a, b), s, s, t, []);
  }

  lemma PeepholeEnds(p: Program, s: State, t: State)
    requires MarksUnreachable(p) && Fresh(p.items, s) && EndsLike([], p, s, t)
    ensures EndsLike([], P.Rewritten(p), s, t)
  {
    hide Run, StepSimulation;
    P.PeepholeSimulation(p);
    Chain(p, P.Rewritten(p), (a, b) => P.Related(p, a, b), s, s, t, []);
  }

  lemma JumpEnds(p: Program, s: State, t: State)
    requires MarksUnreachable(p) && UniqueLabels(p.items) && EndsLike([], p, s, t)
    ensures EndsLike([], P.Unjumped(p), s, t)
  {
    hide Run, StepSimulation;
    P.JumpSimulation(p);
    Chain(p, P.Unjumped(p), (a, b) => P.SameButCount(p, a, b), s, s, t, []);
  }

  lemma FoldEnds(p: Program, s: State, t: State)
    requires F.Foldable(p) && Fresh(p.items, s) && EndsLike([], p, s, t)
    ensures EndsLike([], F.Folded(p), s, t)
  {
    hide Run, StepSimulation, ConstantsAt;
    F.FoldSimulation(p);
    FreshIsSound(p.items, s);
    Chain(p, F.Folded(p), (a, b) => F.Related(p, a, b), s, s, t, []);
  }

  lemma StoreEnds(p: Program, s: State, t: State)
    requires p.Valid() && EndsLike([], p, s, t)
    ensures EndsLike([], S.Swept(S.Unpadded(p)), s, t)
  {
    hide Run, StepSimulation;
    var q := S.Unpadded(p);
    S.IdentitySimulation(p);
    Chain(p, q, (a, b) => P.SameButCount(p, a, b), s, s, t, []);
    S.DeadStoreSimulation(q);
    Chain(q, S.Swept(q), (a, b) => S.Related(q, a, b), s, s, t, []);
  }

  lemma CompactEnds(p: Program, s: State, t: State)
    requires C.LabelsKept(p) && Fresh(p.items, s) && EndsLike([], p, s, t)
    ensures EndsLike(KeptMap(p.remove), C.Compacted(p), Rename(KeptMap(p.remove), s), t)
  {
    hide Run, StepSimulation;
    var k := KeptMap(p.remove);
    C.CompactSimulation(p);
    Chain(p, C.Compacted(p), (a, b) => C.Related(p, a, b), s, Rename(k, s), t, k);
  }

  /** The start state of the original is the start state of the result, renamed. */
  lemma StartMoves(p: Program, entry: string, memory: Memory, world: World)
    requires C.LabelsKept(p) && entry in LabelMap(p.items)
    ensures entry in LabelMap(C.Compacted(p).items)
    ensures Rename(KeptMap(p.remove), Start(p.items, entry, memory, world))
         == Start(C.Compacted(p).items, entry, memory, world)
  {
    C.LabelsMove(p);
    assert RenameAll(KeptMap(p.remove), ZERO_REGISTERS) == ZERO_REGISTERS;
  }

  /** One pass preserves every halting run. */
  lemma PassPreserves(items: seq<Item>, externals: map<string, u64>, entry: string, memory: Memory, world: World, t: State)
    requires UniqueLabels(items) && entry in LabelMap(items)
    requires EndsLike([], Whole(items, externals), Start(items, entry, memory, world), t)
    ensures UniqueLabels(Pass(items)) && entry in LabelMap(Pass(items))
    ensures EndsLike(PassMap(items), Whole(Pass(items), externals), Start(Pass(items), entry, memory, world), t)
  {
    hide EndsLike, PassMarked, Start;
    var q := Steps(items, externals);
    var s := Start(items, entry, memory, world);
    FreshStart(items, entry, memory, world);
    StepsFacts(items, externals);
    StepsArePasses(items, externals);
    UnreachableEnds(q[0], s, t);
    PeepholeEnds(q[1], s, t);
    JumpEnds(q[2], s, t);
    FoldEnds(q[3], s, t);
    StoreEnds(q[4], s, t);
    CompactEnds(q[6], s, t);
    C.KeptUnique(q[6]);
    SameStart(items, q[6].items, entry, memory, world);
    StartMoves(q[6], entry, memory, world);
  }

  lemma FreshStart(items: seq<Item>, entry: string, memory: Memory, world: World)
    requires entry in LabelMap(items)
    ensures Fresh(items, Start(items, entry, memory, world))
  {
  }

  lemma SameStart(items: seq<Item>, items': seq<Item>, entry: string, memory: Memory, world: World)
    requires SameLabels(items, items') && entry in LabelMap(items)
    ensures entry in LabelMap(items')
    ensures Start(items', entry, memory, world) == Start(items, entry, memory, world)
  {
    SameLabelMap(items, items');
  }

  // ----- all passes -----

  lemma PassMapBound(items: seq<Item>)
    ensures |PassMap(items)| == |items| + 1
    ensures forall i :: 0 <= i < |PassMap(items)| ==> PassMap(items)[i] <= |Pass(items)|
  {
    var r := PassMarked(items);
    C.KeptLength(r.0, r.1);
    forall i | 0 <= i <= |items|
      ensures KeptBefore(r.1, i) <= KeptBefore(r.1, |items|)
    {
      C.KeptMonotone(r.1, i, |items|);
    }
  }

  /** Where the code addresses of the original section end up after some rounds. */
  ghost function CodeMap(items: seq<Item>, rounds: nat): (k: seq<nat>)
    ensures |k| == |items| + 1
    decreases rounds
  {
    if rounds == 0 then seq(|items| + 1, i => i)
    else
      PassMapBound(items);
      Compose(PassMap(items), CodeMap(Pass(items), rounds - 1))
  }

  /** The code addresses of a finished run lie inside the section. */
  lemma OutcomeInside(items: seq<Item>, externals: map<string, u64>, entry: string, memory: Memory, world: World, t: State, m: nat)
    requires entry in LabelMap(items)
    requires Run(Whole(items, externals), Start(items, entry, memory, world), m) == Some(t)
    ensures Sound(items, t)
  {
    hide Run, StepSimulation;
    var p, s := Whole(items, externals), Start(items, entry, memory, world);
    var rel := (a, b) => U.Related(items, a, b);
    FreshStart(items, entry, memory, world);
    U.UnreachableSimulation(p);
    RunSimulates(p, U.Marked(p), rel, s, s, m);
  }

  lemma OutcomesCompose(items: seq<Item>, t: State, t': State, t'': State, rounds: nat)
    requires rounds > 0 && Sound(items, t)
    requires SameOutcome(PassMap(items), t, t') && SameOutcome(CodeMap(Pass(items), rounds - 1), t', t'')
    ensures SameOutcome(CodeMap(items, rounds), t, t'')
  {
    hide Pass, PassMap;
    PassMapBound(items);
    ComposeRenames(PassMap(items), CodeMap(Pass(items), rounds - 1), t.regs);
    ComposeRenames(PassMap(items), CodeMap(Pass(items), rounds - 1), t.stack);
  }

  lemma NoRounds(items: seq<Item>, t: State)
    requires t.halted && Sound(items, t)
    ensures SameOutcome(CodeMap(items, 0), t, t)
  {
    assert RenameAll(CodeMap(items, 0), t.regs) == t.regs;
    assert RenameAll(CodeMap(items, 0), t.stack) == t.stack;
  }

  /** The optimizer preserves every halting run, for any number of rounds: the optimized section
      halts with the same registers, stack, memory, output and exit code, code addresses moved by
      `CodeMap`, after at most as many instructions. */
  lemma {:induction false} OptimizerPreserves(
    items: seq<Item>, externals: map<string, u64>, entry: string, memory: Memory, world: World,
    n: nat, t: State, rounds: nat)
    returns (n': nat, t': State)
    requires UniqueLabels(items) && entry in LabelMap(items)
    requires Run(Whole(items, externals), Start(items, entry, memory, world), n) == Some(t) && t.halted
    ensures UniqueLabels(Optimized(items, rounds)) && entry in LabelMap(Optimized(items, rounds))
    ensures Run(Whole(Optimized(items, rounds), externals), Start(Optimized(items, rounds), entry, memory, world), n') == Some(t')
    ensures SameOutcome(CodeMap(items, rounds), t, t')
    decreases rounds
  {
    hide Run, PassMarked, Start;
    OutcomeInside(items, externals, entry, memory, world, t, n);
    if rounds == 0 {
      n', t' := n, t;
      NoRounds(items, t);
    } else {
      var m, u := OnePass(items, externals, entry, memory, world, n, t);
      n', t' := OptimizerPreserves(Pass(items), externals, entry, memory, world, m, u, rounds - 1);
      OutcomesCompose(items, t, u, t', rounds);
    }
  }

  lemma OnePass(items: seq<Item>, externals: map<string, u64>, entry: string, memory: Memory, world: World, n: nat, t: State)
    returns (n': nat, t': State)
    requires UniqueLabels(items) && entry in LabelMap(items)
    requires Run(Whole(items, externals), Start(items, entry, memory, world), n) == Some(t) && t.halted
    ensures UniqueLabels(Pass(items)) && entry in LabelMap(Pass(items))
    ensures Run(Whole(Pass(items), externals), Start(Pass(items), entry, memory, world), n') == Some(t')
    ensures SameOutcome(PassMap(items), t, t')
  {
    hide Run, PassMarked, Start, PassMap;
    NoRenaming(t);
    assert SameOutcome([], t, t);
    PassPreserves(items, externals, entry, memory, world, t);
    n' :| Run(Whole(Pass(items), externals), Start(Pass(items), entry, memory, world), n').Some?
      && SameOutcome(PassMap(items), t, Run(Whole(Pass(items), externals), Start(Pass(items), entry, memory, world), n').value);
    t' := Run(Whole(Pass(items), externals), Start(Pass(items), entry, memory, world), n').value;
  }
}
