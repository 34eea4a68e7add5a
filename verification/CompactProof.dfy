/** Dropping the removed items: the kept items are renumbered and code addresses with them. */
module CompactProof {
  import opened Words
  import opened Ir
  import opened CodePointers
  import opened Simulation
  import opened Passes
  import opened PassFacts

  ghost predicate LabelsKept(p: Program) {
    && p.Valid() && UniqueLabels(p.items)
    && forall i :: 0 <= i < |p.items| && p.remove[i] ==> p.items[i].Instr?
  }

  function Compacted(p: Program): (q: Program)
    requires p.Valid()
    ensures q.Valid()
  {
    var kept := Kept(p.items, p.remove);
    p.(items := kept, remove := NoMarks(|kept|))
  }

  lemma {:induction false} KeptPrefix(remove: seq<bool>, i: nat, n: nat)
    requires i <= n <= |remove|
    ensures KeptBefore(remove[..n], i) == KeptBefore(remove, i)
  {
    if i > 0 {
      KeptPrefix(remove, i - 1, n);
    }
  }

  lemma {:induction false} KeptMonotone(remove: seq<bool>, i: nat, j: nat)
    requires i <= j <= |remove|
    ensures KeptBefore(remove, i) <= KeptBefore(remove, j)
    ensures i < j && !remove[i] ==> KeptBefore(remove, i) < KeptBefore(remove, j)
  {
    if i < j {
      KeptMonotone(remove, i, j - 1);
    }
  }

  lemma {:induction false} KeptLength(items: seq<Item>, remove: seq<bool>)
    requires |remove| == |items|
    ensures |Kept(items, remove)| == KeptBefore(remove, |items|)
  {
    if items != [] {
      var last := |items| - 1;
      KeptLength(items[..last], remove[..last]);
      KeptPrefix(remove, last, last);
    }
  }

  /** A kept item is found at its new index. */
  lemma {:induction false} KeptAt(items: seq<Item>, remove: seq<bool>, i: nat)
    requires |remove| == |items| && i < |items| && !remove[i]
    ensures KeptBefore(remove, i) < |Kept(items, remove)|
    ensures Kept(items, remove)[KeptBefore(remove, i)] == items[i]
  {
    var last := |items| - 1;
    KeptLength(items[..last], remove[..last]);
    KeptPrefix(remove, i, last);
    if i < last {
      KeptAt(items[..last], remove[..last], i);
    }
  }

  /** Every item of the result was kept from somewhere. */
  lemma {:induction false} KeptFrom(items: seq<Item>, remove: seq<bool>, j: nat) returns (i: nat)
    requires |remove| == |items| && j < |Kept(items, remove)|
    ensures i < |items| && !remove[i] && KeptBefore(remove, i) == j && Kept(items, remove)[j] == items[i]
  {
    var last := |items| - 1;
    KeptLength(items[..last], remove[..last]);
    if j < |Kept(items[..last], remove[..last])| {
      i := KeptFrom(items[..last], remove[..last], j);
    } else {
      i := last;
    }
    KeptPrefix(remove, i, last);
  }

  lemma KeptUnique(p: Program)
    requires LabelsKept(p)
    ensures UniqueLabels(Compacted(p).items)
  {
    var q := Compacted(p);
    forall i, j | 0 <= i < j < |q.items| && q.items[i].Label? && q.items[j].Label?
      ensures q.items[i].name != q.items[j].name
    {
      var i' := KeptFrom(p.items, p.remove, i);
      var j' := KeptFrom(p.items, p.remove, j);
      if j' <= i' {
        KeptMonotone(p.remove, j', i');
      }
    }
  }

  /** Labels keep their names and move with their items. */
  lemma LabelsMove(p: Program)
    requires LabelsKept(p)
    ensures LabelMap(Compacted(p).items) == RenameLabels(KeptMap(p.remove), LabelMap(p.items))
  {
    var q, k, m := Compacted(p), KeptMap(p.remove), LabelMap(p.items);
    var m' := LabelMap(q.items);
    KeptUnique(p);
    forall name | name in m
      ensures name in m' && m'[name] == k[m[name]]
    {
      KeptAt(p.items, p.remove, m[name]);
      LabelIsWhereItStands(q.items, k[m[name]]);
    }
    forall name | name in m'
      ensures name in m
    {
      var i := KeptFrom(p.items, p.remove, m'[name]);
      LabelIsWhereItStands(p.items, i);
    }
  }

  predicate AtMost(i: nat, n: nat) { i <= n }

  ghost function Indices(n: nat): set<nat> {
    set i: nat | i <= n && AtMost(i, n)
  }

  ghost predicate Related(p: Program, s: State, s': State) {
    && p.Valid() && s.pc <= |p.items| && CodesIn(s, Indices(|p.items|))
    && s' == Rename(KeptMap(p.remove), s)
  }

  lemma CompactSimulation(p: Program)
    requires LabelsKept(p)
    ensures StepSimulation(p, Compacted(p), (a, b) => Related(p, a, b))
  {
    var rel := (a, b) => Related(p, a, b);
    forall a, b | rel(a, b) && Step(p, a).Some?
      ensures Follows(Compacted(p), b, Step(p, a).value, rel)
    {
      if a.halted || p.remove[a.pc] {
        hide Execute;
        FollowsAtOnce(Compacted(p), b, Step(p, a).value, rel);
      } else {
        KeptStep(p, a, b);
        FollowsInOneStep(Compacted(p), b, Step(p, a).value, rel);
      }
    }
  }

  lemma KeptStep(p: Program, s: State, s': State)
    requires LabelsKept(p) && Related(p, s, s') && !s.halted && Step(p, s).Some?
    requires !p.remove[s.pc]
    ensures Step(Compacted(p), s').Some? && Related(p, Step(p, s).value, Step(Compacted(p), s').value)
  {
    hide Execute;
    KeptAt(p.items, p.remove, s.pc);
    if p.items[s.pc].Instr? {
      var k, ins, t := KeptMap(p.remove), p.items[s.pc].ins, Step(p, s).value;
      LabelsMove(p);
      ExecuteKeepsCodes(p.Environment(), ins, s, t, Indices(|p.items|));
      ExecuteControl(p.Environment(), ins, s, t);
      ExecuteRenamed(p.Environment(), ins, s, t, k);
    }
  }
}
