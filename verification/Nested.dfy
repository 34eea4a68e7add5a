/** Eight rounds are not always enough: every round takes off only the innermost of nested PUSH/POP
    pairs. Exactly when the cap stops the optimizer too early, for every section of PUSH and POP. */
module NestedPairs {
  import opened Words
  import opened Isa
  import opened Ir
  import opened Passes
  import opened Brackets
  import opened Accounting
  import opened ControlFlowGraph
  import opened Optimizer

  function StackItem(x: Bracket): Item {
    Instr(IrInstruction(Instruction(if x.push then PUSH else POP, x.reg, 0, 0), None))
  }

  /** The section with these pushes and pops. */
  function Section(w: Word): (items: seq<Item>)
    ensures |items| == |w|
  {
    seq(|w|, i requires 0 <= i < |w| => StackItem(w[i]))
  }

  /** The marks of all adjacent pairs. */
  function PairMarks(w: Word): (r: seq<bool>)
    ensures |r| == |w|
  {
    seq(|w|, i => Pair(w, i) || Pair(w, i - 1))
  }

  lemma {:induction false} StackReachable(w: Word, i: nat)
    requires i <= |w|
    ensures Reachable(Section(w), i)
  {
    if i > 0 {
      StackReachable(w, i - 1);
    }
  }

  lemma PairsStart(w: Word, i: nat)
    requires i < |w|
    ensures PairStart(Section(w), NoMarks(|w|), i) <==> Pair(w, i)
  {
    if i > 0 && Pair(w, i) {
      assert !IsOp(Section(w), i, POP);
    }
  }

  lemma StackPeephole(w: Word)
    requires Alike(w)
    ensures MarkUnreachable(Section(w)) == NoMarks(|w|)
    ensures PeepholeItems(Section(w), NoMarks(|w|)) == Section(w)
    ensures PeepholeMarks(Section(w), NoMarks(|w|)) == PairMarks(w)
  {
    hide PairStart, Reachable, Alike;
    var items, none := Section(w), NoMarks(|w|);
    forall i | 0 <= i < |w|
      ensures MarkUnreachable(items)[i] == none[i]
      ensures PeepholeItems(items, none)[i] == items[i] && PeepholeMarks(items, none)[i] == PairMarks(w)[i]
    {
      StackReachable(w, i);
      PairsStart(w, i);
      if Pair(w, i) {
        PairAlike(w, i);
      }
      if i > 0 {
        PairsStart(w, i - 1);
      }
    }
  }

  lemma StackRest(w: Word, r: seq<bool>)
    requires |r| == |w|
    ensures JumpMarks(Section(w), r) == r
    ensures FoldItems(Section(w), r) == Section(w)
    ensures DeadStoreMarks(Section(w), IdentityMarks(Section(w), r)) == r
  {
    hide FlagsNeeded, ConstantsAt, LabelFollows, Overwritten;
    var items := Section(w);
    forall i | 0 <= i < |w|
      ensures JumpMarks(items, r)[i] == r[i] && FoldItems(items, r)[i] == items[i] && IdentityMarks(items, r)[i] == r[i]
    {
      assert FoldItems(items, r)[i] == FoldItem(items, r, i);
    }
    assert IdentityMarks(items, r) == r;
  }

  lemma SectionPrefix(w: Word, k: nat)
    requires k <= |w|
    ensures Section(w)[..k] == Section(w[..k])
    ensures k == |w| ==> Section(w)[..k] == Section(w) && PairMarks(w)[..k] == PairMarks(w)
  {
  }

  lemma SectionSnoc(v: Word, x: Bracket)
    ensures Section(v + [x]) == Section(v) + [StackItem(x)]
  {
  }

  /** What is kept is the reduced word. */
  lemma {:induction false} StackKept(w: Word)
    ensures Kept(Section(w), PairMarks(w)) == Section(Reduce(w))
  {
    hide Kept, Reduce, Section, PairMarks;
    var n := |w|;
    if w == [] {
      NothingKept();
    } else {
      ReduceLast(w);
      SectionPrefix(w, n);
      KeptSnoc(Section(w), PairMarks(w), n - 1);
      if Pair(w, n - 2) {
        StackKept(w[..n - 2]);
        MarksOfPair(w);
        SectionPrefix(w, n - 2);
        KeptSnoc(Section(w), PairMarks(w), n - 2);
      } else {
        StackKept(w[..n - 1]);
        MarksOfLast(w);
        SectionPrefix(w, n - 1);
        SectionSnoc(Reduce(w[..n - 1]), w[n - 1]);
      }
    }
  }

  lemma MarksOfLast(w: Word)
    requires w != [] && !Pair(w, |w| - 2)
    ensures !PairMarks(w)[|w| - 1] && PairMarks(w)[..|w| - 1] == PairMarks(w[..|w| - 1])
    ensures Section(w)[|w| - 1] == StackItem(w[|w| - 1])
  {
  }

  lemma MarksOfPair(w: Word)
    requires Pair(w, |w| - 2)
    ensures PairMarks(w)[|w| - 1] && PairMarks(w)[|w| - 2]
    ensures PairMarks(w)[..|w| - 2] == PairMarks(w[..|w| - 2])
  {
  }

  lemma NothingKept()
    ensures Kept(Section([]), PairMarks([])) == Section(Reduce([]))
  {
  }

  lemma KeptSnoc(items: seq<Item>, r: seq<bool>, j: nat)
    requires |r| == |items| && j < |items|
    ensures Kept(items[..j + 1], r[..j + 1]) == if r[j] then Kept(items[..j], r[..j]) else Kept(items[..j], r[..j]) + [items[j]]
  {
    assert items[..j + 1][..j] == items[..j] && r[..j + 1][..j] == r[..j];
    var before := Kept(items[..j], r[..j]);
    assert before + [] == before;
  }

  /** One round takes off exactly the adjacent pairs. */
  lemma StackRound(w: Word)
    requires Alike(w)
    ensures Pass(Section(w)) == Section(Reduce(w))
  {
    hide PeepholeItems, PeepholeMarks, JumpMarks, FoldItems, IdentityMarks, DeadStoreMarks, MarkUnreachable, Kept, Alike, Section,
         PairMarks, Reduce;
    StackPeephole(w);
    StackRest(w, PairMarks(w));
    StackKept(w);
  }

  lemma {:induction false} StackRounds(w: Word, rounds: nat)
    requires Alike(w)
    ensures Optimized(Section(w), rounds) == Section(Rounds(w, rounds)) && Alike(Rounds(w, rounds))
    decreases rounds
  {
    hide Pass, Alike, Reduce, Section;
    if rounds > 0 {
      StackRound(w);
      ReduceAlike(w);
      StackRounds(Reduce(w), rounds - 1);
    }
  }

  lemma SectionInjective(v: Word, w: Word)
    requires Section(v) == Section(w)
    ensures v == w
  {
    forall i | 0 <= i < |w|
      ensures v[i] == w[i]
    {
      assert Section(v)[i] == StackItem(v[i]) && Section(w)[i] == StackItem(w[i]);
    }
  }

  /** For a section of PUSH and POP in any order, matching ones naming the same register, some number of
      rounds reaches a fixed point exactly when no stretch of it nests deeper. */
  lemma RoundsReachFixedPointIff(w: Word, rounds: nat)
    requires Alike(w)
    ensures Pass(Optimized(Section(w), rounds)) == Optimized(Section(w), rounds) <==> !NestsTo(w, rounds + 1)
  {
    hide Pass, Alike, Reduce, Section, NestsTo;
    StackRounds(w, rounds);
    StackRound(Rounds(w, rounds));
    RoundsReduceIff(w, rounds);
    if Pass(Optimized(Section(w), rounds)) == Optimized(Section(w), rounds) {
      SectionInjective(Reduce(Rounds(w, rounds)), Rounds(w, rounds));
    }
  }

  // ----- the cap -----

  /** n pushes of R0 followed by n pops into R0. */
  function Nested(n: nat): Word {
    seq(n, _ => Bracket(true, 0)) + seq(n, _ => Bracket(false, 0))
  }

  lemma {:induction false} NestedHeight(n: nat, k: nat)
    requires k <= 2 * n
    ensures Height(Nested(n)[..k]) == if k <= n then k else 2 * n - k
    ensures Low(Nested(n)[..k]) == 0 && High(Nested(n)[..k]) == if k <= n then k else n
  {
    var w := Nested(n);
    if k == 0 {
      Flat();
      assert w[..0] == [];
    } else {
      NestedHeight(n, k - 1);
      assert w[..k] == w[..k - 1] + [w[k - 1]];
      Brackets.Snoc(w[..k - 1], w[k - 1]);
    }
  }

  lemma NestedStretch(n: nat, d: nat)
    ensures NestsTo(Nested(n), d) <==> d <= n
  {
    hide Height, Low, High;
    var w := Nested(n);
    if d <= n {
      NestedHeight(n, 2 * n);
      assert w[..2 * n] == w[0..2 * n] == w;
      assert Stretch(w, 0, 2 * n, d);
    }
    if i, j :| 0 <= i <= j <= |w| && Stretch(w, i, j, d) {
      DepthNeedsLength(w[i..j]);
    }
  }

  /** The eight rounds of the source reach a fixed point on n nested pairs exactly when n is at most eight. */
  lemma CapReachesFixedPointIff(n: nat)
    ensures Pass(Optimized(Section(Nested(n)), MAX_ITERATIONS)) == Optimized(Section(Nested(n)), MAX_ITERATIONS) <==> n <= 8
  {
    hide Pass, Section, NestsTo;
    assert Alike(Nested(n));
    RoundsReachFixedPointIff(Nested(n), MAX_ITERATIONS);
    NestedStretch(n, MAX_ITERATIONS + 1);
  }

  /** The eight rounds are enough for every section of weight at most eight, whatever is in it. */
  lemma SmallSectionsConverge(items: seq<Item>)
    requires UniqueLabels(items) && Weight(items) <= 8
    ensures Pass(Optimized(items, MAX_ITERATIONS)) == Optimized(items, MAX_ITERATIONS)
  {
    hide Pass;
    var n := Weight(items);
    FixedPointReached(items);
    RoundsAdd(items, n, MAX_ITERATIONS - n);
    FixedPointStays(Optimized(items, n), MAX_ITERATIONS - n);
  }
}
