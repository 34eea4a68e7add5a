/** Words of pushes and pops: what taking off every adjacent push and pop does to the nesting. */
module Brackets {
  import opened Isa

  datatype Bracket = Bracket(push: bool, reg: Reg)

  type Word = seq<Bracket>

  /** A push directly in front of a pop. */
  predicate Pair(w: Word, i: int) {
    0 <= i && i + 1 < |w| && w[i].push && !w[i + 1].push
  }

  /** All adjacent pairs taken off at once. */
  function Reduce(w: Word): Word {
    if w == [] then []
    else if Pair(w, |w| - 2) then Reduce(w[..|w| - 2])
    else Reduce(w[..|w| - 1]) + [w[|w| - 1]]
  }

  // ----- nesting -----

  /** Pushes less pops, and the least and the greatest such difference over all prefixes. */
  function Height(w: Word): int {
    if w == [] then 0 else Height(w[..|w| - 1]) + (if w[|w| - 1].push then 1 else -1)
  }

  function Low(w: Word): (l: int)
    ensures l <= 0 && l <= Height(w)
  {
    if w == [] then 0 else if Height(w) < Low(w[..|w| - 1]) then Height(w) else Low(w[..|w| - 1])
  }

  function High(w: Word): (h: int)
    ensures h >= 0 && h >= Height(w)
  {
    if w == [] then 0 else if Height(w) > High(w[..|w| - 1]) then Height(w) else High(w[..|w| - 1])
  }

  /** Every pop has its push and every push its pop. */
  predicate Balanced(w: Word) { Height(w) == 0 && Low(w) == 0 }

  /** Some balanced stretch of the word nests d deep. */
  ghost predicate NestsTo(w: Word, d: nat) {
    exists i, j :: 0 <= i <= j <= |w| && Stretch(w, i, j, d)
  }

  ghost predicate Stretch(w: Word, i: nat, j: nat, d: nat)
    requires i <= j <= |w|
  {
    Balanced(w[i..j]) && High(w[i..j]) >= d
  }

  /** A push and a pop with a balanced stretch between them name the same register. */
  ghost predicate Alike(w: Word) {
    forall i, j :: 0 <= i < j < |w| && w[i].push && !w[j].push && Balanced(w[i + 1..j]) ==> w[i].reg == w[j].reg
  }

  // ----- what reducing does to the height -----

  lemma Flat()
    ensures Height([]) == 0 == High([]) && Reduce([]) == []
  {
  }

  lemma ReduceLast(w: Word)
    requires w != []
    ensures Reduce(w) == if Pair(w, |w| - 2) then Reduce(w[..|w| - 2]) else Reduce(w[..|w| - 1]) + [w[|w| - 1]]
  {
  }

  lemma {:induction false} ReduceKeeps(w: Word)
    ensures Height(Reduce(w)) == Height(w) && Low(Reduce(w)) == Low(w) && High(Reduce(w)) <= High(w)
  {
    hide Height, Low, High, Reduce;
    if w == [] {
      Flat();
    } else {
      ReduceLast(w);
      var n := |w|;
      if Pair(w, n - 2) {
        TwoLast(w);
        ReduceKeeps(w[..n - 2]);
      } else {
        var v, x := w[..n - 1], w[n - 1];
        ReduceKeeps(v);
        assert w == v + [x];
        Snoc(v, x);
        Snoc(Reduce(v), x);
      }
    }
  }

  lemma {:induction false} ReduceShrinks(w: Word)
    ensures |Reduce(w)| <= |w| && (|Reduce(w)| == |w| ==> Reduce(w) == w)
  {
    if w != [] {
      hide Reduce;
      ReduceLast(w);
      var n := |w|;
      if Pair(w, n - 2) {
        ReduceShrinks(w[..n - 2]);
      } else {
        ReduceShrinks(w[..n - 1]);
        assert w == w[..n - 1] + [w[n - 1]];
      }
    }
  }

  lemma Snoc(v: Word, x: Bracket)
    ensures (v + [x])[..|v|] == v
    ensures Height(v + [x]) == Height(v) + (if x.push then 1 else -1)
    ensures Low(v + [x]) == if Height(v + [x]) < Low(v) then Height(v + [x]) else Low(v)
    ensures High(v + [x]) == if Height(v + [x]) > High(v) then Height(v + [x]) else High(v)
  {
    assert (v + [x])[..|v|] == v;
  }

  lemma TwoLast(w: Word)
    requires Pair(w, |w| - 2)
    ensures var v := w[..|w| - 2];
      && Height(w) == Height(v) && Low(w) == Low(v)
      && High(w) == if Height(v) + 1 > High(v) then Height(v) + 1 else High(v)
  {
    var v, u := w[..|w| - 2], w[..|w| - 1];
    assert u == v + [w[|w| - 2]] && w == u + [w[|w| - 1]];
    Snoc(v, w[|w| - 2]);
    Snoc(u, w[|w| - 1]);
  }

  /** A word that stands at its greatest height is empty or ends with a push. */
  lemma AtTheTop(v: Word)
    requires v != [] && High(v) == Height(v)
    ensures v[|v| - 1].push
  {
    var u := v[..|v| - 1];
    assert v == u + [v[|v| - 1]];
    Snoc(u, v[|v| - 1]);
  }

  /** A peak that is not the end of the word is lowered by one. */
  lemma {:induction false} PeakFalls(w: Word)
    requires High(w) > Height(w) && High(w) > 0
    ensures High(Reduce(w)) == High(w) - 1
  {
    hide Low, Height, High, Reduce;
    Flat();
    ReduceLast(w);
    var n := |w|;
    if Pair(w, n - 2) {
      var v := w[..n - 2];
      TwoLast(w);
      ReduceKeeps(v);
      if High(v) > Height(v) {
        PeakFalls(v);
      }
    } else {
      var v, x := w[..n - 1], w[n - 1];
      assert w == v + [x];
      Snoc(v, x);
      Snoc(Reduce(v), x);
      ReduceKeeps(v);
      if v != [] && High(v) == Height(v) {
        AtTheTop(v);
      }
      PeakFalls(v);
    }
  }

  // ----- stretches -----

  lemma SamePairAtEnd(a: Word, b: Word)
    requires b != [] && !(a != [] && a[|a| - 1].push && !b[0].push)
    ensures Pair(a + b, |a + b| - 2) <==> Pair(b, |b| - 2)
  {
    assert (a + b)[|a + b| - 1] == b[|b| - 1];
    assert |b| >= 2 ==> (a + b)[|a + b| - 2] == b[|b| - 2];
    assert |b| == 1 && a != [] ==> (a + b)[|a + b| - 2] == a[|a| - 1];
  }

  /** Reducing does not look across a place where no pair stands. */
  lemma {:induction false} ReduceSplits(a: Word, b: Word)
    requires !(a != [] && b != [] && a[|a| - 1].push && !b[0].push)
    ensures Reduce(a + b) == Reduce(a) + Reduce(b)
  {
    hide Reduce, Pair;
    if b == [] {
      Flat();
      assert a + b == a && Reduce(a) + [] == Reduce(a);
    } else {
      var n, w := |b|, a + b;
      ReduceLast(w);
      ReduceLast(b);
      SamePairAtEnd(a, b);
      if Pair(b, n - 2) {
        PairInside(b, n - 2);
        var init := b[..n - 2];
        assert w[..|w| - 2] == a + init;
        ReduceSplits(a, init);
      } else {
        var init, last := b[..n - 1], [b[n - 1]];
        assert w[..|w| - 1] == a + init;
        ReduceSplits(a, init);
        assert Reduce(a) + Reduce(init) + last == Reduce(a) + (Reduce(init) + last);
      }
    }
  }

  lemma PairInside(w: Word, i: int)
    requires Pair(w, i)
    ensures 0 <= i && i + 1 < |w| && w[i].push && !w[i + 1].push
  {
  }

  lemma {:induction false} LowBounds(w: Word, k: nat)
    requires k <= |w|
    ensures Low(w) <= Height(w[..k])
    decreases |w|
  {
    if k < |w| {
      LowBounds(w[..|w| - 1], k);
      assert w[..|w| - 1][..k] == w[..k];
    } else {
      assert w[..k] == w;
    }
  }

  /** A balanced word begins with a push and ends with a pop. */
  lemma BalancedEnds(w: Word)
    requires Balanced(w) && w != []
    ensures w[0].push && !w[|w| - 1].push && |w| >= 2
  {
    LowBounds(w, 1);
    LowBounds(w, |w| - 1);
    assert w[..1] == [] + [w[0]];
    Snoc([], w[0]);
  }

  /** A balanced stretch reduces on its own. */
  lemma ReduceAround(w: Word, i: nat, j: nat)
    requires i < j <= |w| && Balanced(w[i..j])
    ensures Reduce(w) == Reduce(w[..i]) + Reduce(w[i..j]) + Reduce(w[j..])
  {
    hide Reduce, Balanced;
    var b := w[i..j];
    BalancedEnds(b);
    ReduceSplits(w[..i], b);
    ReduceSplits(w[..i] + b, w[j..]);
    assert w == w[..i] + b + w[j..];
  }

  // ----- where the letters of the reduced word come from -----

  /** The letter is no half of a pair. */
  ghost predicate Survives(w: Word, m: nat) { m < |w| && !Pair(w, m) && !Pair(w, m - 1) }

  lemma {:induction false} Origin(w: Word, k: nat) returns (m: nat)
    requires k < |Reduce(w)|
    ensures Survives(w, m) && w[m] == Reduce(w)[k]
    ensures Reduce(w[..m]) == Reduce(w)[..k] && Reduce(w[m + 1..]) == Reduce(w)[k + 1..]
  {
    hide Reduce;
    Flat();
    ReduceLast(w);
    var n := |w|;
    if Pair(w, n - 2) {
      var v := w[..n - 2];
      m := Origin(v, k);
      TailOfPair(w, m);
      assert v[..m] == w[..m];
    } else {
      var v := w[..n - 1];
      if k == |Reduce(w)| - 1 {
        m := n - 1;
        assert Reduce(w)[..k] == Reduce(v);
        assert w[m + 1..] == [] && Reduce(w)[k + 1..] == [];
      } else {
        m := Origin(v, k);
        TailOfLast(w, m);
        assert v[..m] == w[..m];
        assert Reduce(w)[k + 1..] == Reduce(v)[k + 1..] + [w[n - 1]];
        assert Reduce(w)[..k] == Reduce(v)[..k];
      }
    }
  }

  lemma TailOfPair(w: Word, m: nat)
    requires Pair(w, |w| - 2) && m < |w| - 2
    ensures Reduce(w[m + 1..]) == Reduce(w[..|w| - 2][m + 1..])
  {
    hide Reduce;
    var t := w[m + 1..];
    ReduceLast(t);
    assert t[..|t| - 2] == w[..|w| - 2][m + 1..];
  }

  lemma TailOfLast(w: Word, m: nat)
    requires !Pair(w, |w| - 2) && m < |w| - 1
    ensures Reduce(w[m + 1..]) == Reduce(w[..|w| - 1][m + 1..]) + [w[|w| - 1]]
  {
    hide Reduce;
    var t := w[m + 1..];
    ReduceLast(t);
    assert t[..|t| - 1] == w[..|w| - 1][m + 1..];
  }

  /** A push and a pop of the reduced word, and the stretch of the word that they enclose. */
  lemma Lift(w: Word, i: nat, j: nat) returns (i': nat, j': nat)
    requires i < j < |Reduce(w)| && Reduce(w)[i].push && !Reduce(w)[j].push
    ensures i' < j' < |w| && w[i'] == Reduce(w)[i] && w[j'] == Reduce(w)[j]
    ensures Reduce(w[i' + 1..j']) == Reduce(w)[i + 1..j] && Reduce(w[i'..j' + 1]) == Reduce(w)[i..j + 1]
  {
    hide Reduce;
    i' := Origin(w, i);
    var t := w[i' + 1..];
    var m := Origin(t, j - i - 1);
    j' := i' + 1 + m;
    var x, mid, y := w[i'], t[..m], t[m];
    assert w[i' + 1..j'] == mid && w[i'..j' + 1] == [x] + mid + [y];
    assert Reduce(mid) == Reduce(w)[i + 1..][..j - i - 1] == Reduce(w)[i + 1..j];
    assert mid != [] ==> mid[0] == w[i' + 1] && mid[m - 1] == t[m - 1];
    assert w[i' + 1] == t[0];
    Single(x);
    Single(y);
    ReduceSplits([x], mid);
    ReduceSplits([x] + mid, [y]);
    assert Reduce(w)[i..j + 1] == [x] + Reduce(w)[i + 1..j] + [y];
  }

  lemma Single(x: Bracket)
    ensures Reduce([x]) == [x]
  {
    assert Reduce([]) == [] && [x][..0] == [];
  }

  // ----- nesting falls by one -----

  lemma SameBalance(v: Word)
    ensures Balanced(Reduce(v)) <==> Balanced(v)
  {
    ReduceKeeps(v);
  }

  lemma NestsDown(w: Word, d: nat)
    requires d > 0 && NestsTo(w, d + 1)
    ensures NestsTo(Reduce(w), d)
  {
    hide Reduce, Balanced, High, Height, Low;
    var i, j :| 0 <= i <= j <= |w| && Stretch(w, i, j, d + 1);
    var b := w[i..j];
    DeepIsLong(b);
    ReduceAround(w, i, j);
    SameBalance(b);
    PeakFalls(b);
    var at := |Reduce(w[..i])|;
    assert Reduce(w)[at..at + |Reduce(b)|] == Reduce(b);
    assert Stretch(Reduce(w), at, at + |Reduce(b)|, d);
  }

  lemma DeepIsLong(b: Word)
    requires Balanced(b) && High(b) > 0
    ensures b != [] && Height(b) == 0
  {
  }

  lemma NestsUp(w: Word, d: nat)
    requires d > 0 && NestsTo(Reduce(w), d)
    ensures NestsTo(w, d + 1)
  {
    hide Reduce, Balanced, High, Height, Low;
    var i, j :| 0 <= i <= j <= |Reduce(w)| && Stretch(Reduce(w), i, j, d);
    DeepIsLong(Reduce(w)[i..j]);
    BalancedEnds(Reduce(w)[i..j]);
    var i', j' := Lift(w, i, j - 1);
    var b := w[i'..j' + 1];
    SameBalance(b);
    ReduceKeeps(b);
    DeepIsLong(b);
    PeakFalls(b);
    assert Stretch(w, i', j' + 1, d + 1);
  }

  lemma {:induction false} SomePair(w: Word) returns (i: nat)
    requires Reduce(w) != w
    ensures Pair(w, i)
  {
    var n := |w|;
    if Pair(w, n - 2) {
      i := n - 2;
    } else {
      assert w == w[..n - 1] + [w[n - 1]];
      i := SomePair(w[..n - 1]);
    }
  }

  /** A word is reduced exactly when nothing is nested in it at all. */
  lemma ReducedIff(w: Word)
    ensures Reduce(w) == w <==> !NestsTo(w, 1)
  {
    hide Reduce, Balanced, High, NestsTo;
    if NestsTo(w, 1) {
      NestedShrinks(w);
    }
    if Reduce(w) != w {
      var i := SomePair(w);
      PairStretch(w, i);
    }
  }

  lemma NestedShrinks(w: Word)
    requires NestsTo(w, 1)
    ensures |Reduce(w)| < |w|
  {
    hide Reduce, Balanced, High;
    var i, j :| 0 <= i <= j <= |w| && Stretch(w, i, j, 1);
    DeepIsLong(w[i..j]);
    ReduceAround(w, i, j);
    PeakFalls(w[i..j]);
    ReduceShrinks(w[i..j]);
    ReduceShrinks(w[..i]);
    ReduceShrinks(w[j..]);
  }

  lemma PairStretch(w: Word, i: nat)
    requires Pair(w, i)
    ensures NestsTo(w, 1)
  {
    hide Balanced, High;
    PairNests(w[i], w[i + 1]);
    assert w[i..i + 2] == [w[i], w[i + 1]];
    assert Stretch(w, i, i + 2, 1);
  }

  lemma PairNests(x: Bracket, y: Bracket)
    requires x.push && !y.push
    ensures Balanced([x, y]) && High([x, y]) == 1
  {
    assert [] + [x] == [x] && [x] + [y] == [x, y];
    Snoc([], x);
    Snoc([x], y);
  }

  function Rounds(w: Word, k: nat): Word
    decreases k
  {
    if k == 0 then w else Rounds(Reduce(w), k - 1)
  }

  /** After k rounds nothing is left to take off exactly when no stretch nests deeper than k. */
  lemma {:induction false} RoundsReduceIff(w: Word, k: nat)
    ensures Reduce(Rounds(w, k)) == Rounds(w, k) <==> !NestsTo(w, k + 1)
    decreases k
  {
    hide Reduce, NestsTo;
    if k == 0 {
      ReducedIff(w);
    } else {
      RoundsReduceIff(Reduce(w), k - 1);
      if NestsTo(w, k + 1) {
        NestsDown(w, k);
      }
      if NestsTo(Reduce(w), k) {
        NestsUp(w, k);
      }
    }
  }

  /** Matching letters of the reduced word match in the word. */
  lemma ReduceAlike(w: Word)
    requires Alike(w)
    ensures Alike(Reduce(w))
  {
    hide Reduce, Balanced;
    var r := Reduce(w);
    forall i: nat, j: nat | i < j < |r| && r[i].push && !r[j].push && Balanced(r[i + 1..j])
      ensures r[i].reg == r[j].reg
    {
      var i', j' := Lift(w, i, j);
      SameBalance(w[i' + 1..j']);
    }
  }

  lemma PairAlike(w: Word, i: nat)
    requires Alike(w) && Pair(w, i)
    ensures w[i].reg == w[i + 1].reg
  {
    assert w[i + 1..i + 1] == [];
  }

  /** A stretch that nests d deep is at least 2 d long. */
  lemma {:induction false} DepthNeedsLength(w: Word)
    ensures 2 * High(w) - Height(w) <= |w|
  {
    if w != [] {
      DepthNeedsLength(w[..|w| - 1]);
    }
  }
}
