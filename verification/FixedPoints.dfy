/** Where the optimizer stops: a round leaves a section alone exactly when there is nothing left in it
    for any of the six passes to find. */
module FixedPoints {
  import opened Words
  import opened Ir
  import opened Passes
  import opened Accounting
  import opened Optimizer
  import opened PassMeaning
  import opened SettledSections

  ghost predicate NothingLeft(items: seq<Item>) {
    var none := NoMarks(|items|);
    forall i: nat :: i < |items| ==>
      && !(items[i].Instr? && AfterStop(items, i))
      && !PairAt(items, none, i)
      && !JumpOverLabels(items, none, i)
      && (forall v: u64 :: !FoldsTo(items, none, i, v))
      && !DoesNothing(items, i)
      && !DeadStoreAt(items, none, i)
  }

  lemma NothingDone(items: seq<Item>)
    requires NothingLeft(items)
    ensures PassMarked(items) == (items, NoMarks(|items|))
  {
    hide MarkUnreachable, PeepholeItems, PeepholeMarks, JumpMarks, FoldItems, IdentityMarks, DeadStoreMarks,
         AfterStop, PairAt, JumpOverLabels, FoldsTo, DoesNothing, DeadStoreAt;
    var none := NoMarks(|items|);
    forall i: nat | i < |items|
      ensures MarkUnreachable(items)[i] == none[i]
      ensures PeepholeItems(items, none)[i] == items[i] && PeepholeMarks(items, none)[i] == none[i]
      ensures JumpMarks(items, none)[i] == none[i]
      ensures FoldItems(items, none)[i] == items[i]
      ensures IdentityMarks(items, none)[i] == none[i] && DeadStoreMarks(items, none)[i] == none[i]
    {
      ItemLeftAlone(items, i);
    }
    assert MarkUnreachable(items) == none;
    assert PeepholeItems(items, none) == items && PeepholeMarks(items, none) == none;
    assert JumpMarks(items, none) == none && FoldItems(items, none) == items;
    assert IdentityMarks(items, none) == none && DeadStoreMarks(items, none) == none;
  }

  lemma ItemLeftAlone(items: seq<Item>, i: nat)
    requires NothingLeft(items) && i < |items|
    ensures var none := NoMarks(|items|);
            && MarkUnreachable(items)[i] == none[i]
            && PeepholeItems(items, none)[i] == items[i] && PeepholeMarks(items, none)[i] == none[i]
            && JumpMarks(items, none)[i] == none[i]
            && FoldItems(items, none)[i] == items[i]
            && IdentityMarks(items, none)[i] == none[i] && DeadStoreMarks(items, none)[i] == none[i]
  {
    hide MarkUnreachable, PeepholeItems, PeepholeMarks, JumpMarks, FoldItems, IdentityMarks, DeadStoreMarks,
         AfterStop, JumpOverLabels, FoldsTo, DoesNothing, DeadStoreAt;
    var none := NoMarks(|items|);
    UnreachableMeans(items, i);
    if i > 0 {
      assert !PairAt(items, none, i - 1);
    }
    PeepholeMeans(items, none, i);
    JumpMeans(items, none, i);
    FoldMeans(items, none, i);
    IdentityMeans(items, none, i);
    DeadStoreMeans(items, none, i);
  }

  /** Marks are never taken back. */
  lemma MarksStay(items: seq<Item>, i: nat)
    requires i < |items|
    ensures var r0 := MarkUnreachable(items);
            var r1 := PeepholeMarks(items, r0);
            var r2 := JumpMarks(PeepholeItems(items, r0), r1);
            (r0[i] ==> r1[i]) && (r1[i] ==> r2[i]) && (r2[i] ==> PassMarked(items).1[i])
  {
    hide Unreachable, PairStart, SamePair, JumpsToNext, FoldItem, IsDeadStore, IsIdentity;
  }

  /** A round that changes nothing marks nothing at any stage. */
  lemma NoMarksAtAll(items: seq<Item>)
    requires PassMarked(items) == (items, NoMarks(|items|))
    ensures var none := NoMarks(|items|);
            && MarkUnreachable(items) == none
            && PeepholeMarks(items, none) == none && PeepholeItems(items, none) == items
            && JumpMarks(items, none) == none && FoldItems(items, none) == items
            && DeadStoreMarks(items, IdentityMarks(items, none)) == none
  {
    hide MarkUnreachable, PeepholeItems, PeepholeMarks, JumpMarks, FoldItems, IdentityMarks, DeadStoreMarks;
    var none := NoMarks(|items|);
    var r0 := MarkUnreachable(items);
    var r1 := PeepholeMarks(items, r0);
    var r2 := JumpMarks(PeepholeItems(items, r0), r1);
    forall i: nat | i < |items|
      ensures !r0[i] && !r1[i] && !r2[i]
    {
      MarksStay(items, i);
    }
    assert r0 == none && r1 == none && r2 == none;
    forall i: nat | i < |items|
      ensures PeepholeItems(items, none)[i] == items[i]
    {
      NoPairLeft(items, i);
      if i > 0 {
        NoPairLeft(items, i - 1);
      }
      PeepholeMeans(items, none, i);
    }
    assert PeepholeItems(items, none) == items;
  }

  lemma NoPairLeft(items: seq<Item>, i: nat)
    requires PeepholeMarks(items, NoMarks(|items|)) == NoMarks(|items|) && i < |items|
    ensures !PairAt(items, NoMarks(|items|), i)
  {
    hide PeepholeItems, PeepholeMarks;
    PeepholeMeans(items, NoMarks(|items|), i);
  }

  lemma NothingFound(items: seq<Item>)
    requires PassMarked(items) == (items, NoMarks(|items|))
    ensures NothingLeft(items)
  {
    hide MarkUnreachable, PeepholeItems, PeepholeMarks, JumpMarks, FoldItems, IdentityMarks, DeadStoreMarks, PassMarked,
         AfterStop, PairAt, JumpOverLabels, FoldsTo, DoesNothing, DeadStoreAt;
    var none := NoMarks(|items|);
    NoMarksAtAll(items);
    forall i: nat | i < |items|
      ensures !(items[i].Instr? && AfterStop(items, i)) && !PairAt(items, none, i) && !JumpOverLabels(items, none, i)
      ensures forall v: u64 :: !FoldsTo(items, none, i, v)
      ensures !DoesNothing(items, i) && !DeadStoreAt(items, none, i)
    {
      UnreachableMeans(items, i);
      NoPairLeft(items, i);
      JumpMeans(items, none, i);
      NothingFolds(items, i);
      NoStoresLeft(items, i);
    }
  }

  lemma NothingFolds(items: seq<Item>, i: nat)
    requires FoldItems(items, NoMarks(|items|)) == items && i < |items|
    ensures forall v: u64 :: !FoldsTo(items, NoMarks(|items|), i, v)
  {
    hide FoldItems, Yields, SomePath;
    FoldMeans(items, NoMarks(|items|), i);
    forall v: u64
      ensures !FoldsTo(items, NoMarks(|items|), i, v)
    {
    }
  }

  lemma NoStoresLeft(items: seq<Item>, i: nat)
    requires DeadStoreMarks(items, IdentityMarks(items, NoMarks(|items|))) == NoMarks(|items|) && i < |items|
    ensures !DoesNothing(items, i) && !DeadStoreAt(items, NoMarks(|items|), i)
  {
    hide DeadStoreMarks, IdentityMarks, DeadStoreAt, DoesNothing;
    var none := NoMarks(|items|);
    var marks := IdentityMarks(items, none);
    forall k: nat | k < |items|
      ensures !marks[k]
    {
      DeadStoreMeans(items, marks, k);
    }
    assert marks == none;
    IdentityMeans(items, none, i);
    DeadStoreMeans(items, none, i);
  }

  /** A round leaves a section alone exactly when no instruction of it stands behind a HALT, JMP or RET,
      no PUSH is followed by a POP, no jump leads over labels only, no value that is known and fits is
      computed with nobody looking at its FLAGS, nothing is a NOP or a self-move, and no constant or move
      is overwritten before it is read. */
  lemma NothingLeftIff(items: seq<Item>)
    requires UniqueLabels(items)
    ensures Pass(items) == items <==> NothingLeft(items)
  {
    hide PassMarked, NothingLeft, Pass;
    PassWeight(items);
    if NothingLeft(items) {
      NothingDone(items);
    }
    if Pass(items) == items {
      NothingFound(items);
    }
  }

  lemma {:induction false} RoundsKeepUnique(items: seq<Item>, rounds: nat)
    requires UniqueLabels(items)
    ensures UniqueLabels(Optimized(items, rounds))
    decreases rounds
  {
    hide Pass, UniqueLabels;
    if rounds > 0 {
      PassUnique(items);
      RoundsKeepUnique(Pass(items), rounds - 1);
    }
  }

  /** So is every section after as many rounds as it weighs. */
  lemma OptimizedHasNothingLeft(items: seq<Item>, rounds: nat)
    requires UniqueLabels(items) && Weight(items) <= rounds
    ensures NothingLeft(Optimized(items, rounds))
  {
    hide Pass, NothingLeft;
    var n := Weight(items);
    FixedPointReached(items);
    RoundsAdd(items, n, rounds - n);
    FixedPointStays(Optimized(items, n), rounds - n);
    RoundsKeepUnique(items, rounds);
    NothingLeftIff(Optimized(items, rounds));
  }
}
