/** Undefined references and the order of the objects: exactly when the objects of a link resolve, when
    every order of them does, when none does, and when the order makes no difference. */
module LinkOrder {
  import opened Words
  import opened Symbols
  import opened ControlFlowGraph
  import opened AssemblySpec
  import opened Executables
  import opened Relocations
  import opened LinkSpec
  import opened LinkResolution
  import opened TextImage
  import Buildable

  // ----- the check over all objects -----

  /** The symbols of the first n objects, in link order. */
  function AllSymbols(objects: seq<ObjectFile>, n: nat): seq<Symbol>
    requires n <= |objects|
  {
    if n == 0 then [] else AllSymbols(objects, n - 1) + objects[n - 1].symbols
  }

  lemma {:induction false} ChecksPrefix(defs: Definitions, a: seq<Symbol>, b: seq<Symbol>, n: nat)
    requires n <= |a| && a <= b
    ensures CheckReferences(defs, a, n) == CheckReferences(defs, b, n)
  {
    if n > 0 {
      ChecksPrefix(defs, a, b, n - 1);
    }
  }

  lemma {:induction false} ChecksConcat(defs: Definitions, a: seq<Symbol>, b: seq<Symbol>, n: nat)
    requires n <= |b|
    ensures var before := CheckReferences(defs, a, |a|);
      CheckReferences(defs, a + b, |a| + n) == if before.Err? then before else CheckReferences(before.value, b, n)
  {
    hide CheckReference;
    if n == 0 {
      ChecksPrefix(defs, a, a + b, |a|);
    } else {
      ChecksConcat(defs, a, b, n - 1);
      assert (a + b)[|a| + n - 1] == b[n - 1];
    }
  }

  /** Checking object by object is checking all symbols in one sequence. */
  lemma {:induction false} ChecksFlat(defs: Definitions, objects: seq<ObjectFile>, n: nat)
    requires n <= |objects|
    ensures CheckObjects(defs, objects, n) == CheckReferences(defs, AllSymbols(objects, n), |AllSymbols(objects, n)|)
  {
    hide CheckReference;
    if n > 0 {
      ChecksFlat(defs, objects, n - 1);
      ChecksConcat(defs, AllSymbols(objects, n - 1), objects[n - 1].symbols, |objects[n - 1].symbols|);
    }
  }

  /** The check of a whole link succeeds exactly when every undefined reference that is not weak is to a
      name that is defined, or that an undefined weak reference has named before it in link order. */
  lemma LinkChecksIff(defs: Definitions, objects: seq<ObjectFile>, n: nat)
    requires n <= |objects|
    ensures CheckObjects(defs, objects, n).Ok? <==>
      forall k :: 0 <= k < |AllSymbols(objects, n)| ==> !Dangling(defs, AllSymbols(objects, n), k)
  {
    hide CheckReferences, Dangling;
    ChecksFlat(defs, objects, n);
    ChecksIff(defs, AllSymbols(objects, n), |AllSymbols(objects, n)|);
  }

  // ----- object by object -----

  /** The object refers to the name, not weakly, before any weak reference of its own to it. */
  ghost predicate Exposes(symbols: seq<Symbol>, name: string) {
    exists k :: 0 <= k < |symbols| && !symbols[k].defined && !symbols[k].binding.Weak? && symbols[k].name == name
      && !WeaklyNamed(symbols, k, name)
  }

  ghost predicate NamesWeakly(unit: ObjectFile, name: string) {
    WeaklyNamed(unit.symbols, |unit.symbols|, name)
  }

  /** Object i is what makes the check fail: it exposes a name that is neither defined nor named weakly by
      an earlier object. */
  ghost predicate Hangs(defs: Definitions, objects: seq<ObjectFile>, i: nat, name: string) {
    && i < |objects| && name !in defs && Exposes(objects[i].symbols, name)
    && forall j :: 0 <= j < i ==> !NamesWeakly(objects[j], name)
  }

  lemma OneObjectChecks(defs: Definitions, symbols: seq<Symbol>)
    ensures CheckReferences(defs, symbols, |symbols|).Ok? <==> forall name :: name in defs || !Exposes(symbols, name)
  {
    hide CheckReferences, WeaklyNamed;
    ChecksIff(defs, symbols, |symbols|);
    if k :| 0 <= k < |symbols| && Dangling(defs, symbols, k) {
      assert Exposes(symbols, symbols[k].name);
    }
    if name :| name !in defs && Exposes(symbols, name) {
      var k :| 0 <= k < |symbols| && !symbols[k].defined && !symbols[k].binding.Weak? && symbols[k].name == name
        && !WeaklyNamed(symbols, k, name);
      assert Dangling(defs, symbols, k);
    }
  }

  ghost predicate SomeNamesWeakly(objects: seq<ObjectFile>, n: nat, name: string) {
    exists j :: 0 <= j < n && j < |objects| && NamesWeakly(objects[j], name)
  }

  /** The check object by object, and the names that count as defined after it. */
  lemma {:induction false} ObjectsCheckIff(defs: Definitions, objects: seq<ObjectFile>, n: nat)
    requires n <= |objects|
    ensures CheckObjects(defs, objects, n).Ok? <==> forall i, name :: 0 <= i < n ==> !Hangs(defs, objects, i, name)
    ensures CheckObjects(defs, objects, n).Ok? ==>
      forall name :: name in CheckObjects(defs, objects, n).value <==> name in defs || SomeNamesWeakly(objects, n, name)
  {
    hide CheckReferences, NamesWeakly, Exposes;
    if n > 0 {
      ObjectsCheckIff(defs, objects, n - 1);
      var before := CheckObjects(defs, objects, n - 1);
      if before.Ok? {
        ObjectStep(defs, objects, n - 1, before.value);
      } else {
        var i, name :| 0 <= i < n - 1 && Hangs(defs, objects, i, name);
      }
    }
  }

  lemma ObjectStep(defs: Definitions, objects: seq<ObjectFile>, n: nat, before: Definitions)
    requires n < |objects| && forall name :: name in before <==> name in defs || SomeNamesWeakly(objects, n, name)
    ensures CheckReferences(before, objects[n].symbols, |objects[n].symbols|).Ok? <==> forall name :: !Hangs(defs, objects, n, name)
    ensures CheckReferences(before, objects[n].symbols, |objects[n].symbols|).Ok? ==>
      forall name :: name in CheckReferences(before, objects[n].symbols, |objects[n].symbols|).value
        <==> name in defs || SomeNamesWeakly(objects, n + 1, name)
  {
    hide CheckReferences, WeaklyNamed, Exposes, Dangling;
    OneObjectChecks(before, objects[n].symbols);
    ChecksIff(before, objects[n].symbols, |objects[n].symbols|);
    forall name
      ensures Hangs(defs, objects, n, name) <==> name !in before && Exposes(objects[n].symbols, name)
      ensures SomeNamesWeakly(objects, n + 1, name) <==> SomeNamesWeakly(objects, n, name) || NamesWeakly(objects[n], name)
    {
    }
  }

  // ----- orders -----

  /** The indices below n, each once. */
  ghost predicate IsOrder(p: seq<nat>, n: nat) {
    |p| == n && Distinct(p, n)
  }

  ghost predicate Distinct(p: seq<nat>, n: nat) {
    (forall i :: 0 <= i < |p| ==> p[i] < n) && forall i, j :: 0 <= i < j < |p| ==> p[i] != p[j]
  }

  function Reordered(objects: seq<ObjectFile>, p: seq<nat>): (r: seq<ObjectFile>)
    requires forall i :: 0 <= i < |p| ==> p[i] < |objects|
    ensures |r| == |p|
  {
    seq(|p|, i requires 0 <= i < |p| => objects[p[i]])
  }

  ghost function Below(n: nat): (s: set<nat>)
    ensures |s| == n && forall i: nat :: i in s <==> i < n
  {
    if n == 0 then {} else Below(n - 1) + {n - 1}
  }

  ghost function Members(p: seq<nat>): (s: set<nat>)
    ensures forall i: nat :: i in s <==> i in p
  {
    set i | i in p
  }

  lemma {:induction false} MembersCount(p: seq<nat>, n: nat)
    requires Distinct(p, n)
    ensures |Members(p)| == |p|
  {
    if p == [] {
      assert Members(p) == {};
    } else {
      var last := |p| - 1;
      MembersCount(p[..last], n);
      assert Members(p) == Members(p[..last]) + {p[last]};
    }
  }

  lemma {:induction false} SmallerSet(a: set<nat>, b: set<nat>)
    requires a <= b
    ensures |a| <= |b| && (|a| == |b| ==> a == b)
  {
    if a != {} {
      var x :| x in a;
      SmallerSet(a - {x}, b - {x});
    }
  }

  /** Distinct indices are at most n, and n of them are all. */
  lemma DistinctCovers(p: seq<nat>, n: nat)
    requires Distinct(p, n)
    ensures |p| <= n
    ensures |p| == n ==> forall i: nat :: i < n ==> i in p
  {
    MembersCount(p, n);
    SmallerSet(Members(p), Below(n));
  }

  lemma SomeLeft(p: seq<nat>, n: nat)
    requires Distinct(p, n) && |p| < n
    ensures Below(n) - Members(p) != {}
  {
    MembersCount(p, n);
    if Below(n) <= Members(p) {
      SmallerSet(Below(n), Members(p));
    }
  }

  /** A name no definition has is exposed by object i, with no weak reference outside the set b. */
  ghost predicate BlockedAt(defs: Definitions, objects: seq<ObjectFile>, b: set<nat>, i: nat) {
    && i < |objects|
    && exists name :: name !in defs && Exposes(objects[i].symbols, name)
         && forall j :: 0 <= j < |objects| && j !in b ==> !NamesWeakly(objects[j], name)
  }

  /** Some objects, each of which exposes an undefined name that only they refer to weakly. */
  ghost predicate Blocked(defs: Definitions, objects: seq<ObjectFile>, b: set<nat>) {
    b != {} && forall i :: i in b ==> BlockedAt(defs, objects, b, i)
  }

  /** No object exposes a name without a definition. */
  ghost predicate NothingExposed(defs: Definitions, objects: seq<ObjectFile>) {
    forall i, name :: 0 <= i < |objects| && name !in defs ==> !Exposes(objects[i].symbols, name)
  }

  ghost predicate OrderChecks(defs: Definitions, objects: seq<ObjectFile>, p: seq<nat>)
    requires Distinct(p, |objects|)
  {
    CheckObjects(defs, Reordered(objects, p), |p|).Ok?
  }

  ghost predicate AnOrderChecks(defs: Definitions, objects: seq<ObjectFile>, p: seq<nat>) {
    IsOrder(p, |objects|) && OrderChecks(defs, objects, p)
  }

  function InFront(i: nat, n: nat): (p: seq<nat>)
    requires i < n
  {
    seq(n, k requires 0 <= k < n => if k == 0 then i else if k == i then 0 else k)
  }

  /** Every order of the objects passes the check exactly when nothing is exposed. */
  lemma EveryOrderIff(defs: Definitions, objects: seq<ObjectFile>)
    ensures (forall p :: IsOrder(p, |objects|) ==> OrderChecks(defs, objects, p)) <==> NothingExposed(defs, objects)
  {
    hide CheckObjects, Exposes, NamesWeakly;
    forall p | IsOrder(p, |objects|) && NothingExposed(defs, objects)
      ensures OrderChecks(defs, objects, p)
    {
      ObjectsCheckIff(defs, Reordered(objects, p), |p|);
    }
    if i: nat, name :| i < |objects| && name !in defs && Exposes(objects[i].symbols, name) {
      var p := InFront(i, |objects|);
      assert IsOrder(p, |objects|);
      ObjectsCheckIff(defs, Reordered(objects, p), |p|);
      assert Hangs(defs, Reordered(objects, p), 0, name);
      assert !OrderChecks(defs, objects, p);
    }
  }

  /** The first object of a blocked set fails, whatever the order. */
  lemma BlockedFails(defs: Definitions, objects: seq<ObjectFile>, b: set<nat>, p: seq<nat>)
    requires Blocked(defs, objects, b) && IsOrder(p, |objects|)
    ensures !OrderChecks(defs, objects, p)
  {
    hide CheckObjects, Exposes, NamesWeakly;
    DistinctCovers(p, |objects|);
    var i :| i in b;
    assert BlockedAt(defs, objects, b, i);
    assert i in p;
    var k0 :| 0 <= k0 < |p| && p[k0] == i;
    var k := FirstIn(p, b, k0);
    assert BlockedAt(defs, objects, b, p[k]);
    var name :| name !in defs && Exposes(objects[p[k]].symbols, name)
      && forall j :: 0 <= j < |objects| && j !in b ==> !NamesWeakly(objects[j], name);
    assert Hangs(defs, Reordered(objects, p), k, name);
    ObjectsCheckIff(defs, Reordered(objects, p), |p|);
  }

  lemma {:induction false} FirstIn(p: seq<nat>, b: set<nat>, k0: nat) returns (k: nat)
    requires k0 < |p| && p[k0] in b
    ensures k < |p| && p[k] in b && forall j :: 0 <= j < k ==> p[j] !in b
  {
    if j :| 0 <= j < k0 && p[j] in b {
      k := FirstIn(p, b, j);
    } else {
      k := k0;
    }
  }

  /** Placing whatever can be placed next either places all objects or runs into a blocked set. */
  lemma {:induction false} PlaceNext(defs: Definitions, objects: seq<ObjectFile>, p: seq<nat>) returns (q: seq<nat>, b: set<nat>)
    requires Distinct(p, |objects|) && OrderChecks(defs, objects, p)
    ensures AnOrderChecks(defs, objects, q) || Blocked(defs, objects, b)
    decreases |objects| - |p|
  {
    hide CheckObjects, Exposes, NamesWeakly, OrderChecks, BlockedAt;
    q, b := p, {};
    DistinctCovers(p, |objects|);
    if |p| < |objects| {
      b := Below(|objects|) - Members(p);
      if i :| i in b && !BlockedAt(defs, objects, b, i) {
        PlacedNext(defs, objects, p, b, i);
        q, b := PlaceNext(defs, objects, p + [i]);
      } else {
        SomeLeft(p, |objects|);
      }
    }
  }

  lemma PlacedNext(defs: Definitions, objects: seq<ObjectFile>, p: seq<nat>, b: set<nat>, i: nat)
    requires Distinct(p, |objects|) && OrderChecks(defs, objects, p)
    requires b == Below(|objects|) - Members(p) && i in b && !BlockedAt(defs, objects, b, i)
    ensures |p| < |objects| && Distinct(p + [i], |objects|) && OrderChecks(defs, objects, p + [i])
  {
    hide CheckObjects, Exposes, NamesWeakly;
    DistinctCovers(p + [i], |objects|);
    var before, after := Reordered(objects, p), Reordered(objects, p + [i]);
    ObjectsCheckIff(defs, before, |p|);
    ObjectsCheckIff(defs, after, |p| + 1);
    forall k: nat, name | k < |p| + 1
      ensures !Hangs(defs, after, k, name)
    {
      if k < |p| {
        assert !Hangs(defs, before, k, name);
        assert forall j :: 0 <= j <= k ==> after[j] == before[j];
      } else if name !in defs && Exposes(objects[i].symbols, name) {
        var j :| 0 <= j < |objects| && j !in b && NamesWeakly(objects[j], name);
        var l :| 0 <= l < |p| && p[l] == j;
        assert after[l] == objects[j];
      }
    }
  }

  /** No order passes the check exactly when some objects block one another. */
  lemma NoOrderIff(defs: Definitions, objects: seq<ObjectFile>)
    ensures (forall p :: IsOrder(p, |objects|) ==> !OrderChecks(defs, objects, p)) <==> exists b :: Blocked(defs, objects, b)
  {
    hide OrderChecks, Blocked;
    if b :| Blocked(defs, objects, b) {
      forall p | IsOrder(p, |objects|)
        ensures !OrderChecks(defs, objects, p)
      {
        BlockedFails(defs, objects, b, p);
      }
    } else {
      NothingChecks(defs, objects);
      var q, b := PlaceNext(defs, objects, []);
    }
  }

  lemma NothingChecks(defs: Definitions, objects: seq<ObjectFile>)
    ensures OrderChecks(defs, objects, [])
  {
  }

  /** The order makes no difference exactly when nothing is exposed, so that every order passes, or some
      objects block one another, so that none does. */
  lemma OrderMakesNoDifferenceIff(defs: Definitions, objects: seq<ObjectFile>)
    ensures (forall p, q :: IsOrder(p, |objects|) && IsOrder(q, |objects|) ==> OrderChecks(defs, objects, p) == OrderChecks(defs, objects, q))
       <==> NothingExposed(defs, objects) || exists b :: Blocked(defs, objects, b)
  {
    hide OrderChecks, Blocked, NothingExposed;
    EveryOrderIff(defs, objects);
    NoOrderIff(defs, objects);
    var p := seq(|objects|, i requires 0 <= i < |objects| => i);
    assert IsOrder(p, |objects|);
  }

  // ----- orders of a link -----

  ghost predicate Defines(symbols: seq<Symbol>, n: nat, name: string) {
    exists k :: 0 <= k < n && k < |symbols| && symbols[k].defined && !symbols[k].binding.Local? && symbols[k].name == name
  }

  ghost predicate DefinedIn(objects: seq<ObjectFile>, n: nat, name: string) {
    exists i :: 0 <= i < n && i < |objects| && Defines(objects[i].symbols, |objects[i].symbols|, name)
  }

  lemma {:induction false} DefineAllKeys(bases: seq<u64>, placements: seq<Placement>, defs: Definitions, symbols: seq<Symbol>, n: nat)
    requires |bases| == 4 && n <= |symbols| && DefineAll(bases, placements, defs, symbols, n).Ok?
    ensures forall name :: name in DefineAll(bases, placements, defs, symbols, n).value <==> name in defs || Defines(symbols, n, name)
  {
    hide AddressOf;
    if n > 0 {
      DefineAllKeys(bases, placements, defs, symbols, n - 1);
      forall name
        ensures Defines(symbols, n, name) <==>
          Defines(symbols, n - 1, name) || (symbols[n - 1].defined && !symbols[n - 1].binding.Local? && symbols[n - 1].name == name)
      {
      }
    }
  }

  /** The names with a definition are those some object defines, in whatever order the objects come. */
  lemma {:induction false} DefineKeys(bases: seq<u64>, placements: seq<seq<Placement>>, objects: seq<ObjectFile>, n: nat)
    requires |bases| == 4 && n <= |objects| == |placements| && DefineObjects(bases, placements, objects, n).Ok?
    ensures forall name :: name in DefineObjects(bases, placements, objects, n).value <==> DefinedIn(objects, n, name)
  {
    hide DefineAll, Defines;
    if n > 0 {
      DefineKeys(bases, placements, objects, n - 1);
      DefineAllKeys(bases, placements[n - 1], DefineObjects(bases, placements, objects, n - 1).value,
                    objects[n - 1].symbols, |objects[n - 1].symbols|);
      forall name
        ensures DefinedIn(objects, n, name) <==>
          DefinedIn(objects, n - 1, name) || Defines(objects[n - 1].symbols, |objects[n - 1].symbols|, name)
      {
      }
    }
  }

  lemma DefinedReordered(objects: seq<ObjectFile>, p: seq<nat>, name: string)
    requires IsOrder(p, |objects|)
    ensures DefinedIn(Reordered(objects, p), |objects|, name) <==> DefinedIn(objects, |objects|, name)
  {
    hide Defines;
    DistinctCovers(p, |objects|);
    if DefinedIn(objects, |objects|, name) {
      var i :| 0 <= i < |objects| && Defines(objects[i].symbols, |objects[i].symbols|, name);
      assert i in p;
      var k :| 0 <= k < |p| && p[k] == i;
      assert Defines(Reordered(objects, p)[k].symbols, |Reordered(objects, p)[k].symbols|, name);
    }
  }

  /** The objects in the order p can be laid out and define no name twice. */
  ghost predicate DefinesFine(objects: seq<ObjectFile>, options: LinkOptions, p: seq<nat>)
    requires options.Valid() && Distinct(p, |objects|)
  {
    var merged := MergeObjects(InitialRegions(options), Reordered(objects, p), |p|);
    merged.Ok? && DefineObjects(options.bases, merged.value.1, Reordered(objects, p), |p|).Ok?
  }

  ghost function DefinitionsOf(objects: seq<ObjectFile>, options: LinkOptions, p: seq<nat>): Definitions
    requires options.Valid() && Distinct(p, |objects|) && DefinesFine(objects, options, p)
  {
    DefineObjects(options.bases, MergeObjects(InitialRegions(options), Reordered(objects, p), |p|).value.1, Reordered(objects, p), |p|).value
  }

  /** The references of a link in the order p resolve. */
  ghost predicate ReferencesFine(objects: seq<ObjectFile>, options: LinkOptions, p: seq<nat>)
    requires options.Valid() && Distinct(p, |objects|)
  {
    DefinesFine(objects, options, p) && CheckObjects(DefinitionsOf(objects, options, p), Reordered(objects, p), |p|).Ok?
  }

  lemma SameKeysCheck(defs: Definitions, defs': Definitions, objects: seq<ObjectFile>, p: seq<nat>)
    requires Distinct(p, |objects|) && forall name :: name in defs <==> name in defs'
    ensures OrderChecks(defs, objects, p) == OrderChecks(defs', objects, p)
  {
    hide CheckObjects, Exposes, NamesWeakly;
    var r := Reordered(objects, p);
    ObjectsCheckIff(defs, r, |p|);
    ObjectsCheckIff(defs', r, |p|);
    forall i: nat, name | i < |p|
      ensures Hangs(defs, r, i, name) == Hangs(defs', r, i, name)
    {
    }
  }

  lemma OrderOfLink(objects: seq<ObjectFile>, options: LinkOptions, defs: Definitions, p: seq<nat>)
    requires options.Valid() && IsOrder(p, |objects|) && DefinesFine(objects, options, p)
    requires forall name :: name in defs <==> DefinedIn(objects, |objects|, name)
    ensures ReferencesFine(objects, options, p) == OrderChecks(defs, objects, p)
  {
    hide MergeObjects, DefineObjects, CheckObjects, InitialRegions, DefinedIn;
    var placements := MergeObjects(InitialRegions(options), Reordered(objects, p), |p|).value.1;
    DefineKeys(options.bases, placements, Reordered(objects, p), |p|);
    forall name
      ensures name in DefinitionsOf(objects, options, p) <==> name in defs
    {
      DefinedReordered(objects, p, name);
    }
    SameKeysCheck(DefinitionsOf(objects, options, p), defs, objects, p);
  }

  /** For a link whose definitions are fine in every order, the order decides whether its references
      resolve, unless nothing is exposed or some objects block one another. */
  lemma LinkOrderMakesNoDifferenceIff(objects: seq<ObjectFile>, options: LinkOptions, defs: Definitions)
    requires options.Valid() && forall p :: IsOrder(p, |objects|) ==> DefinesFine(objects, options, p)
    requires forall name :: name in defs <==> DefinedIn(objects, |objects|, name)
    ensures (forall p, q :: IsOrder(p, |objects|) && IsOrder(q, |objects|) ==>
               ReferencesFine(objects, options, p) == ReferencesFine(objects, options, q))
       <==> NothingExposed(defs, objects) || exists b :: Blocked(defs, objects, b)
  {
    hide OrderChecks, Blocked, NothingExposed, DefinesFine, ReferencesFine, DefinedIn, Distinct;
    OrderMakesNoDifferenceIff(defs, objects);
    forall p | IsOrder(p, |objects|)
      ensures ReferencesFine(objects, options, p) == OrderChecks(defs, objects, p)
    {
      OrderOfLink(objects, options, defs, p);
    }
  }

  // ----- two objects -----

  /** A program that halts at once and refers weakly to a name. */
  function WeakUser(): ObjectFile {
    ObjectFile([ObjectSection(Some(Text), 8, [0, 0, 0, 0, 0, 0, 0, 1], 8)],
               [Symbol("start", Global, 0, 0, true), Symbol("x", Weak, UNDEFINED_SECTION, 0, false)], [])
  }

  /** An object without bytes that needs the name. */
  function StrongUser(): ObjectFile {
    ObjectFile([], [Symbol("x", Extern, UNDEFINED_SECTION, 0, false)], [])
  }

  function PlainLink(): (options: LinkOptions)
    ensures options.Valid()
  {
    LinkOptions("start", DEFAULT_BASES)
  }

  function OneRegion(): (r: seq<OutputRegion>)
    ensures |r| == 4
  {
    InitialRegions(PlainLink())[0 := OutputRegion(Text, DEFAULT_BASES[0], [0, 0, 0, 0, 0, 0, 0, 1], 8)]
  }

  lemma MergeWeak()
    ensures MergeObject(InitialRegions(PlainLink()), WeakUser().sections, 1) == Ok((OneRegion(), [LinkSpec.Placed(0, 0)]))
  {
    var regions, section := InitialRegions(PlainLink()), WeakUser().sections[0];
    assert AlignUp(0, section.alignment) == 0;
    OneSection(regions, section, section.data);
    assert MergeSection(regions, section).Ok?;
    assert MergeObject(regions, WeakUser().sections, 0) == Ok((regions, []));
    assert [] + [LinkSpec.Placed(0, 0)] == [LinkSpec.Placed(0, 0)];
  }

  lemma MergeBoth()
    ensures MergeObjects(InitialRegions(PlainLink()), [WeakUser(), StrongUser()], 2) == Ok((OneRegion(), [[LinkSpec.Placed(0, 0)], []]))
    ensures MergeObjects(InitialRegions(PlainLink()), [StrongUser(), WeakUser()], 2) == Ok((OneRegion(), [[], [LinkSpec.Placed(0, 0)]]))
  {
    hide MergeSection;
    MergeWeak();
    var regions, a, b := InitialRegions(PlainLink()), [WeakUser(), StrongUser()], [StrongUser(), WeakUser()];
    assert MergeObjects(regions, a, 0) == Ok((regions, [])) && MergeObjects(regions, b, 0) == Ok((regions, []));
    assert MergeObjects(regions, a, 1) == Ok((OneRegion(), [[LinkSpec.Placed(0, 0)]])) by {
      assert [] + [[LinkSpec.Placed(0, 0)]] == [[LinkSpec.Placed(0, 0)]];
    }
    assert MergeObject(OneRegion(), StrongUser().sections, 0) == Ok((OneRegion(), []));
    assert MergeObject(regions, StrongUser().sections, 0) == Ok((regions, []));
    var none, unplaced: seq<seq<Placement>> := [], [[]];
    assert none + [[]] == unplaced;
    assert b[0].sections == StrongUser().sections && |b[0].sections| == 0;
    assert MergeObjects(regions, b, 1) == Ok((regions, unplaced));
    assert [[LinkSpec.Placed(0, 0)]] + [[]] == [[LinkSpec.Placed(0, 0)], []];
    assert [[]] + [[LinkSpec.Placed(0, 0)]] == [[], [LinkSpec.Placed(0, 0)]];
  }

  function StartOnly(): Definitions { map["start" := Definition(DEFAULT_BASES[0], Global)] }

  lemma DefineUsers(placements: seq<Placement>)
    requires placements == [LinkSpec.Placed(0, 0)]
    ensures DefineAll(DEFAULT_BASES, placements, map[], WeakUser().symbols, 2) == Ok(StartOnly())
    ensures forall defs: Definitions :: DefineAll(DEFAULT_BASES, [], defs, StrongUser().symbols, 1) == Ok(defs)
  {
    var s := WeakUser().symbols;
    assert DefineAll(DEFAULT_BASES, placements, map[], s, 0) == Ok(map[]);
    assert AddressOf(DEFAULT_BASES, placements, s[0]) == Ok(DEFAULT_BASES[0]);
    assert DefineAll(DEFAULT_BASES, placements, map[], s, 1) == Ok(StartOnly());
    forall defs: Definitions
      ensures DefineAll(DEFAULT_BASES, [], defs, StrongUser().symbols, 1) == Ok(defs)
    {
      assert DefineAll(DEFAULT_BASES, [], defs, StrongUser().symbols, 0) == Ok(defs);
    }
  }

  lemma DefineBoth()
    ensures DefineObjects(DEFAULT_BASES, [[LinkSpec.Placed(0, 0)], []], [WeakUser(), StrongUser()], 2) == Ok(StartOnly())
    ensures DefineObjects(DEFAULT_BASES, [[], [LinkSpec.Placed(0, 0)]], [StrongUser(), WeakUser()], 2) == Ok(StartOnly())
  {
    hide DefineAll;
    DefineUsers([LinkSpec.Placed(0, 0)]);
    var pa, pb := [[LinkSpec.Placed(0, 0)], []], [[], [LinkSpec.Placed(0, 0)]];
    var a, b := [WeakUser(), StrongUser()], [StrongUser(), WeakUser()];
    assert DefineObjects(DEFAULT_BASES, pa, a, 0) == Ok(map[]) && DefineObjects(DEFAULT_BASES, pb, b, 0) == Ok(map[]);
    assert DefineObjects(DEFAULT_BASES, pa, a, 1) == Ok(StartOnly());
    assert DefineObjects(DEFAULT_BASES, pb, b, 1) == Ok(map[]);
  }

  function WithWeak(): Definitions { StartOnly()["x" := Definition(0, Weak)] }

  lemma CheckUsers()
    ensures CheckReferences(StartOnly(), WeakUser().symbols, 2) == Ok(WithWeak())
    ensures CheckReferences(WithWeak(), StrongUser().symbols, 1) == Ok(WithWeak())
    ensures CheckReferences(StartOnly(), StrongUser().symbols, 1) == Err(UndefinedReference("x"))
  {
    assert CheckReferences(StartOnly(), WeakUser().symbols, 0) == Ok(StartOnly());
    assert CheckReferences(StartOnly(), WeakUser().symbols, 1) == Ok(StartOnly());
    assert CheckReferences(WithWeak(), StrongUser().symbols, 0) == Ok(WithWeak());
    assert CheckReferences(StartOnly(), StrongUser().symbols, 0) == Ok(StartOnly());
  }

  lemma CheckBoth()
    ensures CheckObjects(StartOnly(), [WeakUser(), StrongUser()], 2) == Ok(WithWeak())
    ensures CheckObjects(StartOnly(), [StrongUser(), WeakUser()], 2) == Err(UndefinedReference("x"))
  {
    hide CheckReferences;
    CheckUsers();
    var a, b := [WeakUser(), StrongUser()], [StrongUser(), WeakUser()];
    assert CheckObjects(StartOnly(), a, 0) == Ok(StartOnly()) && CheckObjects(StartOnly(), b, 0) == Ok(StartOnly());
    assert CheckObjects(StartOnly(), a, 1) == Ok(WithWeak());
    assert CheckObjects(StartOnly(), b, 1) == Err(UndefinedReference("x"));
  }

  lemma ApplyNothing(regions: seq<OutputRegion>, defs: Definitions, placements: seq<seq<Placement>>)
    requires |regions| == 4 && |placements| == 2
    ensures ApplyObjects(DEFAULT_BASES, placements, defs, [WeakUser(), StrongUser()], regions, 2) == Ok(regions)
  {
    var a := [WeakUser(), StrongUser()];
    assert ApplyObjects(DEFAULT_BASES, placements, defs, a, regions, 0) == Ok(regions);
    assert ApplyAll(DEFAULT_BASES, placements[0], defs, a[0], regions, 0) == Ok(regions);
    assert ApplyObjects(DEFAULT_BASES, placements, defs, a, regions, 1) == Ok(regions);
    assert ApplyAll(DEFAULT_BASES, placements[1], defs, a[1], regions, 0) == Ok(regions);
  }

  /** The same two objects link in one order and not in the other. */
  lemma LinkDependsOnOrder()
    ensures Link([WeakUser(), StrongUser()], PlainLink()).Ok?
    ensures Link([StrongUser(), WeakUser()], PlainLink()) == Err(UndefinedReference("x"))
  {
    hide MergeObjects, DefineObjects, CheckObjects, ApplyObjects, BuildExecutable, InitialRegions;
    MergeBoth();
    DefineBoth();
    CheckBoth();
    ApplyNothing(OneRegion(), WithWeak(), [[LinkSpec.Placed(0, 0)], []]);
    OneRegionSizes();
    Buildable.ImageBuilds(OneRegion(), WithWeak(), "start");
  }

  lemma OneRegionSizes()
    ensures var r := OneRegion(); r[1].size == 0 && r[2].size == 0 && r[3].size == 0
  {
  }
}
