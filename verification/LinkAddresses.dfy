/** Where a symbol points after a link of any number of objects: to the byte of its section that it
    names, where the layout has put that section; and that is the address every reference gets. */
module LinkAddresses {
  import opened Words
  import opened Relocations
  import opened Symbols
  import opened ControlFlowGraph
  import opened AssemblySpec
  import opened Executables
  import opened LinkSpec
  import opened LinkLayout
  import opened LinkProof

  /** The address is that of byte `value` of the symbol's section, as it is placed. */
  ghost predicate PointsTo(
    bases: seq<u64>, unit: ObjectFile, placed: seq<Placement>, regions: seq<OutputRegion>, symbol: Symbol, address: u64)
  {
    && |bases| == 4 == |regions| && |placed| == |unit.sections| && symbol.section < |unit.sections|
    && var section, p := unit.sections[symbol.section], placed[symbol.section];
       && section.kind.Some? && p.Placed? && PlacedOk(section, p, regions) && p.region < 4
       && address == (bases[p.region] + p.offset + symbol.value) % 0x1_0000_0000_0000_0000
       && (bases[p.region] + p.offset + symbol.value < 0x1_0000_0000_0000_0000 && symbol.value < section.size && !section.kind.value.Bss? ==>
             && 0 <= address - bases[p.region] < |regions[p.region].data|
             && regions[p.region].data[address - bases[p.region]] == Resized(section.data, section.size)[symbol.value])
  }

  lemma AddressPoints(
    bases: seq<u64>, unit: ObjectFile, placed: seq<Placement>, regions: seq<OutputRegion>, symbol: Symbol)
    requires |bases| == 4 == |regions| && |placed| == |unit.sections|
    requires forall k :: 0 <= k < |placed| ==> PlacedOk(unit.sections[k], placed[k], regions)
    requires AddressOf(bases, placed, symbol).Ok?
    ensures PointsTo(bases, unit, placed, regions, symbol, AddressOf(bases, placed, symbol).value)
  {
    var section, p := unit.sections[symbol.section], placed[symbol.section];
    assert PlacedOk(section, p, regions);
    if symbol.value < section.size && !section.kind.value.Bss? {
      var data := regions[p.region].data;
      assert data[p.offset..p.offset + section.size][symbol.value] == data[p.offset + symbol.value];
    }
    hide PlacedOk, Resized;
  }

  // ----- which definition settles a name -----

  /** Symbol k of object j defines `name` for the whole link. */
  predicate Defines(objects: seq<ObjectFile>, j: nat, k: nat, name: string) {
    && j < |objects| && k < |objects[j].symbols|
    && var s := objects[j].symbols[k]; s.defined && !s.binding.Local? && s.name == name
  }

  predicate Sooner(j: nat, k: nat, j': nat, k': nat) { j < j' || (j == j' && k < k') }

  ghost predicate DefinedSooner(objects: seq<ObjectFile>, n: nat, m: nat, name: string) {
    exists j: nat, k: nat :: Defines(objects, j, k, name) && Sooner(j, k, n, m)
  }

  ghost predicate StronglySooner(objects: seq<ObjectFile>, n: nat, m: nat, name: string) {
    exists j: nat, k: nat :: Defines(objects, j, k, name) && Sooner(j, k, n, m) && objects[j].symbols[k].binding.Global?
  }

  /** The first definition of the name is weak. */
  ghost predicate WeakFirst(objects: seq<ObjectFile>, name: string) {
    exists j: nat, k: nat :: Defines(objects, j, k, name) && !DefinedSooner(objects, j, k, name) && objects[j].symbols[k].binding.Weak?
  }

  /** Among the definitions before position (n, m), the one of symbol k of object j stands: it is the
      first, and not weak with a strong one after it; or it is the first strong one after a weak first. */
  ghost predicate Settles(objects: seq<ObjectFile>, n: nat, m: nat, name: string, j: nat, k: nat) {
    && Defines(objects, j, k, name) && Sooner(j, k, n, m)
    && var binding := objects[j].symbols[k].binding;
       || (!DefinedSooner(objects, j, k, name) && (binding.Weak? ==> !StronglySooner(objects, n, m, name)))
       || (binding.Global? && !StronglySooner(objects, j, k, name) && WeakFirst(objects, name))
  }

  /** The definition of a name, by the one that stands and the place it names. */
  ghost predicate Stands(
    bases: seq<u64>, objects: seq<ObjectFile>, placements: seq<seq<Placement>>, regions: seq<OutputRegion>,
    n: nat, m: nat, name: string, d: Definition)
  {
    exists j: nat, k: nat :: Settles(objects, n, m, name, j, k) && StandsAt(bases, objects, placements, regions, j, k, d)
  }

  ghost predicate StandsAt(
    bases: seq<u64>, objects: seq<ObjectFile>, placements: seq<seq<Placement>>, regions: seq<OutputRegion>,
    j: nat, k: nat, d: Definition)
  {
    && j < |objects| && j < |placements| && k < |objects[j].symbols|
    && d.binding == objects[j].symbols[k].binding
    && PointsTo(bases, objects[j], placements[j], regions, objects[j].symbols[k], d.address)
  }

  /** The definitions made before position (n, m). */
  ghost predicate Settled(
    bases: seq<u64>, objects: seq<ObjectFile>, placements: seq<seq<Placement>>, regions: seq<OutputRegion>,
    n: nat, m: nat, defs: Definitions)
  {
    forall name ::
      && (name in defs <==> DefinedSooner(objects, n, m, name))
      && (name in defs ==> Stands(bases, objects, placements, regions, n, m, name, defs[name]))
  }

  lemma SoonerNext(objects: seq<ObjectFile>, n: nat, m: nat, name: string)
    requires n < |objects| && m < |objects[n].symbols|
    ensures DefinedSooner(objects, n, m + 1, name) <==> DefinedSooner(objects, n, m, name) || Defines(objects, n, m, name)
    ensures StronglySooner(objects, n, m + 1, name) <==>
            StronglySooner(objects, n, m, name) || (Defines(objects, n, m, name) && objects[n].symbols[m].binding.Global?)
  {
    hide Defines;
    forall j: nat, k: nat
      ensures Sooner(j, k, n, m + 1) <==> Sooner(j, k, n, m) || (j == n && k == m)
    {
    }
    hide Sooner;
    assert Sooner(n, m, n, m + 1);
  }

  /** A definition that stands goes on standing unless a strong one takes over from it. */
  lemma SettlesOn(objects: seq<ObjectFile>, n: nat, m: nat, name: string, j: nat, k: nat)
    requires n < |objects| && m < |objects[n].symbols| && Settles(objects, n, m, name, j, k)
    requires Defines(objects, n, m, name) && objects[n].symbols[m].binding.Global? ==> !objects[j].symbols[k].binding.Weak?
    ensures Settles(objects, n, m + 1, name, j, k)
  {
    SoonerNext(objects, n, m, name);
    hide DefinedSooner, StronglySooner, WeakFirst;
  }

  lemma SettlesNew(objects: seq<ObjectFile>, n: nat, m: nat, name: string)
    requires Defines(objects, n, m, name) && !DefinedSooner(objects, n, m, name)
    ensures Settles(objects, n, m + 1, name, n, m)
  {
    SoonerNext(objects, n, m, name);
  }

  lemma SettlesOver(objects: seq<ObjectFile>, n: nat, m: nat, name: string, j: nat, k: nat)
    requires Settles(objects, n, m, name, j, k) && objects[j].symbols[k].binding.Weak?
    requires Defines(objects, n, m, name) && objects[n].symbols[m].binding.Global?
    ensures Settles(objects, n, m + 1, name, n, m)
  {
    hide DefinedSooner, StronglySooner;
    assert WeakFirst(objects, name);
  }

  /** One more symbol. */
  lemma DefineStep(
    bases: seq<u64>, objects: seq<ObjectFile>, placements: seq<seq<Placement>>, regions: seq<OutputRegion>,
    n: nat, m: nat, defs: Definitions)
    requires |bases| == 4 == |regions| && n < |objects| == |placements| && m < |objects[n].symbols|
    requires |placements[n]| == |objects[n].sections|
    requires forall k :: 0 <= k < |placements[n]| ==> PlacedOk(objects[n].sections[k], placements[n][k], regions)
    requires Settled(bases, objects, placements, regions, n, m, defs)
    requires DefineNext(bases, placements[n], defs, objects[n].symbols[m]).Ok?
    ensures Settled(bases, objects, placements, regions, n, m + 1,
                    DefineNext(bases, placements[n], defs, objects[n].symbols[m]).value)
  {
    hide Stands, DefinedSooner, PlacedOk, AddressOf, DefineSymbol;
    var s := objects[n].symbols[m];
    var after := DefineNext(bases, placements[n], defs, s).value;
    forall name
      ensures name in after <==> DefinedSooner(objects, n, m + 1, name)
      ensures name in after ==> Stands(bases, objects, placements, regions, n, m + 1, name, after[name])
    {
      SoonerNext(objects, n, m, name);
      if Defines(objects, n, m, name) {
        AddressPoints(bases, objects[n], placements[n], regions, s);
        DefineThis(bases, objects, placements, regions, n, m, defs, AddressOf(bases, placements[n], s).value);
      } else {
        DefineOther(defs, s, name, bases, placements[n]);
        if name in defs {
          StandsOn(bases, objects, placements, regions, n, m, name, defs[name]);
        }
      }
    }
  }

  lemma DefineOther(defs: Definitions, s: Symbol, name: string, bases: seq<u64>, placed: seq<Placement>)
    requires |bases| == 4 && DefineNext(bases, placed, defs, s).Ok?
    requires !s.defined || s.binding.Local? || s.name != name
    ensures var after := DefineNext(bases, placed, defs, s).value;
            (name in after <==> name in defs) && (name in defs ==> after[name] == defs[name])
  {
    hide AddressOf;
  }

  lemma StandsOn(
    bases: seq<u64>, objects: seq<ObjectFile>, placements: seq<seq<Placement>>, regions: seq<OutputRegion>,
    n: nat, m: nat, name: string, d: Definition)
    requires n < |objects| && m < |objects[n].symbols| && Stands(bases, objects, placements, regions, n, m, name, d)
    requires Defines(objects, n, m, name) && objects[n].symbols[m].binding.Global? ==> !d.binding.Weak?
    ensures Stands(bases, objects, placements, regions, n, m + 1, name, d)
  {
    hide Settles, PointsTo;
    var j: nat, k: nat :| Settles(objects, n, m, name, j, k) && StandsAt(bases, objects, placements, regions, j, k, d);
    SettlesOn(objects, n, m, name, j, k);
  }

  lemma DefineThis(
    bases: seq<u64>, objects: seq<ObjectFile>, placements: seq<seq<Placement>>, regions: seq<OutputRegion>,
    n: nat, m: nat, defs: Definitions, address: u64)
    requires n < |objects| == |placements| && m < |objects[n].symbols|
    requires var s := objects[n].symbols[m];
      && Defines(objects, n, m, s.name) && DefineSymbol(defs, s, address).Ok?
      && PointsTo(bases, objects[n], placements[n], regions, s, address)
      && (s.name in defs <==> DefinedSooner(objects, n, m, s.name))
      && (s.name in defs ==> Stands(bases, objects, placements, regions, n, m, s.name, defs[s.name]))
    ensures var s := objects[n].symbols[m];
            var after := DefineSymbol(defs, s, address).value;
            s.name in after && Stands(bases, objects, placements, regions, n, m + 1, s.name, after[s.name])
  {
    hide Settles, PointsTo, DefinedSooner;
    var s := objects[n].symbols[m];
    if s.name !in defs {
      SettlesNew(objects, n, m, s.name);
      assert StandsAt(bases, objects, placements, regions, n, m, Definition(address, s.binding));
    } else if defs[s.name].binding.Weak? && s.binding.Global? {
      var d := defs[s.name];
      var j: nat, k: nat :| Settles(objects, n, m, s.name, j, k) && StandsAt(bases, objects, placements, regions, j, k, d);
      SettlesOver(objects, n, m, s.name, j, k);
      assert StandsAt(bases, objects, placements, regions, n, m, Definition(address, s.binding));
    } else {
      StandsOn(bases, objects, placements, regions, n, m, s.name, defs[s.name]);
    }
  }

  /** Every section of the first n objects is where the layout has put it. */
  ghost predicate AllPlaced(objects: seq<ObjectFile>, placements: seq<seq<Placement>>, regions: seq<OutputRegion>) {
    && |regions| == 4 && |placements| == |objects|
    && forall j :: 0 <= j < |objects| ==> ObjectPlaced(objects[j], placements[j], regions)
  }

  ghost predicate ObjectPlaced(unit: ObjectFile, placed: seq<Placement>, regions: seq<OutputRegion>)
    requires |regions| == 4
  {
    |placed| == |unit.sections| && forall k :: 0 <= k < |placed| ==> PlacedOk(unit.sections[k], placed[k], regions)
  }

  lemma {:induction false} PlacedPrefix(
    objects: seq<ObjectFile>, placements: seq<seq<Placement>>, regions: seq<OutputRegion>, n: nat)
    requires n <= |objects| == |placements| && |regions| == 4
    requires forall i :: 0 <= i < n ==> |placements[i]| == |objects[i].sections|
    requires Arranged(AllSections(objects, n), Flat(placements[..n]), regions)
    ensures forall j :: 0 <= j < n ==> ObjectPlaced(objects[j], placements[j], regions)
  {
    hide PlacedOk, Before;
    if n > 0 {
      assert placements[..n][..n - 1] == placements[..n - 1];
      FlatLength(objects, placements, n - 1);
      ArrangedParts(AllSections(objects, n - 1), Flat(placements[..n - 1]), objects[n - 1].sections, placements[n - 1], regions);
      PlacedPrefix(objects, placements, regions, n - 1);
    }
  }

  lemma LinkPlaces(objects: seq<ObjectFile>, options: LinkOptions, t: Stages)
    requires options.Valid() && LinkStages(objects, options, t)
    ensures AllPlaced(objects, t.placements, t.merged)
  {
    hide MergeObjects, DefineObjects, CheckObjects, ApplyObjects, InitialRegions, ObjectPlaced, Arranged, LaidOut;
    LayoutOfLink(objects, options);
    LaidOutArranged(AllSections(objects, |objects|), Flat(t.placements), t.merged);
    assert t.placements[..|objects|] == t.placements;
    PlacedPrefix(objects, t.placements, t.merged, |objects|);
  }

  lemma {:induction false} SettledObject(
    bases: seq<u64>, objects: seq<ObjectFile>, placements: seq<seq<Placement>>, regions: seq<OutputRegion>,
    n: nat, m: nat, defs: Definitions)
    requires |bases| == 4 && AllPlaced(objects, placements, regions) && n < |objects| && m <= |objects[n].symbols|
    requires Settled(bases, objects, placements, regions, n, 0, defs)
    requires DefineAll(bases, placements[n], defs, objects[n].symbols, m).Ok?
    ensures Settled(bases, objects, placements, regions, n, m, DefineAll(bases, placements[n], defs, objects[n].symbols, m).value)
  {
    hide Settled, DefineNext, PlacedOk;
    if m > 0 {
      assert ObjectPlaced(objects[n], placements[n], regions);
      SettledObject(bases, objects, placements, regions, n, m - 1, defs);
      DefineStep(bases, objects, placements, regions, n, m - 1,
                 DefineAll(bases, placements[n], defs, objects[n].symbols, m - 1).value);
    }
  }

  /** The end of one object is the start of the next. */
  lemma NextObject(
    bases: seq<u64>, objects: seq<ObjectFile>, placements: seq<seq<Placement>>, regions: seq<OutputRegion>,
    n: nat, defs: Definitions)
    requires n < |objects| && Settled(bases, objects, placements, regions, n, |objects[n].symbols|, defs)
    ensures Settled(bases, objects, placements, regions, n + 1, 0, defs)
  {
    hide StandsAt, WeakFirst;
    forall name
      ensures DefinedSooner(objects, n + 1, 0, name) <==> DefinedSooner(objects, n, |objects[n].symbols|, name)
      ensures name in defs ==> Stands(bases, objects, placements, regions, n + 1, 0, name, defs[name])
    {
      SameSooner(objects, n, name);
      if name in defs {
        var j: nat, k: nat :| Settles(objects, n, |objects[n].symbols|, name, j, k)
                              && StandsAt(bases, objects, placements, regions, j, k, defs[name]);
        assert Settles(objects, n + 1, 0, name, j, k) by {
          hide DefinedSooner, StronglySooner;
        }
      }
    }
  }

  lemma SameSooner(objects: seq<ObjectFile>, n: nat, name: string)
    requires n < |objects|
    ensures DefinedSooner(objects, n + 1, 0, name) <==> DefinedSooner(objects, n, |objects[n].symbols|, name)
    ensures StronglySooner(objects, n + 1, 0, name) <==> StronglySooner(objects, n, |objects[n].symbols|, name)
  {
    forall j: nat, k: nat | Defines(objects, j, k, name)
      ensures Sooner(j, k, n + 1, 0) <==> Sooner(j, k, n, |objects[n].symbols|)
    {
    }
    hide Defines, Sooner;
  }

  lemma {:induction false} SettledObjects(
    bases: seq<u64>, objects: seq<ObjectFile>, placements: seq<seq<Placement>>, regions: seq<OutputRegion>, n: nat)
    requires |bases| == 4 && AllPlaced(objects, placements, regions) && n <= |objects|
    requires DefineObjects(bases, placements, objects, n).Ok?
    ensures Settled(bases, objects, placements, regions, n, 0, DefineObjects(bases, placements, objects, n).value)
  {
    hide DefineAll, ObjectPlaced, Stands;
    if n == 0 {
    } else {
      hide Settled;
      SettledObjects(bases, objects, placements, regions, n - 1);
      var defs := DefineObjects(bases, placements, objects, n - 1).value;
      SettledObject(bases, objects, placements, regions, n - 1, |objects[n - 1].symbols|, defs);
      NextObject(bases, objects, placements, regions, n - 1, DefineObjects(bases, placements, objects, n).value);
    }
  }

  // ----- names that nobody defines -----

  /** The definitions, with some more names that stand for address 0. */
  ghost predicate ZeroesAdded(defs: Definitions, after: Definitions) {
    forall name ::
      && (name in defs ==> name in after && after[name] == defs[name])
      && (name in after && name !in defs ==> after[name] == Definition(0, Weak))
  }

  lemma {:induction false} ReferencesAddZeroes(defs: Definitions, symbols: seq<Symbol>, n: nat)
    requires n <= |symbols| && CheckReferences(defs, symbols, n).Ok?
    ensures ZeroesAdded(defs, CheckReferences(defs, symbols, n).value)
  {
    if n > 0 {
      ReferencesAddZeroes(defs, symbols, n - 1);
    }
  }

  lemma {:induction false} ObjectsAddZeroes(defs: Definitions, objects: seq<ObjectFile>, n: nat)
    requires n <= |objects| && CheckObjects(defs, objects, n).Ok?
    ensures ZeroesAdded(defs, CheckObjects(defs, objects, n).value)
  {
    hide CheckReferences;
    if n > 0 {
      ObjectsAddZeroes(defs, objects, n - 1);
      ReferencesAddZeroes(CheckObjects(defs, objects, n - 1).value, objects[n - 1].symbols, |objects[n - 1].symbols|);
    }
  }

  // ----- what a name means in a link -----

  /** The address of a name in a link: the place that the definition which stands names; 0 if the name
      is not defined at all. */
  ghost predicate Names(objects: seq<ObjectFile>, options: LinkOptions, t: Stages, name: string, address: u64) {
    if DefinedSooner(objects, |objects|, 0, name) then
      exists j: nat, k: nat ::
        && Settles(objects, |objects|, 0, name, j, k)
        && j < |t.placements|
        && PointsTo(options.bases, objects[j], t.placements[j], t.merged, objects[j].symbols[k], address)
    else address == 0
  }

  /** Every name of a link has that address. */
  lemma DefinitionsPoint(objects: seq<ObjectFile>, options: LinkOptions, t: Stages, name: string)
    requires options.Valid() && LinkStages(objects, options, t)
    ensures DefinedSooner(objects, |objects|, 0, name) ==> name in t.defs
    ensures name in t.defs ==> Names(objects, options, t, name, t.defs[name].address)
  {
    hide MergeObjects, DefineObjects, CheckObjects, ApplyObjects, InitialRegions, AllPlaced, DefinedSooner, Settles, PointsTo;
    LinkPlaces(objects, options, t);
    SettledObjects(options.bases, objects, t.placements, t.merged, |objects|);
    var defs := DefineObjects(options.bases, t.placements, objects, |objects|).value;
    ObjectsAddZeroes(defs, objects, |objects|);
    if name in defs {
      assert Stands(options.bases, objects, t.placements, t.merged, |objects|, 0, name, defs[name]);
    }
  }

  /** The entry point of the image is the address of the entry symbol. */
  lemma EntryAddress(objects: seq<ObjectFile>, options: LinkOptions, t: Stages)
    requires options.Valid() && LinkStages(objects, options, t) && BuildExecutable(t.patched, t.defs, options.entry).Ok?
    ensures Names(objects, options, t, options.entry, BuildExecutable(t.patched, t.defs, options.entry).value.entry)
  {
    hide LinkStages, Names, Validate, SegmentsOf;
    DefinitionsPoint(objects, options, t, options.entry);
  }

  /** The address a reference of object i gets: its own local symbol's, or that of the name. */
  ghost predicate Refers(objects: seq<ObjectFile>, options: LinkOptions, t: Stages, i: nat, symbol: Symbol, address: u64) {
    && i < |objects| && i < |t.placements|
    && if symbol.defined && symbol.binding.Local? then
         PointsTo(options.bases, objects[i], t.placements[i], t.merged, symbol, address)
       else Names(objects, options, t, symbol.name, address)
  }

  lemma PatchRefers(objects: seq<ObjectFile>, options: LinkOptions, t: Stages, i: nat, r: nat)
    requires options.Valid() && LinkStages(objects, options, t) && i < |objects| && r < |objects[i].relocations|
    requires ResolvePatch(options.bases, t.placements[i], t.defs, objects[i].symbols, objects[i].relocations[r]).Ok?
    ensures objects[i].relocations[r].symbol < |objects[i].symbols|
    ensures Refers(objects, options, t, i, objects[i].symbols[objects[i].relocations[r].symbol],
                   PatchOf(options.bases, t.placements[i], t.defs, objects[i], r).patch.address)
  {
    hide LinkStages, Names, PointsTo, PlacedOk, AddressOf;
    LinkPlaces(objects, options, t);
    assert ObjectPlaced(objects[i], t.placements[i], t.merged);
    var s := objects[i].symbols[objects[i].relocations[r].symbol];
    if s.defined && s.binding.Local? {
      AddressPoints(options.bases, objects[i], t.placements[i], t.merged, s);
    } else {
      DefinitionsPoint(objects, options, t, s.name);
    }
  }

  /** Relocation r of object i, moved with its section, leaves in its field the value of its type for the
      address that its symbol refers to. */
  ghost predicate Reaches(objects: seq<ObjectFile>, options: LinkOptions, t: Stages, i: nat, r: nat, address: u64)
    requires options.Valid() && i < |objects| && r < |objects[i].relocations|
  {
    var relocation := objects[i].relocations[r];
    && relocation.symbol < |objects[i].symbols|
    && Refers(objects, options, t, i, objects[i].symbols[relocation.symbol], address)
    && relocation.section < |t.placements[i]| && t.placements[i][relocation.section].Placed?
    && var p := t.placements[i][relocation.section];
       && p.offset + relocation.offset < TWO64 && p.region < |t.merged| && p.region < |t.patched| && p.region < 3
       && var x := relocation.(offset := p.offset + relocation.offset);
          && InBounds(t.merged[p.region].data, x) && InBounds(t.patched[p.region].data, x)
          && FieldHolds(x.kind, address, x.addend, Wrap(options.bases[p.region] + x.offset),
                        Field(t.merged[p.region].data, x), Field(t.patched[p.region].data, x))
  }

  lemma Resolves(objects: seq<ObjectFile>, options: LinkOptions, t: Stages, i: nat, r: nat)
    requires options.Valid() && LinkStages(objects, options, t) && i < |objects| && r < |objects[i].relocations|
    ensures ResolvePatch(options.bases, t.placements[i], t.defs, objects[i].symbols, objects[i].relocations[r]).Ok?
  {
    hide MergeObjects, DefineObjects, CheckObjects, ApplyObjects, InitialRegions, ResolvePatch, AllPatches, FoldPatches;
    ObjectsFold(options.bases, t.placements, t.defs, objects, t.merged, |objects|);
  }

  /** The patch of a relocation is the relocation moved with its section. */
  lemma PatchMoves(objects: seq<ObjectFile>, options: LinkOptions, t: Stages, i: nat, r: nat)
    requires options.Valid() && LinkStages(objects, options, t) && i < |objects| && r < |objects[i].relocations|
    requires SitesOk(objects[i])
    ensures var relocation, p := objects[i].relocations[r], PatchOf(options.bases, t.placements[i], t.defs, objects[i], r);
      && relocation.section < |t.placements[i]| && t.placements[i][relocation.section].Placed?
      && var q := t.placements[i][relocation.section];
         && q.offset + relocation.offset < TWO64 && p.region == q.region
         && p.patch.relocation == relocation.(offset := q.offset + relocation.offset)
  {
    hide LinkStages, PatchOf, ResolvePatch, PlacedOk, SiteInside;
    LinkPlaces(objects, options, t);
    assert ObjectPlaced(objects[i], t.placements[i], t.merged);
    LinkSizes(objects, options, t);
    assert SiteInside(objects[i], objects[i].relocations[r]);
    Resolves(objects, options, t, i, r);
    PatchLies(options.bases, t.placements[i], t.defs, objects[i], r, t.merged);
  }

  /** Every relocation of every link reaches what it refers to. */
  lemma RelocationReaches(objects: seq<ObjectFile>, options: LinkOptions, t: Stages, i: nat, r: nat) returns (address: u64)
    requires options.Valid() && LinkStages(objects, options, t) && i < |objects| && r < |objects[i].relocations|
    requires forall k :: 0 <= k < |objects| ==> SitesOk(objects[k])
    ensures Reaches(objects, options, t, i, r, address)
  {
    hide Refers, FieldHolds, InBounds, PatchOf, ResolvePatch, Field, SitesOk, MergeObjects, DefineObjects, CheckObjects,
         ApplyObjects, InitialRegions;
    address := PatchOf(options.bases, t.placements[i], t.defs, objects[i], r).patch.address;
    Resolves(objects, options, t, i, r);
    PatchRefers(objects, options, t, i, r);
    PatchMoves(objects, options, t, i, r);
    RelocationHolds(objects, options, t, i, r);
  }

  lemma LinkSizes(objects: seq<ObjectFile>, options: LinkOptions, t: Stages)
    requires options.Valid() && LinkStages(objects, options, t)
    ensures forall g :: 0 <= g < 4 ==> t.merged[g].size <= REGION_SIZE
  {
    hide MergeObjects, DefineObjects, CheckObjects, ApplyObjects, InitialRegions, LaidOut;
    LayoutOfLink(objects, options);
    LaidOutArranged(AllSections(objects, |objects|), Flat(t.placements), t.merged);
  }

  // ----- the segments of the image -----

  /** The segment shows the region to the machine: at its base, with its bytes, code to be executed and
      not written, data to be written. */
  predicate Shows(segment: Segment, region: OutputRegion) {
    && segment.kind == region.kind && segment.address == region.base && segment.size == region.size
    && segment.flags.read && (segment.flags.write <==> region.kind.Data? || region.kind.Bss?)
    && (segment.flags.exec <==> region.kind.Text?)
    && segment.data == if region.kind.Bss? then [] else region.data
  }

  ghost predicate Shown(segments: seq<Segment>, region: OutputRegion) {
    exists k :: 0 <= k < |segments| && Shows(segments[k], region)
  }

  ghost predicate FromRegion(segment: Segment, regions: seq<OutputRegion>, n: nat) {
    exists g :: 0 <= g < n && g < |regions| && regions[g].size > 0 && Shows(segment, regions[g])
  }

  /** Every region that holds anything is shown, and no segment shows anything else. */
  lemma {:induction false} SegmentsShow(regions: seq<OutputRegion>, n: nat)
    requires n <= |regions|
    ensures forall g :: 0 <= g < n && regions[g].size > 0 ==> Shown(SegmentsOf(regions, n), regions[g])
    ensures forall k :: 0 <= k < |SegmentsOf(regions, n)| ==> FromRegion(SegmentsOf(regions, n)[k], regions, n)
  {
    hide Shown, FromRegion, SegmentOf;
    if n > 0 {
      SegmentsShow(regions, n - 1);
      hide SegmentsOf;
      forall g | 0 <= g < n && regions[g].size > 0
        ensures Shown(SegmentsOf(regions, n), regions[g])
      {
        ShownNext(regions, n - 1, g);
      }
      forall k | 0 <= k < |SegmentsOf(regions, n)|
        ensures FromRegion(SegmentsOf(regions, n)[k], regions, n)
      {
        FromNext(regions, n - 1, k);
      }
    }
  }

  lemma ShownNext(regions: seq<OutputRegion>, n: nat, g: nat)
    requires g <= n < |regions| && regions[g].size > 0
    requires g < n ==> Shown(SegmentsOf(regions, n), regions[g])
    ensures Shown(SegmentsOf(regions, n + 1), regions[g])
  {
    var before, after := SegmentsOf(regions, n), SegmentsOf(regions, n + 1);
    var k: nat := |before|;
    if g < n {
      k :| 0 <= k < |before| && Shows(before[k], regions[g]);
    }
    assert Shows(after[k], regions[g]);
  }

  lemma FromNext(regions: seq<OutputRegion>, n: nat, k: nat)
    requires n < |regions| && k < |SegmentsOf(regions, n + 1)|
    requires k < |SegmentsOf(regions, n)| ==> FromRegion(SegmentsOf(regions, n)[k], regions, n)
    ensures FromRegion(SegmentsOf(regions, n + 1)[k], regions, n + 1)
  {
    var before, after := SegmentsOf(regions, n), SegmentsOf(regions, n + 1);
    if k < |before| {
      assert after[k] == before[k];
      hide Shows;
    } else {
      assert Shows(after[k], regions[n]);
    }
  }
}
