/** The linker object: merges sections, resolves symbols and patches the merged regions stage by
    stage, and computes what `LinkSpec.Link` says. */
module Linker {
  import opened Words
  import opened Relocations
  import opened Symbols
  import opened ControlFlowGraph
  import opened AssemblySpec
  import opened Executables
  import opened LinkSpec

  class LinkContext {
    const objects: seq<ObjectFile>
    const options: LinkOptions
    var regions: seq<OutputRegion>
    var placements: seq<seq<Placement>>
    var definitions: Definitions

    constructor (objects: seq<ObjectFile>, options: LinkOptions)
      ensures this.objects == objects && this.options == options
    {
      this.objects, this.options := objects, options;
      regions, placements, definitions := [], [], map[];
    }

    // ----- stage 1 -----

    method MergeOneSection(section: ObjectSection) returns (r: Result<Placement, LinkError>)
      requires |regions| == 4
      modifies this`regions
      ensures |regions| == 4
      ensures var m := MergeSection(old(regions), section);
        && (m.Ok? ==> regions == m.value.0 && r == Ok(m.value.1))
        && (m.Err? ==> r == Err(m.error))
    {
      if section.kind.None? {
        return Ok(Unplaced);
      }
      var g := RegionIndex(section.kind.value);
      var offset := AlignUp(regions[g].size, section.alignment);
      if offset > REGION_SIZE || section.size > REGION_SIZE - offset {
        return Err(RegionTooLarge);
      }
      var region := regions[g];
      if !region.ZeroFilled() {
        region := region.(data := Resized(Resized(region.data, offset) + section.data, offset + section.size));
      }
      regions := regions[g := region.(size := offset + section.size)];
      return Ok(Placed(g, offset));
    }

    method MergeOneObject(unit: ObjectFile) returns (r: Result<seq<Placement>, LinkError>)
      requires |regions| == 4
      modifies this`regions
      ensures |regions| == 4
      ensures var m := MergeObject(old(regions), unit.sections, |unit.sections|);
        && (m.Ok? ==> regions == m.value.0 && r == Ok(m.value.1))
        && (m.Err? ==> r == Err(m.error))
    {
      hide MergeSection;
      var placed: seq<Placement> := [];
      var n := 0;
      while n < |unit.sections|
        invariant n <= |unit.sections| && |regions| == 4
        invariant MergeObject(old(regions), unit.sections, n) == Ok((regions, placed))
      {
        var p := MergeOneSection(unit.sections[n]);
        if p.Err? {
          MergeFails(old(regions), unit.sections, n + 1, |unit.sections|);
          return Err(p.error);
        }
        placed := placed + [p.value];
        n := n + 1;
      }
      return Ok(placed);
    }

    /** `mergeSections` */
    method MergeAll() returns (r: Result<(), LinkError>)
      requires |regions| == 4 && placements == []
      modifies this`regions, this`placements
      ensures |regions| == 4
      ensures var m := MergeObjects(old(regions), objects, |objects|);
        && (m.Ok? ==> r.Ok? && (regions, placements) == m.value)
        && (m.Err? ==> r == Err(m.error))
    {
      hide MergeObject;
      var n := 0;
      while n < |objects|
        invariant n <= |objects| && |regions| == 4
        invariant MergeObjects(old(regions), objects, n) == Ok((regions, placements))
      {
        var p := MergeOneObject(objects[n]);
        if p.Err? {
          MergesFail(old(regions), objects, n + 1, |objects|);
          return Err(p.error);
        }
        placements := placements + [p.value];
        n := n + 1;
      }
      return Ok(());
    }

    // ----- stage 2 -----

    method Define(k: nat, symbols: seq<Symbol>) returns (r: Result<(), LinkError>)
      requires options.Valid() && k < |placements|
      modifies this`definitions
      ensures var d := DefineAll(options.bases, placements[k], old(definitions), symbols, |symbols|);
        (d.Ok? ==> r.Ok? && definitions == d.value) && (d.Err? ==> r == Err(d.error))
    {
      hide AddressOf;
      var n := 0;
      while n < |symbols|
        invariant n <= |symbols|
        invariant DefineAll(options.bases, placements[k], old(definitions), symbols, n) == Ok(definitions)
      {
        var symbol := symbols[n];
        if symbol.defined {
          var address := AddressOf(options.bases, placements[k], symbol);
          if address.Err? {
            DefineFails(options.bases, placements[k], old(definitions), symbols, n + 1, |symbols|);
            return Err(address.error);
          }
          if !symbol.binding.Local? {
            if symbol.name in definitions {
              var existing := definitions[symbol.name];
              if existing.binding.Global? && symbol.binding.Global? {
                DefineFails(options.bases, placements[k], old(definitions), symbols, n + 1, |symbols|);
                return Err(DuplicateDefinition(symbol.name));
              }
              if existing.binding.Weak? && symbol.binding.Global? {
                definitions := definitions[symbol.name := Definition(address.value, symbol.binding)];
              }
            } else {
              definitions := definitions[symbol.name := Definition(address.value, symbol.binding)];
            }
          }
        }
        n := n + 1;
      }
      return Ok(());
    }

    method Check(symbols: seq<Symbol>) returns (r: Result<(), LinkError>)
      modifies this`definitions
      ensures var d := CheckReferences(old(definitions), symbols, |symbols|);
        (d.Ok? ==> r.Ok? && definitions == d.value) && (d.Err? ==> r == Err(d.error))
    {
      var n := 0;
      while n < |symbols|
        invariant n <= |symbols| && CheckReferences(old(definitions), symbols, n) == Ok(definitions)
      {
        var symbol := symbols[n];
        if !symbol.defined && symbol.name !in definitions {
          if !symbol.binding.Weak? {
            CheckFails(old(definitions), symbols, n + 1, |symbols|);
            return Err(UndefinedReference(symbol.name));
          }
          definitions := definitions[symbol.name := Definition(0, Weak)];
        }
        n := n + 1;
      }
      return Ok(());
    }

    /** `resolveSymbols`, the definitions. */
    method DefineSymbols() returns (r: Result<(), LinkError>)
      requires options.Valid() && |placements| == |objects| && definitions == map[]
      modifies this`definitions
      ensures var d := DefineObjects(options.bases, placements, objects, |objects|);
        (d.Ok? ==> r.Ok? && definitions == d.value) && (d.Err? ==> r == Err(d.error))
    {
      hide DefineAll;
      var n := 0;
      while n < |objects|
        invariant n <= |objects| && DefineObjects(options.bases, placements, objects, n) == Ok(definitions)
      {
        var d := Define(n, objects[n].symbols);
        if d.Err? {
          DefinesFail(options.bases, placements, objects, n + 1, |objects|);
          return Err(d.error);
        }
        n := n + 1;
      }
      return Ok(());
    }

    /** `resolveSymbols`, the references. */
    method CheckSymbols() returns (r: Result<(), LinkError>)
      modifies this`definitions
      ensures var d := CheckObjects(old(definitions), objects, |objects|);
        (d.Ok? ==> r.Ok? && definitions == d.value) && (d.Err? ==> r == Err(d.error))
    {
      hide CheckReferences;
      var n := 0;
      while n < |objects|
        invariant n <= |objects| && CheckObjects(old(definitions), objects, n) == Ok(definitions)
      {
        var d := Check(objects[n].symbols);
        if d.Err? {
          ChecksFail(old(definitions), objects, n + 1, |objects|);
          return Err(d.error);
        }
        n := n + 1;
      }
      return Ok(());
    }

    // ----- stage 3 -----

    method ApplyOne(k: nat, r: Relocation) returns (result: Result<(), LinkError>)
      requires options.Valid() && k < |objects| == |placements| && |regions| == 4
      modifies this`regions
      ensures |regions| == 4
      ensures var d := ApplyNext(options.bases, placements[k], definitions, objects[k], old(regions), r);
        (d.Ok? ==> result.Ok? && regions == d.value) && (d.Err? ==> result == Err(d.error))
    {
      hide Relocated, ResolvePatch;
      var p := ResolvePatch(options.bases, placements[k], definitions, objects[k].symbols, r);
      if p.Err? {
        return Err(p.error);
      }
      var region := regions[p.value.region];
      var data := new u8[|region.data|](i requires 0 <= i < |region.data| => region.data[i]);
      assert data[..] == region.data;
      var applied := ApplyRelocation(data, region.base, p.value.patch.relocation, p.value.patch.address);
      if applied.Err? {
        return Err(RelocationFailed(applied.error));
      }
      regions := regions[p.value.region := region.(data := data[..])];
      return Ok(());
    }

    method ApplyObject(k: nat) returns (result: Result<(), LinkError>)
      requires options.Valid() && k < |objects| == |placements| && |regions| == 4
      modifies this`regions
      ensures |regions| == 4
      ensures var d := LinkSpec.ApplyAll(options.bases, placements[k], definitions, objects[k], old(regions), |objects[k].relocations|);
        (d.Ok? ==> result.Ok? && regions == d.value) && (d.Err? ==> result == Err(d.error))
    {
      hide ApplyNext;
      var n := 0;
      while n < |objects[k].relocations|
        invariant n <= |objects[k].relocations| && |regions| == 4
        invariant LinkSpec.ApplyAll(options.bases, placements[k], definitions, objects[k], old(regions), n) == Ok(regions)
      {
        var d := ApplyOne(k, objects[k].relocations[n]);
        if d.Err? {
          ApplyFails(options.bases, placements[k], definitions, objects[k], old(regions), n + 1, |objects[k].relocations|);
          return d;
        }
        n := n + 1;
      }
      return Ok(());
    }

    /** `applyRelocations` */
    method ApplyRelocations() returns (result: Result<(), LinkError>)
      requires options.Valid() && |objects| == |placements| && |regions| == 4
      modifies this`regions
      ensures |regions| == 4
      ensures var d := ApplyObjects(options.bases, placements, definitions, objects, old(regions), |objects|);
        (d.Ok? ==> result.Ok? && regions == d.value) && (d.Err? ==> result == Err(d.error))
    {
      hide LinkSpec.ApplyAll;
      var n := 0;
      while n < |objects|
        invariant n <= |objects| && |regions| == 4
        invariant ApplyObjects(options.bases, placements, definitions, objects, old(regions), n) == Ok(regions)
      {
        var d := ApplyObject(n);
        if d.Err? {
          AppliesFail(options.bases, placements, definitions, objects, old(regions), n + 1, |objects|);
          return d;
        }
        n := n + 1;
      }
      return Ok(());
    }

    // ----- stage 4 -----

    method Build() returns (result: Result<Executable, LinkError>)
      requires |regions| == 4
      ensures result == BuildExecutable(regions, definitions, options.entry)
    {
      hide Validate;
      if options.entry !in definitions {
        return Err(UndefinedReference(options.entry));
      }
      var segments: seq<Segment> := [];
      var n := 0;
      while n < 4
        invariant n <= 4 && segments == SegmentsOf(regions, n)
      {
        if regions[n].size != 0 {
          segments := segments + [SegmentOf(regions[n])];
        }
        n := n + 1;
      }
      var e := Executable(definitions[options.entry].address, segments);
      var fault := ValidateImage(e);
      return if fault.Some? then Err(InvalidImage(fault.value)) else Ok(e);
    }

    method Run() returns (result: Result<Executable, LinkError>)
      requires options.Valid() && regions == [] && placements == [] && definitions == map[]
      modifies this
      ensures result == Link(objects, options)
    {
      hide InitialRegions, MergeObjects, DefineObjects, CheckObjects, ApplyObjects, BuildExecutable;
      if objects == [] {
        return Err(NoObjects);
      }
      regions := InitialRegions(options);
      var merged := MergeAll();
      if merged.Err? {
        return Err(merged.error);
      }
      var defined := DefineSymbols();
      if defined.Err? {
        return Err(defined.error);
      }
      var resolved := CheckSymbols();
      if resolved.Err? {
        return Err(resolved.error);
      }
      var applied := ApplyRelocations();
      if applied.Err? {
        return Err(applied.error);
      }
      result := Build();
    }
  }

  // ----- a failure is the result -----

  lemma {:induction false} MergeFails(regions: seq<OutputRegion>, sections: seq<ObjectSection>, m: nat, n: nat)
    requires |regions| == 4 && m <= n <= |sections| && MergeObject(regions, sections, m).Err?
    ensures MergeObject(regions, sections, n) == MergeObject(regions, sections, m)
  {
    if m < n {
      MergeFails(regions, sections, m, n - 1);
    }
  }

  lemma {:induction false} MergesFail(regions: seq<OutputRegion>, objects: seq<ObjectFile>, m: nat, n: nat)
    requires |regions| == 4 && m <= n <= |objects| && MergeObjects(regions, objects, m).Err?
    ensures MergeObjects(regions, objects, n) == MergeObjects(regions, objects, m)
  {
    if m < n {
      MergesFail(regions, objects, m, n - 1);
    }
  }

  lemma {:induction false} DefineFails(bases: seq<u64>, placements: seq<Placement>, defs: Definitions, symbols: seq<Symbol>, m: nat, n: nat)
    requires |bases| == 4 && m <= n <= |symbols| && DefineAll(bases, placements, defs, symbols, m).Err?
    ensures DefineAll(bases, placements, defs, symbols, n) == DefineAll(bases, placements, defs, symbols, m)
  {
    if m < n {
      DefineFails(bases, placements, defs, symbols, m, n - 1);
    }
  }

  lemma {:induction false} DefinesFail(bases: seq<u64>, placements: seq<seq<Placement>>, objects: seq<ObjectFile>, m: nat, n: nat)
    requires |bases| == 4 && m <= n <= |objects| == |placements| && DefineObjects(bases, placements, objects, m).Err?
    ensures DefineObjects(bases, placements, objects, n) == DefineObjects(bases, placements, objects, m)
  {
    if m < n {
      DefinesFail(bases, placements, objects, m, n - 1);
    }
  }

  lemma {:induction false} CheckFails(defs: Definitions, symbols: seq<Symbol>, m: nat, n: nat)
    requires m <= n <= |symbols| && CheckReferences(defs, symbols, m).Err?
    ensures CheckReferences(defs, symbols, n) == CheckReferences(defs, symbols, m)
  {
    if m < n {
      CheckFails(defs, symbols, m, n - 1);
    }
  }

  lemma {:induction false} ChecksFail(defs: Definitions, objects: seq<ObjectFile>, m: nat, n: nat)
    requires m <= n <= |objects| && CheckObjects(defs, objects, m).Err?
    ensures CheckObjects(defs, objects, n) == CheckObjects(defs, objects, m)
  {
    if m < n {
      ChecksFail(defs, objects, m, n - 1);
    }
  }

  lemma {:induction false} ApplyFails(
    bases: seq<u64>, placements: seq<Placement>, defs: Definitions, unit: ObjectFile, regions: seq<OutputRegion>, m: nat, n: nat)
    requires |bases| == 4 == |regions| && m <= n <= |unit.relocations|
    requires LinkSpec.ApplyAll(bases, placements, defs, unit, regions, m).Err?
    ensures LinkSpec.ApplyAll(bases, placements, defs, unit, regions, n) == LinkSpec.ApplyAll(bases, placements, defs, unit, regions, m)
  {
    hide ApplyNext;
    if m < n {
      ApplyFails(bases, placements, defs, unit, regions, m, n - 1);
    }
  }

  lemma {:induction false} AppliesFail(
    bases: seq<u64>, placements: seq<seq<Placement>>, defs: Definitions, objects: seq<ObjectFile>, regions: seq<OutputRegion>, m: nat, n: nat)
    requires |bases| == 4 == |regions| && m <= n <= |objects| == |placements|
    requires ApplyObjects(bases, placements, defs, objects, regions, m).Err?
    ensures ApplyObjects(bases, placements, defs, objects, regions, n) == ApplyObjects(bases, placements, defs, objects, regions, m)
  {
    hide LinkSpec.ApplyAll;
    if m < n {
      AppliesFail(bases, placements, defs, objects, regions, m, n - 1);
    }
  }
}
