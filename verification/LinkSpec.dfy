/** What the linker computes: where every section goes, what every symbol means, and the patched
    image. */
module LinkSpec {
  import opened Words
  import opened Memory
  import opened Relocations
  import opened Symbols
  import opened ControlFlowGraph
  import opened AssemblySpec
  import opened Executables

  const REGION_SIZE: u64 := 0xF_0000

  datatype LinkOptions = LinkOptions(entry: string, bases: seq<u64>) {
    ghost predicate Valid() { |bases| == 4 }
  }

  /** One base per region, in the order text, rodata, data, bss. */
  const DEFAULT_BASES: seq<u64> := [0x1_0000, 0x10_0000, 0x20_0000, 0x30_0000]

  datatype OutputRegion = OutputRegion(kind: SectionKind, base: u64, data: seq<u8>, size: u64) {
    predicate ZeroFilled() { kind.Bss? }
  }

  datatype Placement = Unplaced | Placed(region: nat, offset: u64)

  datatype LinkError =
    | NoObjects | RegionTooLarge | BadSectionReference | DuplicateDefinition(name: string)
    | UndefinedReference(name: string) | BadRelocation | RelocationFailed(why: RelocationError)
    | InvalidImage(fault: ImageError)

  function RegionIndex(kind: SectionKind): (i: nat)
    ensures i < 4
  {
    match kind case Text => 0 case Rodata => 1 case Data => 2 case Bss => 3
  }

  function InitialRegions(options: LinkOptions): (r: seq<OutputRegion>)
    requires options.Valid()
    ensures |r| == 4
  {
    seq(4, i requires 0 <= i < 4 => OutputRegion(SECTION_ORDER[i], options.bases[i], [], 0))
  }

  // ----- merging -----

  /** `vector::resize` with zero fill. */
  function Resized(data: seq<u8>, n: nat): (r: seq<u8>)
    ensures |r| == n
  {
    if n <= |data| then data[..n] else data + Zeros(n - |data|)
  }

  /** The region with a section behind what it holds, after `offset - size` bytes of padding. */
  function Appended(region: OutputRegion, offset: u64, section: ObjectSection): OutputRegion
    requires offset + section.size < TWO64
  {
    var data := if region.ZeroFilled() then region.data
      else Resized(Resized(region.data, offset) + section.data, offset + section.size);
    region.(data := data, size := offset + section.size)
  }

  /** One section laid out behind the others of its kind. */
  function MergeSection(regions: seq<OutputRegion>, section: ObjectSection): Result<(seq<OutputRegion>, Placement), LinkError>
    requires |regions| == 4
  {
    if section.kind.None? then Ok((regions, Unplaced))
    else
      var g := RegionIndex(section.kind.value);
      var offset := AlignUp(regions[g].size, section.alignment);
      if offset > REGION_SIZE || section.size > REGION_SIZE - offset then Err(RegionTooLarge)
      else Ok((regions[g := Appended(regions[g], offset, section)], Placed(g, offset)))
  }

  function MergeObject(regions: seq<OutputRegion>, sections: seq<ObjectSection>, n: nat)
    : (r: Result<(seq<OutputRegion>, seq<Placement>), LinkError>)
    requires |regions| == 4 && n <= |sections|
    ensures r.Ok? ==> |r.value.0| == 4 && |r.value.1| == n
  {
    if n == 0 then Ok((regions, []))
    else
      var before := MergeObject(regions, sections, n - 1);
      if before.Err? then before
      else
        var r := MergeSection(before.value.0, sections[n - 1]);
        if r.Err? then Err(r.error) else Ok((r.value.0, before.value.1 + [r.value.1]))
  }

  function MergeObjects(regions: seq<OutputRegion>, objects: seq<ObjectFile>, n: nat)
    : (r: Result<(seq<OutputRegion>, seq<seq<Placement>>), LinkError>)
    requires |regions| == 4 && n <= |objects|
    ensures r.Ok? ==> |r.value.0| == 4 && |r.value.1| == n
    ensures r.Ok? ==> forall i :: 0 <= i < n ==> |r.value.1[i]| == |objects[i].sections|
  {
    if n == 0 then Ok((regions, []))
    else
      var before := MergeObjects(regions, objects, n - 1);
      if before.Err? then before
      else
        var r := MergeObject(before.value.0, objects[n - 1].sections, |objects[n - 1].sections|);
        if r.Err? then Err(r.error) else Ok((r.value.0, before.value.1 + [r.value.1]))
  }

  // ----- symbols -----

  datatype Definition = Definition(address: u64, binding: SymbolBinding)

  type Definitions = map<string, Definition>

  /** `addressOf`, for a symbol of an object whose sections are placed at `placements`. */
  function AddressOf(bases: seq<u64>, placements: seq<Placement>, symbol: Symbol): Result<u64, LinkError>
    requires |bases| == 4
  {
    if symbol.section >= |placements| then Err(BadSectionReference)
    else
      match placements[symbol.section]
      case Unplaced => Err(BadSectionReference)
      case Placed(region, offset) =>
        if region >= 4 then Err(BadSectionReference) else Ok(Wrap(bases[region] + offset + symbol.value))
  }

  function DefineSymbol(defs: Definitions, symbol: Symbol, address: u64): Result<Definitions, LinkError> {
    if symbol.name in defs then
      var known := defs[symbol.name];
      if known.binding.Global? && symbol.binding.Global? then Err(DuplicateDefinition(symbol.name))
      else if known.binding.Weak? && symbol.binding.Global? then Ok(defs[symbol.name := Definition(address, symbol.binding)])
      else Ok(defs)
    else Ok(defs[symbol.name := Definition(address, symbol.binding)])
  }

  function DefineNext(bases: seq<u64>, placements: seq<Placement>, defs: Definitions, symbol: Symbol): Result<Definitions, LinkError>
    requires |bases| == 4
  {
    if !symbol.defined then Ok(defs)
    else
      var address := AddressOf(bases, placements, symbol);
      if address.Err? then Err(address.error)
      else if symbol.binding.Local? then Ok(defs)
      else DefineSymbol(defs, symbol, address.value)
  }

  function DefineAll(bases: seq<u64>, placements: seq<Placement>, defs: Definitions, symbols: seq<Symbol>, n: nat)
    : Result<Definitions, LinkError>
    requires |bases| == 4 && n <= |symbols|
  {
    if n == 0 then Ok(defs)
    else
      var before := DefineAll(bases, placements, defs, symbols, n - 1);
      if before.Err? then before else DefineNext(bases, placements, before.value, symbols[n - 1])
  }

  function DefineObjects(bases: seq<u64>, placements: seq<seq<Placement>>, objects: seq<ObjectFile>, n: nat)
    : Result<Definitions, LinkError>
    requires |bases| == 4 && n <= |objects| == |placements|
  {
    if n == 0 then Ok(map[])
    else
      var before := DefineObjects(bases, placements, objects, n - 1);
      if before.Err? then before
      else DefineAll(bases, placements[n - 1], before.value, objects[n - 1].symbols, |objects[n - 1].symbols|)
  }

  /** The check of references: an unresolved weak one is defined to be address 0. */
  function CheckReference(defs: Definitions, symbol: Symbol): Result<Definitions, LinkError> {
    if symbol.defined || symbol.name in defs then Ok(defs)
    else if symbol.binding.Weak? then Ok(defs[symbol.name := Definition(0, Weak)])
    else Err(UndefinedReference(symbol.name))
  }

  function CheckReferences(defs: Definitions, symbols: seq<Symbol>, n: nat): Result<Definitions, LinkError>
    requires n <= |symbols|
  {
    if n == 0 then Ok(defs)
    else
      var before := CheckReferences(defs, symbols, n - 1);
      if before.Err? then before else CheckReference(before.value, symbols[n - 1])
  }

  function CheckObjects(defs: Definitions, objects: seq<ObjectFile>, n: nat): Result<Definitions, LinkError>
    requires n <= |objects|
  {
    if n == 0 then Ok(defs)
    else
      var before := CheckObjects(defs, objects, n - 1);
      if before.Err? then before else CheckReferences(before.value, objects[n - 1].symbols, |objects[n - 1].symbols|)
  }

  // ----- relocations -----

  /** The address a relocation refers to. */
  function SymbolAddress(bases: seq<u64>, placements: seq<Placement>, defs: Definitions, symbol: Symbol): Result<u64, LinkError>
    requires |bases| == 4
  {
    if symbol.defined && symbol.binding.Local? then AddressOf(bases, placements, symbol)
    else if symbol.name in defs then Ok(defs[symbol.name].address)
    else Err(UndefinedReference(symbol.name))
  }

  /** A relocation of an object, moved to its output region. */
  datatype Patch = Patch(region: nat, patch: Resolved)

  function ResolvePatch(
    bases: seq<u64>, placements: seq<Placement>, defs: Definitions, symbols: seq<Symbol>, r: Relocation)
    : (p: Result<Patch, LinkError>)
    requires |bases| == 4
    ensures p.Ok? ==> p.value.region < 3
  {
    if r.section >= |placements| || r.symbol >= |symbols| then Err(BadRelocation)
    else
      match placements[r.section]
      case Unplaced => Err(BadRelocation)
      case Placed(region, offset) =>
        if region >= 3 then Err(BadRelocation)
        else
          var address := SymbolAddress(bases, placements, defs, symbols[r.symbol]);
          if address.Err? then Err(address.error)
          else Ok(Patch(region, Resolved(r.(offset := Wrap(offset + r.offset)), address.value)))
  }

  function ApplyPatch(regions: seq<OutputRegion>, p: Patch): (r: Result<seq<OutputRegion>, LinkError>)
    requires |regions| == 4 && p.region < 4
    ensures r.Ok? ==> |r.value| == 4
  {
    var region := regions[p.region];
    var d := Relocated(region.data, region.base, p.patch.relocation, p.patch.address);
    if d.Err? then Err(RelocationFailed(d.error)) else Ok(regions[p.region := region.(data := d.value)])
  }

  function ApplyNext(
    bases: seq<u64>, placements: seq<Placement>, defs: Definitions, unit: ObjectFile, regions: seq<OutputRegion>, r: Relocation)
    : (result: Result<seq<OutputRegion>, LinkError>)
    requires |bases| == 4 == |regions|
    ensures result.Ok? ==> |result.value| == 4
  {
    var p := ResolvePatch(bases, placements, defs, unit.symbols, r);
    if p.Err? then Err(p.error) else ApplyPatch(regions, p.value)
  }

  function ApplyAll(
    bases: seq<u64>, placements: seq<Placement>, defs: Definitions, unit: ObjectFile, regions: seq<OutputRegion>, n: nat)
    : (result: Result<seq<OutputRegion>, LinkError>)
    requires |bases| == 4 == |regions| && n <= |unit.relocations|
    ensures result.Ok? ==> |result.value| == 4
  {
    if n == 0 then Ok(regions)
    else
      var before := ApplyAll(bases, placements, defs, unit, regions, n - 1);
      if before.Err? then before
      else ApplyNext(bases, placements, defs, unit, before.value, unit.relocations[n - 1])
  }

  function ApplyObjects(
    bases: seq<u64>, placements: seq<seq<Placement>>, defs: Definitions, objects: seq<ObjectFile>, regions: seq<OutputRegion>, n: nat)
    : (result: Result<seq<OutputRegion>, LinkError>)
    requires |bases| == 4 == |regions| && n <= |objects| == |placements|
    ensures result.Ok? ==> |result.value| == 4
  {
    if n == 0 then Ok(regions)
    else
      var before := ApplyObjects(bases, placements, defs, objects, regions, n - 1);
      if before.Err? then before
      else ApplyAll(bases, placements[n - 1], defs, objects[n - 1], before.value, |objects[n - 1].relocations|)
  }

  // ----- the image -----

  function FlagsOf(kind: SectionKind): Permission {
    Permission(true, kind.Data? || kind.Bss?, kind.Text?)
  }

  function SegmentOf(region: OutputRegion): Segment {
    Segment(region.kind, FlagsOf(region.kind), region.base, region.size, if region.ZeroFilled() then [] else region.data)
  }

  /** The segments of the first n regions that hold anything. */
  function SegmentsOf(regions: seq<OutputRegion>, n: nat): seq<Segment>
    requires n <= |regions|
  {
    if n == 0 then []
    else SegmentsOf(regions, n - 1) + (if regions[n - 1].size == 0 then [] else [SegmentOf(regions[n - 1])])
  }

  function BuildExecutable(regions: seq<OutputRegion>, defs: Definitions, entry: string): Result<Executable, LinkError>
    requires |regions| == 4
  {
    if entry !in defs then Err(UndefinedReference(entry))
    else
      var e := Executable(defs[entry].address, SegmentsOf(regions, 4));
      var fault := Validate(e);
      if fault.Some? then Err(InvalidImage(fault.value)) else Ok(e)
  }

  function Link(objects: seq<ObjectFile>, options: LinkOptions): Result<Executable, LinkError>
    requires options.Valid()
  {
    if objects == [] then Err(NoObjects)
    else
      var merged := MergeObjects(InitialRegions(options), objects, |objects|);
      if merged.Err? then Err(merged.error)
      else
        var defined := DefineObjects(options.bases, merged.value.1, objects, |objects|);
        if defined.Err? then Err(defined.error)
        else
          var defs := CheckObjects(defined.value, objects, |objects|);
          if defs.Err? then Err(defs.error)
          else
            var applied := ApplyObjects(options.bases, merged.value.1, defs.value, objects, merged.value.0, |objects|);
            if applied.Err? then Err(applied.error)
            else BuildExecutable(applied.value, defs.value, options.entry)
  }
}
