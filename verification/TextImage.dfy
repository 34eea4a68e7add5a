/** From one text section to the bytes in memory: the module is assembled and linked, and at the
    address of every instruction the image holds that instruction, its symbol replaced by the address
    of the label. */
module TextImage {
  import opened Words
  import opened Isa
  import opened Ir
  import opened Codec
  import opened Relocations
  import opened Symbols
  import opened ControlFlowGraph
  import opened AssemblySpec
  import opened AssemblerProof
  import opened Executables
  import opened LinkSpec
  import opened LinkProof

  /** A module with one code section. */
  function TextModule(alignment: u64, items: seq<Item>, globals: seq<string>): Module {
    Module([SourceSection(Text, alignment, items)], globals, [], [])
  }

  /** The run-time address of item i. */
  function CodeAddress(items: seq<Item>, base: u64, i: nat): u64
    requires i <= |items|
  {
    Wrap(base + TrueOffset(items, i))
  }

  // ----- the assembled object -----

  lemma OneSource(alignment: u64, items: seq<Item>, globals: seq<string>)
    requires items != []
    ensures Sources(TextModule(alignment, items, globals), 4) == [SourceSection(Text, alignment, items)]
  {
    hide FindSection;
    var m := TextModule(alignment, items, globals);
    var section := SourceSection(Text, alignment, items);
    OnlySection(section, Text);
    OnlySection(section, Rodata);
    OnlySection(section, Data);
    OnlySection(section, Bss);
    assert m.sections == [section];
    assert Sources(m, 0) == [];
    assert Sources(m, 1) == [section];
    assert Sources(m, 2) == Sources(m, 1) + [] == [section];
    assert Sources(m, 3) == Sources(m, 2) + [] == [section];
    assert Sources(m, 4) == Sources(m, 3) + [] == [section];
  }

  lemma OnlySection(section: SourceSection, kind: SectionKind)
    ensures FindSection([section], kind) == if section.kind == kind then Some(section) else None
  {
    assert [section][1..] == [];
  }

  /** The emission of the one section, and what is known before it. */
  function Emitted(alignment: u64, items: seq<Item>, globals: seq<string>): Emission {
    EmitItems(PassTwoStart(TextModule(alignment, items, globals)).(data := []), items, 0, |items|)
  }

  lemma TextObject(alignment: u64, items: seq<Item>, globals: seq<string>)
    requires items != [] && Assemble(TextModule(alignment, items, globals)).Ok?
    ensures var m := TextModule(alignment, items, globals);
            var start, e, obj := PassTwoStart(m), Emitted(alignment, items, globals), Assemble(m).value;
      && UniqueNames(start.symbols) && start.relocations == [] && start.data == [] && start.errors == [] == e.errors
      && FitsMemory(items) && |e.data| == TrueOffset(items, |items|)
      && obj.symbols == e.symbols && obj.relocations == e.relocations && UniqueNames(obj.symbols)
      && |obj.sections| == 1 && obj.sections[0] == ObjectSection(Some(Text), obj.sections[0].alignment, e.data, |e.data|)
  {
    hide LayOutItems, EmitItems, ApplyBindings, UniqueNames;
    var m := TextModule(alignment, items, globals);
    var sources := Sources(m, 4);
    OneSource(alignment, items, globals);
    var start, e := PassTwoStart(m), Emitted(alignment, items, globals);
    StartFacts(m);
    assert EmitSection(sources, start, 0) == FinishSection(e, Text, LayOutSection(sources, 0).offset);
    ItemsExtend(start.(data := []), items, 0, 0, |items|);
    StartOfItems(start.(data := []), items);
    PassesAgreeIff(Layout(0, alignment, [], []), start.(data := []), items, 0);
    assert LayOutSection(sources, 0) == LayOutItems(Layout(0, alignment, [], []), items, 0, |items|);
  }

  lemma StartOfItems(e: Emission, items: seq<Item>)
    ensures EmitItems(e, items, 0, 0) == e
  {
  }

  lemma StartFacts(m: Module)
    ensures var start := PassTwoStart(m);
      && UniqueNames(start.symbols) && start.relocations == [] && start.data == []
      && SymbolsBefore(Sources(m, 4), |Sources(m, 4)|).1 <= start.errors
  {
    hide LayOutItems, UniqueNames, ApplyBindings, Sources;
    var sources := Sources(m, 4);
    var defined := SymbolsBefore(sources, |sources|);
    SymbolsKept(sources, |sources|, |sources|, "", 0, 0);
    BindingsKeep(defined.0, defined.1, m, "", 0, 0);
  }

  /** Every label is a symbol of the object at its true offset. */
  lemma TextLabels(alignment: u64, items: seq<Item>, globals: seq<string>, j: nat)
    requires items != [] && Assemble(TextModule(alignment, items, globals)).Ok?
    requires j < |items| && items[j].Label?
    ensures AssemblerProof.Placed(Assemble(TextModule(alignment, items, globals)).value.symbols, items[j].name, 0, TrueOffset(items, j))
  {
    hide LayOutItems, EmitItems, ApplyBindings, UniqueNames, AssemblerProof.Placed, Sources, Promote, DeclareExterns;
    var m := TextModule(alignment, items, globals);
    var name, value := items[j].name, TrueOffset(items, j);
    var start := PassTwoStart(m);
    TextObject(alignment, items, globals);
    OneSource(alignment, items, globals);
    var l := LayOutItems(Layout(0, alignment, [], []), items, 0, |items|);
    var defined := SymbolsBefore([SourceSection(Text, alignment, items)], 1);
    assert defined == (l.symbols, l.errors);
    StartFacts(m);
    EmptyTable();
    LabelsPlaced(Layout(0, alignment, [], []), items, 0, |items|, j);
    LayoutKeeps(Layout(0, alignment, [], []), items, 0, |items|, "", 0, 0);
    BindingsKeep(defined.0, defined.1, m, name, 0, value);
    ItemsExtend(start.(data := []), items, 0, 0, |items|);
    StartOfItems(start.(data := []), items);
  }

  // ----- the linked image -----

  /** What one link of one such object gives. */
  ghost predicate OneObject(obj: ObjectFile, data: seq<u8>) {
    && |data| < TWO64 && |obj.sections| == 1
    && obj.sections[0] == ObjectSection(Some(Text), obj.sections[0].alignment, data, |data|)
    && UniqueNames(obj.symbols)
  }

  lemma OneMerge(obj: ObjectFile, data: seq<u8>, options: LinkOptions)
    requires options.Valid() && OneObject(obj, data) && MergeObjects(InitialRegions(options), [obj], 1).Ok?
    ensures |data| <= REGION_SIZE < TWO64
    ensures MergeObjects(InitialRegions(options), [obj], 1).value.1 == [[LinkSpec.Placed(0, 0)]]
    ensures MergeObjects(InitialRegions(options), [obj], 1).value.0
         == InitialRegions(options)[0 := OutputRegion(Text, options.bases[0], data, |data|)]
  {
    hide MergeSection;
    var regions := InitialRegions(options);
    var section := obj.sections[0];
    OneSection(regions, section, data);
    assert MergeObject(regions, [section], 0) == Ok((regions, []));
    assert obj.sections == [section];
    assert MergeObjects(regions, [obj], 0) == Ok((regions, []));
    assert [] + [LinkSpec.Placed(0, 0)] == [LinkSpec.Placed(0, 0)];
  }

  lemma OneSection(regions: seq<OutputRegion>, section: ObjectSection, data: seq<u8>)
    requires |regions| == 4 && regions[0].kind.Text? && regions[0].size == 0 && regions[0].data == []
    requires section.kind == Some(Text) && section.data == data && section.size == |data|
    ensures MergeSection(regions, section).Ok? ==> |data| <= REGION_SIZE
    ensures MergeSection(regions, section).Ok? ==>
      MergeSection(regions, section).value == (regions[0 := regions[0].(data := data, size := |data|)], LinkSpec.Placed(0, 0))
  {
    assert AlignUp(0, section.alignment) == 0;
    assert Resized([], 0) + data == data;
    assert Resized(data, |data|) == data;
  }

  /** Where the definitions of one object come from. */
  ghost predicate DefinedBy(symbols: seq<Symbol>, n: nat, base: u64, name: string, d: Definition) {
    exists k :: 0 <= k < n <= |symbols| && symbols[k].name == name
      && (if symbols[k].defined then !symbols[k].binding.Local? && d.address == Wrap(base + symbols[k].value) else symbols[k].binding.Weak?)
  }

  lemma {:induction false} OneDefines(bases: seq<u64>, symbols: seq<Symbol>, n: nat)
    requires |bases| == 4 && n <= |symbols| && UniqueNames(symbols)
    requires DefineAll(bases, [LinkSpec.Placed(0, 0)], map[], symbols, n).Ok?
    ensures var defs := DefineAll(bases, [LinkSpec.Placed(0, 0)], map[], symbols, n).value;
      && (forall name :: name in defs ==> DefinedBy(symbols, n, bases[0], name, defs[name]))
      && (forall k :: 0 <= k < n && symbols[k].defined && !symbols[k].binding.Local? ==> symbols[k].name in defs)
  {
    if n > 0 {
      OneDefines(bases, symbols, n - 1);
      var before := DefineAll(bases, [LinkSpec.Placed(0, 0)], map[], symbols, n - 1).value;
      var defs := DefineAll(bases, [LinkSpec.Placed(0, 0)], map[], symbols, n).value;
      var s := symbols[n - 1];
      forall name | name in before
        ensures name != s.name && DefinedBy(symbols, n, bases[0], name, before[name])
      {
        var k :| 0 <= k < n - 1 && symbols[k].name == name
          && (if symbols[k].defined then !symbols[k].binding.Local? && before[name].address == Wrap(bases[0] + symbols[k].value) else symbols[k].binding.Weak?);
      }
      if s.defined && !s.binding.Local? {
        assert defs == before[s.name := Definition(Wrap(bases[0] + s.value), s.binding)];
        assert DefinedBy(symbols, n, bases[0], s.name, defs[s.name]);
      }
    }
  }

  lemma {:induction false} OneChecks(base: u64, defs: Definitions, symbols: seq<Symbol>, n: nat)
    requires n <= |symbols| && CheckReferences(defs, symbols, n).Ok?
    requires forall name :: name in defs ==> DefinedBy(symbols, |symbols|, base, name, defs[name])
    ensures var after := CheckReferences(defs, symbols, n).value;
      && (forall name :: name in after ==> DefinedBy(symbols, |symbols|, base, name, after[name]))
      && (forall name :: name in defs ==> name in after)
  {
    if n > 0 {
      OneChecks(base, defs, symbols, n - 1);
    }
  }

  /** A label has its run-time address, whatever its binding; an entry symbol too. */
  lemma LabelAddress(bases: seq<u64>, symbols: seq<Symbol>, defs: Definitions, name: string, value: nat)
    requires |bases| == 4 && UniqueNames(symbols) && AssemblerProof.Placed(symbols, name, 0, value)
    requires forall other :: other in defs ==> DefinedBy(symbols, |symbols|, bases[0], other, defs[other])
    requires forall k :: 0 <= k < |symbols| && symbols[k].defined && !symbols[k].binding.Local? ==> symbols[k].name in defs
    ensures IndexOf(symbols, name) < |symbols|
    ensures SymbolAddress(bases, [LinkSpec.Placed(0, 0)], defs, symbols[IndexOf(symbols, name)]) == Ok(Wrap(bases[0] + value))
    ensures name in defs ==> defs[name].address == Wrap(bases[0] + value)
  {
    hide DefinedBy, IndexOf, UniqueNames;
    var i := IndexOf(symbols, name);
    if name in defs {
      DefinitionAddress(symbols, bases[0], name, defs[name]);
    }
  }

  lemma DefinitionAddress(symbols: seq<Symbol>, base: u64, name: string, d: Definition)
    requires UniqueNames(symbols) && IndexOf(symbols, name) < |symbols| && symbols[IndexOf(symbols, name)].defined
    requires DefinedBy(symbols, |symbols|, base, name, d)
    ensures d.address == Wrap(base + symbols[IndexOf(symbols, name)].value)
  {
    var k :| 0 <= k < |symbols| && symbols[k].name == name
      && (if symbols[k].defined then !symbols[k].binding.Local? && d.address == Wrap(base + symbols[k].value) else symbols[k].binding.Weak?);
    IndexUnique(symbols, k);
  }

  // ----- the code in the image -----

  /** The eight bytes at item i. */
  function CodeAt(code: seq<u8>, items: seq<Item>, i: nat): (r: seq<u8>)
    requires i < |items| && TrueOffset(items, i) + INSTRUCTION_SIZE <= |code|
    ensures |r| == INSTRUCTION_SIZE
  {
    code[TrueOffset(items, i)..TrueOffset(items, i) + INSTRUCTION_SIZE]
  }

  /** The decoded instruction is the one of the item, its symbol replaced by the address of the label
      or the displacement to it. */
  ghost predicate Stands(items: seq<Item>, base: u64, i: nat, m: Instruction)
    requires i < |items| && items[i].Instr?
  {
    var ins := items[i].ins;
    && m == ins.machine.(imm := m.imm)
    && (ins.symbol.None? ==> m == ins.machine)
    && (ins.symbol.Some? && ins.symbol.value.name in LabelMap(items) && ins.symbol.value.addend == 0 ==>
         var target := CodeAddress(items, base, LabelMap(items)[ins.symbol.value.name]);
         if RelocationFor(ins.machine.opcode).PCREL48? then BranchAddress(CodeAddress(items, base, i), m.imm) == target
         else ToU64(m.imm) == target)
  }

  /** The bytes of a section as they are run. */
  ghost predicate CodeImage(items: seq<Item>, base: u64, code: seq<u8>) {
    && |code| == TrueOffset(items, |items|)
    && forall i :: 0 <= i < |items| && items[i].Instr? ==>
         && TrueOffset(items, i) + INSTRUCTION_SIZE <= |code|
         && DecodeFrom(CodeAt(code, items, i)).Ok? && Stands(items, base, i, DecodeFrom(CodeAt(code, items, i)).value)
  }

  ghost predicate HasSite(items: seq<Item>, x: Resolved) {
    exists j :: SiteOn(items, x, j)
  }

  ghost predicate AllSites(items: seq<Item>, rs: seq<Resolved>) {
    forall q :: 0 <= q < |rs| ==> HasSite(items, rs[q])
  }

  /** An instruction without a symbol lies apart from every relocation. */
  lemma PlainUntouched(items: seq<Item>, rs: seq<Resolved>, i: nat, p: nat)
    requires i < |items| && items[i].Instr? && items[i].ins.symbol.None?
    requires TrueOffset(items, i) <= p < TrueOffset(items, i) + INSTRUCTION_SIZE
    requires AllSites(items, rs)
    ensures !Touched(rs, p)
  {
    if Touched(rs, p) {
      var q :| 0 <= q < |rs| && rs[q].relocation.offset <= p < rs[q].relocation.offset + RelocationWidth(rs[q].relocation.kind);
      var j :| SiteOn(items, rs[q], j);
      if j < i {
        OffsetsGrow(items, j, i);
      } else {
        OffsetsGrow(items, i, j);
      }
      assert false;
    }
  }

  /** The relocation patches the bytes of item j. */
  ghost predicate SiteOn(items: seq<Item>, x: Resolved, j: int) {
    && 0 <= j < |items| && Symbolic(items[j]) && x.relocation.offset == TrueOffset(items, j)
    && RelocationWidth(x.relocation.kind) == SizeOf(items[j], TrueOffset(items, j))
  }

  /** One code section, assembled and linked on its own. */
  ghost predicate Compiled(alignment: u64, items: seq<Item>, globals: seq<string>, options: LinkOptions, t: Stages)
    requires options.Valid()
  {
    && items != [] && WidthsOk(items) && Assemble(TextModule(alignment, items, globals)).Ok?
    && |t.merged| == 4 == |t.patched| && |t.placements| == 1
    && LinkStages([Assemble(TextModule(alignment, items, globals)).value], options, t)
  }

  lemma TextSites(alignment: u64, items: seq<Item>, globals: seq<string>)
    requires items != [] && WidthsOk(items) && Assemble(TextModule(alignment, items, globals)).Ok?
    ensures SitesOk(Assemble(TextModule(alignment, items, globals)).value)
  {
    hide EmitItems, Assemble, PassTwoStart;
    var start := PassTwoStart(TextModule(alignment, items, globals));
    TextObject(alignment, items, globals);
    var obj := Assemble(TextModule(alignment, items, globals)).value;
    var e := start.(data := []);
    forall r: nat | r < |obj.relocations|
      ensures SiteInside(obj, obj.relocations[r])
    {
      var j := SiteItem(e, items, 0, r);
    }
    forall r: nat, r': nat | r < r' < |obj.relocations|
      ensures Apart(obj.relocations[r], obj.relocations[r'])
    {
      SitePair(e, items, 0, r, r');
    }
  }

  lemma CompiledMerge(alignment: u64, items: seq<Item>, globals: seq<string>, options: LinkOptions, t: Stages)
    requires options.Valid() && Compiled(alignment, items, globals, options, t)
    ensures var e := Emitted(alignment, items, globals);
      && |e.data| <= REGION_SIZE && t.placements == [[LinkSpec.Placed(0, 0)]]
      && t.merged == InitialRegions(options)[0 := OutputRegion(Text, options.bases[0], e.data, |e.data|)]
      && OneObject(Assemble(TextModule(alignment, items, globals)).value, e.data)
  {
    hide Emitted, Assemble, PassTwoStart, MergeObjects, InitialRegions, DefineObjects, CheckObjects, ApplyObjects;
    TextObject(alignment, items, globals);
    OneMerge(Assemble(TextModule(alignment, items, globals)).value, Emitted(alignment, items, globals).data, options);
  }

  /** The definitions of the link come from the symbols of the object. */
  ghost predicate DefsOf(symbols: seq<Symbol>, base: u64, defs: Definitions) {
    && UniqueNames(symbols)
    && (forall name :: name in defs ==> DefinedBy(symbols, |symbols|, base, name, defs[name]))
    && (forall k :: 0 <= k < |symbols| && symbols[k].defined && !symbols[k].binding.Local? ==> symbols[k].name in defs)
  }

  lemma CompiledDefs(alignment: u64, items: seq<Item>, globals: seq<string>, options: LinkOptions, t: Stages)
    requires options.Valid() && Compiled(alignment, items, globals, options, t)
    ensures DefsOf(Assemble(TextModule(alignment, items, globals)).value.symbols, options.bases[0], t.defs)
  {
    hide Emitted, Assemble, PassTwoStart, MergeObjects, InitialRegions, ApplyObjects, DefineAll, CheckReferences, DefinedBy, UniqueNames;
    var obj := Assemble(TextModule(alignment, items, globals)).value;
    CompiledMerge(alignment, items, globals, options, t);
    assert DefineObjects(options.bases, t.placements, [obj], 0) == Ok(map[]);
    var defs := DefineAll(options.bases, [LinkSpec.Placed(0, 0)], map[], obj.symbols, |obj.symbols|);
    assert DefineObjects(options.bases, t.placements, [obj], 1) == defs;
    OneDefines(options.bases, obj.symbols, |obj.symbols|);
    assert CheckObjects(defs.value, [obj], 0) == Ok(defs.value);
    OneChecks(options.bases[0], defs.value, obj.symbols, |obj.symbols|);
  }

  /** The address a label resolves to. */
  lemma CompiledLabel(alignment: u64, items: seq<Item>, globals: seq<string>, options: LinkOptions, t: Stages, name: string)
    requires options.Valid() && Compiled(alignment, items, globals, options, t) && name in LabelMap(items)
    ensures var symbols := Assemble(TextModule(alignment, items, globals)).value.symbols;
            var address := CodeAddress(items, options.bases[0], LabelMap(items)[name]);
      && IndexOf(symbols, name) < |symbols|
      && SymbolAddress(options.bases, [LinkSpec.Placed(0, 0)], t.defs, symbols[IndexOf(symbols, name)]) == Ok(address)
      && (name in t.defs ==> t.defs[name].address == address)
  {
    hide Assemble, LinkStages, AssemblerProof.Placed, SymbolAddress, UniqueNames;
    var symbols := Assemble(TextModule(alignment, items, globals)).value.symbols;
    TextLabels(alignment, items, globals, LabelMap(items)[name]);
    CompiledDefs(alignment, items, globals, options, t);
    LabelAddress(options.bases, symbols, t.defs, name, TrueOffset(items, LabelMap(items)[name]));
  }

  /** The patch of a relocation of the object. */
  lemma CompiledPatch(alignment: u64, items: seq<Item>, globals: seq<string>, options: LinkOptions, t: Stages, j: nat)
    requires options.Valid() && Compiled(alignment, items, globals, options, t) && j < |items| && Symbolic(items[j])
    ensures var obj := Assemble(TextModule(alignment, items, globals)).value;
            var r := RelocCount(items, j);
      && r < |obj.relocations| && TrueOffset(items, j) < TWO64
      && obj.relocations[r] == SiteOf(items[j], 0, TrueOffset(items, j), obj.symbols)
      && ResolvePatch(options.bases, [LinkSpec.Placed(0, 0)], t.defs, obj.symbols, obj.relocations[r]).Ok?
      && PatchOf(options.bases, [LinkSpec.Placed(0, 0)], t.defs, obj, r).region == 0
      && PatchOf(options.bases, [LinkSpec.Placed(0, 0)], t.defs, obj, r).patch.relocation == obj.relocations[r]
  {
    hide Assemble, EmitItems, PassTwoStart, LinkStages, SymbolAddress, ResolvePatch, PatchOf, Symbolic, OneObject;
    var obj := Assemble(TextModule(alignment, items, globals)).value;
    var start := PassTwoStart(TextModule(alignment, items, globals));
    TextObject(alignment, items, globals);
    CompiledMerge(alignment, items, globals, options, t);
    RelocationPlaced(start.(data := []), items, 0, j);
    assert start.(data := []).relocations == [];
    CompiledResolves(obj, options, t, RelocCount(items, j));
  }

  lemma CompiledResolves(obj: ObjectFile, options: LinkOptions, t: Stages, r: nat)
    requires options.Valid() && LinkStages([obj], options, t) && t.placements == [[LinkSpec.Placed(0, 0)]] && r < |obj.relocations|
    ensures ResolvePatch(options.bases, [LinkSpec.Placed(0, 0)], t.defs, obj.symbols, obj.relocations[r]).Ok?
    ensures var p := PatchOf(options.bases, [LinkSpec.Placed(0, 0)], t.defs, obj, r);
      p.region == 0 && p.patch.relocation == obj.relocations[r]
  {
    hide MergeObjects, InitialRegions, DefineObjects, CheckObjects, ApplyObjects, SymbolAddress;
    ObjectsFold(options.bases, t.placements, t.defs, [obj], t.merged, 1);
  }

  /** Every patch of the link patches the bytes of its item. */
  lemma CompiledSites(alignment: u64, items: seq<Item>, globals: seq<string>, options: LinkOptions, t: Stages, q: nat)
    requires options.Valid() && Compiled(alignment, items, globals, options, t)
    requires var obj := Assemble(TextModule(alignment, items, globals)).value;
      q < |Only(AllPatches(options.bases, t.placements, t.defs, [obj], 1), 0)|
    ensures var obj := Assemble(TextModule(alignment, items, globals)).value;
      HasSite(items, Only(AllPatches(options.bases, t.placements, t.defs, [obj], 1), 0)[q])
  {
    hide Assemble, EmitItems, PassTwoStart, LinkStages, PatchOf;
    var obj := Assemble(TextModule(alignment, items, globals)).value;
    var ps := AllPatches(options.bases, t.placements, t.defs, [obj], 1);
    TextObject(alignment, items, globals);
    CompiledMerge(alignment, items, globals, options, t);
    assert AllPatches(options.bases, t.placements, t.defs, [obj], 0) == [];
    assert ps == Patches(options.bases, [LinkSpec.Placed(0, 0)], t.defs, obj, |obj.relocations|);
    var x := OnlyFrom(ps, 0, q);
    RelocationsCounted(PassTwoStart(TextModule(alignment, items, globals)).(data := []), items, 0, |items|);
    var j := RelocationItem(items, |items|, x);
    CompiledPatch(alignment, items, globals, options, t, j);
    assert SiteOn(items, ps[x].patch, j);
  }

  lemma CompiledAllSites(alignment: u64, items: seq<Item>, globals: seq<string>, options: LinkOptions, t: Stages)
    requires options.Valid() && Compiled(alignment, items, globals, options, t)
    ensures var obj := Assemble(TextModule(alignment, items, globals)).value;
      AllSites(items, Only(AllPatches(options.bases, t.placements, t.defs, [obj], 1), 0))
  {
    hide Assemble, AllPatches, SiteOn, LinkStages;
    var obj := Assemble(TextModule(alignment, items, globals)).value;
    forall q: nat | q < |Only(AllPatches(options.bases, t.placements, t.defs, [obj], 1), 0)|
      ensures HasSite(items, Only(AllPatches(options.bases, t.placements, t.defs, [obj], 1), 0)[q])
    {
      CompiledSites(alignment, items, globals, options, t, q);
    }
  }

  /** An instruction with a symbol is patched in place. */
  lemma SymbolicStands(alignment: u64, items: seq<Item>, globals: seq<string>, options: LinkOptions, t: Stages, i: nat)
    requires options.Valid() && Compiled(alignment, items, globals, options, t)
    requires i < |items| && items[i].Instr? && items[i].ins.symbol.Some?
    ensures var code := t.patched[0].data;
      && TrueOffset(items, i) + INSTRUCTION_SIZE <= |code|
      && DecodeFrom(CodeAt(code, items, i)).Ok? && Stands(items, options.bases[0], i, DecodeFrom(CodeAt(code, items, i)).value)
  {
    hide Assemble, EmitItems, PassTwoStart, LinkStages, ResolvePatch, Encode, DecodeFrom, LabelMap, FieldHolds, SymbolAddress, SitesOk, PatchOf, Stands, TrueOffset, RelocCount, InitialRegions;
    var obj := Assemble(TextModule(alignment, items, globals)).value;
    var ins := items[i].ins;
    var r := RelocCount(items, i);
    TextObject(alignment, items, globals);
    TextSites(alignment, items, globals);
    CompiledMerge(alignment, items, globals, options, t);
    CompiledPatch(alignment, items, globals, options, t, i);
    RelocationHolds([obj], options, t, 0, r);
    BytesPlaced(PassTwoStart(TextModule(alignment, items, globals)).(data := []), items, 0, i);
    InstructionReads(Placeholder(ins));
    if ins.symbol.value.name in LabelMap(items) {
      PatchAddress(alignment, items, globals, options, t, i);
    }
    PatchStands(items, options.bases[0], i, PatchOf(options.bases, [LinkSpec.Placed(0, 0)], t.defs, obj, r).patch.address,
                CodeAt(t.merged[0].data, items, i), CodeAt(t.patched[0].data, items, i));
  }

  /** What a patched field means for the instruction in it. */
  lemma PatchStands(items: seq<Item>, base: u64, i: nat, address: u64, before: seq<u8>, after: seq<u8>)
    requires i < |items| && items[i].Instr? && items[i].ins.symbol.Some? && |before| == 8 == |after|
    requires DecodeFrom(before) == Ok(Placeholder(items[i].ins))
    requires FieldHolds(KindOf(items[i]), address, items[i].ins.symbol.value.addend, CodeAddress(items, base, i), before, after)
    requires items[i].ins.symbol.value.name in LabelMap(items) ==>
      address == CodeAddress(items, base, LabelMap(items)[items[i].ins.symbol.value.name])
    ensures DecodeFrom(after).Ok? && Stands(items, base, i, DecodeFrom(after).value)
  {
    hide DecodeFrom, LabelMap, CodeAddress;
    assert KindOf(items[i]) == RelocationFor(items[i].ins.machine.opcode);
  }

  lemma InstructionReads(m: Instruction)
    requires Encode(m).Ok?
    ensures DecodeFrom(EncodedBytes(m)) == Ok(m)
  {
    BufferRoundTrip(m, []);
    assert EncodedBytes(m) + [] == EncodedBytes(m);
  }

  lemma PatchAddress(alignment: u64, items: seq<Item>, globals: seq<string>, options: LinkOptions, t: Stages, i: nat)
    requires options.Valid() && Compiled(alignment, items, globals, options, t)
    requires i < |items| && items[i].Instr? && items[i].ins.symbol.Some? && items[i].ins.symbol.value.name in LabelMap(items)
    ensures var obj := Assemble(TextModule(alignment, items, globals)).value;
      && RelocCount(items, i) < |obj.relocations|
      && PatchOf(options.bases, [LinkSpec.Placed(0, 0)], t.defs, obj, RelocCount(items, i)).patch.address
         == CodeAddress(items, options.bases[0], LabelMap(items)[items[i].ins.symbol.value.name])
  {
    hide Assemble, LinkStages, SymbolAddress, LabelMap, CodeAddress;
    CompiledPatch(alignment, items, globals, options, t, i);
    CompiledLabel(alignment, items, globals, options, t, items[i].ins.symbol.value.name);
  }

  /** An instruction without one is left as it was encoded. */
  lemma PlainStands(alignment: u64, items: seq<Item>, globals: seq<string>, options: LinkOptions, t: Stages, i: nat)
    requires options.Valid() && Compiled(alignment, items, globals, options, t)
    requires i < |items| && items[i].Instr? && items[i].ins.symbol.None?
    ensures var code := t.patched[0].data;
      && TrueOffset(items, i) + INSTRUCTION_SIZE <= |code|
      && DecodeFrom(CodeAt(code, items, i)) == Ok(items[i].ins.machine)
  {
    hide Assemble, EmitItems, PassTwoStart, LinkStages, Encode, Decode, FieldApplied, Touched;
    var obj := Assemble(TextModule(alignment, items, globals)).value;
    var rs := Only(AllPatches(options.bases, t.placements, t.defs, [obj], 1), 0);
    TextObject(alignment, items, globals);
    TextSites(alignment, items, globals);
    CompiledMerge(alignment, items, globals, options, t);
    RelocationsOfLink([obj], options, t, 0);
    BytesPlaced(PassTwoStart(TextModule(alignment, items, globals)).(data := []), items, 0, i);
    CompiledAllSites(alignment, items, globals, options, t);
    forall p | TrueOffset(items, i) <= p < TrueOffset(items, i) + INSTRUCTION_SIZE
      ensures t.patched[0].data[p] == t.merged[0].data[p]
    {
      PlainUntouched(items, rs, i, p);
    }
    assert CodeAt(t.patched[0].data, items, i) == EncodedBytes(items[i].ins.machine);
    InstructionReads(items[i].ins.machine);
  }

  lemma OneSegment(regions: seq<OutputRegion>)
    requires |regions| == 4 && regions[1].size == 0 && regions[2].size == 0 && regions[3].size == 0
    ensures SegmentsOf(regions, 4) == if regions[0].size == 0 then [] else [SegmentOf(regions[0])]
  {
    assert SegmentsOf(regions, 0) == [];
    assert SegmentsOf(regions, 1) == if regions[0].size == 0 then [] else [SegmentOf(regions[0])];
    assert SegmentsOf(regions, 2) == SegmentsOf(regions, 1) && SegmentsOf(regions, 3) == SegmentsOf(regions, 2);
  }

  /** The image of a module with one code section is one segment; every instruction of the section
      stands in it at its address, and control starts at the entry label. */
  lemma TextLinks(alignment: u64, items: seq<Item>, globals: seq<string>, options: LinkOptions) returns (code: seq<u8>)
    requires options.Valid() && items != [] && WidthsOk(items) && options.entry in LabelMap(items)
    requires Assemble(TextModule(alignment, items, globals)).Ok?
    requires Link([Assemble(TextModule(alignment, items, globals)).value], options).Ok?
    ensures CodeImage(items, options.bases[0], code)
    ensures 0 < |code| && options.bases[0] + |code| < TWO64
    ensures Link([Assemble(TextModule(alignment, items, globals)).value], options)
         == Ok(Executable(CodeAddress(items, options.bases[0], LabelMap(items)[options.entry]),
                          [Segment(Text, FlagsOf(Text), options.bases[0], |code|, code)]))
  {
    hide Assemble, Link, LinkStages, CodeAddress, LabelMap, Stands, Validate, InitialRegions, DecodeFrom;
    var obj := Assemble(TextModule(alignment, items, globals)).value;
    var t := LinkHasStages([obj], options);
    code := t.patched[0].data;
    CompiledMerge(alignment, items, globals, options, t);
    TextObject(alignment, items, globals);
    TextSites(alignment, items, globals);
    CompiledLabel(alignment, items, globals, options, t, options.entry);
    CompiledRegions(alignment, items, globals, options, t);
    OneSegment(t.patched);
    var e := Link([obj], options).value;
    ValidImage(e);
    assert SegmentFault(e.segments[0]).None?;
    forall i | 0 <= i < |items| && items[i].Instr?
      ensures TrueOffset(items, i) + INSTRUCTION_SIZE <= |code|
      ensures DecodeFrom(CodeAt(code, items, i)).Ok? && Stands(items, options.bases[0], i, DecodeFrom(CodeAt(code, items, i)).value)
    {
      if items[i].ins.symbol.Some? {
        SymbolicStands(alignment, items, globals, options, t, i);
      } else {
        PlainStands(alignment, items, globals, options, t, i);
        PlainIsItself(items, options.bases[0], i);
      }
    }
  }

  lemma PlainIsItself(items: seq<Item>, base: u64, i: nat)
    requires i < |items| && items[i].Instr? && items[i].ins.symbol.None?
    ensures Stands(items, base, i, items[i].ins.machine)
  {
    hide LabelMap;
  }

  lemma CompiledRegions(alignment: u64, items: seq<Item>, globals: seq<string>, options: LinkOptions, t: Stages)
    requires options.Valid() && Compiled(alignment, items, globals, options, t)
    ensures t.patched[1].size == 0 && t.patched[2].size == 0 && t.patched[3].size == 0
    ensures t.patched[0].kind.Text? && t.patched[0].base == options.bases[0]
    ensures t.patched[0].size == |t.patched[0].data| == TrueOffset(items, |items|)
  {
    hide Assemble, LinkStages, AllApplied, Emitted, PassTwoStart;
    var obj := Assemble(TextModule(alignment, items, globals)).value;
    CompiledMerge(alignment, items, globals, options, t);
    TextObject(alignment, items, globals);
    TextSites(alignment, items, globals);
    forall g | 0 <= g < 4
      ensures t.patched[g] == t.merged[g].(data := t.patched[g].data)
    {
      RelocationsOfLink([obj], options, t, g);
    }
    RelocationsOfLink([obj], options, t, 0);
    AppliedLength(t.merged[0].data, options.bases[0], Only(AllPatches(options.bases, t.placements, t.defs, [obj], 1), 0), t.patched[0].data);
  }

  lemma AppliedLength(data: seq<u8>, base: u64, rs: seq<Resolved>, d: seq<u8>)
    requires AllApplied(data, base, rs, d)
    ensures |d| == |data|
  {
  }
}
