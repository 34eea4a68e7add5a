/** Which code sections build: the assembler, the linker and the loader accept every section whose
    instructions encode and whose symbols are its own labels. */
module Buildable {
  import opened Words
  import opened Isa
  import opened Ir
  import opened Codec
  import opened Relocations
  import opened Symbols
  import opened ControlFlowGraph
  import opened AssemblySpec
  import opened AssemblerProof
  import opened Executables
  import opened LinkSpec
  import opened LinkProof
  import opened TextImage
  import opened VmSpec
  import opened Compiler

  /** The instruction encodes, and its symbol, if any, is a label of the section where one may stand. */
  ghost predicate OperandOk(items: seq<Item>, ins: IrInstruction) {
    && Encode(Placeholder(ins)).Ok?
    && (ins.symbol.Some? ==> TakesSymbol(ins.machine.opcode) && ins.symbol.value.addend == 0 && ins.symbol.value.name in LabelMap(items))
  }

  ghost predicate OperandsOk(items: seq<Item>) {
    forall i :: 0 <= i < |items| && items[i].Instr? ==> OperandOk(items, items[i].ins)
  }

  ghost predicate WellFormed(items: seq<Item>, globals: seq<string>, entry: string) {
    && CodeOnly(items) && UniqueLabels(items) && OperandsOk(items)
    && TrueOffset(items, |items|) <= REGION_SIZE
    && (forall k :: 0 <= k < |globals| ==> globals[k] in LabelMap(items))
    && entry in globals && TrueOffset(items, LabelMap(items)[entry]) < TrueOffset(items, |items|)
  }

  // ----- the assembler -----

  ghost predicate LabelBefore(items: seq<Item>, n: nat, name: string) {
    exists j :: 0 <= j < n && j < |items| && items[j].Label? && items[j].name == name
  }

  ghost predicate AllDefined(symbols: seq<Symbol>) {
    UniqueNames(symbols) && forall k :: 0 <= k < |symbols| ==> symbols[k].defined && symbols[k].section == 0
  }

  /** The symbols are the labels before item n. */
  ghost predicate Table(symbols: seq<Symbol>, items: seq<Item>, n: nat) {
    AllDefined(symbols) && forall name :: IndexOf(symbols, name) < |symbols| <==> LabelBefore(items, n, name)
  }

  lemma NewLabel(l: Layout, items: seq<Item>, n: nat)
    requires UniqueLabels(items) && n < |items| && items[n].Label? && Table(l.symbols, items, n)
    ensures DefineLabel(l, items[n].name, 0).errors == l.errors && Table(DefineLabel(l, items[n].name, 0).symbols, items, n + 1)
  {
    var name := items[n].name;
    assert !LabelBefore(items, n, name);
    var symbol := Symbol(name, Local, 0, l.offset, true);
    assert WithName(l.symbols, name)[|l.symbols| := symbol] == l.symbols + [symbol];
    IndexFollows(l.symbols, symbol, l.symbols + [symbol]);
    forall other
      ensures LabelBefore(items, n + 1, other) <==> LabelBefore(items, n, other) || other == name
    {
      assert other == name ==> items[n].name == other;
    }
  }

  lemma {:induction false} LayoutClean(l: Layout, items: seq<Item>, n: nat)
    requires l.symbols == [] && UniqueLabels(items) && n <= |items|
    ensures LayOutItems(l, items, 0, n).errors == l.errors && Table(LayOutItems(l, items, 0, n).symbols, items, n)
  {
    if n > 0 {
      hide Table, DefineLabel, LayOutItem, UniqueLabels;
      LayoutClean(l, items, n - 1);
      var before := LayOutItems(l, items, 0, n - 1);
      OneItem(before, items[n - 1]);
      if items[n - 1].Label? {
        NewLabel(before, items, n - 1);
      } else {
        SameTable(before.symbols, items, n - 1);
      }
    } else {
      NothingDefined(items);
    }
  }

  lemma OneItem(l: Layout, item: Item)
    ensures item.Label? ==> LayOutItem(l, item, 0) == DefineLabel(l, item.name, 0)
    ensures !item.Label? ==> LayOutItem(l, item, 0).symbols == l.symbols && LayOutItem(l, item, 0).errors == l.errors
  {
    hide DefineLabel, AlignUp;
  }

  lemma NothingDefined(items: seq<Item>)
    ensures Table([], items, 0)
  {
  }

  lemma SameTable(symbols: seq<Symbol>, items: seq<Item>, n: nat)
    requires n < |items| && !items[n].Label? && Table(symbols, items, n)
    ensures Table(symbols, items, n + 1)
  {
    forall name
      ensures LabelBefore(items, n + 1, name) <==> LabelBefore(items, n, name)
    {
    }
  }

  /** Promoting known names changes bindings only. */
  lemma PromoteOne(symbols: seq<Symbol>, name: string, binding: SymbolBinding)
    requires AllDefined(symbols) && IndexOf(symbols, name) < |symbols|
    ensures var i := IndexOf(symbols, name);
            var t := symbols[i := symbols[i].(binding := binding)];
      && AllDefined(t) && (forall other :: IndexOf(t, other) == IndexOf(symbols, other))
      && WithName(symbols, name)[i := WithName(symbols, name)[i].(binding := binding)] == t
  {
    var i := IndexOf(symbols, name);
    var t := symbols[i := symbols[i].(binding := binding)];
    forall other
      ensures IndexOf(t, other) == IndexOf(symbols, other)
    {
      SameIndex(symbols, t, other);
    }
  }

  lemma {:induction false} SameIndex(a: seq<Symbol>, b: seq<Symbol>, name: string)
    requires |a| == |b| && forall k :: 0 <= k < |a| ==> a[k].name == b[k].name
    ensures IndexOf(a, name) == IndexOf(b, name)
  {
    if a != [] && a[0].name != name {
      SameIndex(a[1..], b[1..], name);
    }
  }

  lemma {:induction false} Promoted(symbols: seq<Symbol>, names: seq<string>, n: nat, binding: SymbolBinding)
    requires AllDefined(symbols) && n <= |names| && forall k :: 0 <= k < |names| ==> IndexOf(symbols, names[k]) < |symbols|
    ensures var t := Promote(symbols, names, n, binding);
      AllDefined(t) && |t| == |symbols| && forall other :: IndexOf(t, other) == IndexOf(symbols, other)
  {
    hide AllDefined, IndexOf, WithName;
    if n > 0 {
      Promoted(symbols, names, n - 1, binding);
      var before := Promote(symbols, names, n - 1, binding);
      assert IndexOf(before, names[n - 1]) == IndexOf(symbols, names[n - 1]);
      PromoteOne(before, names[n - 1], binding);
    }
  }

  lemma PromoteLast(symbols: seq<Symbol>, names: seq<string>, n: nat, binding: SymbolBinding)
    requires AllDefined(symbols) && 0 < n <= |names| && forall k :: 0 <= k < |names| ==> IndexOf(symbols, names[k]) < |symbols|
    ensures var before, i := Promote(symbols, names, n - 1, binding), IndexOf(symbols, names[n - 1]);
      |before| == |symbols| && Promote(symbols, names, n, binding) == before[i := before[i].(binding := binding)]
  {
    hide AllDefined, IndexOf, WithName;
    Promoted(symbols, names, n - 1, binding);
    var before := Promote(symbols, names, n - 1, binding);
    assert IndexOf(before, names[n - 1]) == IndexOf(symbols, names[n - 1]);
    PromoteOne(before, names[n - 1], binding);
  }

  lemma {:induction false} PromotedBinding(symbols: seq<Symbol>, names: seq<string>, n: nat, binding: SymbolBinding, k: nat)
    requires AllDefined(symbols) && k < n <= |names| && forall k :: 0 <= k < |names| ==> IndexOf(symbols, names[k]) < |symbols|
    ensures |Promote(symbols, names, n, binding)| == |symbols|
    ensures Promote(symbols, names, n, binding)[IndexOf(symbols, names[k])].binding == binding
  {
    hide AllDefined, IndexOf, WithName, Promote;
    PromoteLast(symbols, names, n, binding);
    if k < n - 1 {
      PromotedBinding(symbols, names, n - 1, binding, k);
    }
  }

  lemma ReferenceKnown(e: Emission, name: string)
    requires AllDefined(e.symbols) && IndexOf(e.symbols, name) < |e.symbols|
    ensures Reference(e, name) == e
  {
  }

  lemma {:induction false} EmitClean(e: Emission, items: seq<Item>, n: nat)
    requires AllDefined(e.symbols) && CodeOnly(items) && OperandsOk(items) && n <= |items|
    requires forall name :: name in LabelMap(items) ==> IndexOf(e.symbols, name) < |e.symbols|
    ensures EmitItems(e, items, 0, n).errors == e.errors && EmitItems(e, items, 0, n).symbols == e.symbols
  {
    hide AllDefined, IndexOf, Encode, EncodedBytes, LabelMap, Reference;
    if n > 0 {
      EmitClean(e, items, n - 1);
      var before := EmitItems(e, items, 0, n - 1);
      if items[n - 1].Instr? {
        assert OperandOk(items, items[n - 1].ins);
        if items[n - 1].ins.symbol.Some? {
          ReferenceKnown(before, items[n - 1].ins.symbol.value.name);
        }
      }
    }
  }

  /** The symbols of the assembled object. */
  ghost predicate SymbolsReady(symbols: seq<Symbol>, items: seq<Item>, globals: seq<string>) {
    && Table(symbols, items, |items|)
    && forall k :: 0 <= k < |globals| ==>
         IndexOf(symbols, globals[k]) < |symbols| && symbols[IndexOf(symbols, globals[k])].binding.Global?
  }

  lemma LabelIsBefore(items: seq<Item>, name: string)
    ensures LabelBefore(items, |items|, name) <==> name in LabelMap(items)
  {
    if name in LabelMap(items) {
      assert items[LabelMap(items)[name]].name == name;
    }
  }

  lemma StartReady(alignment: u64, items: seq<Item>, globals: seq<string>)
    requires items != [] && UniqueLabels(items) && forall k :: 0 <= k < |globals| ==> globals[k] in LabelMap(items)
    ensures var start := PassTwoStart(TextModule(alignment, items, globals));
      start.errors == [] && SymbolsReady(start.symbols, items, globals)
  {
    hide LayOutItems, IndexOf, WithName, LabelMap, AllDefined, Sources;
    var m := TextModule(alignment, items, globals);
    OneSource(alignment, items, globals);
    var l := LayOutItems(Layout(0, alignment, [], []), items, 0, |items|);
    LayoutClean(Layout(0, alignment, [], []), items, |items|);
    assert SymbolsBefore([SourceSection(Text, alignment, items)], 1) == (l.symbols, l.errors);
    forall k | 0 <= k < |globals|
      ensures IndexOf(l.symbols, globals[k]) < |l.symbols|
    {
      LabelIsBefore(items, globals[k]);
    }
    Promoted(l.symbols, globals, |globals|, Global);
    var bound := Promote(l.symbols, globals, |globals|, Global);
    forall k | 0 <= k < |globals|
      ensures bound[IndexOf(l.symbols, globals[k])].binding == Global
    {
      PromotedBinding(l.symbols, globals, |globals|, Global, k);
    }
    assert ApplyBindings(l.symbols, l.errors, m) == (bound, l.errors);
  }

  /** A well-made section assembles. */
  lemma Assembles(alignment: u64, items: seq<Item>, globals: seq<string>)
    requires items != [] && CodeOnly(items) && UniqueLabels(items) && OperandsOk(items) && FitsMemory(items)
    requires forall k :: 0 <= k < |globals| ==> globals[k] in LabelMap(items)
    ensures Assemble(TextModule(alignment, items, globals)).Ok?
    ensures SymbolsReady(Assemble(TextModule(alignment, items, globals)).value.symbols, items, globals)
  {
    hide LayOutItems, EmitItems, IndexOf, LabelMap, AllDefined, Sources, PassTwoStart, OperandsOk, CodeOnly, UniqueLabels;
    var m := TextModule(alignment, items, globals);
    var sources, start := Sources(m, 4), PassTwoStart(m);
    OneSource(alignment, items, globals);
    StartReady(alignment, items, globals);
    forall name | name in LabelMap(items)
      ensures IndexOf(start.symbols, name) < |start.symbols|
    {
      LabelIsBefore(items, name);
    }
    EmitClean(start.(data := []), items, |items|);
    PassesAgreeIff(Layout(0, alignment, [], []), start.(data := []), items, 0);
    assert LayOutSection(sources, 0) == LayOutItems(Layout(0, alignment, [], []), items, 0, |items|);
    assert LastEmission(m) == FinishSection(Emitted(alignment, items, globals), Text, LayOutSection(sources, 0).offset);
  }

  // ----- the linker -----

  lemma {:induction false} DefinesOk(bases: seq<u64>, symbols: seq<Symbol>, n: nat)
    requires |bases| == 4 && AllDefined(symbols) && n <= |symbols|
    ensures var r := DefineAll(bases, [LinkSpec.Placed(0, 0)], map[], symbols, n);
      r.Ok? && forall name :: name in r.value ==> exists k :: 0 <= k < n && symbols[k].name == name
  {
    if n > 0 {
      DefinesOk(bases, symbols, n - 1);
    }
  }

  lemma {:induction false} ChecksOk(defs: Definitions, symbols: seq<Symbol>, n: nat)
    requires AllDefined(symbols) && n <= |symbols|
    ensures CheckReferences(defs, symbols, n) == Ok(defs)
  {
    if n > 0 {
      ChecksOk(defs, symbols, n - 1);
    }
  }

  /** If every patch can be applied to the bytes as they are, all can be applied one after the other. */
  lemma {:induction false} RelocatedAllOk(data: seq<u8>, base: u64, rs: seq<Resolved>)
    requires AllApart(rs)
    requires forall i :: 0 <= i < |rs| ==> InBounds(data, rs[i].relocation) && NewField(data, base, rs[i].relocation, rs[i].address).Ok?
    ensures RelocatedAll(data, base, rs).Ok?
  {
    if rs != [] {
      hide NewField, Field, Relocated;
      var last := |rs| - 1;
      assert forall i :: 0 <= i < last ==> rs[..last][i] == rs[i];
      RelocatedAllOk(data, base, rs[..last]);
      RelocatedAllMeans(data, base, rs[..last]);
      var d0 := RelocatedAll(data, base, rs[..last]).value;
      SameField(data, base, rs, d0);
      FieldApplies(d0, base, rs[last].relocation, rs[last].address);
    }
  }

  lemma FieldApplies(data: seq<u8>, base: u64, r: Relocation, address: u64)
    requires InBounds(data, r) && NewField(data, base, r, address).Ok?
    ensures Relocated(data, base, r, address).Ok?
  {
    hide NewField;
  }

  /** An address of the default code region fits every field that can hold one. */
  lemma ValueFits(kind: RelocationType, address: u64, place: u64)
    requires PatchesInstruction(kind) && DEFAULT_BASES[0] <= address <= DEFAULT_BASES[0] + REGION_SIZE
    requires DEFAULT_BASES[0] <= place <= DEFAULT_BASES[0] + REGION_SIZE
    ensures FitsSigned(RelocatedValue(kind, address, 0, place), IMMEDIATE_BITS)
  {
    Pow2Values();
  }

  /** An instruction that takes a symbol encodes with every immediate that fits. */
  lemma EncodesWith(m: Instruction, imm: i64)
    requires Encode(m).Ok? && TakesSymbol(m.opcode) && FitsSigned(imm, IMMEDIATE_BITS)
    ensures Encode(m.(imm := imm)).Ok?
  {
    hide PackFields, FitsSigned;
  }

  lemma SiteApplies(data: seq<u8>, r: Relocation, address: u64, m: Instruction)
    requires r.offset % 8 == 0 && r.offset + 8 <= |data| && PatchesInstruction(r.kind) && r.addend == 0 && r.offset <= REGION_SIZE
    requires data[r.offset..r.offset + 8] == InstructionBytes(m) && Encode(m).Ok? && TakesSymbol(m.opcode)
    requires DEFAULT_BASES[0] <= address <= DEFAULT_BASES[0] + REGION_SIZE
    ensures InBounds(data, r) && NewField(data, DEFAULT_BASES[0], r, address).Ok?
  {
    hide Encode, DecodeFrom, FitsSigned, EncodedBytes;
    ValueFits(r.kind, address, Place(DEFAULT_BASES[0], r));
    InstructionReads(m);
    EncodesWith(m, RelocatedValue(r.kind, address, r.addend, Place(DEFAULT_BASES[0], r)));
  }

  function InstructionBytes(m: Instruction): seq<u8> {
    if Encode(m).Ok? then EncodedBytes(m) else []
  }

  /** The merge of one section that is not too large. */
  lemma Merges(obj: ObjectFile, data: seq<u8>, options: LinkOptions)
    requires options.Valid() && OneObject(obj, data) && |data| <= REGION_SIZE
    ensures MergeObjects(InitialRegions(options), [obj], 1)
         == Ok((InitialRegions(options)[0 := OutputRegion(Text, options.bases[0], data, |data|)], [[LinkSpec.Placed(0, 0)]]))
  {
    var regions, section := InitialRegions(options), obj.sections[0];
    assert AlignUp(0, section.alignment) == 0;
    OneSection(regions, section, data);
    assert MergeSection(regions, section).Ok?;
    assert MergeObject(regions, [section], 0) == Ok((regions, []));
    assert obj.sections == [section];
    assert MergeObject(regions, [section], 1).Ok?;
    assert MergeObjects(regions, [obj], 0) == Ok((regions, []));
    assert MergeObjects(regions, [obj], 1).Ok?;
    OneMerge(obj, data, options);
  }

  /** What the one object defines. */
  ghost function OwnDefinitions(bases: seq<u64>, symbols: seq<Symbol>): Definitions
    requires |bases| == 4
  {
    var r := DefineAll(bases, [LinkSpec.Placed(0, 0)], map[], symbols, |symbols|);
    if r.Ok? then r.value else map[]
  }

  lemma DefinitionsReady(bases: seq<u64>, obj: ObjectFile, items: seq<Item>, globals: seq<string>)
    requires |bases| == 4 && SymbolsReady(obj.symbols, items, globals)
    ensures var defs := OwnDefinitions(bases, obj.symbols);
      && DefineObjects(bases, [[LinkSpec.Placed(0, 0)]], [obj], 1) == Ok(defs) && CheckObjects(defs, [obj], 1) == Ok(defs)
      && DefsOf(obj.symbols, bases[0], defs) && forall k :: 0 <= k < |globals| ==> globals[k] in defs
  {
    hide DefineAll, CheckReferences, DefinedBy, UniqueNames, IndexOf;
    var symbols := obj.symbols;
    DefinesOk(bases, symbols, |symbols|);
    var defs := OwnDefinitions(bases, symbols);
    OneDefines(bases, symbols, |symbols|);
    ChecksOk(defs, symbols, |symbols|);
    assert DefineObjects(bases, [[LinkSpec.Placed(0, 0)]], [obj], 0) == Ok(map[]);
    assert CheckObjects(defs, [obj], 0) == Ok(defs);
    forall k | 0 <= k < |globals|
      ensures globals[k] in defs
    {
      var i := IndexOf(symbols, globals[k]);
      NameAtIndex(symbols, globals[k]);
      assert symbols[i].name in defs;
    }
  }

  lemma {:induction false} NameAtIndex(symbols: seq<Symbol>, name: string)
    requires IndexOf(symbols, name) < |symbols|
    ensures symbols[IndexOf(symbols, name)].name == name
  {
    if symbols[0].name != name {
      NameAtIndex(symbols[1..], name);
    }
  }

  ghost predicate Ready(alignment: u64, items: seq<Item>, globals: seq<string>) {
    && items != [] && CodeOnly(items) && UniqueLabels(items) && OperandsOk(items) && TrueOffset(items, |items|) <= REGION_SIZE
    && forall k :: 0 <= k < |globals| ==> globals[k] in LabelMap(items)
  }

  /** The object of a section that is ready, and the definitions of its link. */
  ghost predicate Objective(alignment: u64, items: seq<Item>, globals: seq<string>, obj: ObjectFile, defs: Definitions) {
    && Ready(alignment, items, globals) && Assemble(TextModule(alignment, items, globals)) == Ok(obj)
    && DefsOf(obj.symbols, DEFAULT_BASES[0], defs)
  }

  /** The relocation of an item resolves to the address of its label. */
  lemma LabelResolves(alignment: u64, items: seq<Item>, globals: seq<string>, obj: ObjectFile, defs: Definitions, name: string)
    returns (address: u64)
    requires Objective(alignment, items, globals, obj, defs) && name in LabelMap(items)
    ensures IndexOf(obj.symbols, name) < |obj.symbols|
    ensures SymbolAddress(DEFAULT_BASES, [LinkSpec.Placed(0, 0)], defs, obj.symbols[IndexOf(obj.symbols, name)]) == Ok(address)
    ensures DEFAULT_BASES[0] <= address == DEFAULT_BASES[0] + TrueOffset(items, LabelMap(items)[name]) <= DEFAULT_BASES[0] + REGION_SIZE
    ensures name in defs ==> defs[name].address == address
  {
    hide Assemble, AssemblerProof.Placed, SymbolAddress, UniqueNames, DefinedBy, OperandsOk, CodeOnly;
    var l := LabelMap(items)[name];
    TextLabels(alignment, items, globals, l);
    LabelAddress(DEFAULT_BASES, obj.symbols, defs, name, TrueOffset(items, l));
    OffsetsGrow(items, l, |items|);
    address := DEFAULT_BASES[0] + TrueOffset(items, l);
  }

  /** The item a relocation of the object belongs to. */
  lemma RelocationOfItem(alignment: u64, items: seq<Item>, globals: seq<string>, obj: ObjectFile, r: nat) returns (j: nat)
    requires Ready(alignment, items, globals) && Assemble(TextModule(alignment, items, globals)) == Ok(obj) && r < |obj.relocations|
    ensures j < |items| && items[j].Instr? && items[j].ins.symbol.Some? && OperandOk(items, items[j].ins)
    ensures TrueOffset(items, j) <= REGION_SIZE
    ensures obj.relocations[r] == SiteOf(items[j], 0, TrueOffset(items, j), obj.symbols)
    ensures var data := Emitted(alignment, items, globals).data;
      && TrueOffset(items, j) + 8 <= |data|
      && data[TrueOffset(items, j)..TrueOffset(items, j) + 8] == EncodedBytes(Placeholder(items[j].ins))
  {
    hide Assemble, EmitItems, PassTwoStart, OperandOk, IndexOf, UniqueNames, EncodedBytes, Encode;
    var e := PassTwoStart(TextModule(alignment, items, globals)).(data := []);
    TextObject(alignment, items, globals);
    RelocationsCounted(e, items, 0, |items|);
    j := RelocationItem(items, |items|, r);
    RelocationPlaced(e, items, 0, j);
    BytesPlaced(e, items, 0, j);
    OffsetsGrow(items, j, |items|);
  }

  /** Every relocation resolves and its field takes the value. */
  lemma PatchReady(alignment: u64, items: seq<Item>, globals: seq<string>, obj: ObjectFile, defs: Definitions, r: nat) returns (address: u64)
    requires Objective(alignment, items, globals, obj, defs) && |obj.sections| == 1 && r < |obj.relocations|
    ensures ResolvePatch(DEFAULT_BASES, [LinkSpec.Placed(0, 0)], defs, obj.symbols, obj.relocations[r])
         == Ok(Patch(0, Resolved(obj.relocations[r], address)))
    ensures var data := Emitted(alignment, items, globals).data;
      InBounds(data, obj.relocations[r]) && NewField(data, DEFAULT_BASES[0], obj.relocations[r], address).Ok?
  {
    hide Assemble, Emitted, SymbolAddress, IndexOf, NewField, DefsOf, EncodedBytes, Encode, CodeOnly, UniqueLabels, OperandsOk;
    var j := RelocationOfItem(alignment, items, globals, obj, r);
    var name := items[j].ins.symbol.value.name;
    address := LabelResolves(alignment, items, globals, obj, defs, name);
    CodeOnlyOffsets(items, j);
    SiteApplies(Emitted(alignment, items, globals).data, obj.relocations[r], address, Placeholder(items[j].ins));
  }

  /** Patches that resolve and apply, apply in order. */
  lemma {:induction false} AppliesAll(
    bases: seq<u64>, defs: Definitions, obj: ObjectFile, regions: seq<OutputRegion>, rs: seq<Resolved>, n: nat)
    requires |bases| == 4 == |regions| && n <= |obj.relocations| == |rs|
    requires forall r :: 0 <= r < |rs| ==>
      ResolvePatch(bases, [LinkSpec.Placed(0, 0)], defs, obj.symbols, obj.relocations[r]) == Ok(Patch(0, rs[r]))
    requires RelocatedAll(regions[0].data, regions[0].base, rs[..n]).Ok?
    ensures ApplyAll(bases, [LinkSpec.Placed(0, 0)], defs, obj, regions, n)
         == Ok(regions[0 := regions[0].(data := RelocatedAll(regions[0].data, regions[0].base, rs[..n]).value)])
  {
    hide ResolvePatch, Relocated;
    if n > 0 {
      assert rs[..n][..n - 1] == rs[..n - 1];
      AppliesAll(bases, defs, obj, regions, rs, n - 1);
      var before := RelocatedAll(regions[0].data, regions[0].base, rs[..n - 1]).value;
      var after := RelocatedAll(regions[0].data, regions[0].base, rs[..n]).value;
      assert regions[0 := regions[0].(data := before)][0 := regions[0].(data := after)] == regions[0 := regions[0].(data := after)];
    } else {
      assert rs[..0] == [] && regions[0 := regions[0].(data := regions[0].data)] == regions;
    }
  }

  /** The relocations of the object are apart. */
  lemma ResolvedApart(obj: ObjectFile, rs: seq<Resolved>)
    requires SitesOk(obj) && |rs| == |obj.relocations|
    requires forall r :: 0 <= r < |rs| ==> rs[r].relocation == obj.relocations[r] && obj.relocations[r].section == 0
    ensures AllApart(rs)
  {
    hide Apart;
  }

  /** All relocations of the one object apply. */
  lemma Applies(alignment: u64, items: seq<Item>, globals: seq<string>, obj: ObjectFile, defs: Definitions, regions: seq<OutputRegion>)
    requires Objective(alignment, items, globals, obj, defs) && |obj.sections| == 1 && |regions| == 4
    requires regions[0].data == Emitted(alignment, items, globals).data && regions[0].base == DEFAULT_BASES[0]
    ensures var applied := ApplyObjects(DEFAULT_BASES, [[LinkSpec.Placed(0, 0)]], defs, [obj], regions, 1);
      && applied.Ok? && applied.value == regions[0 := regions[0].(data := applied.value[0].data)]
      && |applied.value[0].data| == |regions[0].data|
  {
    hide Assemble, Emitted, ResolvePatch, NewField, DefsOf, CodeOnly, UniqueLabels, OperandsOk, InBounds, SitesOk, AllApart;
    var rs := seq(|obj.relocations|, r requires 0 <= r < |obj.relocations| => PatchOf(DEFAULT_BASES, [LinkSpec.Placed(0, 0)], defs, obj, r).patch);
    forall r: nat | r < |obj.relocations|
      ensures ResolvePatch(DEFAULT_BASES, [LinkSpec.Placed(0, 0)], defs, obj.symbols, obj.relocations[r]) == Ok(Patch(0, rs[r]))
      ensures rs[r].relocation == obj.relocations[r] && obj.relocations[r].section == 0
      ensures InBounds(regions[0].data, rs[r].relocation) && NewField(regions[0].data, DEFAULT_BASES[0], rs[r].relocation, rs[r].address).Ok?
    {
      var address := PatchReady(alignment, items, globals, obj, defs, r);
      var j := RelocationOfItem(alignment, items, globals, obj, r);
    }
    CodeOnlyPlaced(items);
    TextSites(alignment, items, globals);
    ResolvedApart(obj, rs);
    RelocatedAllOk(regions[0].data, DEFAULT_BASES[0], rs);
    assert rs[..|rs|] == rs;
    AppliesAll(DEFAULT_BASES, defs, obj, regions, rs, |rs|);
    assert ApplyObjects(DEFAULT_BASES, [[LinkSpec.Placed(0, 0)]], defs, [obj], regions, 0) == Ok(regions);
  }

  /** An image of one code segment with its entry inside is valid. */
  lemma ImageBuilds(regions: seq<OutputRegion>, defs: Definitions, entry: string)
    requires |regions| == 4 && regions[1].size == 0 && regions[2].size == 0 && regions[3].size == 0
    requires regions[0].kind.Text? && regions[0].base == DEFAULT_BASES[0] && regions[0].size == |regions[0].data| <= REGION_SIZE
    requires entry in defs && defs[entry].address % 8 == 0
    requires DEFAULT_BASES[0] <= defs[entry].address < DEFAULT_BASES[0] + |regions[0].data|
    ensures BuildExecutable(regions, defs, entry).Ok?
  {
    OneSegment(regions);
    var e := Executable(defs[entry].address, SegmentsOf(regions, 4));
    assert e.segments == [SegmentOf(regions[0])];
    assert SegmentFault(e.segments[0]).None?;
    assert e.segments[0].address <= e.entry < e.segments[0].address + e.segments[0].size && e.segments[0].flags.exec;
    ValidImage(e);
  }

  /** A code section with its symbols its own links with the default bases. */
  lemma Links(alignment: u64, items: seq<Item>, globals: seq<string>, options: LinkOptions)
    requires Ready(alignment, items, globals) && options.Valid() && options.bases == DEFAULT_BASES
    requires options.entry in globals && TrueOffset(items, LabelMap(items)[options.entry]) < TrueOffset(items, |items|)
    ensures Assemble(TextModule(alignment, items, globals)).Ok?
    ensures Link([Assemble(TextModule(alignment, items, globals)).value], options).Ok?
  {
    hide Assemble, Emitted, SymbolsReady, OwnDefinitions, MergeObjects, DefineObjects, CheckObjects, ApplyObjects, BuildExecutable,
         InitialRegions, CodeOnly, UniqueLabels, OperandsOk, DefsOf, SymbolAddress, IndexOf, PassTwoStart;
    Assembles(alignment, items, globals);
    var obj := Assemble(TextModule(alignment, items, globals)).value;
    var data := Emitted(alignment, items, globals).data;
    TextObject(alignment, items, globals);
    Merges(obj, data, options);
    var regions := InitialRegions(options)[0 := OutputRegion(Text, options.bases[0], data, |data|)];
    StartRegions(options);
    DefinitionsReady(DEFAULT_BASES, obj, items, globals);
    var defs := OwnDefinitions(DEFAULT_BASES, obj.symbols);
    Applies(alignment, items, globals, obj, defs, regions);
    var address := LabelResolves(alignment, items, globals, obj, defs, options.entry);
    CodeOnlyOffsets(items, LabelMap(items)[options.entry]);
    ImageBuilds(ApplyObjects(DEFAULT_BASES, [[LinkSpec.Placed(0, 0)]], defs, [obj], regions, 1).value, defs, options.entry);
  }

  lemma StartRegions(options: LinkOptions)
    requires options.Valid()
    ensures forall g :: 1 <= g < 4 ==> InitialRegions(options)[g].size == 0
  {
  }
}
