/** What is in an assembled object, section by section and item by item: the bytes of every item where
    it stands, a relocation for every reference, a symbol for every label, and the bindings that the
    directives ask for. */
module AssemblyContents {
  import opened Words
  import opened Isa
  import opened Ir
  import opened Codec
  import opened Relocations
  import opened Symbols
  import opened ControlFlowGraph
  import opened AssemblySpec
  import opened AssemblerProof

  predicate Filled(bytes: seq<u8>, count: nat, fill: u8) {
    |bytes| == count && forall i :: 0 <= i < count ==> bytes[i] == fill
  }

  /** The instruction with its symbol left for the linker. */
  function Unresolved(ins: IrInstruction): Instruction {
    var m := ins.machine;
    Instruction(m.opcode, m.dst, m.src, if ins.symbol.Some? then 0 else m.imm)
  }

  /** The bytes of an item that starts at `offset`. */
  ghost predicate ItemBytes(item: Item, offset: nat, bytes: seq<u8>) {
    match item
    case Label(_, _) => bytes == []
    case Instr(ins) => |bytes| == 8 && DecodeFrom(bytes) == Ok(Unresolved(ins))
    case Bytes(data) => bytes == data
    case SymbolValue(width, _) => Filled(bytes, width, 0)
    case Space(size, fill) => Filled(bytes, size, fill)
    case Align(alignment) =>
      && Filled(bytes, |bytes|, 0)
      && if alignment <= 1 then bytes == [] else |bytes| < alignment && (offset + |bytes|) % alignment == 0
  }

  /** The bytes of item j, from where it starts to where the next one does. */
  ghost predicate Stored(items: seq<Item>, j: nat, data: seq<u8>) {
    && j < |items| && TrueOffset(items, j) <= TrueOffset(items, j + 1) <= |data|
    && ItemBytes(items[j], TrueOffset(items, j), data[TrueOffset(items, j)..TrueOffset(items, j + 1)])
  }

  /** An instruction reads back from its bytes, whatever the opcode. */
  lemma EncodedReads(ins: IrInstruction)
    requires Encode(Placeholder(ins)).Ok?
    ensures |EncodedBytes(Placeholder(ins))| == 8 && DecodeFrom(EncodedBytes(Placeholder(ins))) == Ok(Unresolved(ins))
  {
    hide DecodeFrom, Encode;
    BufferRoundTrip(Placeholder(ins), []);
    assert EncodedBytes(Placeholder(ins)) + [] == EncodedBytes(Placeholder(ins));
  }

  lemma InstructionStored(e: Emission, ins: IrInstruction, section: nat)
    requires UniqueNames(e.symbols) && |EmitInstruction(e, ins, section).errors| == |e.errors|
    ensures var d := EmitInstruction(e, ins, section).data; e.data <= d && ItemBytes(Instr(ins), |e.data|, d[|e.data|..])
  {
    hide DecodeFrom, Encode, EncodedBytes, EmitInstruction, Unresolved;
    InstructionEmitted(e, ins, section);
    EncodedReads(ins);
    assert (e.data + EncodedBytes(Placeholder(ins)))[|e.data|..] == EncodedBytes(Placeholder(ins));
  }

  lemma ItemStored(e: Emission, item: Item, section: nat)
    requires UniqueNames(e.symbols) && |EmitItem(e, item, section).errors| == |e.errors|
    ensures var d := EmitItem(e, item, section).data; e.data <= d && ItemBytes(item, |e.data|, d[|e.data|..])
  {
    hide DecodeFrom, EmitInstruction, Relocate;
    match item
    case Instr(ins) => InstructionStored(e, ins, section);
    case SymbolValue(width, ref) => ValueStored(e, width, ref, section);
    case Bytes(data) => assert (e.data + data)[|e.data|..] == data;
    case _ =>
  }

  lemma ValueStored(e: Emission, width: nat, ref: SymbolRef, section: nat)
    requires UniqueNames(e.symbols)
    ensures var d := EmitSymbolValue(e, width, ref, section).data; e.data <= d && Filled(d[|e.data|..], width, 0)
  {
    hide Reference;
    ReferenceExtends(e, ref.name);
  }

  lemma StoredOn(items: seq<Item>, j: nat, before: seq<u8>, after: seq<u8>)
    requires Stored(items, j, before) && before <= after
    ensures Stored(items, j, after)
  {
    hide ItemBytes;
    assert after[TrueOffset(items, j)..TrueOffset(items, j + 1)] == before[TrueOffset(items, j)..TrueOffset(items, j + 1)];
  }

  /** Everything emitted so far stands where it should. */
  lemma {:induction false} ItemsStored(e: Emission, items: seq<Item>, section: nat, n: nat)
    requires UniqueNames(e.symbols) && e.data == [] && n <= |items|
    requires |EmitItems(e, items, section, n).errors| == |e.errors|
    ensures forall j :: 0 <= j < n ==> Stored(items, j, EmitItems(e, items, section, n).data)
  {
    hide EmitItem, ItemBytes, Stored, Extends, UniqueNames;
    if n > 0 {
      var before, after := EmitItems(e, items, section, n - 1), EmitItems(e, items, section, n);
      ItemsExtend(e, items, section, 0, n - 1);
      ErrorsGrow(e, before);
      ItemsExtend(e, items, section, n - 1, n);
      ErrorsGrow(before, after);
      ItemsStored(e, items, section, n - 1);
      ItemStored(before, items[n - 1], section);
      LastStored(e, items, section, n);
      forall j | 0 <= j < n - 1
        ensures Stored(items, j, after.data)
      {
        StoredOn(items, j, before.data, after.data);
      }
    }
  }

  lemma LastStored(e: Emission, items: seq<Item>, section: nat, n: nat)
    requires e.data == [] && 0 < n <= |items|
    requires var before, after := EmitItems(e, items, section, n - 1).data, EmitItems(e, items, section, n).data;
      before <= after && ItemBytes(items[n - 1], |before|, after[|before|..])
    ensures Stored(items, n - 1, EmitItems(e, items, section, n).data)
  {
    hide EmitItem, ItemBytes;
    EmittedAt(e, items, section, n - 1);
    EmittedAt(e, items, section, n);
    var after := EmitItems(e, items, section, n).data;
    assert after[TrueOffset(items, n - 1)..|after|] == after[TrueOffset(items, n - 1)..];
  }

  // ----- the sections of an object -----

  lemma StartUnique(m: Module)
    ensures UniqueNames(PassTwoStart(m).symbols)
  {
    hide UniqueNames, ApplyBindings, SymbolsBefore, Sources;
    var sources := Sources(m, |SECTION_ORDER|);
    var defined := SymbolsBefore(sources, |sources|);
    SymbolsKept(sources, |sources|, |sources|, "", 0, 0);
    BindingsKeep(defined.0, defined.1, m, "", 0, 0);
  }

  /** What pass 2 starts section k with. */
  function Entering(sources: seq<SourceSection>, start: Emission, k: nat): Emission
    requires k < |sources|
  {
    (if k == 0 then start else EmitSection(sources, start, k - 1)).(data := [])
  }

  lemma SectionStep(sources: seq<SourceSection>, start: Emission, k: nat)
    requires k < |sources| && UniqueNames(Entering(sources, start, k).symbols)
    ensures Extends(Entering(sources, start, k), EmitSection(sources, start, k))
    ensures var e := EmitItems(Entering(sources, start, k), sources[k].items, k, |sources[k].items|);
            var after := EmitSection(sources, start, k);
            && Extends(e, after) && after.symbols == e.symbols && after.relocations == e.relocations
            && (|after.errors| == |e.errors| && !sources[k].kind.Bss? ==>
                  after.data == e.data && |e.data| == LayOutSection(sources, k).offset)
  {
    hide LayOutSection, EmitItems, Placed, IndexOf;
    ItemsExtend(Entering(sources, start, k), sources[k].items, k, 0, |sources[k].items|);
    ItemsNone(Entering(sources, start, k), sources[k].items, k);
  }

  lemma ItemsNone(e: Emission, items: seq<Item>, section: nat)
    ensures EmitItems(e, items, section, 0) == e
  {
  }

  lemma {:induction false} EnteringUnique(sources: seq<SourceSection>, start: Emission, k: nat)
    requires k < |sources| && UniqueNames(start.symbols)
    ensures UniqueNames(Entering(sources, start, k).symbols)
  {
    hide EmitSection, Placed, IndexOf, UniqueNames;
    if k > 0 {
      EnteringUnique(sources, start, k - 1);
      SectionStep(sources, start, k - 1);
      ErrorsGrow(Entering(sources, start, k - 1), EmitSection(sources, start, k - 1));
    }
  }

  lemma DataAside(e: Emission, e': Emission, data: seq<u8>)
    requires Extends(e.(data := data), e')
    ensures Extends(e, e')
  {
    hide Placed, IndexOf, UniqueNames;
  }

  lemma SectionFollows(sources: seq<SourceSection>, start: Emission, n: nat)
    requires 0 < n < |sources| && UniqueNames(start.symbols)
    ensures Extends(EmitSection(sources, start, n - 1), EmitSection(sources, start, n))
  {
    hide EmitSection, Extends, UniqueNames;
    EnteringUnique(sources, start, n);
    SectionStep(sources, start, n);
    DataAside(EmitSection(sources, start, n - 1), EmitSection(sources, start, n), []);
  }

  lemma {:induction false} SectionsExtend(sources: seq<SourceSection>, start: Emission, k: nat, n: nat)
    requires k <= n < |sources| && UniqueNames(start.symbols)
    ensures Extends(Entering(sources, start, k), EmitSection(sources, start, n))
    ensures k < n ==> Extends(EmitSection(sources, start, k), EmitSection(sources, start, n))
    decreases n
  {
    hide EmitSection, Extends, UniqueNames, Entering;
    if k == n {
      EnteringUnique(sources, start, n);
      SectionStep(sources, start, n);
    } else {
      SectionFollows(sources, start, n);
      SectionsExtend(sources, start, k, n - 1);
      ExtendsTransitive(Entering(sources, start, k), EmitSection(sources, start, n - 1), EmitSection(sources, start, n));
      if k < n - 1 {
        ExtendsTransitive(EmitSection(sources, start, k), EmitSection(sources, start, n - 1), EmitSection(sources, start, n));
      }
    }
  }

  // ----- which sections there are -----

  /** Section i is the first of its kind. */
  ghost predicate FirstOfKind(m: Module, i: nat) {
    i < |m.sections| && forall j :: 0 <= j < i ==> m.sections[j].kind != m.sections[i].kind
  }

  function Rank(kind: SectionKind): nat { match kind case Text => 0 case Rodata => 1 case Data => 2 case Bss => 3 }

  lemma {:induction false} FoundSection(sections: seq<SourceSection>, kind: SectionKind) returns (i: nat)
    ensures FindSection(sections, kind).None? ==> i == |sections| && forall j :: 0 <= j < |sections| ==> sections[j].kind != kind
    ensures FindSection(sections, kind).Some? ==>
              i < |sections| && FindSection(sections, kind).value == sections[i] && sections[i].kind == kind
              && forall j :: 0 <= j < i ==> sections[j].kind != kind
  {
    if sections == [] || sections[0].kind == kind {
      i := 0;
    } else {
      i := FoundSection(sections[1..], kind);
      i := i + 1;
      assert forall j :: 0 < j < |sections| ==> sections[j] == sections[1..][j - 1];
    }
  }

  /** The first section of its kind, not empty. */
  ghost predicate Carries(m: Module, s: SourceSection) {
    s.items != [] && exists i: nat :: FirstOfKind(m, i) && m.sections[i] == s
  }

  lemma OneKind(m: Module, kind: SectionKind)
    ensures FindSection(m.sections, kind).Some? ==>
              FindSection(m.sections, kind).value.kind == kind
              && (Carries(m, FindSection(m.sections, kind).value) <==> FindSection(m.sections, kind).value.items != [])
    ensures forall s: SourceSection :: Carries(m, s) && s.kind == kind ==> FindSection(m.sections, kind) == Some(s)
  {
    var f := FoundSection(m.sections, kind);
    hide FindSection;
    assert f < |m.sections| ==> FirstOfKind(m, f);
    forall s: SourceSection | Carries(m, s) && s.kind == kind
      ensures FindSection(m.sections, kind) == Some(s)
    {
      var i: nat :| FirstOfKind(m, i) && m.sections[i] == s;
      assert i == f;
    }
  }

  ghost predicate AllCarry(m: Module, n: nat, sources: seq<SourceSection>) {
    && (forall k :: 0 <= k < |sources| ==> Carries(m, sources[k]) && Rank(sources[k].kind) < n)
    && (forall j, k :: 0 <= j < k < |sources| ==> Rank(sources[j].kind) < Rank(sources[k].kind))
    && (forall s: SourceSection :: Carries(m, s) && Rank(s.kind) < n ==> s in sources)
  }

  /** The sections that are assembled are those that carry anything, each the first of its kind: code
      first, then read-only data, data and zeros. */
  lemma {:induction false} SourcesMean(m: Module, n: nat)
    requires n <= 4
    ensures AllCarry(m, n, Sources(m, n))
  {
    hide FindSection, Carries;
    if n > 0 {
      SourcesMean(m, n - 1);
      var kind := SECTION_ORDER[n - 1];
      OneKind(m, kind);
      assert forall other: SectionKind :: Rank(other) == n - 1 <==> other == kind;
    }
  }

  // ----- the object -----

  /** An object without errors: what section k leaves is still there at the end, and it made no error. */
  lemma SectionKept(m: Module, k: nat)
    requires k < |Sources(m, |SECTION_ORDER|)| && Assemble(m).Ok?
    ensures var sources, start := Sources(m, |SECTION_ORDER|), PassTwoStart(m);
            var before := Entering(sources, start, k);
            var e, after := EmitItems(before, sources[k].items, k, |sources[k].items|), EmitSection(sources, start, k);
            && UniqueNames(before.symbols) && before.errors == [] == e.errors == after.errors
            && Extends(e, LastEmission(m))
            && start.errors == []
  {
    hide EmitSection, EmitItems, Extends, PassTwoStart, UniqueNames, Sources;
    var sources, start := Sources(m, |SECTION_ORDER|), PassTwoStart(m);
    var before := Entering(sources, start, k);
    var e, after := EmitItems(before, sources[k].items, k, |sources[k].items|), EmitSection(sources, start, k);
    StartUnique(m);
    EnteringUnique(sources, start, k);
    SectionStep(sources, start, k);
    SectionsExtend(sources, start, 0, |sources| - 1);
    SectionsExtend(sources, start, k, |sources| - 1);
    if k < |sources| - 1 {
      ExtendsTransitive(e, after, LastEmission(m));
    }
    ErrorsGrow(Entering(sources, start, 0), LastEmission(m));
    ErrorsGrow(before, LastEmission(m));
    ErrorsGrow(e, LastEmission(m));
    ErrorsGrow(e, after);
    if k < |sources| - 1 {
      ErrorsGrow(after, LastEmission(m));
    }
  }

  /** Section k of the object holds the bytes of all its items, each where it stands, and nothing else. */
  lemma ObjectHolds(m: Module, k: nat)
    requires k < |Sources(m, |SECTION_ORDER|)| && Assemble(m).Ok? && !Sources(m, |SECTION_ORDER|)[k].kind.Bss?
    ensures var source, section := Sources(m, |SECTION_ORDER|)[k], Assemble(m).value.sections[k];
            && section.kind == Some(source.kind)
            && section.size == |section.data| == TrueOffset(source.items, |source.items|)
            && forall j :: 0 <= j < |source.items| ==> Stored(source.items, j, section.data)
  {
    hide EmitItems, PassTwoStart, Extends, UniqueNames, Stored, LayOutSection, Sources, FinishSection, LastEmission;
    var sources, start := Sources(m, |SECTION_ORDER|), PassTwoStart(m);
    var before := Entering(sources, start, k);
    var items := sources[k].items;
    SectionKept(m, k);
    SectionStep(sources, start, k);
    ItemsStored(before, items, k, |items|);
    EmittedAt(before, items, k, |items|);
  }

  /** A section of zeros keeps only its size. */
  lemma BssHolds(m: Module, k: nat)
    requires k < |Sources(m, |SECTION_ORDER|)| && Assemble(m).Ok? && Sources(m, |SECTION_ORDER|)[k].kind.Bss?
    requires FitsMemory(Sources(m, |SECTION_ORDER|)[k].items)
    ensures var items, section := Sources(m, |SECTION_ORDER|)[k].items, Assemble(m).value.sections[k];
            section.kind == Some(Bss) && section.data == [] && section.size == TrueOffset(items, |items|)
  {
    hide EmitItems, PassTwoStart, Sources, LastEmission, LayOutItems;
    var sources := Sources(m, |SECTION_ORDER|);
    var before := SymbolsBefore(sources, k);
    LaidOutAt(Layout(0, sources[k].alignment, before.0, before.1), sources[k].items, k, |sources[k].items|);
  }

  /** A reference to a symbol, as the linker will find it. */
  ghost predicate ReferenceLeft(unit: ObjectFile, r: Relocation, section: nat, offset: nat, kind: RelocationType, ref: SymbolRef) {
    && r.section == section && r.offset == offset && r.kind == kind && r.addend == ref.addend
    && r.symbol < |unit.symbols| && unit.symbols[r.symbol].name == ref.name
  }

  /** The relocation type of an item that names a symbol. */
  predicate KindFor(item: Item, kind: RelocationType) {
    match item
    case Instr(ins) =>
      var op := ins.machine.opcode;
      if op.JMP? || op.JE? || op.JNE? || op.JG? || op.JL? || op.JGE? || op.JLE? || op.CALL? then kind.PCREL48? else kind.IMM48?
    case SymbolValue(width, _) => if width == 4 then kind.ABS32? else kind.ABS64?
    case _ => false
  }

  lemma KindOfItem(item: Item)
    requires Symbolic(item)
    ensures KindFor(item, KindOf(item))
  {
  }

  /** Every item that names a symbol leaves a relocation of its type, at the item's place, with its
      addend and a symbol of its name. */
  lemma ObjectRefers(m: Module, k: nat, j: nat) returns (r: nat)
    requires k < |Sources(m, |SECTION_ORDER|)| && Assemble(m).Ok?
    requires FitsMemory(Sources(m, |SECTION_ORDER|)[k].items)
    requires j < |Sources(m, |SECTION_ORDER|)[k].items|
    requires var item := Sources(m, |SECTION_ORDER|)[k].items[j]; item.SymbolValue? || (item.Instr? && item.ins.symbol.Some?)
    ensures var unit, items := Assemble(m).value, Sources(m, |SECTION_ORDER|)[k].items;
            var ref := if items[j].Instr? then items[j].ins.symbol.value else items[j].symbol;
            && r < |unit.relocations| && KindFor(items[j], unit.relocations[r].kind)
            && ReferenceLeft(unit, unit.relocations[r], k, TrueOffset(items, j), unit.relocations[r].kind, ref)
  {
    hide EmitItems, PassTwoStart, Extends, UniqueNames, Sources, KindFor, KindOf, LastEmission;
    var sources, start := Sources(m, |SECTION_ORDER|), PassTwoStart(m);
    var before := Entering(sources, start, k);
    var items := sources[k].items;
    var e := EmitItems(before, items, k, |items|);
    SectionKept(m, k);
    RelocationPlaced(before, items, k, j);
    r := |before.relocations| + RelocCount(items, j);
    KindOfItem(items[j]);
    ReferenceKept(e, LastEmission(m), r, SymbolOf(items[j]).name);
  }

  lemma ReferenceKept(e: Emission, e': Emission, r: nat, name: string)
    requires Extends(e, e') && r < |e.relocations| && IndexOf(e.symbols, name) < |e.symbols|
    requires e.relocations[r].symbol == IndexOf(e.symbols, name)
    ensures r < |e'.relocations| && e'.relocations[r] == e.relocations[r]
    ensures e.relocations[r].symbol < |e'.symbols| && e'.symbols[e.relocations[r].symbol].name == name
  {
    hide UniqueNames, Placed;
  }

  /** Every label is a symbol of the object, defined at the place where the label stands. */
  lemma ObjectDefines(m: Module, k: nat, j: nat)
    requires k < |Sources(m, |SECTION_ORDER|)| && Assemble(m).Ok?
    requires FitsMemory(Sources(m, |SECTION_ORDER|)[k].items)
    requires j < |Sources(m, |SECTION_ORDER|)[k].items| && Sources(m, |SECTION_ORDER|)[k].items[j].Label?
    ensures var unit, items := Assemble(m).value, Sources(m, |SECTION_ORDER|)[k].items;
            exists i :: 0 <= i < |unit.symbols| && unit.symbols[i].name == items[j].name && unit.symbols[i].defined
                        && unit.symbols[i].section == k && unit.symbols[i].value == TrueOffset(items, j)
  {
    hide EmitItems, UniqueNames, Sources, LayOutItems, Placed, ApplyBindings, Extends;
    var sources, start := Sources(m, |SECTION_ORDER|), PassTwoStart(m);
    var items := sources[k].items;
    var name, value := items[j].name, TrueOffset(items, j);
    SectionKept(m, k);
    var defined := SymbolsBefore(sources, |sources|);
    SymbolsKept(sources, |sources|, |sources|, name, k, value);
    BindingsKeep(defined.0, defined.1, m, name, k, value);
    SymbolsKept(sources, k, |sources|, name, k, value);
    SymbolsKept(sources, k, k, name, k, value);
    SymbolsKept(sources, k + 1, |sources|, name, k, value);
    var before := SymbolsBefore(sources, k);
    LabelHere(sources, k, j);
    SectionsExtend(sources, start, 0, |sources| - 1);
    PlacedOn(Entering(sources, start, 0), LastEmission(m), name, k, value);
    PlacedMeans(LastEmission(m).symbols, name, k, value);
  }

  lemma LabelHere(sources: seq<SourceSection>, k: nat, j: nat)
    requires k < |sources| && j < |sources[k].items| && sources[k].items[j].Label? && FitsMemory(sources[k].items)
    requires UniqueNames(SymbolsBefore(sources, k).0)
    requires |SymbolsBefore(sources, k).1| == |SymbolsBefore(sources, k + 1).1|
    ensures Placed(SymbolsBefore(sources, k + 1).0, sources[k].items[j].name, k, TrueOffset(sources[k].items, j))
  {
    hide LayOutItems, Placed, UniqueNames;
    var before := SymbolsBefore(sources, k);
    LabelsPlaced(Layout(0, sources[k].alignment, before.0, before.1), sources[k].items, k, |sources[k].items|, j);
  }

  lemma PlacedOn(e: Emission, e': Emission, name: string, section: nat, value: nat)
    requires Extends(e, e') && Placed(e.symbols, name, section, value)
    ensures Placed(e'.symbols, name, section, value)
  {
    hide UniqueNames, Placed;
  }

  lemma PlacedMeans(symbols: seq<Symbol>, name: string, section: nat, value: nat)
    requires Placed(symbols, name, section, value)
    ensures exists i :: 0 <= i < |symbols| && symbols[i].name == name && symbols[i].defined
                        && symbols[i].section == section && symbols[i].value == value
  {
    assert symbols[IndexOf(symbols, name)].defined;
  }

  // ----- bindings -----

  function Expected(globals: seq<string>, weaks: seq<string>, externs: seq<string>, name: string, otherwise: SymbolBinding): SymbolBinding {
    if name in externs then Extern
    else if name in weaks then Weak
    else if name in globals then Global
    else otherwise
  }

  ghost predicate Listed(symbols: seq<Symbol>, name: string) {
    exists i :: 0 <= i < |symbols| && symbols[i].name == name
  }

  ghost predicate AllListed(symbols: seq<Symbol>, globals: seq<string>, weaks: seq<string>, externs: seq<string>) {
    forall name :: name in globals || name in weaks || name in externs ==> Listed(symbols, name)
  }

  /** The bindings after the directives seen so far; symbols without a label come from a directive. */
  ghost predicate Bound(symbols: seq<Symbol>, globals: seq<string>, weaks: seq<string>, externs: seq<string>) {
    && UniqueNames(symbols) && AllListed(symbols, globals, weaks, externs)
    && forall i :: 0 <= i < |symbols| ==>
         && symbols[i].binding == Expected(globals, weaks, externs, symbols[i].name, Local)
         && (symbols[i].name in externs ==> !symbols[i].defined)
         && (!symbols[i].defined ==> symbols[i].name in globals || symbols[i].name in weaks || symbols[i].name in externs)
  }

  /** Giving one name a binding changes that symbol, or adds it. */
  lemma Rebound(symbols: seq<Symbol>, name: string, binding: SymbolBinding)
    requires UniqueNames(symbols)
    ensures var i, t := IndexOf(symbols, name), WithName(symbols, name);
            var u := t[i := t[i].(binding := binding)];
            && UniqueNames(u) && |symbols| <= |u| <= |symbols| + 1
            && (forall k :: 0 <= k < |u| ==> u[k].binding == if u[k].name == name then binding else t[k].binding)
            && (forall k :: 0 <= k < |u| && k < |symbols| ==> u[k].name == symbols[k].name && u[k].defined == symbols[k].defined)
            && (forall k :: 0 <= k < |u| && k < |symbols| && u[k].name != name ==> u[k] == symbols[k])
            && (|u| > |symbols| ==> u[|symbols|].name == name && !u[|symbols|].defined && !Listed(symbols, name))
            && (forall other :: Listed(symbols, other) || other == name ==> Listed(u, other))
  {
    BindingKeeps(symbols, name, binding, name, 0, 0);
    var i, t := IndexOf(symbols, name), WithName(symbols, name);
    var u := t[i := t[i].(binding := binding)];
    forall other | Listed(symbols, other) || other == name
      ensures Listed(u, other)
    {
      if other == name {
        assert u[i].name == name;
      } else {
        var k :| 0 <= k < |symbols| && symbols[k].name == other;
        assert u[k].name == other;
      }
    }
  }

  lemma {:induction false} LabelsBound(sources: seq<SourceSection>, k: nat)
    requires k <= |sources|
    ensures Bound(SymbolsBefore(sources, k).0, [], [], [])
  {
    hide LayOutItems;
    if k > 0 {
      LabelsBound(sources, k - 1);
      var before := SymbolsBefore(sources, k - 1);
      ItemsBound(Layout(0, sources[k - 1].alignment, before.0, before.1), sources[k - 1].items, k - 1, |sources[k - 1].items|);
    } else {
      EmptyTable();
    }
  }

  lemma {:induction false} ItemsBound(l: Layout, items: seq<Item>, section: nat, n: nat)
    requires Bound(l.symbols, [], [], []) && n <= |items|
    ensures Bound(LayOutItems(l, items, section, n).symbols, [], [], [])
  {
    hide Bound, DefineLabel;
    if n > 0 {
      ItemsBound(l, items, section, n - 1);
      if items[n - 1].Label? {
        LabelBound(LayOutItems(l, items, section, n - 1), items[n - 1].name, section);
      }
    }
  }

  lemma LabelBound(l: Layout, name: string, section: nat)
    requires Bound(l.symbols, [], [], [])
    ensures Bound(DefineLabel(l, name, section).symbols, [], [], [])
  {
    DefineKeeps(l, Label(name, false), section, name, 0, 0);
  }

  lemma {:induction false} GlobalsBound(symbols: seq<Symbol>, globals: seq<string>, n: nat)
    requires Bound(symbols, [], [], []) && n <= |globals|
    ensures Bound(Promote(symbols, globals, n, Global), globals[..n], [], [])
  {
    hide Bound, IndexOf, WithName, UniqueNames;
    if n > 0 {
      GlobalsBound(symbols, globals, n - 1);
      var s := Promote(symbols, globals, n - 1, Global);
      assert globals[..n] == globals[..n - 1] + [globals[n - 1]];
      GlobalBound(s, globals[..n - 1], globals[n - 1]);
    }
  }

  lemma GlobalBound(symbols: seq<Symbol>, globals: seq<string>, name: string)
    requires Bound(symbols, globals, [], [])
    ensures var i, t := IndexOf(symbols, name), WithName(symbols, name);
            Bound(t[i := t[i].(binding := Global)], globals + [name], [], [])
  {
    Rebound(symbols, name, Global);
  }

  lemma {:induction false} WeaksBound(symbols: seq<Symbol>, globals: seq<string>, weaks: seq<string>, n: nat)
    requires Bound(symbols, globals, [], []) && n <= |weaks|
    ensures Bound(Promote(symbols, weaks, n, Weak), globals, weaks[..n], [])
  {
    hide Bound, IndexOf, WithName, UniqueNames;
    if n > 0 {
      WeaksBound(symbols, globals, weaks, n - 1);
      var s := Promote(symbols, weaks, n - 1, Weak);
      assert weaks[..n] == weaks[..n - 1] + [weaks[n - 1]];
      WeakBound(s, globals, weaks[..n - 1], weaks[n - 1]);
    }
  }

  lemma WeakBound(symbols: seq<Symbol>, globals: seq<string>, weaks: seq<string>, name: string)
    requires Bound(symbols, globals, weaks, [])
    ensures var i, t := IndexOf(symbols, name), WithName(symbols, name);
            Bound(t[i := t[i].(binding := Weak)], globals, weaks + [name], [])
  {
    Rebound(symbols, name, Weak);
  }

  lemma {:induction false} ExternsBound(
    symbols: seq<Symbol>, errors: seq<AsmError>, globals: seq<string>, weaks: seq<string>, externs: seq<string>, n: nat)
    requires Bound(symbols, globals, weaks, []) && n <= |externs|
    requires DeclareExterns(symbols, errors, externs, n).1 == errors
    ensures Bound(DeclareExterns(symbols, errors, externs, n).0, globals, weaks, externs[..n])
  {
    hide Bound, IndexOf, WithName;
    if n > 0 {
      ExternsGrow(symbols, errors, externs, n - 1);
      ExternsBound(symbols, errors, globals, weaks, externs, n - 1);
      var s := DeclareExterns(symbols, errors, externs, n - 1).0;
      assert externs[..n] == externs[..n - 1] + [externs[n - 1]];
      ExternBound(s, globals, weaks, externs[..n - 1], externs[n - 1]);
    }
  }

  lemma {:induction false} ExternsGrow(symbols: seq<Symbol>, errors: seq<AsmError>, externs: seq<string>, n: nat)
    requires n < |externs| && DeclareExterns(symbols, errors, externs, n + 1).1 == errors
    ensures DeclareExterns(symbols, errors, externs, n).1 == errors
  {
    hide IndexOf, WithName;
    ErrorsLonger(symbols, errors, externs, n);
  }

  lemma {:induction false} ErrorsLonger(symbols: seq<Symbol>, errors: seq<AsmError>, externs: seq<string>, n: nat)
    requires n <= |externs|
    ensures errors <= DeclareExterns(symbols, errors, externs, n).1
  {
    hide IndexOf, WithName;
    if n > 0 {
      ErrorsLonger(symbols, errors, externs, n - 1);
    }
  }

  lemma ExternBound(symbols: seq<Symbol>, globals: seq<string>, weaks: seq<string>, externs: seq<string>, name: string)
    requires Bound(symbols, globals, weaks, externs)
    requires var i, t := IndexOf(symbols, name), WithName(symbols, name); !t[i].defined
    ensures var i, t := IndexOf(symbols, name), WithName(symbols, name);
            Bound(t[i := t[i].(binding := Extern)], globals, weaks, externs + [name])
  {
    Rebound(symbols, name, Extern);
  }

  /** The bindings once references are seen: an unknown name is external. */
  ghost predicate Referred(symbols: seq<Symbol>, m: Module) {
    && UniqueNames(symbols) && AllListed(symbols, m.globals, m.weaks, m.externs)
    && forall i :: 0 <= i < |symbols| ==>
         && symbols[i].binding ==
            Expected(m.globals, m.weaks, m.externs, symbols[i].name, if symbols[i].defined then Local else Extern)
         && (symbols[i].name in m.externs ==> !symbols[i].defined)
  }

  lemma StartBound(m: Module)
    requires PassTwoStart(m).errors == []
    ensures Bound(PassTwoStart(m).symbols, m.globals, m.weaks, m.externs)
  {
    hide SymbolsBefore, Sources, Promote, DeclareExterns, Bound;
    var sources := Sources(m, |SECTION_ORDER|);
    var defined := SymbolsBefore(sources, |sources|);
    LabelsBound(sources, |sources|);
    GlobalsBound(defined.0, m.globals, |m.globals|);
    assert m.globals[..|m.globals|] == m.globals && m.weaks[..|m.weaks|] == m.weaks && m.externs[..|m.externs|] == m.externs;
    var globals := Promote(defined.0, m.globals, |m.globals|, Global);
    WeaksBound(globals, m.globals, m.weaks, |m.weaks|);
    var weaks := Promote(globals, m.weaks, |m.weaks|, Weak);
    ErrorsLonger(weaks, defined.1, m.externs, |m.externs|);
    ExternsBound(weaks, defined.1, m.globals, m.weaks, m.externs, |m.externs|);
  }

  lemma StartReferred(m: Module)
    requires PassTwoStart(m).errors == []
    ensures Referred(PassTwoStart(m).symbols, m)
  {
    hide Bound, Referred, PassTwoStart;
    StartBound(m);
    BoundReferred(PassTwoStart(m).symbols, m);
  }

  lemma BoundReferred(symbols: seq<Symbol>, m: Module)
    requires Bound(symbols, m.globals, m.weaks, m.externs)
    ensures Referred(symbols, m)
  {
  }

  lemma ReferenceReferred(e: Emission, name: string, m: Module)
    requires Referred(e.symbols, m) && |Reference(e, name).errors| == |e.errors|
    ensures Referred(Reference(e, name).symbols, m)
  {
    Rebound(e.symbols, name, Extern);
    BindingKeeps(e.symbols, name, Extern, name, 0, 0);
    var i, t := IndexOf(e.symbols, name), WithName(e.symbols, name);
    assert |t| > |e.symbols| ==> t == e.symbols + [NewSymbol(name)];
    hide Listed;
  }

  lemma ItemReferred(e: Emission, item: Item, section: nat, m: Module)
    requires Referred(e.symbols, m) && |EmitItem(e, item, section).errors| == |e.errors|
    ensures Referred(EmitItem(e, item, section).symbols, m)
  {
    hide Encode, EncodedBytes, Referred, UniqueNames, Reference, Placeholder;
    if Symbolic(item) {
      var name := SymbolOf(item).name;
      UniqueReferred(e, m);
      ReferenceExtends(e, name);
      ErrorsGrow(e, Reference(e, name));
      assert |Reference(e, name).errors| == |e.errors|;
      ReferenceReferred(e, name, m);
    }
  }

  lemma UniqueReferred(e: Emission, m: Module)
    requires Referred(e.symbols, m)
    ensures UniqueNames(e.symbols)
  {
  }

  lemma {:induction false} ItemsReferred(e: Emission, items: seq<Item>, section: nat, n: nat, m: Module)
    requires Referred(e.symbols, m) && n <= |items| && |EmitItems(e, items, section, n).errors| == |e.errors|
    ensures Referred(EmitItems(e, items, section, n).symbols, m)
  {
    hide EmitItem, Referred, UniqueNames, Extends;
    if n > 0 {
      UniqueReferred(e, m);
      var before, after := EmitItems(e, items, section, n - 1), EmitItems(e, items, section, n);
      ItemsExtend(e, items, section, 0, n - 1);
      ErrorsGrow(e, before);
      ItemsExtend(e, items, section, n - 1, n);
      ErrorsGrow(before, after);
      ItemsReferred(e, items, section, n - 1, m);
      ItemReferred(before, items[n - 1], section, m);
    }
  }

  lemma {:induction false} SectionsReferred(m: Module, k: nat)
    requires k < |Sources(m, |SECTION_ORDER|)| && Assemble(m).Ok?
    ensures Referred(EmitSection(Sources(m, |SECTION_ORDER|), PassTwoStart(m), k).symbols, m)
  {
    hide EmitItems, Referred, UniqueNames, Extends, PassTwoStart, Sources, EmitSection, LastEmission;
    var sources, start := Sources(m, |SECTION_ORDER|), PassTwoStart(m);
    SectionKept(m, k);
    if k > 0 {
      SectionsReferred(m, k - 1);
    } else {
      StartReferred(m);
    }
    ItemsReferred(Entering(sources, start, k), sources[k].items, k, |sources[k].items|, m);
    SectionStep(sources, start, k);
  }

  /** Every symbol of the object has the binding that the module asks for: external if declared so, which
      a name with a label must not be; else weak, else global, if declared so; else local if it has a
      label, and external if it is only referred to. */
  lemma ObjectBinds(m: Module, i: nat)
    requires Assemble(m).Ok? && i < |Assemble(m).value.symbols|
    ensures var s := Assemble(m).value.symbols[i];
            && s.binding == Expected(m.globals, m.weaks, m.externs, s.name, if s.defined then Local else Extern)
            && (s.name in m.externs ==> !s.defined)
  {
    hide EmitSection, PassTwoStart, Sources;
    var sources := Sources(m, |SECTION_ORDER|);
    if sources == [] {
      StartReferred(m);
    } else {
      SectionsReferred(m, |sources| - 1);
    }
  }
}
