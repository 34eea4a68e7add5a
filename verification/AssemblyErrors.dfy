/** Exactly which modules assemble. */
module AssemblyErrors {
  import opened Words
  import opened Ir
  import opened ByteOrder
  import opened Codec
  import opened Symbols
  import opened ControlFlowGraph
  import opened AssemblySpec
  import opened AssemblerProof
  import opened AssemblyContents

  // ----- what a module must be -----

  predicate LabelAt(sources: seq<SourceSection>, k: nat, j: nat, name: string) {
    k < |sources| && j < |sources[k].items| && sources[k].items[j].Label? && sources[k].items[j].name == name
  }

  ghost predicate IsLabel(sources: seq<SourceSection>, name: string) {
    exists k: nat, j: nat :: LabelAt(sources, k, j, name)
  }

  predicate Earlier(k: nat, j: nat, k': nat, j': nat) { k < k' || (k == k' && j < j') }

  ghost predicate LabelBefore(sources: seq<SourceSection>, n: nat, m: nat, name: string) {
    exists k: nat, j: nat :: LabelAt(sources, k, j, name) && Earlier(k, j, n, m)
  }

  /** A label before item m of section n has the name of an earlier one. */
  ghost predicate Clash(sources: seq<SourceSection>, n: nat, m: nat) {
    exists k: nat, j: nat, name: string :: LabelAt(sources, k, j, name) && Earlier(k, j, n, m) && LabelBefore(sources, k, j, name)
  }

  predicate Declared(m: Module, name: string) { name in m.globals || name in m.weaks || name in m.externs }

  /** A reference to a file-scoped name needs a label or a declaration; an instruction must encode. */
  ghost predicate ItemOk(m: Module, sources: seq<SourceSection>, item: Item) {
    && (Symbolic(item) && ".L" <= SymbolOf(item).name ==> IsLabel(sources, SymbolOf(item).name) || Declared(m, SymbolOf(item).name))
    && (item.Instr? ==> Encode(Placeholder(item.ins)).Ok?)
  }

  /** An item that is stored as zeros. */
  predicate ZeroItem(item: Item) {
    match item
    case Bytes(data) => forall i :: 0 <= i < |data| ==> data[i] == 0
    case Space(size, fill) => size == 0 || fill == 0
    case Instr(ins) => Encode(Placeholder(ins)) == Ok(0)
    case _ => true
  }

  /** Every item is fine; a section of zeros holds nothing else, and any other fits the address space. */
  ghost predicate SectionOk(m: Module, sources: seq<SourceSection>, source: SourceSection) {
    && (forall j :: 0 <= j < |source.items| ==> ItemOk(m, sources, source.items[j]))
    && if source.kind.Bss? then forall j :: 0 <= j < |source.items| ==> ZeroItem(source.items[j])
       else TrueOffset(source.items, |source.items|) < TWO64
  }

  ghost predicate ModuleOk(m: Module) {
    var sources := Sources(m, |SECTION_ORDER|);
    && !Clash(sources, |sources|, 0)
    && (forall name :: name in m.externs ==> !IsLabel(sources, name))
    && (forall k :: 0 <= k < |sources| ==> SectionOk(m, sources, sources[k]))
  }

  // ----- pass 1 -----

  ghost predicate Known(symbols: seq<Symbol>, errors: seq<AsmError>, sources: seq<SourceSection>, n: nat, m: nat) {
    && Bound(symbols, [], [], [])
    && (forall name :: Listed(symbols, name) <==> LabelBefore(sources, n, m, name))
    && (errors == [] <==> !Clash(sources, n, m))
  }

  lemma LabelNext(sources: seq<SourceSection>, n: nat, m: nat, name: string)
    requires n < |sources| && m < |sources[n].items|
    ensures LabelBefore(sources, n, m + 1, name) <==> LabelBefore(sources, n, m, name) || LabelAt(sources, n, m, name)
  {
    hide LabelAt;
    forall k: nat, j: nat
      ensures Earlier(k, j, n, m + 1) <==> Earlier(k, j, n, m) || (k == n && j == m)
    {
    }
    assert Earlier(n, m, n, m + 1);
    hide Earlier;
  }

  lemma ClashNext(sources: seq<SourceSection>, n: nat, m: nat)
    requires n < |sources| && m < |sources[n].items|
    ensures Clash(sources, n, m + 1) <==>
            Clash(sources, n, m) || (sources[n].items[m].Label? && LabelBefore(sources, n, m, sources[n].items[m].name))
  {
    forall k: nat, j: nat
      ensures Earlier(k, j, n, m + 1) <==> Earlier(k, j, n, m) || (k == n && j == m)
    {
    }
    assert Earlier(n, m, n, m + 1);
    hide Earlier, LabelBefore;
    if sources[n].items[m].Label? {
      assert LabelAt(sources, n, m, sources[n].items[m].name);
    }
  }

  lemma ItemKnown(l: Layout, sources: seq<SourceSection>, n: nat, m: nat)
    requires n < |sources| && m < |sources[n].items| && Known(l.symbols, l.errors, sources, n, m)
    ensures var after := LayOutItem(l, sources[n].items[m], n); Known(after.symbols, after.errors, sources, n, m + 1)
  {
    hide LabelBefore, Clash, Listed, DefineLabel;
    var item := sources[n].items[m];
    ClashNext(sources, n, m);
    forall name
      ensures LabelBefore(sources, n, m + 1, name) <==> LabelBefore(sources, n, m, name) || (item.Label? && item.name == name)
    {
      LabelNext(sources, n, m, name);
    }
    if item.Label? {
      LabelBound(l, item.name, n);
      LabelListed(l, item.name, n);
    }
    hide Bound;
  }

  lemma LabelListed(l: Layout, name: string, section: nat)
    requires Bound(l.symbols, [], [], [])
    ensures var after := DefineLabel(l, name, section);
            && (forall other :: Listed(after.symbols, other) <==> Listed(l.symbols, other) || other == name)
            && (after.errors == [] <==> l.errors == [] && !Listed(l.symbols, name))
  {
    var i, t := IndexOf(l.symbols, name), WithName(l.symbols, name);
    var after := DefineLabel(l, name, section);
    assert t[i].defined <==> i < |l.symbols|;
    assert Listed(l.symbols, name) <==> i < |l.symbols|;
    forall other
      ensures Listed(after.symbols, other) <==> Listed(l.symbols, other) || other == name
    {
      SameListed(l.symbols, t, after.symbols, name, other);
    }
  }

  lemma SameListed(symbols: seq<Symbol>, t: seq<Symbol>, u: seq<Symbol>, name: string, other: string)
    requires symbols <= t && |t| <= |symbols| + 1 && |u| == |t|
    requires forall k :: 0 <= k < |t| ==> u[k].name == t[k].name
    requires |t| > |symbols| ==> t[|symbols|].name == name
    requires |t| == |symbols| ==> Listed(symbols, name)
    ensures Listed(u, other) <==> Listed(symbols, other) || other == name
  {
    if Listed(symbols, other) {
      var k :| 0 <= k < |symbols| && symbols[k].name == other;
      assert u[k].name == other;
    }
    if |t| > |symbols| {
      assert u[|symbols|].name == name;
    }
    if Listed(u, other) {
      var k :| 0 <= k < |u| && u[k].name == other;
      assert k < |symbols| ==> symbols[k].name == other;
    }
  }

  lemma {:induction false} ItemsKnown(l: Layout, sources: seq<SourceSection>, n: nat, m: nat)
    requires n < |sources| && m <= |sources[n].items| && Known(l.symbols, l.errors, sources, n, 0)
    ensures var after := LayOutItems(l, sources[n].items, n, m); Known(after.symbols, after.errors, sources, n, m)
  {
    hide Known, LayOutItem;
    if m > 0 {
      ItemsKnown(l, sources, n, m - 1);
      ItemKnown(LayOutItems(l, sources[n].items, n, m - 1), sources, n, m - 1);
    }
  }

  lemma NextKnown(symbols: seq<Symbol>, errors: seq<AsmError>, sources: seq<SourceSection>, n: nat)
    requires n < |sources| && Known(symbols, errors, sources, n, |sources[n].items|)
    ensures Known(symbols, errors, sources, n + 1, 0)
  {
    forall k: nat, j: nat, name: string | LabelAt(sources, k, j, name)
      ensures Earlier(k, j, n + 1, 0) <==> Earlier(k, j, n, |sources[n].items|)
    {
    }
    forall name
      ensures LabelBefore(sources, n + 1, 0, name) <==> LabelBefore(sources, n, |sources[n].items|, name)
    {
      hide LabelAt, Earlier;
    }
    assert Clash(sources, n + 1, 0) <==> Clash(sources, n, |sources[n].items|) by {
      hide LabelAt, Earlier, LabelBefore;
    }
    hide LabelBefore, Clash, Bound, Listed;
  }

  lemma {:induction false} SectionsKnown(sources: seq<SourceSection>, n: nat)
    requires n <= |sources|
    ensures Known(SymbolsBefore(sources, n).0, SymbolsBefore(sources, n).1, sources, n, 0)
  {
    hide LayOutItems, Bound, Listed;
    if n == 0 {
      LabelsBound(sources, 0);
      NothingListed();
    } else {
      hide Known;
      SectionsKnown(sources, n - 1);
      var before := SymbolsBefore(sources, n - 1);
      var start := Layout(0, sources[n - 1].alignment, before.0, before.1);
      ItemsKnown(start, sources, n - 1, |sources[n - 1].items|);
      var after := LayOutItems(start, sources[n - 1].items, n - 1, |sources[n - 1].items|);
      assert LayOutSection(sources, n - 1) == after;
      assert SymbolsBefore(sources, n) == (after.symbols, after.errors);
      NextKnown(SymbolsBefore(sources, n).0, SymbolsBefore(sources, n).1, sources, n - 1);
    }
  }

  lemma NothingListed()
    ensures forall name :: !Listed([], name)
  {
  }

  // ----- bindings -----

  /** The symbols that are defined are the labels, and all of these are in the table. */
  ghost predicate Labelled(symbols: seq<Symbol>, sources: seq<SourceSection>) {
    && UniqueNames(symbols)
    && (forall i :: 0 <= i < |symbols| ==> (symbols[i].defined <==> IsLabel(sources, symbols[i].name)))
    && (forall name :: IsLabel(sources, name) ==> Listed(symbols, name))
  }

  lemma KnownLabelled(symbols: seq<Symbol>, errors: seq<AsmError>, sources: seq<SourceSection>)
    requires Known(symbols, errors, sources, |sources|, 0)
    ensures Labelled(symbols, sources)
  {
    forall name
      ensures LabelBefore(sources, |sources|, 0, name) <==> IsLabel(sources, name)
    {
    }
    hide LabelBefore, IsLabel;
    assert forall i :: 0 <= i < |symbols| ==> Listed(symbols, symbols[i].name);
  }

  lemma ReboundLabelled(symbols: seq<Symbol>, sources: seq<SourceSection>, name: string, binding: SymbolBinding)
    requires Labelled(symbols, sources)
    ensures var i, t := IndexOf(symbols, name), WithName(symbols, name);
            && Labelled(t, sources) && Labelled(t[i := t[i].(binding := binding)], sources)
            && (t[i].defined <==> IsLabel(sources, name))
  {
    hide IsLabel;
    var i, t := IndexOf(symbols, name), WithName(symbols, name);
    Rebound(symbols, name, binding);
    NamesStable(symbols, name, name);
    if |t| == |symbols| {
      assert t == symbols;
    } else {
      assert t == symbols + [NewSymbol(name)] && !Listed(symbols, name);
      forall other | Listed(symbols, other)
        ensures Listed(t, other)
      {
        var k :| 0 <= k < |symbols| && symbols[k].name == other;
        assert t[k].name == other;
      }
    }
  }

  lemma {:induction false} PromoteLabelled(symbols: seq<Symbol>, sources: seq<SourceSection>, names: seq<string>, n: nat, binding: SymbolBinding)
    requires Labelled(symbols, sources) && n <= |names|
    ensures Labelled(Promote(symbols, names, n, binding), sources)
  {
    hide Labelled, IndexOf, WithName;
    if n > 0 {
      PromoteLabelled(symbols, sources, names, n - 1, binding);
      ReboundLabelled(Promote(symbols, names, n - 1, binding), sources, names[n - 1], binding);
    }
  }

  lemma {:induction false} ExternsLabelled(
    symbols: seq<Symbol>, errors: seq<AsmError>, sources: seq<SourceSection>, names: seq<string>, n: nat)
    requires Labelled(symbols, sources) && n <= |names|
    ensures Labelled(DeclareExterns(symbols, errors, names, n).0, sources)
    ensures DeclareExterns(symbols, errors, names, n).1 == [] <==> errors == [] && forall i :: 0 <= i < n ==> !IsLabel(sources, names[i])
  {
    hide Labelled, IndexOf, WithName, IsLabel;
    if n > 0 {
      ExternsLabelled(symbols, errors, sources, names, n - 1);
      ReboundLabelled(DeclareExterns(symbols, errors, names, n - 1).0, sources, names[n - 1], Extern);
    }
  }

  /** Pass 2 starts without an error exactly when no label clashes, with another or with an extern. */
  lemma StartOk(m: Module)
    ensures var sources := Sources(m, |SECTION_ORDER|);
            && Labelled(PassTwoStart(m).symbols, sources)
            && (PassTwoStart(m).errors == [] <==>
                  !Clash(sources, |sources|, 0) && forall name :: name in m.externs ==> !IsLabel(sources, name))
  {
    hide Labelled, IsLabel, Clash, Promote, DeclareExterns, SymbolsBefore, Sources, LabelBefore, Bound, Listed;
    var sources := Sources(m, |SECTION_ORDER|);
    var defined := SymbolsBefore(sources, |sources|);
    SectionsKnown(sources, |sources|);
    KnownLabelled(defined.0, defined.1, sources);
    var globals := Promote(defined.0, m.globals, |m.globals|, Global);
    PromoteLabelled(defined.0, sources, m.globals, |m.globals|, Global);
    PromoteLabelled(globals, sources, m.weaks, |m.weaks|, Weak);
    ExternsLabelled(Promote(globals, m.weaks, |m.weaks|, Weak), defined.1, sources, m.externs, |m.externs|);
  }

  // ----- pass 2 -----

  /** The table while references are seen: an undefined name that nothing declares is not file-scoped. */
  ghost predicate Table(symbols: seq<Symbol>, m: Module, sources: seq<SourceSection>) {
    && Referred(symbols, m) && Labelled(symbols, sources)
    && forall i :: 0 <= i < |symbols| && !symbols[i].defined && ".L" <= symbols[i].name ==> Declared(m, symbols[i].name)
  }

  ghost predicate NameOk(m: Module, sources: seq<SourceSection>, name: string) {
    ".L" <= name ==> IsLabel(sources, name) || Declared(m, name)
  }

  lemma StartTable(m: Module)
    requires PassTwoStart(m).errors == []
    ensures Table(PassTwoStart(m).symbols, m, Sources(m, |SECTION_ORDER|))
  {
    hide Labelled, IsLabel, Sources, Declared;
    StartOk(m);
    StartBound(m);
    BoundReferred(PassTwoStart(m).symbols, m);
    BoundDeclared(PassTwoStart(m).symbols, m);
    hide Referred, Bound;
  }

  lemma BoundDeclared(symbols: seq<Symbol>, m: Module)
    requires Bound(symbols, m.globals, m.weaks, m.externs)
    ensures forall i :: 0 <= i < |symbols| && !symbols[i].defined ==> Declared(m, symbols[i].name)
  {
  }

  /** A reference is an error exactly when it is to an unknown file-scoped name. */
  lemma ReferenceOk(e: Emission, m: Module, sources: seq<SourceSection>, name: string)
    requires Table(e.symbols, m, sources)
    ensures |Reference(e, name).errors| == |e.errors| <==> NameOk(m, sources, name)
    ensures NameOk(m, sources, name) ==> Table(Reference(e, name).symbols, m, sources)
  {
    hide IsLabel;
    var i, t := IndexOf(e.symbols, name), WithName(e.symbols, name);
    ReboundLabelled(e.symbols, sources, name, Extern);
    if i < |e.symbols| {
      assert t == e.symbols;
    } else {
      assert t == e.symbols + [NewSymbol(name)];
      FreshName(e.symbols, m, name);
    }
    if NameOk(m, sources, name) {
      ReferenceReferred(e, name, m);
    }
    hide Labelled, Referred, Declared, Listed;
  }

  lemma FreshName(symbols: seq<Symbol>, m: Module, name: string)
    requires Referred(symbols, m) && IndexOf(symbols, name) == |symbols|
    ensures !Declared(m, name)
  {
    assert !Listed(symbols, name);
  }

  /** An item is emitted without an error exactly when it is fine. */
  lemma ItemErrors(e: Emission, m: Module, sources: seq<SourceSection>, item: Item, section: nat)
    requires Table(e.symbols, m, sources)
    ensures |e.errors| <= |EmitItem(e, item, section).errors|
    ensures |EmitItem(e, item, section).errors| == |e.errors| <==> ItemOk(m, sources, item)
    ensures ItemOk(m, sources, item) ==> Table(EmitItem(e, item, section).symbols, m, sources)
  {
    hide Encode, EncodedBytes, Table, Reference, Placeholder, IsLabel, Declared;
    if Symbolic(item) {
      var name := SymbolOf(item).name;
      TableUnique(e, m, sources);
      ReferenceExtends(e, name);
      ErrorsGrow(e, Reference(e, name));
      ReferenceOk(e, m, sources, name);
    }
    hide Extends, UniqueNames;
  }

  lemma TableUnique(e: Emission, m: Module, sources: seq<SourceSection>)
    requires Table(e.symbols, m, sources)
    ensures UniqueNames(e.symbols)
  {
  }

  lemma {:induction false} ItemsErrors(e: Emission, m: Module, sources: seq<SourceSection>, items: seq<Item>, section: nat, n: nat)
    requires Table(e.symbols, m, sources) && n <= |items|
    ensures |e.errors| <= |EmitItems(e, items, section, n).errors|
    ensures |EmitItems(e, items, section, n).errors| == |e.errors| <==> forall j :: 0 <= j < n ==> ItemOk(m, sources, items[j])
    ensures |EmitItems(e, items, section, n).errors| == |e.errors| ==> Table(EmitItems(e, items, section, n).symbols, m, sources)
  {
    hide EmitItem, ItemOk, Table;
    if n > 0 {
      ItemsErrors(e, m, sources, items, section, n - 1);
      var before := EmitItems(e, items, section, n - 1);
      if |before.errors| == |e.errors| {
        ItemErrors(before, m, sources, items[n - 1], section);
      } else {
        TableUnique(e, m, sources);
        ItemsExtend(e, items, section, n - 1, n);
        ErrorsGrow(before, EmitItems(e, items, section, n));
      }
    }
  }

  // ----- sections -----

  predicate AllZero(bytes: seq<u8>) { forall i :: 0 <= i < |bytes| ==> bytes[i] == 0 }

  lemma {:induction false} ZeroWord(bytes: seq<u8>)
    ensures FromBytes(bytes) == 0 <==> AllZero(bytes)
  {
    if bytes != [] {
      ZeroWord(bytes[1..]);
      assert AllZero(bytes) <==> bytes[0] == 0 && AllZero(bytes[1..]);
    }
  }

  lemma EncodedZero(ins: IrInstruction, bytes: seq<u8>)
    requires Encode(Placeholder(ins)).Ok? && |bytes| == 8 && DecodeFrom(bytes) == Ok(Unresolved(ins))
    ensures AllZero(bytes) <==> Encode(Placeholder(ins)) == Ok(0)
  {
    hide Decode, Encode, FromBytes;
    assert bytes[..8] == bytes;
    EncodeDecode(Load64(bytes));
    ZeroWord(bytes);
  }

  lemma ItemZero(item: Item, offset: nat, bytes: seq<u8>)
    requires ItemBytes(item, offset, bytes) && (item.Instr? ==> Encode(Placeholder(item.ins)).Ok?)
    ensures AllZero(bytes) <==> ZeroItem(item)
  {
    hide DecodeFrom, Encode;
    match item
    case Instr(ins) => EncodedZero(ins, bytes);
    case Space(size, fill) => assert size > 0 && fill != 0 ==> bytes[0] == fill;
    case _ =>
  }

  /** The bytes of item j are zeros exactly when it is an item of zeros. */
  ghost predicate ZeroAsItem(items: seq<Item>, j: nat, data: seq<u8>) {
    && j < |items| && TrueOffset(items, j) <= TrueOffset(items, j + 1) <= |data|
    && (AllZero(data[TrueOffset(items, j)..TrueOffset(items, j + 1)]) <==> ZeroItem(items[j]))
  }

  lemma StoredZero(items: seq<Item>, j: nat, data: seq<u8>)
    requires Stored(items, j, data) && (items[j].Instr? ==> Encode(Placeholder(items[j].ins)).Ok?)
    ensures ZeroAsItem(items, j, data)
  {
    hide ItemBytes, Encode, ZeroItem, TrueOffset, AllZero;
    ItemZero(items[j], TrueOffset(items, j), data[TrueOffset(items, j)..TrueOffset(items, j + 1)]);
  }

  lemma {:induction false} AllZeroUpTo(items: seq<Item>, n: nat, data: seq<u8>)
    requires n <= |items| && TrueOffset(items, n) <= |data| && forall j :: 0 <= j < n ==> ZeroAsItem(items, j, data)
    ensures AllZero(data[..TrueOffset(items, n)]) <==> forall j :: 0 <= j < n ==> ZeroItem(items[j])
  {
    hide ZeroItem, AllZero;
    if n > 0 {
      hide TrueOffset;
      assert ZeroAsItem(items, n - 1, data);
      AllZeroUpTo(items, n - 1, data);
      var i, j := TrueOffset(items, n - 1), TrueOffset(items, n);
      assert data[..j] == data[..i] + data[i..j];
      ZeroConcat(data[..i], data[i..j]);
    } else {
      NothingIsZero(data[..0]);
    }
  }

  lemma NothingIsZero(bytes: seq<u8>)
    requires bytes == []
    ensures AllZero(bytes)
  {
  }

  lemma ZeroConcat(a: seq<u8>, b: seq<u8>)
    ensures AllZero(a + b) <==> AllZero(a) && AllZero(b)
  {
    if AllZero(a + b) {
      assert forall i :: 0 <= i < |a| ==> a[i] == (a + b)[i];
      assert forall i :: 0 <= i < |b| ==> b[i] == (a + b)[|a| + i];
    }
  }

  lemma ItemEncodes(m: Module, sources: seq<SourceSection>, item: Item)
    requires ItemOk(m, sources, item)
    ensures item.Instr? ==> Encode(Placeholder(item.ins)).Ok?
  {
  }

  /** A section that has been emitted without an error passes the check at its end exactly when it should. */
  lemma FinishErrors(m: Module, sources: seq<SourceSection>, k: nat, e: Emission)
    requires k < |sources| && e.data == [] && UniqueNames(e.symbols)
    requires forall j :: 0 <= j < |sources[k].items| ==> ItemOk(m, sources, sources[k].items[j])
    requires |EmitItems(e, sources[k].items, k, |sources[k].items|).errors| == |e.errors|
    ensures var items := sources[k].items;
            var end := EmitItems(e, items, k, |items|);
            |FinishSection(end, sources[k].kind, LayOutSection(sources, k).offset).errors| == |e.errors| <==>
              if sources[k].kind.Bss? then forall j :: 0 <= j < |items| ==> ZeroItem(items[j])
              else TrueOffset(items, |items|) < TWO64
  {
    hide EmitItems, LayOutItems, ZeroItem, ItemOk, Stored, ZeroAsItem;
    var items := sources[k].items;
    var end := EmitItems(e, items, k, |items|);
    if sources[k].kind.Bss? {
      ItemsStored(e, items, k, |items|);
      EmittedAt(e, items, k, |items|);
      forall j | 0 <= j < |items|
        ensures ZeroAsItem(items, j, end.data)
      {
        ItemEncodes(m, sources, items[j]);
        StoredZero(items, j, end.data);
      }
      AllZeroUpTo(items, |items|, end.data);
      assert end.data[..TrueOffset(items, |items|)] == end.data;
    } else {
      var before := SymbolsBefore(sources, k);
      PassesAgreeIff(Layout(0, sources[k].alignment, before.0, before.1), e, items, k);
    }
  }

  /** One section. */
  lemma SectionErrors(m: Module, k: nat)
    requires k < |Sources(m, |SECTION_ORDER|)|
    requires var before := Entering(Sources(m, |SECTION_ORDER|), PassTwoStart(m), k);
             before.errors == [] && Table(before.symbols, m, Sources(m, |SECTION_ORDER|))
    ensures var sources := Sources(m, |SECTION_ORDER|);
            var after := EmitSection(sources, PassTwoStart(m), k);
            && (after.errors == [] <==> SectionOk(m, sources, sources[k]))
            && (after.errors == [] ==> Table(after.symbols, m, sources))
  {
    hide EmitItems, PassTwoStart, Sources, Table, ItemOk, LayOutSection, FinishSection, UniqueNames, Extends, TrueOffset, ZeroItem;
    var sources := Sources(m, |SECTION_ORDER|);
    var before := Entering(sources, PassTwoStart(m), k);
    var items := sources[k].items;
    var e := EmitItems(before, items, k, |items|);
    TableUnique(before, m, sources);
    ItemsErrors(before, m, sources, items, k, |items|);
    SectionStep(sources, PassTwoStart(m), k);
    ErrorsGrow(e, EmitSection(sources, PassTwoStart(m), k));
    if |e.errors| == 0 {
      FinishErrors(m, sources, k, before);
    }
  }

  lemma ErrorsStay(m: Module, k: nat)
    requires k < |Sources(m, |SECTION_ORDER|)|
    ensures EmitSection(Sources(m, |SECTION_ORDER|), PassTwoStart(m), k).errors == [] ==>
              Entering(Sources(m, |SECTION_ORDER|), PassTwoStart(m), k).errors == []
  {
    hide EmitSection, PassTwoStart, Sources, UniqueNames, Extends;
    var sources, start := Sources(m, |SECTION_ORDER|), PassTwoStart(m);
    StartUnique(m);
    EnteringUnique(sources, start, k);
    SectionStep(sources, start, k);
    ErrorsGrow(Entering(sources, start, k), EmitSection(sources, start, k));
  }

  lemma {:induction false} SectionsErrors(m: Module, k: nat)
    requires k < |Sources(m, |SECTION_ORDER|)|
    ensures var sources := Sources(m, |SECTION_ORDER|);
            var after := EmitSection(sources, PassTwoStart(m), k);
            && (after.errors == [] <==>
                  PassTwoStart(m).errors == [] && forall i :: 0 <= i <= k ==> SectionOk(m, sources, sources[i]))
            && (after.errors == [] ==> Table(after.symbols, m, sources))
  {
    hide EmitSection, PassTwoStart, Sources, Table, SectionOk;
    var sources, start := Sources(m, |SECTION_ORDER|), PassTwoStart(m);
    ErrorsStay(m, k);
    if k > 0 {
      SectionsErrors(m, k - 1);
    } else if start.errors == [] {
      StartTable(m);
    }
    if Entering(sources, start, k).errors == [] {
      SectionErrors(m, k);
    }
  }

  /** A module assembles exactly when no two of its labels have the same name, none is declared external,
      every reference to a file-scoped name has a label or a declaration, every instruction encodes, the
      section of zeros holds only zeros, and every other section is smaller than the address space. */
  lemma AssemblesIff(m: Module)
    ensures Assemble(m).Ok? <==> ModuleOk(m)
  {
    hide EmitSection, PassTwoStart, Sources, Table, SectionOk, Clash, IsLabel, Labelled;
    var sources := Sources(m, |SECTION_ORDER|);
    StartOk(m);
    if sources != [] {
      SectionsErrors(m, |sources| - 1);
    }
  }
}
