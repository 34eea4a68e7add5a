/** The two passes of the assembler agree: every item is emitted where pass 1 placed it, every label
    has its true position, and every relocation names the bytes of its own item. */
module AssemblerProof {
  import opened Words
  import opened Isa
  import opened Ir
  import opened Codec
  import opened Relocations
  import opened Symbols
  import opened ControlFlowGraph
  import opened AssemblySpec

  // ----- true positions -----

  /** The bytes an item takes when it starts at `offset`. */
  function SizeOf(item: Item, offset: nat): nat {
    match item
    case Label(_, _) => 0
    case Instr(_) => INSTRUCTION_SIZE
    case Bytes(data) => |data|
    case SymbolValue(width, _) => width
    case Space(size, _) => size
    case Align(alignment) => AlignUp(offset, alignment) - offset
  }

  /** Where item n of a section really is, with no bound on the size. */
  function TrueOffset(items: seq<Item>, n: nat): nat
    requires n <= |items|
  {
    if n == 0 then 0 else TrueOffset(items, n - 1) + SizeOf(items[n - 1], TrueOffset(items, n - 1))
  }

  lemma {:induction false} OffsetsGrow(items: seq<Item>, i: nat, j: nat)
    requires i <= j <= |items|
    ensures TrueOffset(items, i) <= TrueOffset(items, j)
    ensures i < j ==> TrueOffset(items, i) + SizeOf(items[i], TrueOffset(items, i)) <= TrueOffset(items, j)
  {
    if i < j {
      OffsetsGrow(items, i, j - 1);
    }
  }

  lemma {:induction false} LaidOutAt(l: Layout, items: seq<Item>, section: nat, n: nat)
    requires l.offset == 0 && n <= |items| && TrueOffset(items, n) < TWO64
    ensures LayOutItems(l, items, section, n).offset == TrueOffset(items, n)
  {
    if n > 0 {
      LaidOutAt(l, items, section, n - 1);
    }
  }

  lemma {:induction false} EmittedAt(e: Emission, items: seq<Item>, section: nat, n: nat)
    requires e.data == [] && n <= |items|
    ensures |EmitItems(e, items, section, n).data| == TrueOffset(items, n)
  {
    if n > 0 {
      hide EncodedBytes, Encode, Relocate;
      EmittedAt(e, items, section, n - 1);
    }
  }

  /** The size check between the passes succeeds exactly when the section fits the address space:
      no section a machine can hold makes it fail. */
  lemma PassesAgreeIff(l: Layout, e: Emission, items: seq<Item>, section: nat)
    requires l.offset == 0 && e.data == []
    ensures |EmitItems(e, items, section, |items|).data| == LayOutItems(l, items, section, |items|).offset
            <==> TrueOffset(items, |items|) < TWO64
    ensures TrueOffset(items, |items|) < TWO64 ==> forall n :: 0 <= n <= |items| ==>
      |EmitItems(e, items, section, n).data| == LayOutItems(l, items, section, n).offset == TrueOffset(items, n)
  {
    EmittedAt(e, items, section, |items|);
    if TrueOffset(items, |items|) < TWO64 {
      forall n | 0 <= n <= |items|
        ensures |EmitItems(e, items, section, n).data| == LayOutItems(l, items, section, n).offset == TrueOffset(items, n)
      {
        OffsetsGrow(items, n, |items|);
        EmittedAt(e, items, section, n);
        LaidOutAt(l, items, section, n);
      }
    }
  }

  // ----- labels -----

  /** The symbol has a place, and keeps it whatever its binding becomes. */
  ghost predicate Placed(symbols: seq<Symbol>, name: string, section: nat, value: nat) {
    var s := Find(symbols, name);
    s.Some? && s.value.defined && s.value.section == section && s.value.value == value && s.value.name == name
  }

  ghost predicate FitsMemory(items: seq<Item>) { TrueOffset(items, |items|) < TWO64 }

  lemma DefineKeeps(l: Layout, item: Item, section: nat, name: string, at: nat, value: nat)
    requires UniqueNames(l.symbols)
    ensures UniqueNames(LayOutItem(l, item, section).symbols)
    ensures l.errors <= LayOutItem(l, item, section).errors
    ensures Placed(l.symbols, name, at, value) ==> Placed(LayOutItem(l, item, section).symbols, name, at, value)
    ensures item.Label? && |LayOutItem(l, item, section).errors| == |l.errors| ==>
      Placed(LayOutItem(l, item, section).symbols, item.name, section, l.offset)
  {
    if item.Label? {
      NamesStable(l.symbols, item.name, name);
      NamesStable(l.symbols, item.name, item.name);
      var i, t := IndexOf(l.symbols, item.name), WithName(l.symbols, item.name);
      if !t[i].defined {
        PositionsStable(t, Symbol(item.name, Local, section, l.offset, true), name);
        PositionsStable(t, Symbol(item.name, Local, section, l.offset, true), item.name);
      }
    }
  }

  lemma {:induction false} LayoutKeeps(l: Layout, items: seq<Item>, section: nat, n: nat, name: string, at: nat, value: nat)
    requires UniqueNames(l.symbols) && n <= |items|
    ensures UniqueNames(LayOutItems(l, items, section, n).symbols)
    ensures l.errors <= LayOutItems(l, items, section, n).errors
    ensures Placed(l.symbols, name, at, value) ==> Placed(LayOutItems(l, items, section, n).symbols, name, at, value)
  {
    hide LayOutItem, Placed, UniqueNames;
    if n > 0 {
      LayoutKeeps(l, items, section, n - 1, name, at, value);
      DefineKeeps(LayOutItems(l, items, section, n - 1), items[n - 1], section, name, at, value);
    }
  }

  /** A layout without errors places every label where it stands. */
  lemma {:induction false} LabelsPlaced(l: Layout, items: seq<Item>, section: nat, n: nat, j: nat)
    requires l.offset == 0 && UniqueNames(l.symbols) && FitsMemory(items)
    requires j < n <= |items| && items[j].Label? && |LayOutItems(l, items, section, n).errors| == |l.errors|
    ensures Placed(LayOutItems(l, items, section, n).symbols, items[j].name, section, TrueOffset(items, j))
  {
    hide LayOutItem, Placed, UniqueNames;
    var before := LayOutItems(l, items, section, n - 1);
    LayoutKeeps(l, items, section, n - 1, items[j].name, section, TrueOffset(items, j));
    DefineKeeps(before, items[n - 1], section, items[j].name, section, TrueOffset(items, j));
    if j == n - 1 {
      OffsetsGrow(items, j, |items|);
      LaidOutAt(l, items, section, j);
    } else {
      LabelsPlaced(l, items, section, n - 1, j);
    }
  }

  /** Through the sections that follow. */
  lemma {:induction false} SymbolsKept(sources: seq<SourceSection>, k: nat, n: nat, name: string, at: nat, value: nat)
    requires k <= n <= |sources|
    ensures UniqueNames(SymbolsBefore(sources, n).0) && SymbolsBefore(sources, k).1 <= SymbolsBefore(sources, n).1
    ensures Placed(SymbolsBefore(sources, k).0, name, at, value) ==> Placed(SymbolsBefore(sources, n).0, name, at, value)
    decreases n
  {
    hide LayOutItems, Placed, UniqueNames;
    if k < n {
      SymbolsKept(sources, k, n - 1, name, at, value);
      SymbolsStep(sources, n - 1, name, at, value);
    } else if n > 0 {
      SymbolsKept(sources, n - 1, n - 1, name, at, value);
      SymbolsStep(sources, n - 1, name, at, value);
    } else {
      EmptyTable();
    }
  }

  lemma EmptyTable()
    ensures UniqueNames([])
  {
  }

  lemma SymbolsStep(sources: seq<SourceSection>, k: nat, name: string, at: nat, value: nat)
    requires k < |sources| && UniqueNames(SymbolsBefore(sources, k).0)
    ensures UniqueNames(SymbolsBefore(sources, k + 1).0) && SymbolsBefore(sources, k).1 <= SymbolsBefore(sources, k + 1).1
    ensures Placed(SymbolsBefore(sources, k).0, name, at, value) ==> Placed(SymbolsBefore(sources, k + 1).0, name, at, value)
  {
    hide LayOutItems, Placed, UniqueNames;
    var before := SymbolsBefore(sources, k);
    LayoutKeeps(Layout(0, sources[k].alignment, before.0, before.1), sources[k].items, k, |sources[k].items|, name, at, value);
  }

  /** Changing a binding moves nothing. */
  lemma BindingKeeps(symbols: seq<Symbol>, name: string, binding: SymbolBinding, other: string, at: nat, value: nat)
    requires UniqueNames(symbols)
    ensures var i, t := IndexOf(symbols, name), WithName(symbols, name);
      && UniqueNames(t) && UniqueNames(t[i := t[i].(binding := binding)])
      && (Placed(symbols, other, at, value) ==> Placed(t, other, at, value) && Placed(t[i := t[i].(binding := binding)], other, at, value))
  {
    var i, t := IndexOf(symbols, name), WithName(symbols, name);
    NamesStable(symbols, name, other);
    PositionsStable(t, t[i].(binding := binding), other);
  }

  lemma {:induction false} PromoteKeeps(symbols: seq<Symbol>, names: seq<string>, n: nat, binding: SymbolBinding, other: string, at: nat, value: nat)
    requires UniqueNames(symbols) && n <= |names|
    ensures UniqueNames(Promote(symbols, names, n, binding))
    ensures Placed(symbols, other, at, value) ==> Placed(Promote(symbols, names, n, binding), other, at, value)
  {
    hide Placed, UniqueNames, IndexOf, WithName;
    if n > 0 {
      PromoteKeeps(symbols, names, n - 1, binding, other, at, value);
      BindingKeeps(Promote(symbols, names, n - 1, binding), names[n - 1], binding, other, at, value);
    }
  }

  lemma {:induction false} ExternsKeep(symbols: seq<Symbol>, errors: seq<AsmError>, names: seq<string>, n: nat, other: string, at: nat, value: nat)
    requires UniqueNames(symbols) && n <= |names|
    ensures var r := DeclareExterns(symbols, errors, names, n);
      && UniqueNames(r.0) && errors <= r.1 && (Placed(symbols, other, at, value) ==> Placed(r.0, other, at, value))
  {
    hide Placed, UniqueNames, IndexOf, WithName;
    if n > 0 {
      ExternsKeep(symbols, errors, names, n - 1, other, at, value);
      BindingKeeps(DeclareExterns(symbols, errors, names, n - 1).0, names[n - 1], Extern, other, at, value);
    }
  }

  lemma BindingsKeep(symbols: seq<Symbol>, errors: seq<AsmError>, m: Module, name: string, at: nat, value: nat)
    requires UniqueNames(symbols)
    ensures var r := ApplyBindings(symbols, errors, m);
      && UniqueNames(r.0) && errors <= r.1 && (Placed(symbols, name, at, value) ==> Placed(r.0, name, at, value))
  {
    hide Placed, UniqueNames, Promote, DeclareExterns;
    var globals := Promote(symbols, m.globals, |m.globals|, Global);
    var weaks := Promote(globals, m.weaks, |m.weaks|, Weak);
    PromoteKeeps(symbols, m.globals, |m.globals|, Global, name, at, value);
    PromoteKeeps(globals, m.weaks, |m.weaks|, Weak, name, at, value);
    ExternsKeep(weaks, errors, m.externs, |m.externs|, name, at, value);
  }

  // ----- pass 2 -----

  /** What a longer emission keeps of a shorter one. */
  ghost predicate Extends(e: Emission, e': Emission) {
    && UniqueNames(e'.symbols) && |e.symbols| <= |e'.symbols|
    && (forall name :: IndexOf(e.symbols, name) < |e.symbols| ==> IndexOf(e'.symbols, name) == IndexOf(e.symbols, name))
    && (forall name, at, value :: Placed(e.symbols, name, at, value) ==> Placed(e'.symbols, name, at, value))
    && e.relocations <= e'.relocations && e.errors <= e'.errors
  }

  lemma ExtendsTransitive(a: Emission, b: Emission, c: Emission)
    requires Extends(a, b) && Extends(b, c)
    ensures Extends(a, c)
  {
    hide Placed, UniqueNames, IndexOf;
  }

  lemma ReferenceExtends(e: Emission, name: string)
    requires UniqueNames(e.symbols)
    ensures Extends(e, Reference(e, name)) && Reference(e, name).data == e.data && Reference(e, name).relocations == e.relocations
    ensures IndexOf(Reference(e, name).symbols, name) == IndexOf(e.symbols, name) < |Reference(e, name).symbols|
  {
    hide Placed, UniqueNames;
    var e' := Reference(e, name);
    var t, i := WithName(e.symbols, name), IndexOf(e.symbols, name);
    forall other
      ensures UniqueNames(e'.symbols)
      ensures IndexOf(e.symbols, other) < |e.symbols| ==> IndexOf(e'.symbols, other) == IndexOf(e.symbols, other)
      ensures IndexOf(e'.symbols, name) == i
    {
      NamesStable(e.symbols, name, other);
      PositionsStable(t, t[i].(binding := Extern), other);
      PositionsStable(t, t[i].(binding := Extern), name);
    }
    forall other, at, value | Placed(e.symbols, other, at, value)
      ensures Placed(e'.symbols, other, at, value)
    {
      BindingKeeps(e.symbols, name, Extern, other, at, value);
    }
  }

  /** An item that leaves a relocation. */
  predicate Symbolic(item: Item) {
    (item.Instr? && item.ins.symbol.Some?) || item.SymbolValue?
  }

  function SymbolOf(item: Item): SymbolRef
    requires Symbolic(item)
  {
    if item.Instr? then item.ins.symbol.value else item.symbol
  }

  function KindOf(item: Item): RelocationType
    requires Symbolic(item)
  {
    if item.Instr? then RelocationFor(item.ins.machine.opcode) else if item.width == 4 then ABS32 else ABS64
  }

  /** The relocation of a symbolic item at `offset`. */
  function SiteOf(item: Item, section: nat, offset: u64, symbols: seq<Symbol>): Relocation
    requires Symbolic(item)
  {
    Relocation(section, offset, KindOf(item), IndexOf(symbols, SymbolOf(item).name), SymbolOf(item).addend)
  }

  lemma ItemExtends(e: Emission, item: Item, section: nat)
    requires UniqueNames(e.symbols)
    ensures var e' := EmitItem(e, item, section);
      && Extends(e, e') && e.data <= e'.data
      && e'.relocations == e.relocations + (if Symbolic(item) then [SiteOf(item, section, Wrap(|e.data|), e'.symbols)] else [])
      && (Symbolic(item) ==> IndexOf(e'.symbols, SymbolOf(item).name) < |e'.symbols|)
  {
    hide Encode, EncodedBytes, Placed, UniqueNames, IndexOf, WithName, Reference;
    if Symbolic(item) {
      ReferenceExtends(e, SymbolOf(item).name);
    }
  }

  /** An instruction that was emitted without an error. */
  lemma InstructionEmitted(e: Emission, ins: IrInstruction, section: nat)
    requires |EmitInstruction(e, ins, section).errors| == |e.errors| && UniqueNames(e.symbols)
    ensures Encode(Placeholder(ins)).Ok?
    ensures EmitInstruction(e, ins, section).data == e.data + EncodedBytes(Placeholder(ins))
  {
    hide Encode, EncodedBytes, UniqueNames, Reference, Placeholder;
    if ins.symbol.Some? {
      ReferenceExtends(e, ins.symbol.value.name);
    }
  }

  lemma {:induction false} ItemsExtend(e: Emission, items: seq<Item>, section: nat, m: nat, n: nat)
    requires UniqueNames(e.symbols) && m <= n <= |items|
    ensures Extends(EmitItems(e, items, section, m), EmitItems(e, items, section, n))
    ensures EmitItems(e, items, section, m).data <= EmitItems(e, items, section, n).data
    decreases n
  {
    hide EmitItem, Placed, IndexOf;
    if n > 0 {
      ItemsExtend(e, items, section, if m < n then m else n - 1, n - 1);
      ItemExtends(EmitItems(e, items, section, n - 1), items[n - 1], section);
      if m < n {
        ExtendsTransitive(EmitItems(e, items, section, m), EmitItems(e, items, section, n - 1), EmitItems(e, items, section, n));
      }
    }
  }

  function RelocCount(items: seq<Item>, n: nat): nat
    requires n <= |items|
  {
    if n == 0 then 0 else RelocCount(items, n - 1) + (if Symbolic(items[n - 1]) then 1 else 0)
  }

  lemma {:induction false} RelocationsCounted(e: Emission, items: seq<Item>, section: nat, n: nat)
    requires UniqueNames(e.symbols) && n <= |items|
    ensures |EmitItems(e, items, section, n).relocations| == |e.relocations| + RelocCount(items, n)
  {
    hide EmitItem, Placed, IndexOf, Symbolic;
    if n > 0 {
      RelocationsCounted(e, items, section, n - 1);
      ItemsExtend(e, items, section, n - 1, n - 1);
      ItemExtends(EmitItems(e, items, section, n - 1), items[n - 1], section);
    }
  }

  /** The relocation of item j, in its place in the list, names the bytes of item j. */
  lemma RelocationPlaced(e: Emission, items: seq<Item>, section: nat, j: nat)
    requires UniqueNames(e.symbols) && e.data == [] && FitsMemory(items) && j < |items| && Symbolic(items[j])
    ensures var e' := EmitItems(e, items, section, |items|);
      && TrueOffset(items, j) < TWO64
      && |e.relocations| + RelocCount(items, j) < |e'.relocations|
      && e'.relocations[|e.relocations| + RelocCount(items, j)] == SiteOf(items[j], section, TrueOffset(items, j), e'.symbols)
      && IndexOf(e'.symbols, SymbolOf(items[j]).name) < |e'.symbols|
  {
    hide EmitItem, Placed, IndexOf, Symbolic;
    var before, after := EmitItems(e, items, section, j), EmitItems(e, items, section, j + 1);
    OffsetsGrow(items, j, |items|);
    EmittedAt(e, items, section, j);
    RelocationsCounted(e, items, section, j);
    ItemsExtend(e, items, section, j, j);
    ItemExtends(before, items[j], section);
    ItemsExtend(e, items, section, j + 1, |items|);
  }

  /** Every relocation of the section is the one of some item. */
  lemma {:induction false} RelocationItem(items: seq<Item>, n: nat, r: nat) returns (j: nat)
    requires n <= |items| && r < RelocCount(items, n)
    ensures j < n && Symbolic(items[j]) && RelocCount(items, j) == r
  {
    if r < RelocCount(items, n - 1) {
      j := RelocationItem(items, n - 1, r);
    } else {
      j := n - 1;
    }
  }

  /** Data words have the widths that semantic analysis lets through. */
  predicate WidthsOk(items: seq<Item>) {
    forall i :: 0 <= i < |items| && items[i].SymbolValue? ==> items[i].width == 4 || items[i].width == 8
  }

  /** Relocation sites lie inside the section, in increasing order and apart from one another. */
  lemma SitesApart(e: Emission, items: seq<Item>, section: nat)
    requires UniqueNames(e.symbols) && e.data == [] && FitsMemory(items) && WidthsOk(items)
    ensures var e' := EmitItems(e, items, section, |items|);
      && (forall r :: |e.relocations| <= r < |e'.relocations| ==>
           e'.relocations[r].offset + RelocationWidth(e'.relocations[r].kind) <= |e'.data| && e'.relocations[r].section == section)
      && (forall r, r' :: |e.relocations| <= r < r' < |e'.relocations| ==>
           e'.relocations[r].offset + RelocationWidth(e'.relocations[r].kind) <= e'.relocations[r'].offset)
  {
    hide *;
    var e' := EmitItems(e, items, section, |items|);
    forall r: nat | |e.relocations| <= r < |e'.relocations|
      ensures e'.relocations[r].offset + RelocationWidth(e'.relocations[r].kind) <= |e'.data| && e'.relocations[r].section == section
    {
      var j := SiteItem(e, items, section, r);
    }
    forall r: nat, r': nat | |e.relocations| <= r < r' < |e'.relocations|
      ensures e'.relocations[r].offset + RelocationWidth(e'.relocations[r].kind) <= e'.relocations[r'].offset
    {
      SitePair(e, items, section, r, r');
    }
  }

  lemma SitePair(e: Emission, items: seq<Item>, section: nat, r: nat, r': nat)
    requires UniqueNames(e.symbols) && e.data == [] && FitsMemory(items) && WidthsOk(items)
    requires |e.relocations| <= r < r' < |EmitItems(e, items, section, |items|).relocations|
    ensures var e' := EmitItems(e, items, section, |items|);
      e'.relocations[r].offset + RelocationWidth(e'.relocations[r].kind) <= e'.relocations[r'].offset
  {
    hide *;
    var j := SiteItem(e, items, section, r);
    var j' := SiteItem(e, items, section, r');
    CountsGrow(items, j', j);
    OffsetsGrow(items, j, j');
  }

  lemma SiteItem(e: Emission, items: seq<Item>, section: nat, r: nat) returns (j: nat)
    requires UniqueNames(e.symbols) && e.data == [] && FitsMemory(items) && WidthsOk(items)
    requires |e.relocations| <= r < |EmitItems(e, items, section, |items|).relocations|
    ensures j < |items| && RelocCount(items, j) == r - |e.relocations|
    ensures var e' := EmitItems(e, items, section, |items|);
      && e'.relocations[r].section == section && e'.relocations[r].offset == TrueOffset(items, j)
      && RelocationWidth(e'.relocations[r].kind) == SizeOf(items[j], TrueOffset(items, j))
      && e'.relocations[r].offset + RelocationWidth(e'.relocations[r].kind) <= |e'.data|
  {
    hide EmitItem, Placed, IndexOf, UniqueNames;
    RelocationsCounted(e, items, section, |items|);
    EmittedAt(e, items, section, |items|);
    j := RelocationItem(items, |items|, r - |e.relocations|);
    RelocationPlaced(e, items, section, j);
    OffsetsGrow(items, j, |items|);
  }

  lemma {:induction false} CountsGrow(items: seq<Item>, i: nat, j: nat)
    requires i <= |items| && j <= |items|
    ensures i <= j ==> RelocCount(items, i) <= RelocCount(items, j)
    decreases j
  {
    if i < j {
      CountsGrow(items, i, j - 1);
    }
  }

  lemma ErrorsGrow(e: Emission, e': Emission)
    requires Extends(e, e')
    ensures e.errors <= e'.errors && UniqueNames(e'.symbols)
  {
  }

  /** The bytes of an instruction stand at its true offset. */
  lemma BytesPlaced(e: Emission, items: seq<Item>, section: nat, j: nat)
    requires UniqueNames(e.symbols) && e.data == [] && j < |items| && items[j].Instr?
    requires |EmitItems(e, items, section, |items|).errors| == |e.errors|
    ensures Encode(Placeholder(items[j].ins)).Ok?
    ensures var d := EmitItems(e, items, section, |items|).data;
      && TrueOffset(items, j) + INSTRUCTION_SIZE <= |d|
      && d[TrueOffset(items, j)..TrueOffset(items, j) + INSTRUCTION_SIZE] == EncodedBytes(Placeholder(items[j].ins))
  {
    hide Extends, UniqueNames, TrueOffset, EmitInstruction, EncodedBytes, Encode;
    var before, after, end := EmitItems(e, items, section, j), EmitItems(e, items, section, j + 1), EmitItems(e, items, section, |items|);
    EmittedAt(e, items, section, j);
    ItemsExtend(e, items, section, 0, j);
    ErrorsGrow(e, before);
    ItemsExtend(e, items, section, j, j + 1);
    ErrorsGrow(before, after);
    ItemsExtend(e, items, section, j + 1, |items|);
    ErrorsGrow(after, end);
    InstructionEmitted(before, items[j].ins, section);
  }
}
