/** The assembler object: collects the sections, lays them out, applies the bindings and emits,
    step by step in place, and computes what `AssemblySpec.Assemble` says. */
module Assembler {
  import opened Words
  import opened Isa
  import opened Ir
  import opened Codec
  import opened Relocations
  import opened Symbols
  import opened ControlFlowGraph
  import opened AssemblySpec

  class AssemblyContext {
    const source: Module
    var sources: seq<SourceSection>
    var sections: seq<ObjectSection>
    const table: SymbolTable
    var relocations: seq<Relocation>
    var errors: seq<AsmError>

    ghost predicate Valid()
      reads this, table
    {
      table.Valid()
    }

    constructor (m: Module)
      ensures Valid() && fresh(table) && source == m
      ensures sources == [] && sections == [] && table.symbols == [] && relocations == [] && errors == []
    {
      source := m;
      sources, sections, relocations, errors := [], [], [], [];
      table := new SymbolTable();
    }

    /** `collectSections` */
    method CollectSections()
      requires sources == [] && sections == []
      modifies this`sources, this`sections
      ensures sources == Sources(source, |SECTION_ORDER|) && |sections| == |sources|
      ensures forall k :: 0 <= k < |sections| ==> sections[k] == NewSection(sources[k])
    {
      var n := 0;
      while n < |SECTION_ORDER|
        invariant n <= |SECTION_ORDER| && sources == Sources(source, n) && |sections| == |sources|
        invariant forall k :: 0 <= k < |sections| ==> sections[k] == NewSection(sources[k])
      {
        var found := FindSection(source.sections, SECTION_ORDER[n]);
        if found.Some? && found.value.items != [] {
          sources := sources + [found.value];
          sections := sections + [NewSection(found.value)];
        }
        n := n + 1;
      }
    }

    // ----- pass 1 -----

    method DefineLabelAt(name: string, section: nat, offset: u64, ghost alignment: u64)
      requires Valid()
      modifies table, this`errors
      ensures Valid()
      ensures Layout(offset, alignment, table.symbols, errors)
           == DefineLabel(Layout(offset, alignment, old(table.symbols), old(errors)), name, section)
    {
      var i := table.FindOrAdd(name);
      var symbol := table.symbols[i];
      if symbol.defined {
        errors := errors + [DuplicateSymbol(name)];
        return;
      }
      table.Update(i, symbol.(defined := true, section := section, value := offset, binding := Local));
    }

    /** One item of pass 1. */
    method LayOutNext(item: Item, k: nat, offset: u64, alignment: u64) returns (offset': u64, alignment': u64)
      requires Valid()
      modifies table, this`errors
      ensures Valid()
      ensures Layout(offset', alignment', table.symbols, errors) == LayOutItem(Layout(offset, alignment, old(table.symbols), old(errors)), item, k)
    {
      hide AlignUp, DefineLabel;
      offset', alignment' := offset, alignment;
      match item {
        case Label(name, _) => DefineLabelAt(name, k, offset, alignment);
        case Instr(_) => offset' := Wrap(offset + INSTRUCTION_SIZE);
        case Bytes(data) => offset' := Wrap(offset + |data|);
        case SymbolValue(width, _) => offset' := Wrap(offset + width);
        case Space(size, _) => offset' := Wrap(offset + size);
        case Align(a) =>
          offset' := Wrap(AlignUp(offset, a));
          alignment' := if a > alignment then a else alignment;
      }
    }

    method LayOut(k: nat)
      requires Valid() && k < |sources| == |sections| && sections[k].alignment == sources[k].alignment
      modifies table, this`sections, this`errors
      ensures Valid()
      ensures var l := LayOutItems(Layout(0, sources[k].alignment, old(table.symbols), old(errors)), sources[k].items, k, |sources[k].items|);
        && table.symbols == l.symbols && errors == l.errors
        && sections == old(sections)[k := old(sections[k]).(size := l.offset, alignment := l.alignment)]
    {
      hide LayOutItem;
      var items := sources[k].items;
      var offset: u64, maxAlignment := 0, sections[k].alignment;
      ghost var start := Layout(0, maxAlignment, table.symbols, errors);
      var n := 0;
      while n < |items|
        invariant n <= |items| && Valid() && sections == old(sections)
        invariant Layout(offset, maxAlignment, table.symbols, errors) == LayOutItems(start, items, k, n)
      {
        offset, maxAlignment := LayOutNext(items[n], k, offset, maxAlignment);
        n := n + 1;
      }
      sections := sections[k := sections[k].(size := offset, alignment := maxAlignment)];
    }

    /** `layoutAndDefineSymbols` */
    method LayoutAndDefineSymbols()
      requires Valid() && table.symbols == [] && errors == [] && |sections| == |sources|
      requires forall k :: 0 <= k < |sections| ==> sections[k] == NewSection(sources[k])
      modifies table, this`sections, this`errors
      ensures Valid() && (table.symbols, errors) == SymbolsBefore(sources, |sources|) && |sections| == |sources|
      ensures forall k :: 0 <= k < |sections| ==> sections[k] == SizedSection(sources, k)
    {
      hide LayOutItems;
      var k := 0;
      while k < |sources|
        invariant k <= |sources| == |sections| && Valid() && (table.symbols, errors) == SymbolsBefore(sources, k)
        invariant forall j :: 0 <= j < k ==> sections[j] == SizedSection(sources, j)
        invariant forall j :: k <= j < |sections| ==> sections[j] == NewSection(sources[j])
      {
        LayOut(k);
        k := k + 1;
      }
    }

    // ----- bindings -----

    method PromoteNames(names: seq<string>, binding: SymbolBinding)
      requires Valid()
      modifies table
      ensures Valid() && table.symbols == Promote(old(table.symbols), names, |names|, binding)
    {
      var n := 0;
      while n < |names|
        invariant n <= |names| && Valid() && table.symbols == Promote(old(table.symbols), names, n, binding)
      {
        var i := table.FindOrAdd(names[n]);
        table.Update(i, table.symbols[i].(binding := binding));
        n := n + 1;
      }
    }

    method DeclareExternName(name: string)
      requires Valid()
      modifies table, this`errors
      ensures Valid()
      ensures (table.symbols, errors) == DeclareExtern(old(table.symbols), old(errors), name)
    {
      var i := table.FindOrAdd(name);
      if table.symbols[i].defined {
        errors := errors + [VisibilityConflict(name)];
      } else {
        table.Update(i, table.symbols[i].(binding := Extern));
      }
    }

    method DeclareExternNames()
      requires Valid()
      modifies table, this`errors
      ensures Valid()
      ensures (table.symbols, errors) == DeclareExterns(old(table.symbols), old(errors), source.externs, |source.externs|)
    {
      hide DeclareExtern;
      var names := source.externs;
      var n := 0;
      while n < |names|
        invariant n <= |names| && Valid()
        invariant (table.symbols, errors) == DeclareExterns(old(table.symbols), old(errors), names, n)
      {
        DeclareExternName(names[n]);
        n := n + 1;
      }
    }

    /** `applyBindings` */
    method ApplyAllBindings()
      requires Valid()
      modifies table, this`errors
      ensures Valid() && (table.symbols, errors) == ApplyBindings(old(table.symbols), old(errors), source)
    {
      PromoteNames(source.globals, Global);
      PromoteNames(source.weaks, Weak);
      DeclareExternNames();
    }

    // ----- pass 2 -----

    ghost function State(bytes: seq<u8>): Emission
      reads this, table
    {
      Emission(bytes, table.symbols, relocations, errors)
    }

    /** `referenceSymbol` */
    method ReferenceSymbol(name: string, ghost bytes: seq<u8>) returns (position: nat)
      requires Valid()
      modifies table, this`errors
      ensures Valid() && State(bytes) == Reference(old(State(bytes)), name)
      ensures position == IndexOf(old(table.symbols), name)
    {
      position := table.FindOrAdd(name);
      var symbol := table.symbols[position];
      if !symbol.defined && symbol.binding.Local? {
        if LocalName(name) {
          errors := errors + [UndefinedLocal(name)];
        } else {
          table.Update(position, symbol.(binding := Extern));
        }
      }
    }

    method AddRelocation(section: nat, bytes: seq<u8>, kind: RelocationType, ref: SymbolRef)
      requires Valid()
      modifies table, this`errors, this`relocations
      ensures Valid() && State(bytes) == Relocate(old(State(bytes)), section, kind, ref)
    {
      var position := ReferenceSymbol(ref.name, bytes);
      relocations := relocations + [Relocation(section, Wrap(|bytes|), kind, position, ref.addend)];
    }

    method EmitOneInstruction(ins: IrInstruction, section: nat, bytes: seq<u8>) returns (bytes': seq<u8>)
      requires Valid()
      modifies table, this`errors, this`relocations
      ensures Valid() && State(bytes') == EmitInstruction(old(State(bytes)), ins, section)
    {
      hide Encode, EncodedBytes, Relocate;
      if ins.symbol.Some? {
        AddRelocation(section, bytes, RelocationFor(ins.machine.opcode), ins.symbol.value);
      }
      var field := new u8[INSTRUCTION_SIZE](_ => 0);
      assert field[..] == seq(INSTRUCTION_SIZE, _ => 0);
      var encoded := EncodeInto(field, 0, INSTRUCTION_SIZE, Placeholder(ins));
      if encoded.Err? {
        errors := errors + [CannotEncode(encoded.error)];
      } else {
        assert field[0..8] == EncodedBytes(Placeholder(ins));
        assert field[..] == EncodedBytes(Placeholder(ins));
      }
      bytes' := bytes + field[..];
    }

    /** `emit`, for one section. */
    method EmitAll(k: nat)
      requires Valid() && k < |sources| == |sections| && sections[k].data == []
      requires sections[k].kind == Some(sources[k].kind)
      modifies table, this`errors, this`relocations, this`sections
      ensures Valid()
      ensures var e := FinishSection(EmitItems(old(State([])), sources[k].items, k, |sources[k].items|), sources[k].kind, old(sections[k].size));
        State(e.data) == e && sections == old(sections)[k := old(sections[k]).(data := e.data)]
    {
      hide EmitInstruction, Relocate;
      var items := sources[k].items;
      var bytes: seq<u8> := [];
      ghost var start := State([]);
      var n := 0;
      while n < |items|
        invariant n <= |items| && Valid() && sections == old(sections)
        invariant State(bytes) == EmitItems(start, items, k, n)
      {
        match items[n] {
          case Label(_, _) =>
          case Instr(ins) => bytes := EmitOneInstruction(ins, k, bytes);
          case Bytes(data) => bytes := bytes + data;
          case SymbolValue(width, ref) =>
            AddRelocation(k, bytes, if width == 4 then ABS32 else ABS64, ref);
            bytes := bytes + seq(width, _ => 0);
          case Space(size, fill) => bytes := bytes + seq(size, _ => fill);
          case Align(alignment) => bytes := bytes + seq(AlignUp(|bytes|, alignment) - |bytes|, _ => 0);
        }
        n := n + 1;
      }
      if sources[k].kind.Bss? {
        if exists i :: 0 <= i < |bytes| && bytes[i] != 0 {
          errors := errors + [NonZeroBss];
        }
        bytes := [];
      } else if |bytes| != sections[k].size {
        errors := errors + [SizeMismatch(sources[k].kind)];
      }
      sections := sections[k := sections[k].(data := bytes)];
    }

    /** `assemble`: everything in order. */
    method Run() returns (result: Result<ObjectFile, seq<AsmError>>)
      requires Valid() && sources == [] && sections == [] && table.symbols == [] && relocations == [] && errors == []
      modifies this, table
      ensures result == Assemble(source)
    {
      hide LayOutSection, ApplyBindings, EmitItems, SymbolsBefore;
      CollectSections();
      LayoutAndDefineSymbols();
      ApplyAllBindings();
      EmitSections();
      if errors != [] {
        return Err(errors);
      }
      assert sections == ObjectSections(source);
      return Ok(ObjectFile(sections, table.symbols, relocations));
    }

    method EmitSections()
      requires Valid() && sources == Sources(source, |SECTION_ORDER|) && |sections| == |sources|
      requires State([]) == PassTwoStart(source)
      requires forall k :: 0 <= k < |sections| ==> sections[k] == SizedSection(sources, k)
      modifies table, this`errors, this`relocations, this`sections
      ensures Valid() && |sections| == |sources|
      ensures forall k :: 0 <= k < |sections| ==> sections[k] == ObjectSections(source)[k]
      ensures State(LastEmission(source).data) == LastEmission(source)
    {
      hide *;
      ghost var start := PassTwoStart(source);
      StartIs(start);
      ghost var e := start;
      var k := 0;
      while k < |sources|
        invariant k <= |sources| == |sections| && Valid() && State(e.data) == e && EmittedBefore(sources, start, k, e)
        invariant forall j :: 0 <= j < k ==> sections[j] == FilledSection(sources, start, j)
        invariant forall j :: k <= j < |sections| ==> sections[j] == SizedSection(sources, j)
      {
        StateIs(e);
        EmitNext(sources, start, k, e);
        EmitAll(k);
        e := EmitSection(sources, start, k);
        k := k + 1;
      }
      AllEmitted(source, e);
    }

    lemma StartIs(start: Emission)
      requires State([]) == start
      ensures State(start.data) == start && EmittedBefore(sources, start, 0, start)
    {
      assert State([]).data == [];
    }

    lemma StateIs(e: Emission)
      requires State(e.data) == e
      ensures State([]) == e.(data := [])
    {
    }
  }

  /** `e` is what pass 2 has reached before section k. */
  ghost predicate EmittedBefore(sources: seq<SourceSection>, start: Emission, k: nat, e: Emission)
    requires k <= |sources|
  {
    e == if k == 0 then start else EmitSection(sources, start, k - 1)
  }

  lemma EmitNext(sources: seq<SourceSection>, start: Emission, k: nat, e: Emission)
    requires k < |sources| && EmittedBefore(sources, start, k, e)
    ensures var s := SizedSection(sources, k);
      && s.kind == Some(sources[k].kind) && s.data == []
      && EmitSection(sources, start, k)
         == FinishSection(EmitItems(e.(data := []), sources[k].items, k, |sources[k].items|), sources[k].kind, s.size)
      && FilledSection(sources, start, k) == s.(data := EmitSection(sources, start, k).data)
    ensures EmittedBefore(sources, start, k + 1, EmitSection(sources, start, k))
  {
    hide EmitItems, FinishSection, LayOutSection;
  }

  lemma AllEmitted(m: Module, e: Emission)
    requires var sources := Sources(m, |SECTION_ORDER|); EmittedBefore(sources, PassTwoStart(m), |sources|, e)
    ensures e == LastEmission(m)
    ensures forall k :: 0 <= k < |ObjectSections(m)| ==>
      ObjectSections(m)[k] == FilledSection(Sources(m, |SECTION_ORDER|), PassTwoStart(m), k)
  {
    hide PassTwoStart, EmitSection, Sources, FilledSection;
  }
}
