/** What the two-pass assembler computes for a module: the layout of pass 1, the symbols, and the
    bytes and relocations of pass 2. */
module AssemblySpec {
  import opened Words
  import opened Isa
  import opened Ir
  import opened ByteOrder
  import opened Codec
  import opened Relocations
  import opened Symbols
  import opened ControlFlowGraph

  datatype SourceSection = SourceSection(kind: SectionKind, alignment: u64, items: seq<Item>)

  datatype Module = Module(sections: seq<SourceSection>, globals: seq<string>, weaks: seq<string>, externs: seq<string>)

  /** A section of an object file; `None` is the null section type, which no assembler emits. */
  datatype ObjectSection = ObjectSection(kind: Option<SectionKind>, alignment: u64, data: seq<u8>, size: u64)

  datatype ObjectFile = ObjectFile(sections: seq<ObjectSection>, symbols: seq<Symbol>, relocations: seq<Relocation>)

  datatype AsmError =
    | DuplicateSymbol(name: string)
    | VisibilityConflict(name: string)
    | UndefinedLocal(name: string)
    | CannotEncode(error: EncodeError)
    | NonZeroBss
    | SizeMismatch(kind: SectionKind)

  function AlignUp(value: nat, alignment: nat): (r: nat)
    ensures r >= value
    ensures alignment > 1 ==> r % alignment == 0 && r < value + alignment
    ensures alignment <= 1 ==> r == value
  {
    if alignment <= 1 || value % alignment == 0 then value
    else
      AlignedUp(value, alignment);
      value + (alignment - value % alignment)
  }

  lemma AlignedUp(value: nat, alignment: nat)
    requires alignment > 1
    ensures (value + (alignment - value % alignment)) % alignment == 0
  {
    var q := value / alignment;
    assert value + (alignment - value % alignment) == alignment * (q + 1);
    Bits.DivModUnique(alignment * (q + 1), alignment, q + 1, 0);
  }

  // ----- sections -----

  const SECTION_ORDER: seq<SectionKind> := [Text, Rodata, Data, Bss]

  function FindSection(sections: seq<SourceSection>, kind: SectionKind): Option<SourceSection> {
    if sections == [] then None
    else if sections[0].kind == kind then Some(sections[0])
    else FindSection(sections[1..], kind)
  }

  /** The sections that carry anything, in the fixed order, up to the n-th kind. */
  function Sources(m: Module, n: nat): seq<SourceSection>
    requires n <= |SECTION_ORDER|
  {
    if n == 0 then []
    else
      var s := FindSection(m.sections, SECTION_ORDER[n - 1]);
      Sources(m, n - 1) + (if s.None? || s.value.items == [] then [] else [s.value])
  }

  // ----- pass 1 -----

  datatype Layout = Layout(offset: u64, alignment: u64, symbols: seq<Symbol>, errors: seq<AsmError>)

  /** `defineLabel` */
  function DefineLabel(l: Layout, name: string, section: nat): Layout {
    var i, t := IndexOf(l.symbols, name), WithName(l.symbols, name);
    if t[i].defined then l.(symbols := t, errors := l.errors + [DuplicateSymbol(name)])
    else l.(symbols := t[i := Symbol(name, Local, section, l.offset, true)])
  }

  function LayOutItem(l: Layout, item: Item, section: nat): Layout {
    match item
    case Label(name, _) => DefineLabel(l, name, section)
    case Instr(_) => l.(offset := Wrap(l.offset + INSTRUCTION_SIZE))
    case Bytes(data) => l.(offset := Wrap(l.offset + |data|))
    case SymbolValue(width, _) => l.(offset := Wrap(l.offset + width))
    case Space(size, _) => l.(offset := Wrap(l.offset + size))
    case Align(alignment) =>
      l.(offset := Wrap(AlignUp(l.offset, alignment)), alignment := if alignment > l.alignment then alignment else l.alignment)
  }

  function LayOutItems(l: Layout, items: seq<Item>, section: nat, n: nat): Layout
    requires n <= |items|
  {
    if n == 0 then l else LayOutItem(LayOutItems(l, items, section, n - 1), items[n - 1], section)
  }

  /** The layout after section k. */
  function LayOutSection(sources: seq<SourceSection>, k: nat): Layout
    requires k < |sources|
    decreases k, 1
  {
    var before := SymbolsBefore(sources, k);
    LayOutItems(Layout(0, sources[k].alignment, before.0, before.1), sources[k].items, k, |sources[k].items|)
  }

  function NewSection(source: SourceSection): ObjectSection {
    ObjectSection(Some(source.kind), source.alignment, [], 0)
  }

  /** Section k after pass 1, and after pass 2. */
  function SizedSection(sources: seq<SourceSection>, k: nat): ObjectSection
    requires k < |sources|
  {
    var l := LayOutSection(sources, k);
    ObjectSection(Some(sources[k].kind), l.alignment, [], l.offset)
  }

  function FilledSection(sources: seq<SourceSection>, start: Emission, k: nat): ObjectSection
    requires k < |sources|
  {
    SizedSection(sources, k).(data := EmitSection(sources, start, k).data)
  }

  function SymbolsBefore(sources: seq<SourceSection>, k: nat): (seq<Symbol>, seq<AsmError>)
    requires k <= |sources|
    decreases k, 0
  {
    if k == 0 then ([], []) else
      var l := LayOutSection(sources, k - 1);
      (l.symbols, l.errors)
  }

  // ----- bindings -----

  /** Promotes the first n names. */
  function Promote(symbols: seq<Symbol>, names: seq<string>, n: nat, binding: SymbolBinding): seq<Symbol>
    requires n <= |names|
  {
    if n == 0 then symbols
    else
      var s := Promote(symbols, names, n - 1, binding);
      var i, t := IndexOf(s, names[n - 1]), WithName(s, names[n - 1]);
      t[i := t[i].(binding := binding)]
  }

  function DeclareExtern(symbols: seq<Symbol>, errors: seq<AsmError>, name: string): (seq<Symbol>, seq<AsmError>) {
    var i, t := IndexOf(symbols, name), WithName(symbols, name);
    if t[i].defined then (t, errors + [VisibilityConflict(name)]) else (t[i := t[i].(binding := Extern)], errors)
  }

  function DeclareExterns(symbols: seq<Symbol>, errors: seq<AsmError>, names: seq<string>, n: nat): (seq<Symbol>, seq<AsmError>)
    requires n <= |names|
  {
    if n == 0 then (symbols, errors)
    else
      var r := DeclareExterns(symbols, errors, names, n - 1);
      DeclareExtern(r.0, r.1, names[n - 1])
  }

  function ApplyBindings(symbols: seq<Symbol>, errors: seq<AsmError>, m: Module): (seq<Symbol>, seq<AsmError>) {
    var globals := Promote(symbols, m.globals, |m.globals|, Global);
    var weaks := Promote(globals, m.weaks, |m.weaks|, Weak);
    DeclareExterns(weaks, errors, m.externs, |m.externs|)
  }

  // ----- pass 2 -----

  datatype Emission = Emission(data: seq<u8>, symbols: seq<Symbol>, relocations: seq<Relocation>, errors: seq<AsmError>)

  /** A file-scoped name, `.L` first. */
  predicate LocalName(name: string) { ".L" <= name }

  /** `referenceSymbol`: the referenced symbol has the position `IndexOf(e.symbols, name)`. */
  function Reference(e: Emission, name: string): Emission {
    var i, t := IndexOf(e.symbols, name), WithName(e.symbols, name);
    if t[i].defined || !t[i].binding.Local? then e.(symbols := t)
    else if LocalName(name) then e.(symbols := t, errors := e.errors + [UndefinedLocal(name)])
    else e.(symbols := t[i := t[i].(binding := Extern)])
  }

  function RelocationFor(op: Opcode): RelocationType {
    var info := FindOpcode(op);
    if info.Some? && info.value.format.Jump? then PCREL48 else IMM48
  }

  function Relocate(e: Emission, section: nat, kind: RelocationType, ref: SymbolRef): Emission {
    var r := Relocation(section, Wrap(|e.data|), kind, IndexOf(e.symbols, ref.name), ref.addend);
    var e' := Reference(e, ref.name);
    e'.(relocations := e'.relocations + [r])
  }

  /** The instruction as pass 2 encodes it: a symbolic operand is a zero placeholder. */
  function Placeholder(ins: IrInstruction): Instruction {
    if ins.symbol.Some? then ins.machine.(imm := 0) else ins.machine
  }

  function EmitInstruction(e: Emission, ins: IrInstruction, section: nat): Emission {
    var e' := if ins.symbol.Some? then Relocate(e, section, RelocationFor(ins.machine.opcode), ins.symbol.value) else e;
    var word := Encode(Placeholder(ins));
    if word.Err? then e'.(data := e'.data + seq(INSTRUCTION_SIZE, _ => 0), errors := e'.errors + [CannotEncode(word.error)])
    else e'.(data := e'.data + EncodedBytes(Placeholder(ins)))
  }

  function EmitSymbolValue(e: Emission, width: nat, ref: SymbolRef, section: nat): Emission {
    var e' := Relocate(e, section, if width == 4 then ABS32 else ABS64, ref);
    e'.(data := e'.data + seq(width, _ => 0))
  }

  function EmitItem(e: Emission, item: Item, section: nat): Emission {
    match item
    case Label(_, _) => e
    case Instr(ins) => EmitInstruction(e, ins, section)
    case Bytes(data) => e.(data := e.data + data)
    case SymbolValue(width, ref) => EmitSymbolValue(e, width, ref, section)
    case Space(size, fill) => e.(data := e.data + seq(size, _ => fill))
    case Align(alignment) => e.(data := e.data + seq(AlignUp(|e.data|, alignment) - |e.data|, _ => 0))
  }

  function EmitItems(e: Emission, items: seq<Item>, section: nat, n: nat): Emission
    requires n <= |items|
  {
    if n == 0 then e else EmitItem(EmitItems(e, items, section, n - 1), items[n - 1], section)
  }

  /** Checks the size against pass 1; `.bss` keeps no bytes. */
  function FinishSection(e: Emission, kind: SectionKind, size: u64): Emission {
    if kind.Bss? then
      e.(data := [], errors := if exists i :: 0 <= i < |e.data| && e.data[i] != 0 then e.errors + [NonZeroBss] else e.errors)
    else if |e.data| != size then e.(errors := e.errors + [SizeMismatch(kind)])
    else e
  }

  /** What has been emitted after section k, starting pass 2 from `start`. */
  function EmitSection(sources: seq<SourceSection>, start: Emission, k: nat): Emission
    requires k < |sources|
  {
    var before := if k == 0 then start else EmitSection(sources, start, k - 1);
    var e := EmitItems(before.(data := []), sources[k].items, k, |sources[k].items|);
    FinishSection(e, sources[k].kind, LayOutSection(sources, k).offset)
  }

  // ----- the whole module -----

  function PassTwoStart(m: Module): Emission {
    var sources := Sources(m, |SECTION_ORDER|);
    var defined := SymbolsBefore(sources, |sources|);
    var bound := ApplyBindings(defined.0, defined.1, m);
    Emission([], bound.0, [], bound.1)
  }

  function LastEmission(m: Module): Emission {
    var sources := Sources(m, |SECTION_ORDER|);
    if sources == [] then PassTwoStart(m) else EmitSection(sources, PassTwoStart(m), |sources| - 1)
  }

  function ObjectSections(m: Module): (r: seq<ObjectSection>)
    ensures |r| == |Sources(m, |SECTION_ORDER|)|
  {
    var sources := Sources(m, |SECTION_ORDER|);
    seq(|sources|, k requires 0 <= k < |sources| => FilledSection(sources, PassTwoStart(m), k))
  }

  function Assemble(m: Module): Result<ObjectFile, seq<AsmError>> {
    var e := LastEmission(m);
    if e.errors != [] then Err(e.errors) else Ok(ObjectFile(ObjectSections(m), e.symbols, e.relocations))
  }
}
