/** The `.mobj` format: what the writer puts into a buffer and what the reader makes of one. */
module Mobj {
  import opened Words
  import opened Bits
  import opened ByteOrder
  import opened Memory
  import Crc

  // ----- the stored object -----

  /** Names are byte strings; enumerations are stored as their numbers. */
  type Name = seq<u8>

  datatype SectionRecord = SectionRecord(
    name: Name, kind: u8, flags: u8, alignment: u64, data: seq<u8>, size: u64, index: u32)

  datatype SymbolRecord = SymbolRecord(
    name: Name, binding: u8, kind: u8, defined: bool, section: u32, value: u64, size: u64)

  datatype RelocationRecord = RelocationRecord(section: u32, symbol: u32, offset: u64, addend: i64, kind: u8)

  datatype DebugRecord = DebugRecord(section: u32, file: u32, offset: u64, line: u32, column: u32)

  datatype StoredObject = StoredObject(
    sections: seq<SectionRecord>, symbols: seq<SymbolRecord>, relocations: seq<RelocationRecord>,
    debug: seq<DebugRecord>, sources: seq<Name>)

  const UNDEFINED_SECTION: u32 := 0xFFFF_FFFF
  const HEADER_SIZE := 64
  const SECTION_SIZE := 48
  const SYMBOL_SIZE := 32
  const RELOCATION_SIZE := 32
  const DEBUG_SIZE := 24
  const SOURCE_SIZE := 4
  const MAX_U32: int := 0xFFFF_FFFF
  const MAGIC: seq<u8> := [0x4D, 0x4F, 0x42, 0x4A]
  const VERSION: nat := 1

  /** Relocation types by number, and their widths. */
  function WidthOf(kind: u8): nat { if kind == 0 || kind == 2 then 4 else 8 }

  predicate PowerOfTwo(x: u64) { x != 0 && BitAnd(x, x - 1) == 0 }

  predicate NulFree(name: Name) { forall i :: 0 <= i < |name| ==> name[i] != 0 }

  // ----- writing -----

  datatype StringTable = StringTable(bytes: seq<u8>, offsets: map<Name, nat>)

  const EMPTY_STRINGS := StringTable([0], map[])

  function Intern(t: StringTable, name: Name): (StringTable, nat) {
    if name in t.offsets then (t, t.offsets[name])
    else (StringTable(t.bytes + name + [0], t.offsets[name := |t.bytes|]), |t.bytes|)
  }

  /** The tables, the strings and the section data written so far. */
  datatype Output = Output(tables: seq<u8>, strings: StringTable, blob: seq<u8>)

  function SectionBytes(s: SectionRecord, name: nat, at: nat): (r: seq<u8>)
    ensures |r| == SECTION_SIZE
  {
    Bytes(name, 4) + [s.kind, s.flags] + Zeros(2) + Bytes(s.alignment, 8) + Bytes(at, 8) + Bytes(|s.data|, 8)
    + Bytes(s.size, 8) + Bytes(s.index, 4) + Zeros(4)
  }

  function SymbolBytes(s: SymbolRecord, name: nat): (r: seq<u8>)
    ensures |r| == SYMBOL_SIZE
  {
    Bytes(name, 4) + [s.binding, s.kind, if s.defined then 1 else 0] + Zeros(1) + Bytes(s.section, 4) + Zeros(4)
    + Bytes(s.value, 8) + Bytes(s.size, 8)
  }

  function RelocationBytes(r: RelocationRecord): (b: seq<u8>)
    ensures |b| == RELOCATION_SIZE
  {
    Bytes(r.section, 4) + Bytes(r.symbol, 4) + Bytes(r.offset, 8) + Bytes(ToU64(r.addend), 8) + [r.kind] + Zeros(7)
  }

  function DebugBytes(d: DebugRecord): (b: seq<u8>)
    ensures |b| == DEBUG_SIZE
  {
    Bytes(d.section, 4) + Bytes(d.file, 4) + Bytes(d.offset, 8) + Bytes(d.line, 4) + Bytes(d.column, 4)
  }

  function PutSection(w: Output, s: SectionRecord): Output {
    var (strings, name) := Intern(w.strings, s.name);
    Output(w.tables + SectionBytes(s, name, |w.blob|), strings, w.blob + s.data)
  }

  function PutSections(w: Output, sections: seq<SectionRecord>, n: nat): Output
    requires n <= |sections|
  {
    if n == 0 then w else PutSection(PutSections(w, sections, n - 1), sections[n - 1])
  }

  function PutSymbol(w: Output, s: SymbolRecord): Output {
    var (strings, name) := Intern(w.strings, s.name);
    w.(tables := w.tables + SymbolBytes(s, name), strings := strings)
  }

  function PutSymbols(w: Output, symbols: seq<SymbolRecord>, n: nat): Output
    requires n <= |symbols|
  {
    if n == 0 then w else PutSymbol(PutSymbols(w, symbols, n - 1), symbols[n - 1])
  }

  function PutRelocations(w: Output, relocations: seq<RelocationRecord>, n: nat): Output
    requires n <= |relocations|
  {
    if n == 0 then w
    else var before := PutRelocations(w, relocations, n - 1); before.(tables := before.tables + RelocationBytes(relocations[n - 1]))
  }

  function PutDebug(w: Output, debug: seq<DebugRecord>, n: nat): Output
    requires n <= |debug|
  {
    if n == 0 then w
    else var before := PutDebug(w, debug, n - 1); before.(tables := before.tables + DebugBytes(debug[n - 1]))
  }

  function PutSource(w: Output, name: Name): Output {
    var (strings, offset) := Intern(w.strings, name);
    w.(tables := w.tables + Bytes(offset, 4), strings := strings)
  }

  function PutSources(w: Output, sources: seq<Name>, n: nat): Output
    requires n <= |sources|
  {
    if n == 0 then w else PutSource(PutSources(w, sources, n - 1), sources[n - 1])
  }

  const EMPTY_OUTPUT := Output([], EMPTY_STRINGS, [])

  function PutAll(o: StoredObject): Output {
    var a := PutSections(EMPTY_OUTPUT, o.sections, |o.sections|);
    var b := PutSymbols(a, o.symbols, |o.symbols|);
    var c := PutRelocations(b, o.relocations, |o.relocations|);
    var d := PutDebug(c, o.debug, |o.debug|);
    PutSources(d, o.sources, |o.sources|)
  }

  function HeaderBytes(o: StoredObject, stringAt: nat, stringSize: nat, blobAt: nat, fileSize: nat, checksum: nat): (r: seq<u8>)
    ensures |r| == HEADER_SIZE
  {
    MAGIC + Bytes(VERSION, 2) + Bytes(HEADER_SIZE, 2) + Bytes(0, 4) + Bytes(|o.sections|, 4) + Bytes(|o.symbols|, 4)
    + Bytes(|o.relocations|, 4) + Bytes(|o.debug|, 4) + Bytes(|o.sources|, 4)
    + Bytes(stringAt, 8) + Bytes(stringSize, 8) + Bytes(blobAt, 8) + Bytes(fileSize, 4) + Bytes(checksum, 4)
  }

  /** Everything behind the header. */
  function Body(w: Output): seq<u8> { w.tables + w.strings.bytes + w.blob }

  datatype WriteError = TooLarge | FileTooLarge

  function WriteObject(o: StoredObject): Result<seq<u8>, WriteError> {
    if |o.sections| > MAX_U32 || |o.relocations| > MAX_U32 || |o.debug| > MAX_U32 || |o.sources| > MAX_U32 then Err(TooLarge)
    else
      var w := PutAll(o);
      var stringAt := HEADER_SIZE + |w.tables|;
      var blobAt := stringAt + |w.strings.bytes|;
      var fileSize := blobAt + |w.blob|;
      if fileSize > MAX_U32 then Err(FileTooLarge)
      else Ok(HeaderBytes(o, stringAt, |w.strings.bytes|, blobAt, fileSize, Crc.Checksum(Body(w))) + Body(w))
  }

  // ----- reading -----

  datatype ReadError =
    | ShortHeader | BadMagic | BadVersion | BadHeaderSize | BadFlags | BadFileSize | BadChecksum | BadLayout
    | BadSection | BadName | BadSymbol | DuplicateName | BadRelocation | BadDebug

  /** The number in `width` bytes at `at`. */
  function NumberAt(buffer: seq<u8>, at: nat, width: nat): nat
    requires at + width <= |buffer|
  {
    FromBytes(buffer[at..at + width])
  }

  function U32At(buffer: seq<u8>, at: nat): (r: u32)
    requires at + 4 <= |buffer|
  {
    FromBytesBound(buffer[at..at + 4]);
    Pow2Values();
    NumberAt(buffer, at, 4)
  }

  function U64At(buffer: seq<u8>, at: nat): (r: u64)
    requires at + 8 <= |buffer|
  {
    FromBytes64(buffer[at..at + 8]);
    NumberAt(buffer, at, 8)
  }

  /** `readString`: up to the next NUL. */
  function ReadString(table: seq<u8>, offset: nat): Option<Name>
    decreases |table| - offset
  {
    if offset >= |table| then None
    else if table[offset] == 0 then Some([])
    else
      var rest := ReadString(table, offset + 1);
      if rest.None? then None else Some([table[offset]] + rest.value)
  }

  /** Where the tables of a buffer are. */
  datatype Extents = Extents(
    sectionCount: u32, symbolCount: u32, relocationCount: u32, debugCount: u32, sourceCount: u32,
    strings: seq<u8>, blob: seq<u8>)
  {
    function SymbolsAt(): nat { HEADER_SIZE + sectionCount * SECTION_SIZE }
    function RelocationsAt(): nat { SymbolsAt() + symbolCount * SYMBOL_SIZE }
    function DebugAt(): nat { RelocationsAt() + relocationCount * RELOCATION_SIZE }
    function SourcesAt(): nat { DebugAt() + debugCount * DEBUG_SIZE }
    function End(): nat { SourcesAt() + sourceCount * SOURCE_SIZE }
  }

  /** The header checks, in order; the layout sums are 64-bit and may wrap. */
  function ReadHeader(buffer: seq<u8>): (r: Result<Extents, ReadError>)
    ensures r.Ok? ==> r.value.End() <= |buffer|
  {
    if |buffer| < HEADER_SIZE then Err(ShortHeader)
    else if buffer[..4] != MAGIC then Err(BadMagic)
    else if NumberAt(buffer, 4, 2) != VERSION then Err(BadVersion)
    else if NumberAt(buffer, 6, 2) != HEADER_SIZE then Err(BadHeaderSize)
    else if U32At(buffer, 8) != 0 then Err(BadFlags)
    else if U32At(buffer, 56) != |buffer| then Err(BadFileSize)
    else if U32At(buffer, 60) != Crc.Checksum(buffer[HEADER_SIZE..]) then Err(BadChecksum)
    else
      var x := Extents(U32At(buffer, 12), U32At(buffer, 16), U32At(buffer, 20), U32At(buffer, 24), U32At(buffer, 28), [], []);
      var stringAt, stringSize, blobAt := U64At(buffer, 32), U64At(buffer, 40), U64At(buffer, 48);
      if x.End() > |buffer| || stringAt != x.End() || Wrap(stringAt + stringSize) > |buffer|
         || blobAt != Wrap(stringAt + stringSize) || blobAt > |buffer| then Err(BadLayout)
      else if stringSize > |buffer| - stringAt then Err(BadLayout)
      else Ok(x.(strings := buffer[stringAt..stringAt + stringSize], blob := buffer[blobAt..]))
  }

  function ReadSection(buffer: seq<u8>, x: Extents, at: nat): Result<SectionRecord, ReadError>
    requires at + SECTION_SIZE <= |buffer|
  {
    var kind, alignment := buffer[at + 4], U64At(buffer, at + 8);
    var dataAt, dataSize, size := U64At(buffer, at + 16), U64At(buffer, at + 24), U64At(buffer, at + 32);
    if kind > 4 || !PowerOfTwo(alignment) then Err(BadSection)
    else if dataAt > |x.blob| || dataSize > |x.blob| - dataAt || size < dataSize then Err(BadSection)
    else
      var name := ReadString(x.strings, U32At(buffer, at));
      if name.None? then Err(BadName)
      else Ok(SectionRecord(name.value, kind, buffer[at + 5], alignment, x.blob[dataAt..dataAt + dataSize], size, U32At(buffer, at + 40)))
  }

  function ReadSections(buffer: seq<u8>, x: Extents, n: nat): (r: Result<seq<SectionRecord>, ReadError>)
    requires HEADER_SIZE + n * SECTION_SIZE <= |buffer|
    ensures r.Ok? ==> |r.value| == n
  {
    if n == 0 then Ok([])
    else
      var before := ReadSections(buffer, x, n - 1);
      if before.Err? then before
      else
        var s := ReadSection(buffer, x, HEADER_SIZE + (n - 1) * SECTION_SIZE);
        if s.Err? then Err(s.error) else Ok(before.value + [s.value])
  }

  function ReadSymbol(buffer: seq<u8>, x: Extents, at: nat): Result<SymbolRecord, ReadError>
    requires at + SYMBOL_SIZE <= |buffer|
  {
    var binding, kind, section := buffer[at + 4], buffer[at + 5], U32At(buffer, at + 8);
    if binding > 3 || kind > 3 || (section != UNDEFINED_SECTION && section >= x.sectionCount) then Err(BadSymbol)
    else
      var name := ReadString(x.strings, U32At(buffer, at));
      if name.None? then Err(BadName)
      else Ok(SymbolRecord(name.value, binding, kind, buffer[at + 6] != 0, section, U64At(buffer, at + 16), U64At(buffer, at + 24)))
  }

  predicate HasName(symbols: seq<SymbolRecord>, name: Name) {
    exists i :: 0 <= i < |symbols| && symbols[i].name == name
  }

  function ReadSymbols(buffer: seq<u8>, x: Extents, n: nat): (r: Result<seq<SymbolRecord>, ReadError>)
    requires x.SymbolsAt() + n * SYMBOL_SIZE <= |buffer|
    ensures r.Ok? ==> |r.value| == n
  {
    if n == 0 then Ok([])
    else
      var before := ReadSymbols(buffer, x, n - 1);
      if before.Err? then before
      else
        var s := ReadSymbol(buffer, x, x.SymbolsAt() + (n - 1) * SYMBOL_SIZE);
        if s.Err? then Err(s.error)
        else if HasName(before.value, s.value.name) then Err(DuplicateName)
        else Ok(before.value + [s.value])
  }

  function ReadRelocation(buffer: seq<u8>, x: Extents, sections: seq<SectionRecord>, at: nat): Result<RelocationRecord, ReadError>
    requires at + RELOCATION_SIZE <= |buffer|
  {
    var section, symbol, offset, kind := U32At(buffer, at), U32At(buffer, at + 4), U64At(buffer, at + 8), buffer[at + 24];
    if kind > 4 || section >= |sections| || symbol >= x.symbolCount then Err(BadRelocation)
    else if offset > |sections[section].data| || WidthOf(kind) > |sections[section].data| - offset then Err(BadRelocation)
    else Ok(RelocationRecord(section, symbol, offset, ToI64(U64At(buffer, at + 16)), kind))
  }

  function ReadRelocations(buffer: seq<u8>, x: Extents, sections: seq<SectionRecord>, n: nat)
    : (r: Result<seq<RelocationRecord>, ReadError>)
    requires x.RelocationsAt() + n * RELOCATION_SIZE <= |buffer|
    ensures r.Ok? ==> |r.value| == n
  {
    if n == 0 then Ok([])
    else
      var before := ReadRelocations(buffer, x, sections, n - 1);
      if before.Err? then before
      else
        var s := ReadRelocation(buffer, x, sections, x.RelocationsAt() + (n - 1) * RELOCATION_SIZE);
        if s.Err? then Err(s.error) else Ok(before.value + [s.value])
  }

  function ReadDebug(buffer: seq<u8>, x: Extents, at: nat): Result<DebugRecord, ReadError>
    requires at + DEBUG_SIZE <= |buffer|
  {
    var section, file := U32At(buffer, at), U32At(buffer, at + 4);
    if section >= x.sectionCount || file >= x.sourceCount then Err(BadDebug)
    else Ok(DebugRecord(section, file, U64At(buffer, at + 8), U32At(buffer, at + 16), U32At(buffer, at + 20)))
  }

  function ReadDebugs(buffer: seq<u8>, x: Extents, n: nat): (r: Result<seq<DebugRecord>, ReadError>)
    requires x.DebugAt() + n * DEBUG_SIZE <= |buffer|
    ensures r.Ok? ==> |r.value| == n
  {
    if n == 0 then Ok([])
    else
      var before := ReadDebugs(buffer, x, n - 1);
      if before.Err? then before
      else
        var s := ReadDebug(buffer, x, x.DebugAt() + (n - 1) * DEBUG_SIZE);
        if s.Err? then Err(s.error) else Ok(before.value + [s.value])
  }

  function ReadSources(buffer: seq<u8>, x: Extents, n: nat): (r: Result<seq<Name>, ReadError>)
    requires x.SourcesAt() + n * SOURCE_SIZE <= |buffer|
    ensures r.Ok? ==> |r.value| == n
  {
    if n == 0 then Ok([])
    else
      var before := ReadSources(buffer, x, n - 1);
      if before.Err? then before
      else
        var name := ReadString(x.strings, U32At(buffer, x.SourcesAt() + (n - 1) * SOURCE_SIZE));
        if name.None? then Err(BadName) else Ok(before.value + [name.value])
  }

  /** `readObjectFromBuffer`: every access lies inside the buffer, whatever is in it. */
  function ReadObject(buffer: seq<u8>): Result<StoredObject, ReadError> {
    var header := ReadHeader(buffer);
    if header.Err? then Err(header.error)
    else
      var x := header.value;
      var sections := ReadSections(buffer, x, x.sectionCount);
      if sections.Err? then Err(sections.error)
      else
        var symbols := ReadSymbols(buffer, x, x.symbolCount);
        if symbols.Err? then Err(symbols.error)
        else
          var relocations := ReadRelocations(buffer, x, sections.value, x.relocationCount);
          if relocations.Err? then Err(relocations.error)
          else
            var debug := ReadDebugs(buffer, x, x.debugCount);
            if debug.Err? then Err(debug.error)
            else
              var sources := ReadSources(buffer, x, x.sourceCount);
              if sources.Err? then Err(sources.error)
              else Ok(StoredObject(sections.value, symbols.value, relocations.value, debug.value, sources.value))
  }
}
