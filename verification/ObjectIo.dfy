/** The serialiser objects: an append-and-patch writer, a deduplicating string table and a checked
    reader cursor, and the two procedures built from them. They compute what `Mobj` says. */
module ObjectIo {
  import opened Words
  import opened ByteOrder
  import opened Memory
  import opened Mobj
  import Crc

  class Writer {
    var bytes: seq<u8>

    constructor ()
      ensures bytes == []
    {
      bytes := [];
    }

    method Byte(value: u8)
      modifies this
      ensures bytes == old(bytes) + [value]
    {
      bytes := bytes + [value];
    }

    /** `word<T>`: appends the value little-endian. */
    method Word(value: u64, width: nat)
      modifies this
      ensures bytes == old(bytes) + Bytes(value, width)
    {
      var field := new u8[width](_ => 0);
      StoreBytes(field, 0, value, width);
      assert field[..] == Bytes(value, width) by {
        assert field[0..width] == Bytes(value, width);
      }
      bytes := bytes + field[..];
    }

    method Raw(data: seq<u8>)
      modifies this
      ensures bytes == old(bytes) + data
    {
      bytes := bytes + data;
    }

    method Pad(count: nat)
      modifies this
      ensures bytes == old(bytes) + Zeros(count)
    {
      bytes := bytes + Zeros(count);
    }

    /** `patchU32`, `patchU64`: overwrites bytes already written. */
    method Patch(offset: nat, value: u64, width: nat)
      requires offset + width <= |bytes|
      modifies this
      ensures bytes == Splice(old(bytes), offset, Bytes(value, width))
    {
      var before := bytes;
      var buffer := new u8[|before|](i requires 0 <= i < |before| => before[i]);
      assert buffer[..] == bytes;
      StoreBytes(buffer, offset, value, width);
      bytes := buffer[..];
    }
  }

  class StringTableBuilder {
    var bytes: seq<u8>
    var offsets: map<Name, nat>

    function Value(): StringTable
      reads this
    {
      StringTable(bytes, offsets)
    }

    constructor ()
      ensures Value() == EMPTY_STRINGS
    {
      bytes, offsets := [0], map[];
    }

    method InternName(name: Name) returns (offset: nat)
      modifies this
      ensures (Value(), offset) == Intern(old(Value()), name)
    {
      if name in offsets {
        return offsets[name];
      }
      offset := |bytes|;
      bytes := bytes + name + [0];
      offsets := offsets[name := offset];
    }
  }

  // ----- writing -----

  /** The three growing buffers of the writer. */
  class ObjectWriter {
    const tables: Writer
    const blob: Writer
    const strings: StringTableBuilder

    ghost function Value(): Output
      reads tables, blob, strings
    {
      Output(tables.bytes, strings.Value(), blob.bytes)
    }

    constructor ()
      ensures fresh(tables) && fresh(blob) && fresh(strings) && tables != blob && Value() == EMPTY_OUTPUT
    {
      tables := new Writer();
      blob := new Writer();
      strings := new StringTableBuilder();
    }

    method WriteSection(s: SectionRecord)
      requires tables != blob && |blob.bytes| < TWO64 && |s.data| < TWO64
      modifies tables, blob, strings
      ensures Value() == PutSection(old(Value()), s)
    {
      hide Bytes, Intern;
      var at := |blob.bytes|;
      blob.Raw(s.data);
      var name := strings.InternName(s.name);
      ghost var before := tables.bytes;
      tables.Word(Wrap(name), 4);
      LowWord(name);
      tables.Byte(s.kind);
      tables.Byte(s.flags);
      tables.Pad(2);
      tables.Word(s.alignment, 8);
      tables.Word(at, 8);
      tables.Word(|s.data|, 8);
      tables.Word(s.size, 8);
      tables.Word(s.index, 4);
      tables.Pad(4);
      assert tables.bytes == before + SectionBytes(s, name, at);
    }

    method WriteSymbol(s: SymbolRecord)
      requires tables != blob
      modifies tables, strings
      ensures Value() == PutSymbol(old(Value()), s)
    {
      hide Bytes, Intern, Zeros;
      var name := strings.InternName(s.name);
      ghost var before := tables.bytes;
      tables.Word(Wrap(name), 4);
      LowWord(name);
      tables.Byte(s.binding);
      tables.Byte(s.kind);
      tables.Byte(if s.defined then 1 else 0);
      tables.Pad(1);
      tables.Word(s.section, 4);
      tables.Pad(4);
      tables.Word(s.value, 8);
      tables.Word(s.size, 8);
      SymbolAppended(before, s, name);
    }

    method WriteRelocation(r: RelocationRecord)
      requires tables != blob
      modifies tables
      ensures Value() == old(Value()).(tables := old(tables.bytes) + RelocationBytes(r))
    {
      hide Bytes;
      ghost var before := tables.bytes;
      tables.Word(r.section, 4);
      tables.Word(r.symbol, 4);
      tables.Word(r.offset, 8);
      tables.Word(ToU64(r.addend), 8);
      tables.Byte(r.kind);
      tables.Pad(7);
      assert tables.bytes == before + RelocationBytes(r);
    }

    method WriteDebug(d: DebugRecord)
      requires tables != blob
      modifies tables
      ensures Value() == old(Value()).(tables := old(tables.bytes) + DebugBytes(d))
    {
      hide Bytes;
      ghost var before := tables.bytes;
      tables.Word(d.section, 4);
      tables.Word(d.file, 4);
      tables.Word(d.offset, 8);
      tables.Word(d.line, 4);
      tables.Word(d.column, 4);
      assert tables.bytes == before + DebugBytes(d);
    }

    method WriteSource(name: Name)
      requires tables != blob
      modifies tables, strings
      ensures Value() == PutSource(old(Value()), name)
    {
      hide Bytes, Intern;
      var offset := strings.InternName(name);
      tables.Word(Wrap(offset), 4);
      LowWord(offset);
    }

    method WriteTables(o: StoredObject)
      requires tables != blob && Value() == EMPTY_OUTPUT && BlobFits(o.sections, |o.sections|)
      modifies tables, blob, strings
      ensures Value() == PutAll(o)
    {
      hide PutSection, PutSymbol, RelocationBytes, DebugBytes, PutSource;
      var n := 0;
      while n < |o.sections|
        invariant n <= |o.sections| && Value() == PutSections(EMPTY_OUTPUT, o.sections, n)
      {
        BlobGrows(o.sections, n);
        WriteSection(o.sections[n]);
        n := n + 1;
      }
      ghost var a := Value();
      n := 0;
      while n < |o.symbols|
        invariant n <= |o.symbols| && Value() == PutSymbols(a, o.symbols, n)
      {
        WriteSymbol(o.symbols[n]);
        n := n + 1;
      }
      WriteTail(o);
    }

    method WriteTail(o: StoredObject)
      requires tables != blob
      modifies tables, strings
      ensures Value() == PutSources(PutDebug(PutRelocations(old(Value()), o.relocations, |o.relocations|), o.debug, |o.debug|),
                                    o.sources, |o.sources|)
    {
      hide RelocationBytes, DebugBytes, PutSource;
      ghost var b := Value();
      var n := 0;
      while n < |o.relocations|
        invariant n <= |o.relocations| && Value() == PutRelocations(b, o.relocations, n)
      {
        WriteRelocation(o.relocations[n]);
        n := n + 1;
      }
      ghost var c := Value();
      n := 0;
      while n < |o.debug|
        invariant n <= |o.debug| && Value() == PutDebug(c, o.debug, n)
      {
        WriteDebug(o.debug[n]);
        n := n + 1;
      }
      ghost var d := Value();
      n := 0;
      while n < |o.sources|
        invariant n <= |o.sources| && Value() == PutSources(d, o.sources, n)
      {
        WriteSource(o.sources[n]);
        n := n + 1;
      }
    }
  }

  lemma SymbolAppended(before: seq<u8>, s: SymbolRecord, name: nat)
    ensures before + Bytes(name, 4) + [s.binding] + [s.kind] + [if s.defined then 1 else 0] + Zeros(1) + Bytes(s.section, 4) + Zeros(4)
            + Bytes(s.value, 8) + Bytes(s.size, 8) == before + SymbolBytes(s, name)
  {
    hide Bytes, Zeros;
  }

  /** The section data of an object fits into the memory of the host. */
  ghost predicate BlobFits(sections: seq<SectionRecord>, n: nat)
    requires n <= |sections|
  {
    BlobSize(sections, n) < TWO64
  }

  function BlobSize(sections: seq<SectionRecord>, n: nat): nat
    requires n <= |sections|
  {
    if n == 0 then 0 else BlobSize(sections, n - 1) + |sections[n - 1].data|
  }

  lemma {:induction false} BlobLength(sections: seq<SectionRecord>, n: nat)
    requires n <= |sections|
    ensures |PutSections(EMPTY_OUTPUT, sections, n).blob| == BlobSize(sections, n)
  {
    if n > 0 {
      hide SectionBytes, Intern;
      BlobLength(sections, n - 1);
    }
  }

  lemma {:induction false} BlobMonotone(sections: seq<SectionRecord>, m: nat, n: nat)
    requires m <= n <= |sections|
    ensures BlobSize(sections, m) <= BlobSize(sections, n)
  {
    if m < n {
      BlobMonotone(sections, m, n - 1);
    }
  }

  lemma BlobGrows(sections: seq<SectionRecord>, n: nat)
    requires n < |sections| && BlobFits(sections, |sections|)
    ensures |PutSections(EMPTY_OUTPUT, sections, n).blob| < TWO64 && |sections[n].data| < TWO64
  {
    hide PutSections;
    BlobLength(sections, n);
    BlobMonotone(sections, n + 1, |sections|);
  }

  /** The low bytes of a number do not see multiples of a higher power of two. */
  lemma {:induction false} LowBytes(value: nat, extra: nat, width: nat)
    ensures Bytes(value + extra * Pow2(8 * width), width) == Bytes(value, width)
    decreases width
  {
    if width > 0 {
      ByteMore(value, extra, width);
      LowBytes(value / 256, extra, width - 1);
    }
  }

  lemma ByteMore(value: nat, extra: nat, width: nat)
    requires width > 0
    ensures (value + extra * Pow2(8 * width)) % 256 == value % 256
    ensures (value + extra * Pow2(8 * width)) / 256 == value / 256 + extra * Pow2(8 * (width - 1))
  {
    hide Pow2;
    Pow2Add(8, 8 * (width - 1));
    Pow2Values();
    ByteOut(value, extra, Pow2(8 * (width - 1)));
  }

  lemma ByteOut(value: nat, extra: nat, p: nat)
    ensures (value + extra * (256 * p)) % 256 == value % 256 && (value + extra * (256 * p)) / 256 == value / 256 + extra * p
  {
    assert extra * (256 * p) == 256 * (extra * p);
  }

  lemma LowWord(value: nat)
    ensures Bytes(Wrap(value), 4) == Bytes(value, 4)
  {
    hide Bytes;
    Pow2Values();
    var q := value / TWO64;
    assert value == Wrap(value) + (q * 0x1_0000_0000) * Pow2(32);
    LowBytes(Wrap(value), q * 0x1_0000_0000, 4);
  }

  // ----- the header -----

  /** Header fields in front of the patched ones. */
  function HeaderFront(o: StoredObject): (r: seq<u8>)
    ensures |r| == 32
  {
    MAGIC + Bytes(VERSION, 2) + Bytes(HEADER_SIZE, 2) + Bytes(0, 4) + Bytes(|o.sections|, 4) + Bytes(|o.symbols|, 4)
    + Bytes(|o.relocations|, 4) + Bytes(|o.debug|, 4) + Bytes(|o.sources|, 4)
  }

  function HeaderBack(a: seq<u8>, b: seq<u8>, c: seq<u8>, d: seq<u8>, e: seq<u8>): (r: seq<u8>)
    requires |a| == |b| == |c| == 8 && |d| == |e| == 4
    ensures |r| == 32
  {
    a + b + c + d + e
  }

  lemma HeaderSplit(o: StoredObject, stringAt: nat, stringSize: nat, blobAt: nat, fileSize: nat, checksum: nat)
    ensures HeaderBytes(o, stringAt, stringSize, blobAt, fileSize, checksum)
         == HeaderFront(o) + HeaderBack(Bytes(stringAt, 8), Bytes(stringSize, 8), Bytes(blobAt, 8), Bytes(fileSize, 4), Bytes(checksum, 4))
  {
    hide Bytes;
  }

  /** Patching one field of the header leaves the others. */
  lemma PatchFields(front: seq<u8>, a: seq<u8>, b: seq<u8>, c: seq<u8>, d: seq<u8>, e: seq<u8>, x: seq<u8>, y: seq<u8>)
    requires |front| == 32 && |a| == |b| == |c| == |x| == 8 && |d| == |e| == |y| == 4
    ensures Splice(front + HeaderBack(a, b, c, d, e), 32, x) == front + HeaderBack(x, b, c, d, e)
    ensures Splice(front + HeaderBack(a, b, c, d, e), 40, x) == front + HeaderBack(a, x, c, d, e)
    ensures Splice(front + HeaderBack(a, b, c, d, e), 48, x) == front + HeaderBack(a, b, x, d, e)
    ensures Splice(front + HeaderBack(a, b, c, d, e), 56, y) == front + HeaderBack(a, b, c, y, e)
    ensures Splice(front + HeaderBack(a, b, c, d, e), 60, y) == front + HeaderBack(a, b, c, d, y)
  {
    hide Splice;
    Regrouped(front, a, b, c, d, e);
    Regrouped(front, x, b, c, d, e);
    Regrouped(front, a, x, c, d, e);
    Regrouped(front, a, b, x, d, e);
    Regrouped(front, a, b, c, y, e);
    Regrouped(front, a, b, c, d, y);
    SpliceMiddle(front, a, b + c + d + e, x);
    SpliceMiddle(front + a, b, c + d + e, x);
    SpliceMiddle(front + a + b, c, d + e, x);
    SpliceMiddle(front + a + b + c, d, e, y);
    SpliceMiddle(front + a + b + c + d, e, [], y);
  }

  lemma Regrouped(front: seq<u8>, a: seq<u8>, b: seq<u8>, c: seq<u8>, d: seq<u8>, e: seq<u8>)
    requires |a| == |b| == |c| == 8 && |d| == |e| == 4
    ensures front + HeaderBack(a, b, c, d, e) == front + a + (b + c + d + e)
    ensures front + HeaderBack(a, b, c, d, e) == front + a + b + (c + d + e)
    ensures front + HeaderBack(a, b, c, d, e) == front + a + b + c + (d + e)
    ensures front + HeaderBack(a, b, c, d, e) == front + a + b + c + d + e
    ensures front + HeaderBack(a, b, c, d, e) == front + a + b + c + d + e + []
  {
  }

  lemma SpliceMiddle(front: seq<u8>, before: seq<u8>, back: seq<u8>, x: seq<u8>)
    requires |x| == |before|
    ensures Splice(front + before + back, |front|, x) == front + x + back
  {
  }

  method WriteHeader(o: StoredObject) returns (header: Writer)
    requires |o.sections| <= MAX_U32 && |o.relocations| <= MAX_U32 && |o.debug| <= MAX_U32 && |o.sources| <= MAX_U32
    ensures fresh(header)
    ensures header.bytes == HeaderFront(o) + HeaderBack(Bytes(0, 8), Bytes(0, 8), Bytes(0, 8), Bytes(0, 4), Bytes(0, 4))
  {
    hide Bytes;
    header := new Writer();
    header.Raw(MAGIC);
    header.Word(VERSION, 2);
    header.Word(HEADER_SIZE, 2);
    header.Word(0, 4);
    header.Word(|o.sections|, 4);
    header.Word(Wrap(|o.symbols|), 4);
    LowWord(|o.symbols|);
    header.Word(|o.relocations|, 4);
    header.Word(|o.debug|, 4);
    header.Word(|o.sources|, 4);
    assert header.bytes == HeaderFront(o);
    header.Word(0, 8);
    header.Word(0, 8);
    header.Word(0, 8);
    header.Word(0, 4);
    header.Word(0, 4);
  }

  method PatchHeader(header: Writer, ghost front: seq<u8>, stringAt: u64, stringSize: u64, blobAt: u64, fileSize: u64)
    requires |front| == 32
    requires header.bytes == front + HeaderBack(Bytes(0, 8), Bytes(0, 8), Bytes(0, 8), Bytes(0, 4), Bytes(0, 4))
    modifies header
    ensures header.bytes == front + HeaderBack(Bytes(stringAt, 8), Bytes(stringSize, 8), Bytes(blobAt, 8), Bytes(fileSize, 4), Bytes(0, 4))
  {
    hide Bytes, Splice, HeaderBack;
    ghost var zero, none := Bytes(0, 8), Bytes(0, 4);
    PatchFields(front, zero, zero, zero, none, none, Bytes(stringAt, 8), none);
    header.Patch(32, stringAt, 8);
    PatchFields(front, Bytes(stringAt, 8), zero, zero, none, none, Bytes(stringSize, 8), none);
    header.Patch(40, stringSize, 8);
    PatchFields(front, Bytes(stringAt, 8), Bytes(stringSize, 8), zero, none, none, Bytes(blobAt, 8), none);
    header.Patch(48, blobAt, 8);
    PatchFields(front, Bytes(stringAt, 8), Bytes(stringSize, 8), Bytes(blobAt, 8), none, none, zero, Bytes(fileSize, 4));
    header.Patch(56, fileSize, 4);
  }

  /** `writeObjectToBuffer` */
  method WriteObjectToBuffer(o: StoredObject) returns (r: Result<seq<u8>, WriteError>)
    requires BlobFits(o.sections, |o.sections|)
    ensures r == WriteObject(o)
  {
    hide PutAll, HeaderBytes, Crc.Checksum, Bytes, HeaderFront, HeaderBack, Splice;
    if |o.sections| > MAX_U32 || |o.relocations| > MAX_U32 || |o.debug| > MAX_U32 || |o.sources| > MAX_U32 {
      return Err(TooLarge);
    }
    var header := WriteHeader(o);
    var output := new ObjectWriter();
    output.WriteTables(o);
    var stringAt := HEADER_SIZE + |output.tables.bytes|;
    var blobAt := stringAt + |output.strings.bytes|;
    var fileSize := blobAt + |output.blob.bytes|;
    if fileSize > MAX_U32 {
      return Err(FileTooLarge);
    }
    PatchHeader(header, HeaderFront(o), stringAt, |output.strings.bytes|, blobAt, fileSize);
    var body := output.tables.bytes + output.strings.bytes + output.blob.bytes;
    var checksum := Crc.Crc32(body);
    PatchFields(HeaderFront(o), Bytes(stringAt, 8), Bytes(|output.strings.bytes|, 8), Bytes(blobAt, 8), Bytes(fileSize, 4), Bytes(0, 4),
                Bytes(0, 8), Bytes(checksum, 4));
    header.Patch(60, checksum, 4);
    HeaderSplit(o, stringAt, |output.strings.bytes|, blobAt, fileSize, checksum);
    return Ok(header.bytes + body);
  }

  // ----- reading -----

  class Reader {
    const data: seq<u8>
    var position: nat

    constructor (data: seq<u8>)
      ensures this.data == data && position == 0
    {
      this.data, position := data, 0;
    }

    predicate Has(count: nat)
      reads this
    {
      position <= |data| && count <= |data| - position
    }

    method Seek(offset: nat)
      modifies this
      ensures position == offset
    {
      position := offset;
    }

    method Byte() returns (value: Option<u8>)
      modifies this
      ensures value.Some? <==> old(Has(1))
      ensures value.Some? ==> position == old(position) + 1 && value.value == data[old(position)]
      ensures value.None? ==> position == old(position)
    {
      if !Has(1) {
        return None;
      }
      position := position + 1;
      return Some(data[position - 1]);
    }

    method Word(width: nat) returns (value: Option<u64>)
      requires width <= 8
      modifies this
      ensures value.Some? <==> old(Has(width))
      ensures value.Some? ==> position == old(position) + width && value.value == NumberAt(data, old(position), width)
      ensures value.None? ==> position == old(position)
    {
      if !Has(width) {
        return None;
      }
      var field := data[position..position + width];
      FromBytesBound(field);
      Pow2Values();
      Pow2Monotone(8 * width, 64);
      var v: u64 := LoadBytes(field);
      position := position + width;
      return Some(v);
    }

    method Skip(count: nat) returns (ok: bool)
      modifies this
      ensures ok <==> old(Has(count))
      ensures position == if ok then old(position) + count else old(position)
    {
      ok := Has(count);
      if ok {
        position := position + count;
      }
    }
  }

  /** `readString`: the scan for the next NUL. */
  method ReadName(table: seq<u8>, offset: nat) returns (name: Option<Name>)
    ensures name == ReadString(table, offset)
  {
    if offset >= |table| {
      return None;
    }
    var i := offset;
    StartPrefix(ReadString(table, offset));
    assert table[offset..offset] == [];
    while i < |table|
      invariant offset <= i <= |table|
      invariant ReadString(table, offset) == Prefixed(table[offset..i], ReadString(table, i))
    {
      if table[i] == 0 {
        assert table[offset..i] + [] == table[offset..i];
        return Some(table[offset..i]);
      }
      assert table[offset..i + 1] == table[offset..i] + [table[i]];
      MorePrefix(table[offset..i], table[i], ReadString(table, i + 1));
      i := i + 1;
    }
    return None;
  }

  lemma StartPrefix(rest: Option<Name>)
    ensures Prefixed([], rest) == rest
  {
    if rest.Some? {
      assert [] + rest.value == rest.value;
    }
  }

  lemma MorePrefix(front: Name, b: u8, rest: Option<Name>)
    ensures Prefixed(front, Prefixed([b], rest)) == Prefixed(front + [b], rest)
  {
    if rest.Some? {
      assert front + ([b] + rest.value) == front + [b] + rest.value;
    }
  }

  function Prefixed(front: Name, rest: Option<Name>): Option<Name> {
    if rest.None? then None else Some(front + rest.value)
  }

  /** The fields of a section record; there is always a whole record to read. */
  method ReadSectionRecord(reader: Reader, x: Extents) returns (r: Result<SectionRecord, ReadError>)
    requires reader.Has(SECTION_SIZE)
    modifies reader
    ensures reader.position == old(reader.position) + SECTION_SIZE
    ensures r == ReadSection(reader.data, x, old(reader.position))
  {
    hide FromBytes, PowerOfTwo, ReadString;
    var name := reader.Word(4);
    var kind := reader.Byte();
    var flags := reader.Byte();
    var padded := reader.Skip(2);
    var alignment := reader.Word(8);
    var dataAt := reader.Word(8);
    var dataSize := reader.Word(8);
    var size := reader.Word(8);
    var index := reader.Word(4);
    var padded' := reader.Skip(4);
    if kind.value > 4 || !PowerOfTwo(alignment.value) {
      return Err(BadSection);
    }
    if dataAt.value > |x.blob| || dataSize.value > |x.blob| - dataAt.value || size.value < dataSize.value {
      return Err(BadSection);
    }
    var text := ReadName(x.strings, name.value);
    if text.None? {
      return Err(BadName);
    }
    var from: nat, length: nat := dataAt.value, dataSize.value;
    var data := x.blob[from..from + length];
    SmallWord(reader.data, old(reader.position) + 40);
    return Ok(SectionRecord(text.value, kind.value, flags.value, alignment.value, data, size.value, index.value));
  }

  lemma SmallWord(buffer: seq<u8>, at: nat)
    requires at + 4 <= |buffer|
    ensures NumberAt(buffer, at, 4) == U32At(buffer, at)
  {
  }

  method ReadSymbolRecord(reader: Reader, x: Extents) returns (r: Result<SymbolRecord, ReadError>)
    requires reader.Has(SYMBOL_SIZE)
    modifies reader
    ensures reader.position == old(reader.position) + SYMBOL_SIZE
    ensures r == ReadSymbol(reader.data, x, old(reader.position))
  {
    hide FromBytes, ReadString;
    var name := reader.Word(4);
    var binding := reader.Byte();
    var kind := reader.Byte();
    var defined := reader.Byte();
    var padded := reader.Skip(1);
    var section := reader.Word(4);
    var padded' := reader.Skip(4);
    var value := reader.Word(8);
    var size := reader.Word(8);
    SmallWord(reader.data, old(reader.position) + 8);
    if binding.value > 3 || kind.value > 3 || (section.value != UNDEFINED_SECTION && section.value >= x.sectionCount) {
      return Err(BadSymbol);
    }
    var text := ReadName(x.strings, name.value);
    if text.None? {
      return Err(BadName);
    }
    return Ok(SymbolRecord(text.value, binding.value, kind.value, defined.value != 0, section.value, value.value, size.value));
  }

  method ReadRelocationRecord(reader: Reader, x: Extents, sections: seq<SectionRecord>) returns (r: Result<RelocationRecord, ReadError>)
    requires reader.Has(RELOCATION_SIZE)
    modifies reader
    ensures reader.position == old(reader.position) + RELOCATION_SIZE
    ensures r == ReadRelocation(reader.data, x, sections, old(reader.position))
  {
    hide FromBytes;
    var section := reader.Word(4);
    var symbol := reader.Word(4);
    var offset := reader.Word(8);
    var addend := reader.Word(8);
    var kind := reader.Byte();
    var padded := reader.Skip(7);
    SmallWord(reader.data, old(reader.position));
    SmallWord(reader.data, old(reader.position) + 4);
    if kind.value > 4 || section.value >= |sections| || symbol.value >= x.symbolCount {
      return Err(BadRelocation);
    }
    var target := sections[section.value].data;
    if offset.value > |target| || WidthOf(kind.value) > |target| - offset.value {
      return Err(BadRelocation);
    }
    return Ok(RelocationRecord(section.value, symbol.value, offset.value, ToI64(addend.value), kind.value));
  }

  method ReadDebugRecord(reader: Reader, x: Extents) returns (r: Result<DebugRecord, ReadError>)
    requires reader.Has(DEBUG_SIZE)
    modifies reader
    ensures reader.position == old(reader.position) + DEBUG_SIZE
    ensures r == ReadDebug(reader.data, x, old(reader.position))
  {
    hide FromBytes;
    var section := reader.Word(4);
    var file := reader.Word(4);
    var offset := reader.Word(8);
    var line := reader.Word(4);
    var column := reader.Word(4);
    SmallWord(reader.data, old(reader.position));
    SmallWord(reader.data, old(reader.position) + 4);
    SmallWord(reader.data, old(reader.position) + 16);
    SmallWord(reader.data, old(reader.position) + 20);
    if section.value >= x.sectionCount || file.value >= x.sourceCount {
      return Err(BadDebug);
    }
    return Ok(DebugRecord(section.value, file.value, offset.value, line.value, column.value));
  }

  /** The header fields, read in order. */
  datatype RawHeader = RawHeader(
    version: u64, headerSize: u64, flags: u64, counts: seq<u64>, stringAt: u64, stringSize: u64, blobAt: u64,
    fileSize: u64, checksum: u64)

  ghost predicate HeaderOf(buffer: seq<u8>, h: RawHeader) {
    && HEADER_SIZE <= |buffer| && |h.counts| == 5
    && h.version == NumberAt(buffer, 4, 2) && h.headerSize == NumberAt(buffer, 6, 2) && h.flags == NumberAt(buffer, 8, 4)
    && h.counts[0] == NumberAt(buffer, 12, 4) && h.counts[1] == NumberAt(buffer, 16, 4) && h.counts[2] == NumberAt(buffer, 20, 4)
    && h.counts[3] == NumberAt(buffer, 24, 4) && h.counts[4] == NumberAt(buffer, 28, 4)
    && h.stringAt == NumberAt(buffer, 32, 8) && h.stringSize == NumberAt(buffer, 40, 8) && h.blobAt == NumberAt(buffer, 48, 8)
    && h.fileSize == NumberAt(buffer, 56, 4) && h.checksum == NumberAt(buffer, 60, 4)
  }

  method ReadRawHeader(reader: Reader) returns (h: RawHeader)
    requires reader.position == 4 && HEADER_SIZE <= |reader.data|
    modifies reader
    ensures HeaderOf(reader.data, h)
  {
    hide NumberAt;
    var version := reader.Word(2);
    var headerSize := reader.Word(2);
    var flags := reader.Word(4);
    var sections := reader.Word(4);
    var symbols := reader.Word(4);
    var relocations := reader.Word(4);
    var debug := reader.Word(4);
    var sources := reader.Word(4);
    var stringAt := reader.Word(8);
    var stringSize := reader.Word(8);
    var blobAt := reader.Word(8);
    var fileSize := reader.Word(4);
    var checksum := reader.Word(4);
    h := RawHeader(version.value, headerSize.value, flags.value,
                   [sections.value, symbols.value, relocations.value, debug.value, sources.value],
                   stringAt.value, stringSize.value, blobAt.value, fileSize.value, checksum.value);
  }

  method ReadHeaderChecked(reader: Reader) returns (r: Result<Extents, ReadError>)
    requires reader.position == 0
    modifies reader
    ensures r == ReadHeader(reader.data)
  {
    hide NumberAt, Crc.Checksum;
    var buffer := reader.data;
    if |buffer| < HEADER_SIZE {
      return Err(ShortHeader);
    }
    if buffer[..4] != MAGIC {
      return Err(BadMagic);
    }
    reader.Seek(4);
    var h := ReadRawHeader(reader);
    HeaderWords(buffer);
    if h.version != VERSION {
      return Err(BadVersion);
    }
    if h.headerSize != HEADER_SIZE {
      return Err(BadHeaderSize);
    }
    if h.flags != 0 {
      return Err(BadFlags);
    }
    if h.fileSize != |buffer| {
      return Err(BadFileSize);
    }
    var actual := Crc.Crc32(buffer[HEADER_SIZE..]);
    if actual != h.checksum {
      return Err(BadChecksum);
    }
    var x := Extents(h.counts[0], h.counts[1], h.counts[2], h.counts[3], h.counts[4], [], []);
    if x.End() > |buffer| || h.stringAt != x.End() || Wrap(h.stringAt + h.stringSize) > |buffer|
       || h.blobAt != Wrap(h.stringAt + h.stringSize) || h.blobAt > |buffer| {
      return Err(BadLayout);
    }
    var from: nat, size: nat, blobAt: nat := h.stringAt, h.stringSize, h.blobAt;
    if size > |buffer| - from {
      return Err(BadLayout);
    }
    return Ok(x.(strings := buffer[from..from + size], blob := buffer[blobAt..]));
  }

  lemma HeaderWords(buffer: seq<u8>)
    requires HEADER_SIZE <= |buffer|
    ensures U32At(buffer, 8) == NumberAt(buffer, 8, 4) && U32At(buffer, 56) == NumberAt(buffer, 56, 4)
    ensures U32At(buffer, 60) == NumberAt(buffer, 60, 4) && U32At(buffer, 12) == NumberAt(buffer, 12, 4)
    ensures U32At(buffer, 16) == NumberAt(buffer, 16, 4) && U32At(buffer, 20) == NumberAt(buffer, 20, 4)
    ensures U32At(buffer, 24) == NumberAt(buffer, 24, 4) && U32At(buffer, 28) == NumberAt(buffer, 28, 4)
    ensures U64At(buffer, 32) == NumberAt(buffer, 32, 8) && U64At(buffer, 40) == NumberAt(buffer, 40, 8)
    ensures U64At(buffer, 48) == NumberAt(buffer, 48, 8)
  {
    hide NumberAt;
  }

  // ----- the tables -----

  method ReadSectionTable(reader: Reader, x: Extents) returns (r: Result<seq<SectionRecord>, ReadError>)
    requires x.End() <= |reader.data|
    modifies reader
    ensures r == ReadSections(reader.data, x, x.sectionCount)
  {
    hide ReadSection;
    reader.Seek(HEADER_SIZE);
    var sections: seq<SectionRecord> := [];
    var i := 0;
    while i < x.sectionCount
      invariant i <= x.sectionCount && reader.position == HEADER_SIZE + i * SECTION_SIZE <= |reader.data|
      invariant ReadSections(reader.data, x, i) == Ok(sections)
    {
      var s := ReadSectionRecord(reader, x);
      if s.Err? {
        SectionsFail(reader.data, x, i + 1, x.sectionCount);
        return Err(s.error);
      }
      sections := sections + [s.value];
      i := i + 1;
    }
    return Ok(sections);
  }

  method ReadSymbolTable(reader: Reader, x: Extents) returns (r: Result<seq<SymbolRecord>, ReadError>)
    requires x.End() <= |reader.data|
    modifies reader
    ensures r == ReadSymbols(reader.data, x, x.symbolCount)
  {
    hide ReadSymbol;
    reader.Seek(x.SymbolsAt());
    var symbols: seq<SymbolRecord> := [];
    var i := 0;
    while i < x.symbolCount
      invariant i <= x.symbolCount && reader.position == x.SymbolsAt() + i * SYMBOL_SIZE <= |reader.data|
      invariant ReadSymbols(reader.data, x, i) == Ok(symbols)
    {
      var s := ReadSymbolRecord(reader, x);
      if s.Err? {
        SymbolsFail(reader.data, x, i + 1, x.symbolCount);
        return Err(s.error);
      }
      if HasName(symbols, s.value.name) {
        SymbolsFail(reader.data, x, i + 1, x.symbolCount);
        return Err(DuplicateName);
      }
      symbols := symbols + [s.value];
      i := i + 1;
    }
    return Ok(symbols);
  }

  method ReadRelocationTable(reader: Reader, x: Extents, sections: seq<SectionRecord>) returns (r: Result<seq<RelocationRecord>, ReadError>)
    requires x.End() <= |reader.data|
    modifies reader
    ensures r == ReadRelocations(reader.data, x, sections, x.relocationCount)
  {
    hide ReadRelocation;
    reader.Seek(x.RelocationsAt());
    var relocations: seq<RelocationRecord> := [];
    var i := 0;
    while i < x.relocationCount
      invariant i <= x.relocationCount && reader.position == x.RelocationsAt() + i * RELOCATION_SIZE <= |reader.data|
      invariant ReadRelocations(reader.data, x, sections, i) == Ok(relocations)
    {
      var s := ReadRelocationRecord(reader, x, sections);
      if s.Err? {
        RelocationsFail(reader.data, x, sections, i + 1, x.relocationCount);
        return Err(s.error);
      }
      relocations := relocations + [s.value];
      i := i + 1;
    }
    return Ok(relocations);
  }

  method ReadDebugTable(reader: Reader, x: Extents) returns (r: Result<seq<DebugRecord>, ReadError>)
    requires x.End() <= |reader.data|
    modifies reader
    ensures r == ReadDebugs(reader.data, x, x.debugCount)
  {
    hide ReadDebug;
    reader.Seek(x.DebugAt());
    var debug: seq<DebugRecord> := [];
    var i := 0;
    while i < x.debugCount
      invariant i <= x.debugCount && reader.position == x.DebugAt() + i * DEBUG_SIZE <= |reader.data|
      invariant ReadDebugs(reader.data, x, i) == Ok(debug)
    {
      var s := ReadDebugRecord(reader, x);
      if s.Err? {
        DebugFails(reader.data, x, i + 1, x.debugCount);
        return Err(s.error);
      }
      debug := debug + [s.value];
      i := i + 1;
    }
    return Ok(debug);
  }

  method ReadSourceTable(reader: Reader, x: Extents) returns (r: Result<seq<Name>, ReadError>)
    requires x.End() <= |reader.data|
    modifies reader
    ensures r == ReadSources(reader.data, x, x.sourceCount)
  {
    hide NumberAt, ReadString;
    reader.Seek(x.SourcesAt());
    var sources: seq<Name> := [];
    var i := 0;
    while i < x.sourceCount
      invariant i <= x.sourceCount && reader.position == x.SourcesAt() + i * SOURCE_SIZE <= |reader.data|
      invariant ReadSources(reader.data, x, i) == Ok(sources)
    {
      var offset := reader.Word(4);
      var name := ReadName(x.strings, offset.value);
      if name.None? {
        SourcesFail(reader.data, x, i + 1, x.sourceCount);
        return Err(BadName);
      }
      sources := sources + [name.value];
      i := i + 1;
    }
    return Ok(sources);
  }

  /** `readObjectFromBuffer` */
  method ReadObjectFromBuffer(buffer: seq<u8>) returns (r: Result<StoredObject, ReadError>)
    ensures r == ReadObject(buffer)
  {
    hide ReadHeader, ReadSections, ReadSymbols, ReadRelocations, ReadDebugs, ReadSources;
    var reader := new Reader(buffer);
    var header := ReadHeaderChecked(reader);
    if header.Err? {
      return Err(header.error);
    }
    var x := header.value;
    var sections := ReadSectionTable(reader, x);
    if sections.Err? {
      return Err(sections.error);
    }
    var symbols := ReadSymbolTable(reader, x);
    if symbols.Err? {
      return Err(symbols.error);
    }
    var relocations := ReadRelocationTable(reader, x, sections.value);
    if relocations.Err? {
      return Err(relocations.error);
    }
    var debug := ReadDebugTable(reader, x);
    if debug.Err? {
      return Err(debug.error);
    }
    var sources := ReadSourceTable(reader, x);
    if sources.Err? {
      return Err(sources.error);
    }
    return Ok(StoredObject(sections.value, symbols.value, relocations.value, debug.value, sources.value));
  }

  // ----- a failure is the result -----

  lemma {:induction false} SectionsFail(buffer: seq<u8>, x: Extents, m: nat, n: nat)
    requires m <= n && HEADER_SIZE + n * SECTION_SIZE <= |buffer| && ReadSections(buffer, x, m).Err?
    ensures ReadSections(buffer, x, n) == ReadSections(buffer, x, m)
  {
    if m < n {
      SectionsFail(buffer, x, m, n - 1);
    }
  }

  lemma {:induction false} SymbolsFail(buffer: seq<u8>, x: Extents, m: nat, n: nat)
    requires m <= n && x.SymbolsAt() + n * SYMBOL_SIZE <= |buffer| && ReadSymbols(buffer, x, m).Err?
    ensures ReadSymbols(buffer, x, n) == ReadSymbols(buffer, x, m)
  {
    if m < n {
      SymbolsFail(buffer, x, m, n - 1);
    }
  }

  lemma {:induction false} RelocationsFail(buffer: seq<u8>, x: Extents, sections: seq<SectionRecord>, m: nat, n: nat)
    requires m <= n && x.RelocationsAt() + n * RELOCATION_SIZE <= |buffer| && ReadRelocations(buffer, x, sections, m).Err?
    ensures ReadRelocations(buffer, x, sections, n) == ReadRelocations(buffer, x, sections, m)
  {
    if m < n {
      RelocationsFail(buffer, x, sections, m, n - 1);
    }
  }

  lemma {:induction false} DebugFails(buffer: seq<u8>, x: Extents, m: nat, n: nat)
    requires m <= n && x.DebugAt() + n * DEBUG_SIZE <= |buffer| && ReadDebugs(buffer, x, m).Err?
    ensures ReadDebugs(buffer, x, n) == ReadDebugs(buffer, x, m)
  {
    if m < n {
      DebugFails(buffer, x, m, n - 1);
    }
  }

  lemma {:induction false} SourcesFail(buffer: seq<u8>, x: Extents, m: nat, n: nat)
    requires m <= n && x.SourcesAt() + n * SOURCE_SIZE <= |buffer| && ReadSources(buffer, x, m).Err?
    ensures ReadSources(buffer, x, n) == ReadSources(buffer, x, m)
  {
    if m < n {
      SourcesFail(buffer, x, m, n - 1);
    }
  }
}
