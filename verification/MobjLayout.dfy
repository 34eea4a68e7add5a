/** Where everything of an object stands in its file, byte by byte, as docs/object-format.md lays it out.
    Said of whatever the reader accepts; what the writer writes is read back, so it is said of that too. */
module MobjLayout {
  import opened Words
  import opened Bits
  import opened ByteOrder
  import opened Mobj
  import MemoryMeaning
  import Crc
  import MobjProof

  /** The `width` bytes at `at` are those of the number, least significant first. */
  ghost predicate Number(buffer: seq<u8>, at: nat, width: nat, n: nat) {
    at + width <= |buffer| && forall k: nat :: k < width ==> buffer[at + k] == (n / Pow2(8 * k)) % 256
  }

  /** A name and the NUL behind it. */
  ghost predicate NameStands(buffer: seq<u8>, at: nat, name: Name) {
    at + |name| < |buffer| && buffer[at..at + |name|] == name && buffer[at + |name|] == 0 && NulFree(name)
  }

  lemma NumberStands(buffer: seq<u8>, at: nat, width: nat)
    requires at + width <= |buffer|
    ensures Number(buffer, at, width, NumberAt(buffer, at, width))
  {
    hide FromBytes, Bytes, Pow2;
    var bytes := buffer[at..at + width];
    StoreAfterLoad(bytes);
    forall k: nat | k < width
      ensures buffer[at + k] == (NumberAt(buffer, at, width) / Pow2(8 * k)) % 256
    {
      MemoryMeaning.ByteMeans(FromBytes(bytes), width, k);
      assert bytes[k] == buffer[at + k];
    }
  }

  lemma {:induction false} StringStands(table: seq<u8>, offset: nat)
    requires ReadString(table, offset).Some?
    ensures NameStands(table, offset, ReadString(table, offset).value)
    decreases |table| - offset
  {
    if table[offset] != 0 {
      StringStands(table, offset + 1);
      var rest := ReadString(table, offset + 1).value;
      assert table[offset..offset + 1 + |rest|] == [table[offset]] + table[offset + 1..offset + 1 + |rest|];
    }
  }

  /** The places of the tables of a file with these numbers of records. */
  datatype Plan = Plan(sections: nat, symbols: nat, relocations: nat, debug: nat, sources: nat) {
    function Symbols(): nat { 64 + 48 * sections }
    function Relocations(): nat { Symbols() + 32 * symbols }
    function Debug(): nat { Relocations() + 32 * relocations }
    function Sources(): nat { Debug() + 24 * debug }
    function Strings(): nat { Sources() + 4 * sources }
  }

  function PlanOf(o: StoredObject): Plan {
    Plan(|o.sections|, |o.symbols|, |o.relocations|, |o.debug|, |o.sources|)
  }

  /** The 64 bytes of the header, section 3; the string table and the data follow the tables. */
  ghost predicate HeaderStands(buffer: seq<u8>, o: StoredObject, stringSize: nat) {
    && |buffer| >= 64 && buffer[..4] == [0x4D, 0x4F, 0x42, 0x4A]
    && Number(buffer, 4, 2, 1) && Number(buffer, 6, 2, 64) && Number(buffer, 8, 4, 0)
    && Number(buffer, 12, 4, |o.sections|) && Number(buffer, 16, 4, |o.symbols|) && Number(buffer, 20, 4, |o.relocations|)
    && Number(buffer, 24, 4, |o.debug|) && Number(buffer, 28, 4, |o.sources|)
    && Number(buffer, 32, 8, PlanOf(o).Strings()) && Number(buffer, 40, 8, stringSize)
    && Number(buffer, 48, 8, PlanOf(o).Strings() + stringSize) && PlanOf(o).Strings() + stringSize <= |buffer|
    && Number(buffer, 56, 4, |buffer|) && Number(buffer, 60, 4, Crc.Checksum(buffer[64..]))
  }

  /** A name field: an offset into the string table, where the name stands. */
  ghost predicate Named(buffer: seq<u8>, at: nat, strings: nat, name: Name) {
    exists offset: nat :: Number(buffer, at, 4, offset) && NameStands(buffer, strings + offset, name)
  }

  /** A section record, section 4. */
  ghost predicate SectionStands(buffer: seq<u8>, at: nat, strings: nat, blob: nat, s: SectionRecord) {
    && at + 48 <= |buffer| && Named(buffer, at, strings, s.name)
    && buffer[at + 4] == s.kind && buffer[at + 5] == s.flags
    && Number(buffer, at + 8, 8, s.alignment) && Number(buffer, at + 24, 8, |s.data|)
    && Number(buffer, at + 32, 8, s.size) && Number(buffer, at + 40, 4, s.index)
    && HasData(buffer, at + 16, blob, s.data)
  }

  /** A data offset field, and the data there. */
  ghost predicate HasData(buffer: seq<u8>, at: nat, blob: nat, data: seq<u8>) {
    exists offset: nat :: Number(buffer, at, 8, offset) && DataStands(buffer, blob + offset, data)
  }

  ghost predicate DataStands(buffer: seq<u8>, at: nat, data: seq<u8>) {
    at + |data| <= |buffer| && buffer[at..at + |data|] == data
  }

  /** A symbol record, section 5. */
  ghost predicate SymbolStands(buffer: seq<u8>, at: nat, strings: nat, s: SymbolRecord) {
    && at + 32 <= |buffer| && Named(buffer, at, strings, s.name)
    && buffer[at + 4] == s.binding && buffer[at + 5] == s.kind && (buffer[at + 6] != 0 <==> s.defined)
    && Number(buffer, at + 8, 4, s.section) && Number(buffer, at + 16, 8, s.value) && Number(buffer, at + 24, 8, s.size)
  }

  /** A relocation record, section 6; the addend in two's complement. */
  ghost predicate RelocationStands(buffer: seq<u8>, at: nat, r: RelocationRecord) {
    && at + 32 <= |buffer|
    && Number(buffer, at, 4, r.section) && Number(buffer, at + 4, 4, r.symbol) && Number(buffer, at + 8, 8, r.offset)
    && Number(buffer, at + 16, 8, if r.addend < 0 then r.addend + 0x1_0000_0000_0000_0000 else r.addend)
    && buffer[at + 24] == r.kind
  }

  /** A debug record, section 7. */
  ghost predicate DebugStands(buffer: seq<u8>, at: nat, d: DebugRecord) {
    && Number(buffer, at, 4, d.section) && Number(buffer, at + 4, 4, d.file) && Number(buffer, at + 8, 8, d.offset)
    && Number(buffer, at + 16, 4, d.line) && Number(buffer, at + 20, 4, d.column)
  }

  /** The whole file: header, five tables, strings and data. */
  ghost predicate LaidOutAs(buffer: seq<u8>, o: StoredObject, stringSize: nat) {
    var p := PlanOf(o);
    && HeaderStands(buffer, o, stringSize)
    && (forall k :: 0 <= k < |o.sections| ==> SectionStands(buffer, 64 + 48 * k, p.Strings(), p.Strings() + stringSize, o.sections[k]))
    && (forall k :: 0 <= k < |o.symbols| ==> SymbolStands(buffer, p.Symbols() + 32 * k, p.Strings(), o.symbols[k]))
    && (forall k :: 0 <= k < |o.relocations| ==> RelocationStands(buffer, p.Relocations() + 32 * k, o.relocations[k]))
    && (forall k :: 0 <= k < |o.debug| ==> DebugStands(buffer, p.Debug() + 24 * k, o.debug[k]))
    && (forall k :: 0 <= k < |o.sources| ==> Named(buffer, p.Sources() + 4 * k, p.Strings(), o.sources[k]))
  }

  // ----- record by record -----

  lemma U32Stands(buffer: seq<u8>, at: nat)
    requires at + 4 <= |buffer|
    ensures Number(buffer, at, 4, U32At(buffer, at))
  {
    NumberStands(buffer, at, 4);
  }

  lemma U64Stands(buffer: seq<u8>, at: nat)
    requires at + 8 <= |buffer|
    ensures Number(buffer, at, 8, U64At(buffer, at))
  {
    NumberStands(buffer, at, 8);
  }

  /** The string table and the data of a buffer with this header. */
  ghost predicate Parts(buffer: seq<u8>, x: Extents) {
    && x.End() + |x.strings| <= |buffer|
    && x.strings == buffer[x.End()..x.End() + |x.strings|] && x.blob == buffer[x.End() + |x.strings|..]
  }

  lemma NameRead(buffer: seq<u8>, x: Extents, at: nat)
    requires Parts(buffer, x) && at + 4 <= |buffer| && ReadString(x.strings, U32At(buffer, at)).Some?
    ensures Named(buffer, at, x.End(), ReadString(x.strings, U32At(buffer, at)).value)
  {
    hide ReadString, Number;
    var offset := U32At(buffer, at);
    var name := ReadString(x.strings, offset).value;
    U32Stands(buffer, at);
    StringStands(x.strings, offset);
    var from := x.End() + offset;
    MobjProof.SliceOfSlice(buffer, x.End(), x.End() + |x.strings|, offset, offset + |name|);
    assert buffer[from + |name|] == x.strings[offset + |name|];
    assert NameStands(buffer, from, name);
  }

  lemma SectionRead(buffer: seq<u8>, x: Extents, at: nat)
    requires Parts(buffer, x) && at + 48 <= |buffer| && ReadSection(buffer, x, at).Ok?
    ensures SectionStands(buffer, at, x.End(), x.End() + |x.strings|, ReadSection(buffer, x, at).value)
  {
    hide ReadString, Number, U32At, U64At, Named, PowerOfTwo;
    U64Stands(buffer, at + 8);
    U64Stands(buffer, at + 16);
    U64Stands(buffer, at + 24);
    U64Stands(buffer, at + 32);
    U32Stands(buffer, at + 40);
    NameRead(buffer, x, at);
    var s, dataAt, blob := ReadSection(buffer, x, at).value, U64At(buffer, at + 16), x.End() + |x.strings|;
    MobjProof.SliceOfSlice(buffer, blob, |buffer|, dataAt, dataAt + |s.data|);
    assert buffer[blob..|buffer|] == buffer[blob..];
    assert DataStands(buffer, blob + dataAt, s.data);
  }

  lemma SymbolRead(buffer: seq<u8>, x: Extents, at: nat)
    requires Parts(buffer, x) && at + 32 <= |buffer| && ReadSymbol(buffer, x, at).Ok?
    ensures SymbolStands(buffer, at, x.End(), ReadSymbol(buffer, x, at).value)
  {
    hide ReadString, Number, U32At, U64At, Named;
    U32Stands(buffer, at + 8);
    U64Stands(buffer, at + 16);
    U64Stands(buffer, at + 24);
    NameRead(buffer, x, at);
  }

  lemma RelocationRead(buffer: seq<u8>, x: Extents, sections: seq<SectionRecord>, at: nat)
    requires at + 32 <= |buffer| && ReadRelocation(buffer, x, sections, at).Ok?
    ensures RelocationStands(buffer, at, ReadRelocation(buffer, x, sections, at).value)
  {
    hide Number, U32At, U64At;
    U32Stands(buffer, at);
    U32Stands(buffer, at + 4);
    U64Stands(buffer, at + 8);
    U64Stands(buffer, at + 16);
  }

  lemma DebugRead(buffer: seq<u8>, x: Extents, at: nat)
    requires at + 24 <= |buffer| && ReadDebug(buffer, x, at).Ok?
    ensures DebugStands(buffer, at, ReadDebug(buffer, x, at).value)
  {
    hide Number, U32At, U64At;
    U32Stands(buffer, at);
    U32Stands(buffer, at + 4);
    U64Stands(buffer, at + 8);
    U32Stands(buffer, at + 16);
    U32Stands(buffer, at + 20);
  }

  // ----- table by table -----

  lemma {:induction false} SectionsRead(buffer: seq<u8>, x: Extents, n: nat)
    requires Parts(buffer, x) && 64 + n * 48 <= |buffer| && ReadSections(buffer, x, n).Ok?
    ensures forall k :: 0 <= k < n ==>
              SectionStands(buffer, 64 + 48 * k, x.End(), x.End() + |x.strings|, ReadSections(buffer, x, n).value[k])
  {
    hide ReadSection, SectionStands;
    if n > 0 {
      SectionsRead(buffer, x, n - 1);
      SectionRead(buffer, x, 64 + (n - 1) * 48);
    }
  }

  lemma {:induction false} SymbolsRead(buffer: seq<u8>, x: Extents, n: nat)
    requires Parts(buffer, x) && x.SymbolsAt() + n * 32 <= |buffer| && ReadSymbols(buffer, x, n).Ok?
    ensures forall k :: 0 <= k < n ==> SymbolStands(buffer, x.SymbolsAt() + 32 * k, x.End(), ReadSymbols(buffer, x, n).value[k])
  {
    hide ReadSymbol, SymbolStands, HasName;
    if n > 0 {
      SymbolsRead(buffer, x, n - 1);
      SymbolRead(buffer, x, x.SymbolsAt() + (n - 1) * 32);
    }
  }

  lemma {:induction false} RelocationsRead(buffer: seq<u8>, x: Extents, sections: seq<SectionRecord>, n: nat)
    requires x.RelocationsAt() + n * 32 <= |buffer| && ReadRelocations(buffer, x, sections, n).Ok?
    ensures forall k :: 0 <= k < n ==>
              RelocationStands(buffer, x.RelocationsAt() + 32 * k, ReadRelocations(buffer, x, sections, n).value[k])
  {
    hide ReadRelocation, RelocationStands;
    if n > 0 {
      RelocationsRead(buffer, x, sections, n - 1);
      RelocationRead(buffer, x, sections, x.RelocationsAt() + (n - 1) * 32);
    }
  }

  lemma {:induction false} DebugsRead(buffer: seq<u8>, x: Extents, n: nat)
    requires x.DebugAt() + n * 24 <= |buffer| && ReadDebugs(buffer, x, n).Ok?
    ensures forall k :: 0 <= k < n ==> DebugStands(buffer, x.DebugAt() + 24 * k, ReadDebugs(buffer, x, n).value[k])
  {
    hide ReadDebug, DebugStands;
    if n > 0 {
      DebugsRead(buffer, x, n - 1);
      DebugRead(buffer, x, x.DebugAt() + (n - 1) * 24);
    }
  }

  lemma {:induction false} SourcesRead(buffer: seq<u8>, x: Extents, n: nat)
    requires Parts(buffer, x) && x.SourcesAt() + n * 4 <= |buffer| && ReadSources(buffer, x, n).Ok?
    ensures forall k :: 0 <= k < n ==> Named(buffer, x.SourcesAt() + 4 * k, x.End(), ReadSources(buffer, x, n).value[k])
  {
    hide ReadString, Named, U32At;
    if n > 0 {
      SourcesRead(buffer, x, n - 1);
      NameRead(buffer, x, x.SourcesAt() + (n - 1) * 4);
    }
  }

  lemma HeaderRead(buffer: seq<u8>, o: StoredObject)
    requires ReadHeader(buffer).Ok?
    requires var x := ReadHeader(buffer).value;
      && |o.sections| == x.sectionCount && |o.symbols| == x.symbolCount && |o.relocations| == x.relocationCount
      && |o.debug| == x.debugCount && |o.sources| == x.sourceCount
    ensures Parts(buffer, ReadHeader(buffer).value)
    ensures HeaderStands(buffer, o, |ReadHeader(buffer).value.strings|)
  {
    hide Number, Crc.Checksum, FromBytes;
    NumberStands(buffer, 4, 2);
    NumberStands(buffer, 6, 2);
    U32Stands(buffer, 8);
    U32Stands(buffer, 12);
    U32Stands(buffer, 16);
    U32Stands(buffer, 20);
    U32Stands(buffer, 24);
    U32Stands(buffer, 28);
    U64Stands(buffer, 32);
    U64Stands(buffer, 40);
    U64Stands(buffer, 48);
    U32Stands(buffer, 56);
    U32Stands(buffer, 60);
    hide U32At, U64At, NumberAt;
  }

  /** Every file the reader accepts is laid out as the format says, around the object it is read as. */
  lemma AcceptedLayout(buffer: seq<u8>)
    requires ReadObject(buffer).Ok?
    ensures LaidOutAs(buffer, ReadObject(buffer).value, |ReadHeader(buffer).value.strings|)
  {
    hide ReadHeader, ReadSections, ReadSymbols, ReadRelocations, ReadDebugs, ReadSources, HeaderStands, SectionStands,
         SymbolStands, RelocationStands, DebugStands, Named, Parts;
    var x, o := ReadHeader(buffer).value, ReadObject(buffer).value;
    HeaderRead(buffer, o);
    SectionsRead(buffer, x, x.sectionCount);
    SymbolsRead(buffer, x, x.symbolCount);
    RelocationsRead(buffer, x, o.sections, x.relocationCount);
    DebugsRead(buffer, x, x.debugCount);
    SourcesRead(buffer, x, x.sourceCount);
  }

  /** So is every file that the writer writes for a well-formed object. */
  lemma WrittenLayout(o: StoredObject)
    requires MobjProof.WellFormed(o) && WriteObject(o).Ok?
    ensures ReadHeader(WriteObject(o).value).Ok?
    ensures LaidOutAs(WriteObject(o).value, o, |ReadHeader(WriteObject(o).value).value.strings|)
  {
    hide WriteObject, MobjProof.WellFormed, LaidOutAs, ReadHeader;
    MobjProof.RoundTripIff(o);
    AcceptedLayout(WriteObject(o).value);
  }

  lemma {:induction false} AndWithItself(x: nat)
    ensures BitAnd(x, x) == x
  {
    if x > 0 {
      AndWithItself(x / 2);
    }
  }

  /** The alignments that are accepted are the powers of two. */
  lemma {:induction false} PowerOfTwoIff(x: u64)
    ensures PowerOfTwo(x) <==> exists k: nat :: x == Pow2(k)
    decreases x
  {
    if x > 1 && x % 2 == 0 {
      var y := x / 2;
      assert (x - 1) / 2 == y - 1 && (x - 1) % 2 == 1;
      BitwiseStep(And, x, x - 1);
      PowerOfTwoIff(y);
      HalfPower(x);
    } else if x > 1 {
      assert (x - 1) / 2 == x / 2;
      BitwiseStep(And, x, x - 1);
      AndWithItself(x / 2);
      OddIsNoPower(x);
    } else if x == 1 {
      assert Pow2(0) == 1;
      BitwiseZero(1);
    }
  }

  lemma HalfPower(x: nat)
    requires x > 1 && x % 2 == 0
    ensures (exists k: nat :: x == Pow2(k)) <==> exists k: nat :: x / 2 == Pow2(k)
  {
    assert Pow2(0) == 1;
    if exists k: nat :: x == Pow2(k) {
      var k: nat :| x == Pow2(k);
      assert Pow2(k) == 2 * Pow2(k - 1);
      assert x / 2 == Pow2(k - 1);
    }
    if exists k: nat :: x / 2 == Pow2(k) {
      var k: nat :| x / 2 == Pow2(k);
      assert Pow2(k + 1) == 2 * Pow2(k);
      assert x == Pow2(k + 1);
    }
  }

  lemma OddIsNoPower(x: nat)
    requires x > 1 && x % 2 == 1
    ensures !exists k: nat :: x == Pow2(k)
  {
    forall k: nat
      ensures x != Pow2(k)
    {
      if k > 0 {
        assert Pow2(k) == 2 * Pow2(k - 1);
      }
    }
  }
}
