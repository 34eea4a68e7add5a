/** Reading what was written gives the object back, for exactly the well-formed objects; and whatever
    the reader accepts is well-formed. */
module MobjProof {
  import opened Words
  import opened ByteOrder
  import opened Memory
  import opened Mobj
  import Crc

  // ----- well-formed objects -----

  predicate SectionOk(s: SectionRecord) {
    s.kind <= 4 && PowerOfTwo(s.alignment) && |s.data| <= s.size && NulFree(s.name)
  }

  predicate SymbolOk(s: SymbolRecord, sections: nat) {
    s.binding <= 3 && s.kind <= 3 && NulFree(s.name) && (s.section == UNDEFINED_SECTION || s.section < sections)
  }

  predicate RelocationOk(r: RelocationRecord, sections: seq<SectionRecord>, symbols: nat) {
    && r.kind <= 4 && r.section < |sections| && r.symbol < symbols
    && r.offset + WidthOf(r.kind) <= |sections[r.section].data|
  }

  predicate DebugOk(d: DebugRecord, sections: nat, sources: nat) {
    d.section < sections && d.file < sources
  }

  /** What the format can carry: unique NUL-free names, alignments that are powers of two, indices and
      patched fields in range. */
  ghost predicate WellFormed(o: StoredObject) {
    && (forall i :: 0 <= i < |o.sections| ==> SectionOk(o.sections[i]))
    && (forall i :: 0 <= i < |o.symbols| ==> SymbolOk(o.symbols[i], |o.sections|))
    && (forall i, j :: 0 <= i < j < |o.symbols| ==> o.symbols[i].name != o.symbols[j].name)
    && (forall i :: 0 <= i < |o.relocations| ==> RelocationOk(o.relocations[i], o.sections, |o.symbols|))
    && (forall i :: 0 <= i < |o.debug| ==> DebugOk(o.debug[i], |o.sections|, |o.sources|))
    && (forall i :: 0 <= i < |o.sources| ==> NulFree(o.sources[i]))
  }

  lemma {:induction false} ReadStringNulFree(table: seq<u8>, offset: nat)
    requires ReadString(table, offset).Some?
    ensures NulFree(ReadString(table, offset).value)
    decreases |table| - offset
  {
    if table[offset] != 0 {
      ReadStringNulFree(table, offset + 1);
    }
  }

  lemma {:induction false} SectionsRead(buffer: seq<u8>, x: Extents, n: nat)
    requires HEADER_SIZE + n * SECTION_SIZE <= |buffer| && ReadSections(buffer, x, n).Ok?
    ensures forall i :: 0 <= i < n ==> SectionOk(ReadSections(buffer, x, n).value[i])
  {
    if n > 0 {
      hide PowerOfTwo, ReadString, U32At, U64At, NulFree;
      SectionsRead(buffer, x, n - 1);
      var at := HEADER_SIZE + (n - 1) * SECTION_SIZE;
      if ReadString(x.strings, U32At(buffer, at)).Some? {
        ReadStringNulFree(x.strings, U32At(buffer, at));
      }
    }
  }

  lemma {:induction false} SymbolsRead(buffer: seq<u8>, x: Extents, n: nat)
    requires x.SymbolsAt() + n * SYMBOL_SIZE <= |buffer| && ReadSymbols(buffer, x, n).Ok?
    ensures var symbols := ReadSymbols(buffer, x, n).value;
      && (forall i :: 0 <= i < n ==> SymbolOk(symbols[i], x.sectionCount))
      && (forall i, j :: 0 <= i < j < n ==> symbols[i].name != symbols[j].name)
  {
    if n > 0 {
      hide ReadString, U32At, U64At, NulFree;
      SymbolsRead(buffer, x, n - 1);
      var at := x.SymbolsAt() + (n - 1) * SYMBOL_SIZE;
      if ReadString(x.strings, U32At(buffer, at)).Some? {
        ReadStringNulFree(x.strings, U32At(buffer, at));
      }
    }
  }

  lemma {:induction false} RelocationsRead(buffer: seq<u8>, x: Extents, sections: seq<SectionRecord>, n: nat)
    requires x.RelocationsAt() + n * RELOCATION_SIZE <= |buffer| && ReadRelocations(buffer, x, sections, n).Ok?
    ensures forall i :: 0 <= i < n ==> RelocationOk(ReadRelocations(buffer, x, sections, n).value[i], sections, x.symbolCount)
  {
    if n > 0 {
      hide U32At, U64At;
      RelocationsRead(buffer, x, sections, n - 1);
    }
  }

  lemma {:induction false} DebugRead(buffer: seq<u8>, x: Extents, n: nat)
    requires x.DebugAt() + n * DEBUG_SIZE <= |buffer| && ReadDebugs(buffer, x, n).Ok?
    ensures forall i :: 0 <= i < n ==> DebugOk(ReadDebugs(buffer, x, n).value[i], x.sectionCount, x.sourceCount)
  {
    if n > 0 {
      hide U32At, U64At;
      DebugRead(buffer, x, n - 1);
    }
  }

  lemma {:induction false} SourcesRead(buffer: seq<u8>, x: Extents, n: nat)
    requires x.SourcesAt() + n * SOURCE_SIZE <= |buffer| && ReadSources(buffer, x, n).Ok?
    ensures forall i :: 0 <= i < n ==> NulFree(ReadSources(buffer, x, n).value[i])
  {
    if n > 0 {
      hide U32At, ReadString, NulFree;
      SourcesRead(buffer, x, n - 1);
      ReadStringNulFree(x.strings, U32At(buffer, x.SourcesAt() + (n - 1) * SOURCE_SIZE));
    }
  }

  /** On any bytes at all: what the reader accepts is well-formed. */
  lemma AcceptedIsWellFormed(buffer: seq<u8>)
    requires ReadObject(buffer).Ok?
    ensures WellFormed(ReadObject(buffer).value)
  {
    hide ReadHeader, ReadSections, ReadSymbols, ReadRelocations, ReadDebugs, ReadSources, SectionOk, SymbolOk, RelocationOk, DebugOk, NulFree;
    var x := ReadHeader(buffer).value;
    SectionsRead(buffer, x, x.sectionCount);
    SymbolsRead(buffer, x, x.symbolCount);
    RelocationsRead(buffer, x, ReadSections(buffer, x, x.sectionCount).value, x.relocationCount);
    DebugRead(buffer, x, x.debugCount);
    SourcesRead(buffer, x, x.sourceCount);
  }

  // ----- the string table -----

  /** `name` stands at `offset`, followed by a NUL. */
  ghost predicate Named(bytes: seq<u8>, offset: nat, name: Name) {
    offset + |name| < |bytes| && bytes[offset..offset + |name|] == name && bytes[offset + |name|] == 0
  }

  ghost predicate ValidStrings(t: StringTable) {
    forall name :: name in t.offsets ==> Named(t.bytes, t.offsets[name], name)
  }

  lemma NamedGrows(bytes: seq<u8>, bytes': seq<u8>, offset: nat, name: Name)
    requires Named(bytes, offset, name) && bytes <= bytes'
    ensures Named(bytes', offset, name)
  {
    assert bytes'[offset..offset + |name|] == bytes[offset..offset + |name|];
  }

  lemma {:induction false} ReadNamed(bytes: seq<u8>, offset: nat, name: Name)
    requires Named(bytes, offset, name) && NulFree(name)
    ensures ReadString(bytes, offset) == Some(name)
    decreases |name|
  {
    if name != [] {
      assert bytes[offset] == bytes[offset..offset + |name|][0] == name[0];
      assert bytes[offset + 1..offset + 1 + |name[1..]|] == bytes[offset..offset + |name|][1..] == name[1..];
      ReadNamed(bytes, offset + 1, name[1..]);
      assert [name[0]] + name[1..] == name;
    }
  }

  lemma InternMeans(t: StringTable, name: Name)
    requires ValidStrings(t)
    ensures var r := Intern(t, name);
      ValidStrings(r.0) && t.bytes <= r.0.bytes && Named(r.0.bytes, r.1, name)
  {
    hide Named;
    var r := Intern(t, name);
    if name !in t.offsets {
      NewName(t.bytes, name);
      forall other | other in t.offsets
        ensures Named(r.0.bytes, t.offsets[other], other)
      {
        NamedGrows(t.bytes, r.0.bytes, t.offsets[other], other);
      }
    }
  }

  lemma NewName(bytes: seq<u8>, name: Name)
    ensures Named(bytes + name + [0], |bytes|, name)
  {
  }

  // ----- what the writer appends -----

  /** `w'` is `w` with more appended. */
  ghost predicate Grows(w: Output, w': Output) {
    w.tables <= w'.tables && w.strings.bytes <= w'.strings.bytes && w.blob <= w'.blob && ValidStrings(w'.strings)
  }

  lemma {:induction false} SectionsPut(w: Output, sections: seq<SectionRecord>, m: nat, n: nat)
    requires ValidStrings(w.strings) && m <= n <= |sections|
    ensures Grows(PutSections(w, sections, m), PutSections(w, sections, n))
    ensures |PutSections(w, sections, n).tables| == |w.tables| + n * SECTION_SIZE
    decreases n
  {
    hide SectionBytes, ValidStrings, Intern;
    if n > 0 {
      SectionsPut(w, sections, if m < n then m else n - 1, n - 1);
      InternMeans(PutSections(w, sections, n - 1).strings, sections[n - 1].name);
    }
  }

  lemma {:induction false} SymbolsPut(w: Output, symbols: seq<SymbolRecord>, m: nat, n: nat)
    requires ValidStrings(w.strings) && m <= n <= |symbols|
    ensures Grows(PutSymbols(w, symbols, m), PutSymbols(w, symbols, n))
    ensures |PutSymbols(w, symbols, n).tables| == |w.tables| + n * SYMBOL_SIZE
    decreases n
  {
    hide SymbolBytes, ValidStrings, Intern;
    if n > 0 {
      SymbolsPut(w, symbols, if m < n then m else n - 1, n - 1);
      InternMeans(PutSymbols(w, symbols, n - 1).strings, symbols[n - 1].name);
    }
  }

  lemma {:induction false} RelocationsPut(w: Output, relocations: seq<RelocationRecord>, m: nat, n: nat)
    requires ValidStrings(w.strings) && m <= n <= |relocations|
    ensures Grows(PutRelocations(w, relocations, m), PutRelocations(w, relocations, n))
    ensures |PutRelocations(w, relocations, n).tables| == |w.tables| + n * RELOCATION_SIZE
    decreases n
  {
    hide RelocationBytes, ValidStrings;
    if n > 0 {
      RelocationsPut(w, relocations, if m < n then m else n - 1, n - 1);
    }
  }

  lemma {:induction false} DebugPut(w: Output, debug: seq<DebugRecord>, m: nat, n: nat)
    requires ValidStrings(w.strings) && m <= n <= |debug|
    ensures Grows(PutDebug(w, debug, m), PutDebug(w, debug, n))
    ensures |PutDebug(w, debug, n).tables| == |w.tables| + n * DEBUG_SIZE
    decreases n
  {
    hide DebugBytes, ValidStrings;
    if n > 0 {
      DebugPut(w, debug, if m < n then m else n - 1, n - 1);
    }
  }

  lemma {:induction false} SourcesPut(w: Output, sources: seq<Name>, m: nat, n: nat)
    requires ValidStrings(w.strings) && m <= n <= |sources|
    ensures Grows(PutSources(w, sources, m), PutSources(w, sources, n))
    ensures |PutSources(w, sources, n).tables| == |w.tables| + n * SOURCE_SIZE
    decreases n
  {
    hide Bytes, ValidStrings, Intern;
    if n > 0 {
      SourcesPut(w, sources, if m < n then m else n - 1, n - 1);
      InternMeans(PutSources(w, sources, n - 1).strings, sources[n - 1]);
    }
  }

  /** The bytes of a record in a longer run of bytes. */
  ghost predicate StandsAt(bytes: seq<u8>, at: nat, b: seq<u8>) {
    at + |b| <= |bytes| && bytes[at..at + |b|] == b
  }

  lemma StandsGrows(bytes: seq<u8>, bytes': seq<u8>, at: nat, b: seq<u8>)
    requires StandsAt(bytes, at, b) && bytes <= bytes'
    ensures StandsAt(bytes', at, b)
  {
    assert bytes'[at..at + |b|] == bytes[at..at + |b|];
  }

  lemma StandsBehind(front: seq<u8>, bytes: seq<u8>, at: nat, b: seq<u8>)
    requires StandsAt(bytes, at, b)
    ensures StandsAt(front + bytes, |front| + at, b)
  {
    assert (front + bytes)[|front| + at..|front| + at + |b|] == bytes[at..at + |b|];
  }

  lemma SectionStands(w: Output, sections: seq<SectionRecord>, i: nat, end: Output) returns (name: nat, at: nat)
    requires ValidStrings(w.strings) && i < |sections| && Grows(PutSections(w, sections, |sections|), end)
    ensures StandsAt(end.tables, |w.tables| + i * SECTION_SIZE, SectionBytes(sections[i], name, at))
    ensures Named(end.strings.bytes, name, sections[i].name) && StandsAt(end.blob, at, sections[i].data)
  {
    hide SectionBytes, Intern, ValidStrings, Named;
    var before, after := PutSections(w, sections, i), PutSections(w, sections, i + 1);
    SectionsPut(w, sections, 0, i);
    SectionsPut(w, sections, i + 1, |sections|);
    InternMeans(before.strings, sections[i].name);
    name, at := Intern(before.strings, sections[i].name).1, |before.blob|;
    assert StandsAt(after.tables, |before.tables|, SectionBytes(sections[i], name, at));
    assert StandsAt(after.blob, at, sections[i].data);
    var last := PutSections(w, sections, |sections|);
    StandsGrows(after.tables, last.tables, |before.tables|, SectionBytes(sections[i], name, at));
    StandsGrows(last.tables, end.tables, |before.tables|, SectionBytes(sections[i], name, at));
    StandsGrows(after.blob, last.blob, at, sections[i].data);
    StandsGrows(last.blob, end.blob, at, sections[i].data);
    NamedGrows(after.strings.bytes, last.strings.bytes, name, sections[i].name);
    NamedGrows(last.strings.bytes, end.strings.bytes, name, sections[i].name);
  }

  lemma SymbolStands(w: Output, symbols: seq<SymbolRecord>, i: nat, end: Output) returns (name: nat)
    requires ValidStrings(w.strings) && i < |symbols| && Grows(PutSymbols(w, symbols, |symbols|), end)
    ensures StandsAt(end.tables, |w.tables| + i * SYMBOL_SIZE, SymbolBytes(symbols[i], name))
    ensures Named(end.strings.bytes, name, symbols[i].name)
  {
    hide SymbolBytes, Intern, ValidStrings, Named;
    var before, after := PutSymbols(w, symbols, i), PutSymbols(w, symbols, i + 1);
    SymbolsPut(w, symbols, 0, i);
    SymbolsPut(w, symbols, i + 1, |symbols|);
    InternMeans(before.strings, symbols[i].name);
    name := Intern(before.strings, symbols[i].name).1;
    assert StandsAt(after.tables, |before.tables|, SymbolBytes(symbols[i], name));
    var last := PutSymbols(w, symbols, |symbols|);
    StandsGrows(after.tables, last.tables, |before.tables|, SymbolBytes(symbols[i], name));
    StandsGrows(last.tables, end.tables, |before.tables|, SymbolBytes(symbols[i], name));
    NamedGrows(after.strings.bytes, last.strings.bytes, name, symbols[i].name);
    NamedGrows(last.strings.bytes, end.strings.bytes, name, symbols[i].name);
  }

  /** A record appended last stays where it is. */
  lemma AppendedStands(before: seq<u8>, after: seq<u8>, last: seq<u8>, end: seq<u8>, b: seq<u8>)
    requires after == before + b && after <= last && last <= end
    ensures StandsAt(end, |before|, b)
  {
    assert StandsAt(after, |before|, b);
    StandsGrows(after, last, |before|, b);
    StandsGrows(last, end, |before|, b);
  }

  lemma OneRelocation(w: Output, relocations: seq<RelocationRecord>, i: nat)
    requires i < |relocations|
    ensures PutRelocations(w, relocations, i + 1).tables == PutRelocations(w, relocations, i).tables + RelocationBytes(relocations[i])
  {
    hide RelocationBytes;
  }

  lemma OneDebug(w: Output, debug: seq<DebugRecord>, i: nat)
    requires i < |debug|
    ensures PutDebug(w, debug, i + 1).tables == PutDebug(w, debug, i).tables + DebugBytes(debug[i])
  {
    hide DebugBytes;
  }

  lemma RelocationStands(w: Output, relocations: seq<RelocationRecord>, i: nat, end: Output)
    requires ValidStrings(w.strings) && i < |relocations| && Grows(PutRelocations(w, relocations, |relocations|), end)
    ensures StandsAt(end.tables, |w.tables| + i * RELOCATION_SIZE, RelocationBytes(relocations[i]))
  {
    hide RelocationBytes, ValidStrings, StandsAt, PutRelocations;
    RelocationsPut(w, relocations, 0, i);
    RelocationsPut(w, relocations, i + 1, |relocations|);
    OneRelocation(w, relocations, i);
    AppendedStands(PutRelocations(w, relocations, i).tables, PutRelocations(w, relocations, i + 1).tables,
                   PutRelocations(w, relocations, |relocations|).tables, end.tables, RelocationBytes(relocations[i]));
  }

  lemma DebugStands(w: Output, debug: seq<DebugRecord>, i: nat, end: Output)
    requires ValidStrings(w.strings) && i < |debug| && Grows(PutDebug(w, debug, |debug|), end)
    ensures StandsAt(end.tables, |w.tables| + i * DEBUG_SIZE, DebugBytes(debug[i]))
  {
    hide DebugBytes, ValidStrings, StandsAt, PutDebug;
    DebugPut(w, debug, 0, i);
    DebugPut(w, debug, i + 1, |debug|);
    OneDebug(w, debug, i);
    AppendedStands(PutDebug(w, debug, i).tables, PutDebug(w, debug, i + 1).tables,
                   PutDebug(w, debug, |debug|).tables, end.tables, DebugBytes(debug[i]));
  }

  lemma SourceStands(w: Output, sources: seq<Name>, i: nat) returns (name: nat)
    requires ValidStrings(w.strings) && i < |sources|
    ensures var end := PutSources(w, sources, |sources|);
      StandsAt(end.tables, |w.tables| + i * SOURCE_SIZE, Bytes(name, 4)) && Named(end.strings.bytes, name, sources[i])
  {
    hide Bytes, Intern, ValidStrings, Named;
    var before, after, end := PutSources(w, sources, i), PutSources(w, sources, i + 1), PutSources(w, sources, |sources|);
    SourcesPut(w, sources, 0, i);
    SourcesPut(w, sources, i + 1, |sources|);
    InternMeans(before.strings, sources[i]);
    name := Intern(before.strings, sources[i]).1;
    assert StandsAt(after.tables, |before.tables|, Bytes(name, 4));
    StandsGrows(after.tables, end.tables, |before.tables|, Bytes(name, 4));
    NamedGrows(after.strings.bytes, end.strings.bytes, name, sources[i]);
  }

  // ----- reading records back -----

  /** The field of `width` bytes at `offset` of a record holds v. */
  ghost predicate FieldIs(b: seq<u8>, offset: nat, width: nat, v: nat) {
    offset + width <= |b| && b[offset..offset + width] == Bytes(v, width) && v < Pow2(8 * width)
  }

  lemma ReadField(buffer: seq<u8>, at: nat, b: seq<u8>, offset: nat, width: nat, v: nat)
    requires StandsAt(buffer, at, b) && FieldIs(b, offset, width, v)
    ensures at + offset + width <= |buffer| && NumberAt(buffer, at + offset, width) == v
  {
    hide Bytes, FromBytes;
    SliceOfSlice(buffer, at, at + |b|, offset, offset + width);
    LoadAfterStore(v, width);
  }

  lemma SliceOfSlice(s: seq<u8>, a: nat, b: nat, c: nat, d: nat)
    requires a <= b <= |s| && c <= d <= b - a
    ensures s[a..b][c..d] == s[a + c..a + d]
  {
    var l, r := s[a..b][c..d], s[a + c..a + d];
    assert |l| == |r| && forall i :: 0 <= i < |l| ==> l[i] == r[i];
  }

  lemma ReadByte(buffer: seq<u8>, at: nat, b: seq<u8>, offset: nat)
    requires StandsAt(buffer, at, b) && offset < |b|
    ensures buffer[at + offset] == b[offset]
  {
    assert buffer[at..at + |b|][offset] == buffer[at + offset];
  }

  lemma SmallPowers()
    ensures Pow2(16) == 0x1_0000 && Pow2(32) == 0x1_0000_0000 && Pow2(64) == TWO64
  {
    Pow2Values();
  }

  lemma SectionFields(s: SectionRecord, name: nat, at: nat)
    requires name <= MAX_U32 && at <= MAX_U32 && |s.data| <= MAX_U32
    ensures var b := SectionBytes(s, name, at);
      && FieldIs(b, 0, 4, name) && b[4] == s.kind && b[5] == s.flags && FieldIs(b, 8, 8, s.alignment)
      && FieldIs(b, 16, 8, at) && FieldIs(b, 24, 8, |s.data|) && FieldIs(b, 32, 8, s.size) && FieldIs(b, 40, 4, s.index)
  {
    hide Bytes, Pow2;
    SmallPowers();
  }

  lemma SymbolFields(s: SymbolRecord, name: nat)
    requires name <= MAX_U32
    ensures var b := SymbolBytes(s, name);
      && FieldIs(b, 0, 4, name) && b[4] == s.binding && b[5] == s.kind && b[6] == (if s.defined then 1 else 0)
      && FieldIs(b, 8, 4, s.section) && FieldIs(b, 16, 8, s.value) && FieldIs(b, 24, 8, s.size)
  {
    hide Bytes, Pow2;
    SmallPowers();
  }

  lemma RelocationFields(r: RelocationRecord)
    ensures var b := RelocationBytes(r);
      && FieldIs(b, 0, 4, r.section) && FieldIs(b, 4, 4, r.symbol) && FieldIs(b, 8, 8, r.offset)
      && FieldIs(b, 16, 8, ToU64(r.addend)) && b[24] == r.kind
  {
    hide Bytes, Pow2;
    SmallPowers();
  }

  lemma DebugFields(d: DebugRecord)
    ensures var b := DebugBytes(d);
      && FieldIs(b, 0, 4, d.section) && FieldIs(b, 4, 4, d.file) && FieldIs(b, 8, 8, d.offset)
      && FieldIs(b, 16, 4, d.line) && FieldIs(b, 20, 4, d.column)
  {
    hide Bytes, Pow2;
    SmallPowers();
    var front := Bytes(d.section, 4) + Bytes(d.file, 4) + Bytes(d.offset, 8) + Bytes(d.line, 4);
    assert (front + Bytes(d.column, 4))[20..24] == Bytes(d.column, 4);
  }

  lemma HeaderFields(o: StoredObject, stringAt: nat, stringSize: nat, blobAt: nat, fileSize: nat, checksum: nat)
    requires |o.sections| <= MAX_U32 && |o.symbols| <= MAX_U32 && |o.relocations| <= MAX_U32 && |o.debug| <= MAX_U32
    requires |o.sources| <= MAX_U32 && stringAt <= MAX_U32 && stringSize <= MAX_U32 && blobAt <= MAX_U32
    requires fileSize <= MAX_U32 && checksum <= MAX_U32
    ensures var b := HeaderBytes(o, stringAt, stringSize, blobAt, fileSize, checksum);
      && b[..4] == MAGIC && FieldIs(b, 4, 2, VERSION) && FieldIs(b, 6, 2, HEADER_SIZE) && FieldIs(b, 8, 4, 0)
      && FieldIs(b, 12, 4, |o.sections|) && FieldIs(b, 16, 4, |o.symbols|) && FieldIs(b, 20, 4, |o.relocations|)
      && FieldIs(b, 24, 4, |o.debug|) && FieldIs(b, 28, 4, |o.sources|) && FieldIs(b, 32, 8, stringAt)
      && FieldIs(b, 40, 8, stringSize) && FieldIs(b, 48, 8, blobAt) && FieldIs(b, 56, 4, fileSize) && FieldIs(b, 60, 4, checksum)
  {
    hide Bytes, Pow2;
    SmallPowers();
  }

  // ----- the round trip -----

  /** A buffer that holds what was written for `o`. */
  ghost predicate Holds(buffer: seq<u8>, o: StoredObject) {
    var w := PutAll(o);
    var stringAt := HEADER_SIZE + |w.tables|;
    var blobAt := stringAt + |w.strings.bytes|;
    && |buffer| == blobAt + |w.blob| <= MAX_U32
    && buffer == HeaderBytes(o, stringAt, |w.strings.bytes|, blobAt, |buffer|, Crc.Checksum(Body(w))) + Body(w)
  }

  lemma TablesGrow(o: StoredObject)
    ensures var a := PutSections(EMPTY_OUTPUT, o.sections, |o.sections|);
            var b := PutSymbols(a, o.symbols, |o.symbols|);
            var c := PutRelocations(b, o.relocations, |o.relocations|);
            var d := PutDebug(c, o.debug, |o.debug|);
            var w := PutAll(o);
      && ValidStrings(EMPTY_OUTPUT.strings) && Grows(a, w) && Grows(b, w) && Grows(c, w) && Grows(d, w)
      && |a.tables| == |o.sections| * SECTION_SIZE
      && |b.tables| == |a.tables| + |o.symbols| * SYMBOL_SIZE
      && |c.tables| == |b.tables| + |o.relocations| * RELOCATION_SIZE
      && |d.tables| == |c.tables| + |o.debug| * DEBUG_SIZE
      && |w.tables| == |d.tables| + |o.sources| * SOURCE_SIZE
  {
    hide ValidStrings, PutSections, PutSymbols, PutRelocations, PutDebug, PutSources;
    var a := PutSections(EMPTY_OUTPUT, o.sections, |o.sections|);
    var b := PutSymbols(a, o.symbols, |o.symbols|);
    var c := PutRelocations(b, o.relocations, |o.relocations|);
    var d := PutDebug(c, o.debug, |o.debug|);
    NoStrings();
    NothingPut(EMPTY_OUTPUT, o);
    SectionsPut(EMPTY_OUTPUT, o.sections, 0, |o.sections|);
    NothingPut(a, o);
    SymbolsPut(a, o.symbols, 0, |o.symbols|);
    NothingPut(b, o);
    RelocationsPut(b, o.relocations, 0, |o.relocations|);
    NothingPut(c, o);
    DebugPut(c, o.debug, 0, |o.debug|);
    NothingPut(d, o);
    SourcesPut(d, o.sources, 0, |o.sources|);
  }

  lemma NothingPut(w: Output, o: StoredObject)
    ensures PutSections(w, o.sections, 0) == w && PutSymbols(w, o.symbols, 0) == w && PutRelocations(w, o.relocations, 0) == w
    ensures PutDebug(w, o.debug, 0) == w && PutSources(w, o.sources, 0) == w
  {
  }

  lemma NoStrings()
    ensures ValidStrings(EMPTY_OUTPUT.strings)
  {
  }

  /** The tables stand behind the header. */
  lemma TableRecord(buffer: seq<u8>, o: StoredObject, at: nat, b: seq<u8>)
    requires Holds(buffer, o) && StandsAt(PutAll(o).tables, at, b)
    ensures StandsAt(buffer, HEADER_SIZE + at, b)
  {
    hide PutAll, HeaderBytes;
    var w := PutAll(o);
    var header := buffer[..HEADER_SIZE];
    StandsGrows(w.tables, Body(w), at, b);
    StandsBehind(header, Body(w), at, b);
    assert buffer == header + Body(w);
  }

  /** The extents the reader finds. */
  ghost predicate Found(buffer: seq<u8>, o: StoredObject, x: Extents) {
    && x.sectionCount == |o.sections| && x.symbolCount == |o.symbols| && x.relocationCount == |o.relocations|
    && x.debugCount == |o.debug| && x.sourceCount == |o.sources| && x.End() <= |buffer|
    && x.strings == PutAll(o).strings.bytes && x.blob == PutAll(o).blob
  }

  lemma HeaderRead(buffer: seq<u8>, o: StoredObject)
    requires Holds(buffer, o)
    ensures ReadHeader(buffer).Ok? && Found(buffer, o, ReadHeader(buffer).value)
  {
    hide PutAll, HeaderBytes, NumberAt, Crc.Checksum, FieldIs;
    var w := PutAll(o);
    var stringAt := HEADER_SIZE + |w.tables|;
    var blobAt := stringAt + |w.strings.bytes|;
    TableSizes(o);
    HeaderParts(buffer, HeaderBytes(o, stringAt, |w.strings.bytes|, blobAt, |buffer|, Crc.Checksum(Body(w))), w);
    HeaderFields(o, stringAt, |w.strings.bytes|, blobAt, |buffer|, Crc.Checksum(Body(w)));
    HeaderNumbers(buffer, HeaderBytes(o, stringAt, |w.strings.bytes|, blobAt, |buffer|, Crc.Checksum(Body(w))),
                  o, stringAt, |w.strings.bytes|, blobAt, Crc.Checksum(Body(w)));
  }

  lemma TableSizes(o: StoredObject)
    ensures |PutAll(o).tables| == |o.sections| * SECTION_SIZE + |o.symbols| * SYMBOL_SIZE + |o.relocations| * RELOCATION_SIZE
         + |o.debug| * DEBUG_SIZE + |o.sources| * SOURCE_SIZE
  {
    hide PutAll, Grows, ValidStrings;
    TablesGrow(o);
  }

  lemma HeaderParts(buffer: seq<u8>, header: seq<u8>, w: Output)
    requires |header| == HEADER_SIZE && buffer == header + Body(w)
    ensures StandsAt(buffer, 0, header) && buffer[..4] == header[..4] && buffer[HEADER_SIZE..] == Body(w)
    ensures var stringAt := HEADER_SIZE + |w.tables|; var blobAt := stringAt + |w.strings.bytes|;
      && |buffer| == blobAt + |w.blob| && buffer[stringAt..blobAt] == w.strings.bytes && buffer[blobAt..] == w.blob
  {
    assert buffer[0..|header|] == header;
  }

  lemma HeaderNumbers(buffer: seq<u8>, b: seq<u8>, o: StoredObject, stringAt: nat, stringSize: nat, blobAt: nat, checksum: nat)
    requires StandsAt(buffer, 0, b) && |b| == HEADER_SIZE
    requires FieldIs(b, 4, 2, VERSION) && FieldIs(b, 6, 2, HEADER_SIZE) && FieldIs(b, 8, 4, 0)
    requires FieldIs(b, 12, 4, |o.sections|) && FieldIs(b, 16, 4, |o.symbols|) && FieldIs(b, 20, 4, |o.relocations|)
    requires FieldIs(b, 24, 4, |o.debug|) && FieldIs(b, 28, 4, |o.sources|) && FieldIs(b, 32, 8, stringAt)
    requires FieldIs(b, 40, 8, stringSize) && FieldIs(b, 48, 8, blobAt) && FieldIs(b, 56, 4, |buffer|) && FieldIs(b, 60, 4, checksum)
    ensures HEADER_SIZE <= |buffer| && NumberAt(buffer, 4, 2) == VERSION && NumberAt(buffer, 6, 2) == HEADER_SIZE
    ensures NumberAt(buffer, 8, 4) == 0 && NumberAt(buffer, 12, 4) == |o.sections| && NumberAt(buffer, 16, 4) == |o.symbols|
    ensures NumberAt(buffer, 20, 4) == |o.relocations| && NumberAt(buffer, 24, 4) == |o.debug| && NumberAt(buffer, 28, 4) == |o.sources|
    ensures NumberAt(buffer, 32, 8) == stringAt && NumberAt(buffer, 40, 8) == stringSize && NumberAt(buffer, 48, 8) == blobAt
    ensures NumberAt(buffer, 56, 4) == |buffer| && NumberAt(buffer, 60, 4) == checksum
  {
    hide FieldIs, NumberAt, Bytes, Pow2;
    ReadField(buffer, 0, b, 4, 2, VERSION);
    ReadField(buffer, 0, b, 6, 2, HEADER_SIZE);
    ReadField(buffer, 0, b, 8, 4, 0);
    ReadField(buffer, 0, b, 12, 4, |o.sections|);
    ReadField(buffer, 0, b, 16, 4, |o.symbols|);
    ReadField(buffer, 0, b, 20, 4, |o.relocations|);
    ReadField(buffer, 0, b, 24, 4, |o.debug|);
    ReadField(buffer, 0, b, 28, 4, |o.sources|);
    ReadField(buffer, 0, b, 32, 8, stringAt);
    ReadField(buffer, 0, b, 40, 8, stringSize);
    ReadField(buffer, 0, b, 48, 8, blobAt);
    ReadField(buffer, 0, b, 56, 4, |buffer|);
    ReadField(buffer, 0, b, 60, 4, checksum);
  }

  lemma SectionReadBack(buffer: seq<u8>, x: Extents, at: nat, s: SectionRecord, name: nat, dataAt: nat)
    requires StandsAt(buffer, at, SectionBytes(s, name, dataAt)) && SectionOk(s)
    requires Named(x.strings, name, s.name) && StandsAt(x.blob, dataAt, s.data) && |x.strings| <= MAX_U32 && |x.blob| <= MAX_U32
    ensures ReadSection(buffer, x, at) == Ok(s)
  {
    hide SectionBytes, NumberAt, PowerOfTwo, ReadString, NulFree;
    var b := SectionBytes(s, name, dataAt);
    SectionFields(s, name, dataAt);
    ReadField(buffer, at, b, 0, 4, name);
    ReadByte(buffer, at, b, 4);
    ReadByte(buffer, at, b, 5);
    ReadField(buffer, at, b, 8, 8, s.alignment);
    ReadField(buffer, at, b, 16, 8, dataAt);
    ReadField(buffer, at, b, 24, 8, |s.data|);
    ReadField(buffer, at, b, 32, 8, s.size);
    ReadField(buffer, at, b, 40, 4, s.index);
    ReadNamed(x.strings, name, s.name);
  }

  lemma SymbolReadBack(buffer: seq<u8>, x: Extents, at: nat, s: SymbolRecord, name: nat)
    requires StandsAt(buffer, at, SymbolBytes(s, name)) && SymbolOk(s, x.sectionCount)
    requires Named(x.strings, name, s.name) && |x.strings| <= MAX_U32
    ensures ReadSymbol(buffer, x, at) == Ok(s)
  {
    hide SymbolBytes, NumberAt, ReadString, NulFree;
    var b := SymbolBytes(s, name);
    SymbolFields(s, name);
    ReadField(buffer, at, b, 0, 4, name);
    ReadByte(buffer, at, b, 4);
    ReadByte(buffer, at, b, 5);
    ReadByte(buffer, at, b, 6);
    ReadField(buffer, at, b, 8, 4, s.section);
    ReadField(buffer, at, b, 16, 8, s.value);
    ReadField(buffer, at, b, 24, 8, s.size);
    ReadNamed(x.strings, name, s.name);
  }

  lemma RelocationReadBack(buffer: seq<u8>, x: Extents, sections: seq<SectionRecord>, at: nat, r: RelocationRecord)
    requires StandsAt(buffer, at, RelocationBytes(r)) && RelocationOk(r, sections, x.symbolCount)
    ensures ReadRelocation(buffer, x, sections, at) == Ok(r)
  {
    hide RelocationBytes, NumberAt;
    var b := RelocationBytes(r);
    RelocationFields(r);
    ReadField(buffer, at, b, 0, 4, r.section);
    ReadField(buffer, at, b, 4, 4, r.symbol);
    ReadField(buffer, at, b, 8, 8, r.offset);
    ReadField(buffer, at, b, 16, 8, ToU64(r.addend));
    ReadByte(buffer, at, b, 24);
  }

  lemma DebugReadBack(buffer: seq<u8>, x: Extents, at: nat, d: DebugRecord)
    requires StandsAt(buffer, at, DebugBytes(d)) && DebugOk(d, x.sectionCount, x.sourceCount)
    ensures ReadDebug(buffer, x, at) == Ok(d)
  {
    hide DebugBytes, NumberAt;
    var b := DebugBytes(d);
    DebugFields(d);
    ReadField(buffer, at, b, 0, 4, d.section);
    ReadField(buffer, at, b, 4, 4, d.file);
    ReadField(buffer, at, b, 8, 8, d.offset);
    ReadField(buffer, at, b, 16, 4, d.line);
    ReadField(buffer, at, b, 20, 4, d.column);
  }

  lemma HoldsBounds(buffer: seq<u8>, o: StoredObject, x: Extents)
    requires Holds(buffer, o) && Found(buffer, o, x)
    ensures |x.strings| <= MAX_U32 && |x.blob| <= MAX_U32
  {
    hide PutAll, HeaderBytes;
  }

  lemma SectionIsOk(o: StoredObject, i: nat)
    requires WellFormed(o) && i < |o.sections|
    ensures SectionOk(o.sections[i])
  {
  }

  lemma SectionBack(buffer: seq<u8>, o: StoredObject, x: Extents, i: nat)
    requires Holds(buffer, o) && WellFormed(o) && Found(buffer, o, x) && i < |o.sections|
    ensures HEADER_SIZE + (i + 1) * SECTION_SIZE <= |buffer|
    ensures ReadSection(buffer, x, HEADER_SIZE + i * SECTION_SIZE) == Ok(o.sections[i])
  {
    hide PutAll, HeaderBytes, SectionBytes, Named, StandsAt, SectionOk, ReadSection, PutSections, Grows, Holds, WellFormed;
    TablesGrow(o);
    HoldsBounds(buffer, o, x);
    SectionIsOk(o, i);
    var name, at := SectionStands(EMPTY_OUTPUT, o.sections, i, PutAll(o));
    TableRecord(buffer, o, i * SECTION_SIZE, SectionBytes(o.sections[i], name, at));
    SectionReadBack(buffer, x, HEADER_SIZE + i * SECTION_SIZE, o.sections[i], name, at);
  }

  lemma {:induction false} SectionsBack(buffer: seq<u8>, o: StoredObject, x: Extents, n: nat)
    requires Holds(buffer, o) && WellFormed(o) && Found(buffer, o, x) && n <= |o.sections|
    ensures HEADER_SIZE + n * SECTION_SIZE <= |buffer| && ReadSections(buffer, x, n) == Ok(o.sections[..n])
  {
    hide Holds, WellFormed, ReadSection;
    HeaderFits(buffer, o, x);
    if n > 0 {
      SectionsBack(buffer, o, x, n - 1);
      SectionBack(buffer, o, x, n - 1);
      assert o.sections[..n] == o.sections[..n - 1] + [o.sections[n - 1]];
    }
  }

  lemma HeaderFits(buffer: seq<u8>, o: StoredObject, x: Extents)
    requires Found(buffer, o, x)
    ensures HEADER_SIZE <= |buffer| && x.SymbolsAt() <= |buffer| && x.RelocationsAt() <= |buffer|
    ensures x.DebugAt() <= |buffer| && x.SourcesAt() <= |buffer|
  {
  }

  lemma SymbolBack(buffer: seq<u8>, o: StoredObject, x: Extents, i: nat)
    requires Holds(buffer, o) && WellFormed(o) && Found(buffer, o, x) && i < |o.symbols|
    ensures x.SymbolsAt() + (i + 1) * SYMBOL_SIZE <= |buffer|
    ensures ReadSymbol(buffer, x, x.SymbolsAt() + i * SYMBOL_SIZE) == Ok(o.symbols[i])
  {
    hide PutAll, HeaderBytes, SymbolBytes, Named, StandsAt, SymbolOk, ReadSymbol, PutSections, PutSymbols, Grows;
    TablesGrow(o);
    var a := PutSections(EMPTY_OUTPUT, o.sections, |o.sections|);
    SectionsValid(o);
    var name := SymbolStands(a, o.symbols, i, PutAll(o));
    TableRecord(buffer, o, |a.tables| + i * SYMBOL_SIZE, SymbolBytes(o.symbols[i], name));
    SymbolReadBack(buffer, x, x.SymbolsAt() + i * SYMBOL_SIZE, o.symbols[i], name);
  }

  lemma SectionsValid(o: StoredObject)
    ensures ValidStrings(PutSections(EMPTY_OUTPUT, o.sections, |o.sections|).strings)
    ensures var b := PutSymbols(PutSections(EMPTY_OUTPUT, o.sections, |o.sections|), o.symbols, |o.symbols|);
      && ValidStrings(b.strings) && ValidStrings(PutRelocations(b, o.relocations, |o.relocations|).strings)
      && ValidStrings(PutDebug(PutRelocations(b, o.relocations, |o.relocations|), o.debug, |o.debug|).strings)
  {
    hide ValidStrings;
    var a := PutSections(EMPTY_OUTPUT, o.sections, |o.sections|);
    var b := PutSymbols(a, o.symbols, |o.symbols|);
    var c := PutRelocations(b, o.relocations, |o.relocations|);
    NoStrings();
    SectionsPut(EMPTY_OUTPUT, o.sections, 0, |o.sections|);
    SymbolsPut(a, o.symbols, 0, |o.symbols|);
    RelocationsPut(b, o.relocations, 0, |o.relocations|);
    DebugPut(c, o.debug, 0, |o.debug|);
  }

  lemma {:induction false} SymbolsBack(buffer: seq<u8>, o: StoredObject, x: Extents, n: nat)
    requires Holds(buffer, o) && WellFormed(o) && Found(buffer, o, x) && n <= |o.symbols|
    ensures x.SymbolsAt() + n * SYMBOL_SIZE <= |buffer| && ReadSymbols(buffer, x, n) == Ok(o.symbols[..n])
  {
    hide Holds, WellFormed, ReadSymbol, HasName;
    HeaderFits(buffer, o, x);
    if n > 0 {
      SymbolsBack(buffer, o, x, n - 1);
      SymbolBack(buffer, o, x, n - 1);
      NewSymbolName(o, n - 1);
      assert o.symbols[..n] == o.symbols[..n - 1] + [o.symbols[n - 1]];
    }
  }

  lemma NewSymbolName(o: StoredObject, i: nat)
    requires WellFormed(o) && i < |o.symbols|
    ensures !HasName(o.symbols[..i], o.symbols[i].name)
  {
    hide SectionOk, SymbolOk, RelocationOk, DebugOk;
  }

  lemma RelocationBack(buffer: seq<u8>, o: StoredObject, x: Extents, i: nat)
    requires Holds(buffer, o) && WellFormed(o) && Found(buffer, o, x) && i < |o.relocations|
    ensures x.RelocationsAt() + (i + 1) * RELOCATION_SIZE <= |buffer|
    ensures ReadRelocation(buffer, x, o.sections, x.RelocationsAt() + i * RELOCATION_SIZE) == Ok(o.relocations[i])
  {
    hide PutAll, HeaderBytes, RelocationBytes, StandsAt, RelocationOk, ReadRelocation, PutSections, PutSymbols, PutRelocations, Grows;
    TablesGrow(o);
    var b := PutSymbols(PutSections(EMPTY_OUTPUT, o.sections, |o.sections|), o.symbols, |o.symbols|);
    SectionsValid(o);
    RelocationStands(b, o.relocations, i, PutAll(o));
    TableRecord(buffer, o, |b.tables| + i * RELOCATION_SIZE, RelocationBytes(o.relocations[i]));
    RelocationReadBack(buffer, x, o.sections, x.RelocationsAt() + i * RELOCATION_SIZE, o.relocations[i]);
  }

  lemma {:induction false} RelocationsBack(buffer: seq<u8>, o: StoredObject, x: Extents, n: nat)
    requires Holds(buffer, o) && WellFormed(o) && Found(buffer, o, x) && n <= |o.relocations|
    ensures x.RelocationsAt() + n * RELOCATION_SIZE <= |buffer|
    ensures ReadRelocations(buffer, x, o.sections, n) == Ok(o.relocations[..n])
  {
    hide Holds, WellFormed, ReadRelocation;
    HeaderFits(buffer, o, x);
    if n > 0 {
      RelocationsBack(buffer, o, x, n - 1);
      RelocationBack(buffer, o, x, n - 1);
      assert o.relocations[..n] == o.relocations[..n - 1] + [o.relocations[n - 1]];
    }
  }

  lemma DebugEntryBack(buffer: seq<u8>, o: StoredObject, x: Extents, i: nat)
    requires Holds(buffer, o) && WellFormed(o) && Found(buffer, o, x) && i < |o.debug|
    ensures x.DebugAt() + (i + 1) * DEBUG_SIZE <= |buffer|
    ensures ReadDebug(buffer, x, x.DebugAt() + i * DEBUG_SIZE) == Ok(o.debug[i])
  {
    hide PutAll, HeaderBytes, DebugBytes, StandsAt, DebugOk, ReadDebug, PutSections, PutSymbols, PutRelocations, PutDebug, Grows;
    TablesGrow(o);
    var b := PutSymbols(PutSections(EMPTY_OUTPUT, o.sections, |o.sections|), o.symbols, |o.symbols|);
    var c := PutRelocations(b, o.relocations, |o.relocations|);
    SectionsValid(o);
    DebugStands(c, o.debug, i, PutAll(o));
    TableRecord(buffer, o, |c.tables| + i * DEBUG_SIZE, DebugBytes(o.debug[i]));
    DebugReadBack(buffer, x, x.DebugAt() + i * DEBUG_SIZE, o.debug[i]);
  }

  lemma {:induction false} DebugBack(buffer: seq<u8>, o: StoredObject, x: Extents, n: nat)
    requires Holds(buffer, o) && WellFormed(o) && Found(buffer, o, x) && n <= |o.debug|
    ensures x.DebugAt() + n * DEBUG_SIZE <= |buffer| && ReadDebugs(buffer, x, n) == Ok(o.debug[..n])
  {
    hide Holds, WellFormed, ReadDebug;
    HeaderFits(buffer, o, x);
    if n > 0 {
      DebugBack(buffer, o, x, n - 1);
      DebugEntryBack(buffer, o, x, n - 1);
      assert o.debug[..n] == o.debug[..n - 1] + [o.debug[n - 1]];
    }
  }

  lemma SourceBack(buffer: seq<u8>, o: StoredObject, x: Extents, i: nat)
    requires Holds(buffer, o) && WellFormed(o) && Found(buffer, o, x) && i < |o.sources|
    ensures x.SourcesAt() + (i + 1) * SOURCE_SIZE <= |buffer|
    ensures ReadString(x.strings, U32At(buffer, x.SourcesAt() + i * SOURCE_SIZE)) == Some(o.sources[i])
  {
    hide HeaderBytes, NumberAt, ReadString, PutSections, PutSymbols, PutRelocations, PutDebug, PutSources, Grows, Bytes, Named, NulFree, StandsAt;
    TablesGrow(o);
    var b := PutSymbols(PutSections(EMPTY_OUTPUT, o.sections, |o.sections|), o.symbols, |o.symbols|);
    var d := PutDebug(PutRelocations(b, o.relocations, |o.relocations|), o.debug, |o.debug|);
    SectionsValid(o);
    var name := SourceStands(d, o.sources, i);
    TableRecord(buffer, o, |d.tables| + i * SOURCE_SIZE, Bytes(name, 4));
    NameInside(x.strings, name, o.sources[i]);
    NumberReads(buffer, x.SourcesAt() + i * SOURCE_SIZE, name);
    ReadNamed(x.strings, name, o.sources[i]);
  }

  lemma NameInside(strings: seq<u8>, offset: nat, name: Name)
    requires Named(strings, offset, name)
    ensures offset < |strings|
  {
  }

  lemma NumberReads(buffer: seq<u8>, at: nat, v: nat)
    requires StandsAt(buffer, at, Bytes(v, 4)) && v <= MAX_U32
    ensures at + 4 <= |buffer| && NumberAt(buffer, at, 4) == v
  {
    hide Bytes, NumberAt;
    SmallPowers();
    assert Bytes(v, 4)[0..4] == Bytes(v, 4);
    ReadField(buffer, at, Bytes(v, 4), 0, 4, v);
  }

  lemma {:induction false} SourcesBack(buffer: seq<u8>, o: StoredObject, x: Extents, n: nat)
    requires Holds(buffer, o) && WellFormed(o) && Found(buffer, o, x) && n <= |o.sources|
    ensures x.SourcesAt() + n * SOURCE_SIZE <= |buffer| && ReadSources(buffer, x, n) == Ok(o.sources[..n])
  {
    hide Holds, WellFormed, ReadString, U32At;
    HeaderFits(buffer, o, x);
    if n > 0 {
      SourcesBack(buffer, o, x, n - 1);
      SourceBack(buffer, o, x, n - 1);
      assert o.sources[..n] == o.sources[..n - 1] + [o.sources[n - 1]];
    }
  }

  lemma WrittenHolds(o: StoredObject)
    requires WriteObject(o).Ok?
    ensures Holds(WriteObject(o).value, o)
  {
    hide PutAll, HeaderBytes, Crc.Checksum;
  }

  /** Reading what was written gives the object back exactly when the object is well-formed. */
  lemma RoundTripIff(o: StoredObject)
    requires WriteObject(o).Ok?
    ensures ReadObject(WriteObject(o).value) == Ok(o) <==> WellFormed(o)
  {
    hide WriteObject, WellFormed, Holds, ReadHeader, Found;
    var buffer := WriteObject(o).value;
    if ReadObject(buffer) == Ok(o) {
      AcceptedIsWellFormed(buffer);
    }
    if WellFormed(o) {
      WrittenHolds(o);
      HeaderRead(buffer, o);
      RoundTrip(buffer, o, ReadHeader(buffer).value);
    }
  }

  lemma RoundTrip(buffer: seq<u8>, o: StoredObject, x: Extents)
    requires Holds(buffer, o) && WellFormed(o) && Found(buffer, o, x) && ReadHeader(buffer) == Ok(x)
    ensures ReadObject(buffer) == Ok(o)
  {
    hide WellFormed, Holds, ReadHeader, ReadSections, ReadSymbols, ReadRelocations, ReadDebugs, ReadSources, PutAll;
    SectionsBack(buffer, o, x, |o.sections|);
    SymbolsBack(buffer, o, x, |o.symbols|);
    RelocationsBack(buffer, o, x, |o.relocations|);
    DebugBack(buffer, o, x, |o.debug|);
    SourcesBack(buffer, o, x, |o.sources|);
    assert o.sections[..|o.sections|] == o.sections && o.symbols[..|o.symbols|] == o.symbols;
    assert o.relocations[..|o.relocations|] == o.relocations && o.debug[..|o.debug|] == o.debug;
    assert o.sources[..|o.sources|] == o.sources;
  }
}
