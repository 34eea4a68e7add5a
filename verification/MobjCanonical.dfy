/** Writing what was read: which of the accepted buffers are the ones the writer would have produced. */
module MobjCanonical {
  import opened Words
  import opened ByteOrder
  import opened Memory
  import opened Mobj
  import opened MobjProof
  import Crc

  // ----- canonical buffers -----

  /** Where the writer puts the name and the data of section i. */
  function SectionNameAt(o: StoredObject, i: nat): nat
    requires i < |o.sections|
  {
    Intern(PutSections(EMPTY_OUTPUT, o.sections, i).strings, o.sections[i].name).1
  }

  function SectionDataAt(o: StoredObject, i: nat): nat
    requires i < |o.sections|
  {
    |PutSections(EMPTY_OUTPUT, o.sections, i).blob|
  }

  function AfterSections(o: StoredObject): Output { PutSections(EMPTY_OUTPUT, o.sections, |o.sections|) }

  function AfterSymbols(o: StoredObject): Output { PutSymbols(AfterSections(o), o.symbols, |o.symbols|) }

  function AfterRelocations(o: StoredObject): Output { PutRelocations(AfterSymbols(o), o.relocations, |o.relocations|) }

  function AfterDebug(o: StoredObject): Output { PutDebug(AfterRelocations(o), o.debug, |o.debug|) }

  function SymbolNameAt(o: StoredObject, i: nat): nat
    requires i < |o.symbols|
  {
    Intern(PutSymbols(AfterSections(o), o.symbols, i).strings, o.symbols[i].name).1
  }

  function SourceNameAt(o: StoredObject, i: nat): nat
    requires i < |o.sources|
  {
    Intern(PutSources(AfterDebug(o), o.sources, i).strings, o.sources[i]).1
  }

  /** The padding is zero, and the name and the data are where the writer would have put them. */
  predicate CanonicalSection(b: seq<u8>, at: nat, name: nat, dataAt: nat)
    requires at + SECTION_SIZE <= |b|
  {
    && b[at..at + 4] == Bytes(name, 4) && b[at + 16..at + 24] == Bytes(dataAt, 8)
    && b[at + 6..at + 8] == Zeros(2) && b[at + 44..at + 48] == Zeros(4)
  }

  predicate CanonicalSymbol(b: seq<u8>, at: nat, name: nat)
    requires at + SYMBOL_SIZE <= |b|
  {
    && b[at..at + 4] == Bytes(name, 4) && b[at + 6] <= 1
    && b[at + 7..at + 8] == Zeros(1) && b[at + 12..at + 16] == Zeros(4)
  }

  predicate CanonicalRelocation(b: seq<u8>, at: nat)
    requires at + RELOCATION_SIZE <= |b|
  {
    b[at + 25..at + 32] == Zeros(7)
  }

  /** The parts of an accepted buffer that reading does not determine are as the writer leaves them: the
      string table holds the names in order of first use, the data lie end to end, the padding is zero and
      the `defined` bytes are 0 or 1. */
  predicate Canonical(b: seq<u8>, x: Extents, o: StoredObject)
    requires x.End() <= |b|
    requires x.sectionCount == |o.sections| && x.symbolCount == |o.symbols| && x.relocationCount == |o.relocations|
    requires x.sourceCount == |o.sources|
  {
    && x.strings == PutAll(o).strings.bytes && x.blob == PutAll(o).blob
    && (forall i :: 0 <= i < |o.sections| ==>
         CanonicalSection(b, HEADER_SIZE + i * SECTION_SIZE, SectionNameAt(o, i), SectionDataAt(o, i)))
    && (forall i :: 0 <= i < |o.symbols| ==> CanonicalSymbol(b, x.SymbolsAt() + i * SYMBOL_SIZE, SymbolNameAt(o, i)))
    && (forall i :: 0 <= i < |o.relocations| ==> CanonicalRelocation(b, x.RelocationsAt() + i * RELOCATION_SIZE))
    && (forall i :: 0 <= i < |o.sources| ==>
         b[x.SourcesAt() + i * SOURCE_SIZE..x.SourcesAt() + i * SOURCE_SIZE + 4] == Bytes(SourceNameAt(o, i), 4))
  }

  // ----- one record -----

  /** The bytes of a number that was read. */
  lemma NumberBytes(b: seq<u8>, at: nat, width: nat)
    requires at + width <= |b|
    ensures Bytes(NumberAt(b, at, width), width) == b[at..at + width]
  {
    StoreAfterLoad(b[at..at + width]);
  }

  lemma SectionRecordIff(b: seq<u8>, x: Extents, at: nat, s: SectionRecord, name: nat, dataAt: nat)
    requires at + SECTION_SIZE <= |b| && ReadSection(b, x, at) == Ok(s)
    ensures b[at..at + SECTION_SIZE] == SectionBytes(s, name, dataAt) <==> CanonicalSection(b, at, name, dataAt)
  {
    hide Bytes, NumberAt, ReadString, PowerOfTwo, Zeros;
    NumberBytes(b, at + 8, 8);
    NumberBytes(b, at + 24, 8);
    NumberBytes(b, at + 32, 8);
    NumberBytes(b, at + 40, 4);
    SectionSplit(b[at..at + SECTION_SIZE], SectionBytes(s, name, dataAt));
    SectionParts(s, name, dataAt);
    SectionSlices(b, at);
  }

  /** Forty-eight bytes are equal exactly when the ten fields are. */
  lemma SectionSplit(r: seq<u8>, r': seq<u8>)
    requires |r| == |r'| == SECTION_SIZE
    ensures r == r' <==>
      && r[..4] == r'[..4] && r[4] == r'[4] && r[5] == r'[5] && r[6..8] == r'[6..8] && r[8..16] == r'[8..16]
      && r[16..24] == r'[16..24] && r[24..32] == r'[24..32] && r[32..40] == r'[32..40] && r[40..44] == r'[40..44] && r[44..48] == r'[44..48]
  {
    assert forall q: seq<u8> {:trigger q[44..48]} :: |q| == SECTION_SIZE ==>
      q == q[..4] + [q[4], q[5]] + q[6..8] + q[8..16] + q[16..24] + q[24..32] + q[32..40] + q[40..44] + q[44..48];
  }

  lemma SectionParts(s: SectionRecord, name: nat, at: nat)
    ensures var r := SectionBytes(s, name, at);
      && r[..4] == Bytes(name, 4) && r[4] == s.kind && r[5] == s.flags && r[6..8] == Zeros(2) && r[8..16] == Bytes(s.alignment, 8)
      && r[16..24] == Bytes(at, 8) && r[24..32] == Bytes(|s.data|, 8) && r[32..40] == Bytes(s.size, 8)
      && r[40..44] == Bytes(s.index, 4) && r[44..48] == Zeros(4)
  {
    hide Bytes, Zeros;
  }

  lemma SectionSlices(b: seq<u8>, at: nat)
    requires at + SECTION_SIZE <= |b|
    ensures var r := b[at..at + SECTION_SIZE];
      && r[..4] == b[at..at + 4] && r[4] == b[at + 4] && r[5] == b[at + 5] && r[6..8] == b[at + 6..at + 8]
      && r[8..16] == b[at + 8..at + 16] && r[16..24] == b[at + 16..at + 24] && r[24..32] == b[at + 24..at + 32]
      && r[32..40] == b[at + 32..at + 40] && r[40..44] == b[at + 40..at + 44] && r[44..48] == b[at + 44..at + 48]
  {
  }

  lemma SymbolRecordIff(b: seq<u8>, x: Extents, at: nat, s: SymbolRecord, name: nat)
    requires at + SYMBOL_SIZE <= |b| && ReadSymbol(b, x, at) == Ok(s)
    ensures b[at..at + SYMBOL_SIZE] == SymbolBytes(s, name) <==> CanonicalSymbol(b, at, name)
  {
    hide Bytes, NumberAt, ReadString, Zeros;
    NumberBytes(b, at + 8, 4);
    NumberBytes(b, at + 16, 8);
    NumberBytes(b, at + 24, 8);
    SymbolSplit(b[at..at + SYMBOL_SIZE], SymbolBytes(s, name));
    SymbolParts(s, name);
    SymbolSlices(b, at);
  }

  lemma SymbolSplit(r: seq<u8>, r': seq<u8>)
    requires |r| == |r'| == SYMBOL_SIZE
    ensures r == r' <==>
      && r[..4] == r'[..4] && r[4] == r'[4] && r[5] == r'[5] && r[6] == r'[6] && r[7..8] == r'[7..8] && r[8..12] == r'[8..12]
      && r[12..16] == r'[12..16] && r[16..24] == r'[16..24] && r[24..32] == r'[24..32]
  {
    assert forall q: seq<u8> {:trigger q[24..32]} :: |q| == SYMBOL_SIZE ==>
      q == q[..4] + [q[4], q[5], q[6]] + q[7..8] + q[8..12] + q[12..16] + q[16..24] + q[24..32];
  }

  lemma SymbolParts(s: SymbolRecord, name: nat)
    ensures var r := SymbolBytes(s, name);
      && r[..4] == Bytes(name, 4) && r[4] == s.binding && r[5] == s.kind && r[6] == (if s.defined then 1 else 0)
      && r[7..8] == Zeros(1) && r[8..12] == Bytes(s.section, 4) && r[12..16] == Zeros(4)
      && r[16..24] == Bytes(s.value, 8) && r[24..32] == Bytes(s.size, 8)
  {
    hide Bytes, Zeros;
  }

  lemma SymbolSlices(b: seq<u8>, at: nat)
    requires at + SYMBOL_SIZE <= |b|
    ensures var r := b[at..at + SYMBOL_SIZE];
      && r[..4] == b[at..at + 4] && r[4] == b[at + 4] && r[5] == b[at + 5] && r[6] == b[at + 6] && r[7..8] == b[at + 7..at + 8]
      && r[8..12] == b[at + 8..at + 12] && r[12..16] == b[at + 12..at + 16] && r[16..24] == b[at + 16..at + 24]
      && r[24..32] == b[at + 24..at + 32]
  {
  }

  lemma RelocationRecordIff(b: seq<u8>, x: Extents, sections: seq<SectionRecord>, at: nat, r: RelocationRecord)
    requires at + RELOCATION_SIZE <= |b| && ReadRelocation(b, x, sections, at) == Ok(r)
    ensures b[at..at + RELOCATION_SIZE] == RelocationBytes(r) <==> CanonicalRelocation(b, at)
  {
    hide Bytes, NumberAt, Zeros;
    NumberBytes(b, at, 4);
    NumberBytes(b, at + 4, 4);
    NumberBytes(b, at + 8, 8);
    NumberBytes(b, at + 16, 8);
    SignedBack(U64At(b, at + 16));
    RelocationSplit(b[at..at + RELOCATION_SIZE], RelocationBytes(r));
    RelocationParts(r);
    RelocationSlices(b, at);
  }

  lemma SignedBack(v: u64)
    ensures ToU64(ToI64(v)) == v
  {
  }

  lemma RelocationSplit(r: seq<u8>, r': seq<u8>)
    requires |r| == |r'| == RELOCATION_SIZE
    ensures r == r' <==>
      && r[..4] == r'[..4] && r[4..8] == r'[4..8] && r[8..16] == r'[8..16] && r[16..24] == r'[16..24]
      && r[24] == r'[24] && r[25..32] == r'[25..32]
  {
    assert forall q: seq<u8> {:trigger q[25..32]} :: |q| == RELOCATION_SIZE ==>
      q == q[..4] + q[4..8] + q[8..16] + q[16..24] + [q[24]] + q[25..32];
  }

  lemma RelocationParts(r: RelocationRecord)
    ensures var b := RelocationBytes(r);
      && b[..4] == Bytes(r.section, 4) && b[4..8] == Bytes(r.symbol, 4) && b[8..16] == Bytes(r.offset, 8)
      && b[16..24] == Bytes(ToU64(r.addend), 8) && b[24] == r.kind && b[25..32] == Zeros(7)
  {
    hide Bytes, Zeros;
  }

  lemma RelocationSlices(b: seq<u8>, at: nat)
    requires at + RELOCATION_SIZE <= |b|
    ensures var r := b[at..at + RELOCATION_SIZE];
      && r[..4] == b[at..at + 4] && r[4..8] == b[at + 4..at + 8] && r[8..16] == b[at + 8..at + 16]
      && r[16..24] == b[at + 16..at + 24] && r[24] == b[at + 24] && r[25..32] == b[at + 25..at + 32]
  {
  }

  /** A debug record has no padding: what was read is what would be written. */
  lemma DebugRecordBack(b: seq<u8>, x: Extents, at: nat, d: DebugRecord)
    requires at + DEBUG_SIZE <= |b| && ReadDebug(b, x, at) == Ok(d)
    ensures b[at..at + DEBUG_SIZE] == DebugBytes(d)
  {
    hide Bytes, NumberAt;
    NumberBytes(b, at, 4);
    NumberBytes(b, at + 4, 4);
    NumberBytes(b, at + 8, 8);
    NumberBytes(b, at + 16, 4);
    NumberBytes(b, at + 20, 4);
    assert b[at..at + DEBUG_SIZE] == b[at..at + 4] + b[at + 4..at + 8] + b[at + 8..at + 16] + b[at + 16..at + 20] + b[at + 20..at + 24];
  }

  // ----- the records of an accepted buffer -----

  lemma {:induction false} SectionAt(b: seq<u8>, x: Extents, n: nat, i: nat)
    requires HEADER_SIZE + n * SECTION_SIZE <= |b| && ReadSections(b, x, n).Ok? && i < n
    ensures ReadSection(b, x, HEADER_SIZE + i * SECTION_SIZE) == Ok(ReadSections(b, x, n).value[i])
  {
    hide ReadSection;
    if i < n - 1 {
      SectionAt(b, x, n - 1, i);
    }
  }

  lemma {:induction false} SymbolAt(b: seq<u8>, x: Extents, n: nat, i: nat)
    requires x.SymbolsAt() + n * SYMBOL_SIZE <= |b| && ReadSymbols(b, x, n).Ok? && i < n
    ensures ReadSymbol(b, x, x.SymbolsAt() + i * SYMBOL_SIZE) == Ok(ReadSymbols(b, x, n).value[i])
  {
    hide ReadSymbol;
    if i < n - 1 {
      SymbolAt(b, x, n - 1, i);
    }
  }

  lemma {:induction false} RelocationAt(b: seq<u8>, x: Extents, sections: seq<SectionRecord>, n: nat, i: nat)
    requires x.RelocationsAt() + n * RELOCATION_SIZE <= |b| && ReadRelocations(b, x, sections, n).Ok? && i < n
    ensures ReadRelocation(b, x, sections, x.RelocationsAt() + i * RELOCATION_SIZE) == Ok(ReadRelocations(b, x, sections, n).value[i])
  {
    hide ReadRelocation;
    if i < n - 1 {
      RelocationAt(b, x, sections, n - 1, i);
    }
  }

  lemma {:induction false} DebugAt(b: seq<u8>, x: Extents, n: nat, i: nat)
    requires x.DebugAt() + n * DEBUG_SIZE <= |b| && ReadDebugs(b, x, n).Ok? && i < n
    ensures ReadDebug(b, x, x.DebugAt() + i * DEBUG_SIZE) == Ok(ReadDebugs(b, x, n).value[i])
  {
    hide ReadDebug;
    if i < n - 1 {
      DebugAt(b, x, n - 1, i);
    }
  }

  // ----- the tables -----

  /** A longer stretch of the buffer is a longer table exactly when both parts are. */
  lemma StretchIff(b: seq<u8>, from: nat, at: nat, size: nat, t: seq<u8>, r: seq<u8>)
    requires from <= at && at + size <= |b| && |t| == at - from && |r| == size
    ensures b[from..at + size] == t + r <==> b[from..at] == t && b[at..at + size] == r
  {
    assert b[from..at + size] == b[from..at] + b[at..at + size];
    assert (t + r)[..|t|] == t && (t + r)[|t|..] == r;
    assert b[from..at + size][..|t|] == b[from..at] && b[from..at + size][|t|..] == b[at..at + size];
  }

  lemma {:induction false} SectionTableIff(b: seq<u8>, x: Extents, o: StoredObject, n: nat)
    requires n <= |o.sections| && HEADER_SIZE + |o.sections| * SECTION_SIZE <= |b|
    requires forall i :: 0 <= i < |o.sections| ==> ReadSection(b, x, HEADER_SIZE + i * SECTION_SIZE) == Ok(o.sections[i])
    ensures |PutSections(EMPTY_OUTPUT, o.sections, n).tables| == n * SECTION_SIZE
    ensures b[HEADER_SIZE..HEADER_SIZE + n * SECTION_SIZE] == PutSections(EMPTY_OUTPUT, o.sections, n).tables <==>
      forall i :: 0 <= i < n ==> CanonicalSection(b, HEADER_SIZE + i * SECTION_SIZE, SectionNameAt(o, i), SectionDataAt(o, i))
  {
    hide SectionBytes, ReadSection, CanonicalSection, Intern;
    if n > 0 {
      SectionTableIff(b, x, o, n - 1);
      var before, at := PutSections(EMPTY_OUTPUT, o.sections, n - 1), HEADER_SIZE + (n - 1) * SECTION_SIZE;
      var record := SectionBytes(o.sections[n - 1], SectionNameAt(o, n - 1), SectionDataAt(o, n - 1));
      SectionRecordIff(b, x, at, o.sections[n - 1], SectionNameAt(o, n - 1), SectionDataAt(o, n - 1));
      StretchIff(b, HEADER_SIZE, at, SECTION_SIZE, before.tables, record);
    }
  }

  lemma {:induction false} SymbolTableIff(b: seq<u8>, x: Extents, o: StoredObject, n: nat)
    requires n <= |o.symbols| && x.sectionCount == |o.sections| && x.SymbolsAt() + |o.symbols| * SYMBOL_SIZE <= |b|
    requires |AfterSections(o).tables| == x.SymbolsAt() - HEADER_SIZE
    requires forall i :: 0 <= i < |o.symbols| ==> ReadSymbol(b, x, x.SymbolsAt() + i * SYMBOL_SIZE) == Ok(o.symbols[i])
    ensures |PutSymbols(AfterSections(o), o.symbols, n).tables| == x.SymbolsAt() - HEADER_SIZE + n * SYMBOL_SIZE
    ensures b[HEADER_SIZE..x.SymbolsAt() + n * SYMBOL_SIZE] == PutSymbols(AfterSections(o), o.symbols, n).tables <==>
      && b[HEADER_SIZE..x.SymbolsAt()] == AfterSections(o).tables
      && forall i :: 0 <= i < n ==> CanonicalSymbol(b, x.SymbolsAt() + i * SYMBOL_SIZE, SymbolNameAt(o, i))
  {
    hide SymbolBytes, ReadSymbol, CanonicalSymbol, Intern, AfterSections;
    if n > 0 {
      SymbolTableIff(b, x, o, n - 1);
      var before, at := PutSymbols(AfterSections(o), o.symbols, n - 1), x.SymbolsAt() + (n - 1) * SYMBOL_SIZE;
      SymbolRecordIff(b, x, at, o.symbols[n - 1], SymbolNameAt(o, n - 1));
      StretchIff(b, HEADER_SIZE, at, SYMBOL_SIZE, before.tables, SymbolBytes(o.symbols[n - 1], SymbolNameAt(o, n - 1)));
    }
  }

  lemma {:induction false} RelocationTableIff(b: seq<u8>, x: Extents, o: StoredObject, n: nat)
    requires n <= |o.relocations| && x.RelocationsAt() + |o.relocations| * RELOCATION_SIZE <= |b|
    requires |AfterSymbols(o).tables| == x.RelocationsAt() - HEADER_SIZE
    requires forall i :: 0 <= i < |o.relocations| ==>
      ReadRelocation(b, x, o.sections, x.RelocationsAt() + i * RELOCATION_SIZE) == Ok(o.relocations[i])
    ensures |PutRelocations(AfterSymbols(o), o.relocations, n).tables| == x.RelocationsAt() - HEADER_SIZE + n * RELOCATION_SIZE
    ensures b[HEADER_SIZE..x.RelocationsAt() + n * RELOCATION_SIZE] == PutRelocations(AfterSymbols(o), o.relocations, n).tables <==>
      && b[HEADER_SIZE..x.RelocationsAt()] == AfterSymbols(o).tables
      && forall i :: 0 <= i < n ==> CanonicalRelocation(b, x.RelocationsAt() + i * RELOCATION_SIZE)
  {
    hide RelocationBytes, ReadRelocation, CanonicalRelocation, AfterSymbols;
    if n > 0 {
      RelocationTableIff(b, x, o, n - 1);
      var before, at := PutRelocations(AfterSymbols(o), o.relocations, n - 1), x.RelocationsAt() + (n - 1) * RELOCATION_SIZE;
      RelocationRecordIff(b, x, o.sections, at, o.relocations[n - 1]);
      StretchIff(b, HEADER_SIZE, at, RELOCATION_SIZE, before.tables, RelocationBytes(o.relocations[n - 1]));
    }
  }

  lemma {:induction false} DebugTableIff(b: seq<u8>, x: Extents, o: StoredObject, n: nat)
    requires n <= |o.debug| && x.DebugAt() + |o.debug| * DEBUG_SIZE <= |b|
    requires |AfterRelocations(o).tables| == x.DebugAt() - HEADER_SIZE
    requires forall i :: 0 <= i < |o.debug| ==> ReadDebug(b, x, x.DebugAt() + i * DEBUG_SIZE) == Ok(o.debug[i])
    ensures |PutDebug(AfterRelocations(o), o.debug, n).tables| == x.DebugAt() - HEADER_SIZE + n * DEBUG_SIZE
    ensures b[HEADER_SIZE..x.DebugAt() + n * DEBUG_SIZE] == PutDebug(AfterRelocations(o), o.debug, n).tables <==>
      b[HEADER_SIZE..x.DebugAt()] == AfterRelocations(o).tables
  {
    hide DebugBytes, ReadDebug, AfterRelocations;
    if n > 0 {
      DebugTableIff(b, x, o, n - 1);
      var before, at := PutDebug(AfterRelocations(o), o.debug, n - 1), x.DebugAt() + (n - 1) * DEBUG_SIZE;
      DebugRecordBack(b, x, at, o.debug[n - 1]);
      StretchIff(b, HEADER_SIZE, at, DEBUG_SIZE, before.tables, DebugBytes(o.debug[n - 1]));
    }
  }

  lemma {:induction false} SourceTableIff(b: seq<u8>, x: Extents, o: StoredObject, n: nat)
    requires n <= |o.sources| && x.SourcesAt() + |o.sources| * SOURCE_SIZE <= |b|
    requires |AfterDebug(o).tables| == x.SourcesAt() - HEADER_SIZE
    ensures |PutSources(AfterDebug(o), o.sources, n).tables| == x.SourcesAt() - HEADER_SIZE + n * SOURCE_SIZE
    ensures b[HEADER_SIZE..x.SourcesAt() + n * SOURCE_SIZE] == PutSources(AfterDebug(o), o.sources, n).tables <==>
      && b[HEADER_SIZE..x.SourcesAt()] == AfterDebug(o).tables
      && forall i :: 0 <= i < n ==>
           b[x.SourcesAt() + i * SOURCE_SIZE..x.SourcesAt() + i * SOURCE_SIZE + 4] == Bytes(SourceNameAt(o, i), 4)
  {
    hide Bytes, Intern, AfterDebug;
    if n > 0 {
      SourceTableIff(b, x, o, n - 1);
      var before, at := PutSources(AfterDebug(o), o.sources, n - 1), x.SourcesAt() + (n - 1) * SOURCE_SIZE;
      StretchIff(b, HEADER_SIZE, at, SOURCE_SIZE, before.tables, Bytes(SourceNameAt(o, n - 1), 4));
    }
  }

  /** The object of an accepted buffer, table by table. */
  ghost predicate Accepted(b: seq<u8>, x: Extents, o: StoredObject) {
    && ReadHeader(b) == Ok(x) && ReadObject(b) == Ok(o)
    && x.sectionCount == |o.sections| && x.symbolCount == |o.symbols| && x.relocationCount == |o.relocations|
    && x.debugCount == |o.debug| && x.sourceCount == |o.sources|
  }

  lemma AcceptedParts(b: seq<u8>)
    requires ReadObject(b).Ok?
    ensures ReadHeader(b).Ok? && Accepted(b, ReadHeader(b).value, ReadObject(b).value)
    ensures var x, o := ReadHeader(b).value, ReadObject(b).value;
      && ReadSections(b, x, x.sectionCount) == Ok(o.sections) && ReadSymbols(b, x, x.symbolCount) == Ok(o.symbols)
      && ReadRelocations(b, x, o.sections, x.relocationCount) == Ok(o.relocations) && ReadDebugs(b, x, x.debugCount) == Ok(o.debug)
  {
    hide ReadHeader, ReadSections, ReadSymbols, ReadRelocations, ReadDebugs, ReadSources;
  }

  lemma SectionsIff(b: seq<u8>, x: Extents, o: StoredObject)
    requires Accepted(b, x, o) && x.SymbolsAt() <= |b|
    ensures |AfterSections(o).tables| == x.SymbolsAt() - HEADER_SIZE
    ensures b[HEADER_SIZE..x.SymbolsAt()] == AfterSections(o).tables <==>
      forall i :: 0 <= i < |o.sections| ==>
        CanonicalSection(b, HEADER_SIZE + i * SECTION_SIZE, SectionNameAt(o, i), SectionDataAt(o, i))
  {
    hide ReadHeader, ReadObject, ReadSection, ReadSections, PutSections, CanonicalSection, SectionNameAt, SectionDataAt;
    AcceptedParts(b);
    forall i | 0 <= i < |o.sections|
      ensures ReadSection(b, x, HEADER_SIZE + i * SECTION_SIZE) == Ok(o.sections[i])
    {
      SectionAt(b, x, |o.sections|, i);
    }
    SectionTableIff(b, x, o, |o.sections|);
  }

  lemma SymbolsIff(b: seq<u8>, x: Extents, o: StoredObject)
    requires Accepted(b, x, o) && x.RelocationsAt() <= |b| && |AfterSections(o).tables| == x.SymbolsAt() - HEADER_SIZE
    ensures |AfterSymbols(o).tables| == x.RelocationsAt() - HEADER_SIZE
    ensures b[HEADER_SIZE..x.RelocationsAt()] == AfterSymbols(o).tables <==>
      && b[HEADER_SIZE..x.SymbolsAt()] == AfterSections(o).tables
      && forall i :: 0 <= i < |o.symbols| ==> CanonicalSymbol(b, x.SymbolsAt() + i * SYMBOL_SIZE, SymbolNameAt(o, i))
  {
    hide ReadHeader, ReadObject, ReadSymbol, ReadSymbols, PutSymbols, CanonicalSymbol, SymbolNameAt, AfterSections;
    AcceptedParts(b);
    forall i | 0 <= i < |o.symbols|
      ensures ReadSymbol(b, x, x.SymbolsAt() + i * SYMBOL_SIZE) == Ok(o.symbols[i])
    {
      SymbolAt(b, x, |o.symbols|, i);
    }
    SymbolTableIff(b, x, o, |o.symbols|);
  }

  lemma RelocationsIff(b: seq<u8>, x: Extents, o: StoredObject)
    requires Accepted(b, x, o) && x.DebugAt() <= |b| && |AfterSymbols(o).tables| == x.RelocationsAt() - HEADER_SIZE
    ensures |AfterRelocations(o).tables| == x.DebugAt() - HEADER_SIZE
    ensures b[HEADER_SIZE..x.DebugAt()] == AfterRelocations(o).tables <==>
      && b[HEADER_SIZE..x.RelocationsAt()] == AfterSymbols(o).tables
      && forall i :: 0 <= i < |o.relocations| ==> CanonicalRelocation(b, x.RelocationsAt() + i * RELOCATION_SIZE)
  {
    hide ReadHeader, ReadObject, ReadRelocation, ReadRelocations, PutRelocations, CanonicalRelocation, AfterSymbols;
    AcceptedParts(b);
    forall i | 0 <= i < |o.relocations|
      ensures ReadRelocation(b, x, o.sections, x.RelocationsAt() + i * RELOCATION_SIZE) == Ok(o.relocations[i])
    {
      RelocationAt(b, x, o.sections, |o.relocations|, i);
    }
    RelocationTableIff(b, x, o, |o.relocations|);
  }

  lemma DebugIff(b: seq<u8>, x: Extents, o: StoredObject)
    requires Accepted(b, x, o) && x.SourcesAt() <= |b| && |AfterRelocations(o).tables| == x.DebugAt() - HEADER_SIZE
    ensures |AfterDebug(o).tables| == x.SourcesAt() - HEADER_SIZE
    ensures b[HEADER_SIZE..x.SourcesAt()] == AfterDebug(o).tables <==> b[HEADER_SIZE..x.DebugAt()] == AfterRelocations(o).tables
  {
    hide ReadHeader, ReadObject, ReadDebug, ReadDebugs, PutDebug, AfterRelocations;
    AcceptedParts(b);
    forall i | 0 <= i < |o.debug|
      ensures ReadDebug(b, x, x.DebugAt() + i * DEBUG_SIZE) == Ok(o.debug[i])
    {
      DebugAt(b, x, |o.debug|, i);
    }
    DebugTableIff(b, x, o, |o.debug|);
  }

  /** The tables of an accepted buffer are those the writer makes exactly when every record is canonical. */
  lemma TablesIff(b: seq<u8>, x: Extents, o: StoredObject)
    requires Accepted(b, x, o)
    ensures |PutAll(o).tables| == x.End() - HEADER_SIZE && x.End() <= |b|
    ensures b[HEADER_SIZE..x.End()] == PutAll(o).tables && x.strings == PutAll(o).strings.bytes && x.blob == PutAll(o).blob
      <==> Canonical(b, x, o)
  {
    hide ReadHeader, ReadObject, PutSections, PutSymbols, PutRelocations, PutDebug, PutSources, CanonicalSection, CanonicalSymbol,
         CanonicalRelocation, SectionNameAt, SectionDataAt, SymbolNameAt, SourceNameAt, Bytes, AfterSections, AfterSymbols,
         AfterRelocations, AfterDebug, PutAll;
    EndsIn(b, x);
    SectionsIff(b, x, o);
    SymbolsIff(b, x, o);
    RelocationsIff(b, x, o);
    DebugIff(b, x, o);
    SourceTableIff(b, x, o, |o.sources|);
    LastPut(o);
  }

  lemma LastPut(o: StoredObject)
    ensures PutAll(o) == PutSources(AfterDebug(o), o.sources, |o.sources|)
  {
  }

  lemma EndsIn(b: seq<u8>, x: Extents)
    requires ReadHeader(b) == Ok(x)
    ensures HEADER_SIZE <= x.SymbolsAt() <= x.RelocationsAt() <= x.DebugAt() <= x.SourcesAt() <= x.End() <= |b|
  {
    hide NumberAt;
  }

  // ----- the header -----

  /** An accepted header is the one the writer makes for what follows it. */
  lemma HeaderBack(b: seq<u8>, x: Extents, o: StoredObject)
    requires Accepted(b, x, o)
    ensures HEADER_SIZE <= x.End() && x.End() + |x.strings| + |x.blob| == |b| <= MAX_U32
    ensures b[x.End()..x.End() + |x.strings|] == x.strings && b[x.End() + |x.strings|..] == x.blob
    ensures b[..HEADER_SIZE]
         == HeaderBytes(o, x.End(), |x.strings|, x.End() + |x.strings|, |b|, Crc.Checksum(b[HEADER_SIZE..]))
  {
    hide NumberAt, Bytes, Crc.Checksum, ReadObject, HeaderBytes;
    EndsIn(b, x);
    HeaderValues(b, x);
    HeaderSlices(b);
    HeaderLayout(o, x.End(), |x.strings|, x.End() + |x.strings|, |b|, Crc.Checksum(b[HEADER_SIZE..]));
    HeaderNumberBytes(b);
    HeaderEqual(b[..HEADER_SIZE],
                HeaderBytes(o, x.End(), |x.strings|, x.End() + |x.strings|, |b|, Crc.Checksum(b[HEADER_SIZE..])));
  }

  lemma HeaderValues(b: seq<u8>, x: Extents)
    requires ReadHeader(b) == Ok(x)
    ensures HEADER_SIZE <= |b| && b[..4] == MAGIC && NumberAt(b, 4, 2) == VERSION && NumberAt(b, 6, 2) == HEADER_SIZE
    ensures NumberAt(b, 8, 4) == 0 && NumberAt(b, 12, 4) == x.sectionCount && NumberAt(b, 16, 4) == x.symbolCount
    ensures NumberAt(b, 20, 4) == x.relocationCount && NumberAt(b, 24, 4) == x.debugCount && NumberAt(b, 28, 4) == x.sourceCount
    ensures NumberAt(b, 32, 8) == x.End() && NumberAt(b, 40, 8) == |x.strings| && NumberAt(b, 48, 8) == x.End() + |x.strings|
    ensures NumberAt(b, 56, 4) == |b| <= MAX_U32 && NumberAt(b, 60, 4) == Crc.Checksum(b[HEADER_SIZE..])
    ensures x.End() + |x.strings| + |x.blob| == |b|
    ensures b[x.End()..x.End() + |x.strings|] == x.strings && b[x.End() + |x.strings|..] == x.blob
  {
    hide NumberAt, Crc.Checksum;
  }

  lemma HeaderNumberBytes(b: seq<u8>)
    requires HEADER_SIZE <= |b|
    ensures Bytes(NumberAt(b, 4, 2), 2) == b[4..6] && Bytes(NumberAt(b, 6, 2), 2) == b[6..8] && Bytes(NumberAt(b, 8, 4), 4) == b[8..12]
    ensures Bytes(NumberAt(b, 12, 4), 4) == b[12..16] && Bytes(NumberAt(b, 16, 4), 4) == b[16..20]
    ensures Bytes(NumberAt(b, 20, 4), 4) == b[20..24] && Bytes(NumberAt(b, 24, 4), 4) == b[24..28]
    ensures Bytes(NumberAt(b, 28, 4), 4) == b[28..32] && Bytes(NumberAt(b, 32, 8), 8) == b[32..40]
    ensures Bytes(NumberAt(b, 40, 8), 8) == b[40..48] && Bytes(NumberAt(b, 48, 8), 8) == b[48..56]
    ensures Bytes(NumberAt(b, 56, 4), 4) == b[56..60] && Bytes(NumberAt(b, 60, 4), 4) == b[60..64]
  {
    hide Bytes, NumberAt;
    NumberBytes(b, 4, 2);
    NumberBytes(b, 6, 2);
    NumberBytes(b, 8, 4);
    NumberBytes(b, 12, 4);
    NumberBytes(b, 16, 4);
    NumberBytes(b, 20, 4);
    NumberBytes(b, 24, 4);
    NumberBytes(b, 28, 4);
    NumberBytes(b, 32, 8);
    NumberBytes(b, 40, 8);
    NumberBytes(b, 48, 8);
    NumberBytes(b, 56, 4);
    NumberBytes(b, 60, 4);
  }

  /** Two headers agree field by field. */
  ghost predicate SameFields(r: seq<u8>, r': seq<u8>)
    requires |r| == |r'| == HEADER_SIZE
  {
    && r[..4] == r'[..4] && r[4..6] == r'[4..6] && r[6..8] == r'[6..8] && r[8..12] == r'[8..12] && r[12..16] == r'[12..16]
    && r[16..20] == r'[16..20] && r[20..24] == r'[20..24] && r[24..28] == r'[24..28] && r[28..32] == r'[28..32]
    && r[32..40] == r'[32..40] && r[40..48] == r'[40..48] && r[48..56] == r'[48..56] && r[56..60] == r'[56..60] && r[60..64] == r'[60..64]
  }

  lemma HeaderEqual(r: seq<u8>, r': seq<u8>)
    requires |r| == |r'| == HEADER_SIZE && SameFields(r, r')
    ensures r == r'
  {
    assert forall q: seq<u8> {:trigger q[60..64]} :: |q| == HEADER_SIZE ==>
      q == q[..4] + q[4..6] + q[6..8] + q[8..12] + q[12..16] + q[16..20] + q[20..24] + q[24..28] + q[28..32] + q[32..40]
           + q[40..48] + q[48..56] + q[56..60] + q[60..64];
  }

  lemma HeaderSlices(b: seq<u8>)
    requires HEADER_SIZE <= |b|
    ensures var r := b[..HEADER_SIZE];
      && r[..4] == b[..4] && r[4..6] == b[4..6] && r[6..8] == b[6..8] && r[8..12] == b[8..12] && r[12..16] == b[12..16]
      && r[16..20] == b[16..20] && r[20..24] == b[20..24] && r[24..28] == b[24..28] && r[28..32] == b[28..32]
      && r[32..40] == b[32..40] && r[40..48] == b[40..48] && r[48..56] == b[48..56] && r[56..60] == b[56..60] && r[60..64] == b[60..64]
  {
  }

  function HeaderFront(o: StoredObject): (r: seq<u8>)
    ensures |r| == 32
  {
    MAGIC + Bytes(VERSION, 2) + Bytes(HEADER_SIZE, 2) + Bytes(0, 4) + Bytes(|o.sections|, 4) + Bytes(|o.symbols|, 4)
    + Bytes(|o.relocations|, 4) + Bytes(|o.debug|, 4) + Bytes(|o.sources|, 4)
  }

  function HeaderRear(stringAt: nat, stringSize: nat, blobAt: nat, fileSize: nat, checksum: nat): (r: seq<u8>)
    ensures |r| == 32
  {
    Bytes(stringAt, 8) + Bytes(stringSize, 8) + Bytes(blobAt, 8) + Bytes(fileSize, 4) + Bytes(checksum, 4)
  }

  lemma FrontFields(o: StoredObject)
    ensures var r := HeaderFront(o);
      && r[..4] == MAGIC && r[4..6] == Bytes(VERSION, 2) && r[6..8] == Bytes(HEADER_SIZE, 2) && r[8..12] == Bytes(0, 4)
      && r[12..16] == Bytes(|o.sections|, 4) && r[16..20] == Bytes(|o.symbols|, 4) && r[20..24] == Bytes(|o.relocations|, 4)
      && r[24..28] == Bytes(|o.debug|, 4) && r[28..32] == Bytes(|o.sources|, 4)
  {
    hide Bytes;
  }

  lemma RearFields(stringAt: nat, stringSize: nat, blobAt: nat, fileSize: nat, checksum: nat)
    ensures var r := HeaderRear(stringAt, stringSize, blobAt, fileSize, checksum);
      && r[..8] == Bytes(stringAt, 8) && r[8..16] == Bytes(stringSize, 8) && r[16..24] == Bytes(blobAt, 8)
      && r[24..28] == Bytes(fileSize, 4) && r[28..32] == Bytes(checksum, 4)
  {
    hide Bytes;
  }

  lemma HalvesJoin(a: seq<u8>, b: seq<u8>)
    requires |a| == 32 == |b|
    ensures var r := a + b;
      && r[..4] == a[..4] && r[4..6] == a[4..6] && r[6..8] == a[6..8] && r[8..12] == a[8..12] && r[12..16] == a[12..16]
      && r[16..20] == a[16..20] && r[20..24] == a[20..24] && r[24..28] == a[24..28] && r[28..32] == a[28..32]
      && r[32..40] == b[..8] && r[40..48] == b[8..16] && r[48..56] == b[16..24] && r[56..60] == b[24..28] && r[60..64] == b[28..32]
  {
  }

  lemma HeaderHalves(o: StoredObject, stringAt: nat, stringSize: nat, blobAt: nat, fileSize: nat, checksum: nat)
    ensures HeaderBytes(o, stringAt, stringSize, blobAt, fileSize, checksum)
         == HeaderFront(o) + HeaderRear(stringAt, stringSize, blobAt, fileSize, checksum)
  {
    hide Bytes;
    var front, a, b, c, d, e := HeaderFront(o), Bytes(stringAt, 8), Bytes(stringSize, 8), Bytes(blobAt, 8), Bytes(fileSize, 4), Bytes(checksum, 4);
    assert front + a + b + c + d + e == front + (a + b + c + d + e);
  }

  lemma HeaderLayout(o: StoredObject, stringAt: nat, stringSize: nat, blobAt: nat, fileSize: nat, checksum: nat)
    ensures var r := HeaderBytes(o, stringAt, stringSize, blobAt, fileSize, checksum);
      && r[..4] == MAGIC && r[4..6] == Bytes(VERSION, 2) && r[6..8] == Bytes(HEADER_SIZE, 2) && r[8..12] == Bytes(0, 4)
      && r[12..16] == Bytes(|o.sections|, 4) && r[16..20] == Bytes(|o.symbols|, 4) && r[20..24] == Bytes(|o.relocations|, 4)
      && r[24..28] == Bytes(|o.debug|, 4) && r[28..32] == Bytes(|o.sources|, 4) && r[32..40] == Bytes(stringAt, 8)
      && r[40..48] == Bytes(stringSize, 8) && r[48..56] == Bytes(blobAt, 8) && r[56..60] == Bytes(fileSize, 4)
      && r[60..64] == Bytes(checksum, 4)
  {
    hide Bytes, HeaderBytes, HeaderFront, HeaderRear;
    HeaderHalves(o, stringAt, stringSize, blobAt, fileSize, checksum);
    FrontFields(o);
    RearFields(stringAt, stringSize, blobAt, fileSize, checksum);
    HalvesJoin(HeaderFront(o), HeaderRear(stringAt, stringSize, blobAt, fileSize, checksum));
  }

  // ----- writing back -----

  /** Writing what was read gives the buffer back exactly when the buffer is canonical. */
  lemma WriteBackIff(b: seq<u8>)
    requires ReadObject(b).Ok?
    ensures ReadHeader(b).Ok? && Accepted(b, ReadHeader(b).value, ReadObject(b).value)
    ensures ReadHeader(b).value.End() <= |b|
    ensures WriteObject(ReadObject(b).value) == Ok(b) <==> Canonical(b, ReadHeader(b).value, ReadObject(b).value)
  {
    hide ReadHeader, ReadObject, Canonical, PutAll, HeaderBytes, Crc.Checksum, ReadSections, ReadSymbols, ReadRelocations, ReadDebugs,
         ReadSources, WriteObject;
    AcceptedParts(b);
    var x, o := ReadHeader(b).value, ReadObject(b).value;
    TablesIff(b, x, o);
    HeaderBack(b, x, o);
    if WriteObject(o) == Ok(b) {
      WrittenHolds(o);
      HeaderRead(b, o);
      HeldParts(b, o);
    }
    if Canonical(b, x, o) {
      WrittenBack(b, x, o);
    }
  }

  lemma HeldParts(b: seq<u8>, o: StoredObject)
    requires Holds(b, o)
    ensures HEADER_SIZE + |PutAll(o).tables| <= |b| && b[HEADER_SIZE..HEADER_SIZE + |PutAll(o).tables|] == PutAll(o).tables
  {
    hide PutAll, HeaderBytes, Crc.Checksum;
  }

  lemma WrittenBack(b: seq<u8>, x: Extents, o: StoredObject)
    requires Accepted(b, x, o) && x.End() + |x.strings| + |x.blob| == |b| <= MAX_U32 && HEADER_SIZE <= x.End()
    requires b[..HEADER_SIZE] == HeaderBytes(o, x.End(), |x.strings|, x.End() + |x.strings|, |b|, Crc.Checksum(b[HEADER_SIZE..]))
    requires b[x.End()..x.End() + |x.strings|] == x.strings && b[x.End() + |x.strings|..] == x.blob
    requires b[HEADER_SIZE..x.End()] == PutAll(o).tables && x.strings == PutAll(o).strings.bytes && x.blob == PutAll(o).blob
    ensures WriteObject(o) == Ok(b)
  {
    hide PutAll, HeaderBytes, Crc.Checksum, ReadHeader, ReadObject;
    assert b[HEADER_SIZE..] == Body(PutAll(o));
    assert b == b[..HEADER_SIZE] + b[HEADER_SIZE..];
  }

  // ----- two buffers, one object -----

  /** An object with one empty section. */
  function OneSection(): SectionRecord { SectionRecord([], 0, 0, 1, [], 0, 0) }

  function OneSectionObject(): StoredObject { StoredObject([OneSection()], [], [], [], []) }

  /** Its section record with a padding byte set. */
  function PaddedRecord(): (r: seq<u8>)
    ensures |r| == SECTION_SIZE
  {
    SectionBytes(OneSection(), 1, 0)[6 := 1]
  }

  /** The buffer with that record, its checksum correct. */
  function PaddedBuffer(): seq<u8> {
    HeaderBytes(OneSectionObject(), 112, 2, 114, 114, Crc.Checksum(PaddedRecord() + [0, 0])) + (PaddedRecord() + [0, 0])
  }

  lemma PaddedHeader()
    ensures |PaddedBuffer()| == 114 && ReadHeader(PaddedBuffer()) == Ok(Extents(1, 0, 0, 0, 0, [0, 0], []))
    ensures StandsAt(PaddedBuffer(), HEADER_SIZE, PaddedRecord())
  {
    hide NumberAt, Bytes, Crc.Checksum, FieldIs, HeaderBytes, SectionBytes;
    var b, body, o := PaddedBuffer(), PaddedRecord() + [0, 0], OneSectionObject();
    var header := HeaderBytes(o, 112, 2, 114, 114, Crc.Checksum(body));
    assert b[HEADER_SIZE..] == body && b[0..HEADER_SIZE] == header && b[..4] == header[..4];
    assert b[112..114] == [0, 0] && b[114..] == [] && b[64..112] == PaddedRecord();
    HeaderFields(o, 112, 2, 114, 114, Crc.Checksum(body));
    HeaderNumbers(b, header, o, 112, 2, 114, Crc.Checksum(body));
  }

  lemma PaddedFields()
    ensures var r := PaddedRecord();
      && FieldIs(r, 0, 4, 1) && r[4] == 0 && r[5] == 0 && FieldIs(r, 8, 8, 1)
      && FieldIs(r, 16, 8, 0) && FieldIs(r, 24, 8, 0) && FieldIs(r, 32, 8, 0) && FieldIs(r, 40, 4, 0)
  {
    hide Bytes, Pow2, SectionBytes;
    var r, r' := SectionBytes(OneSection(), 1, 0), PaddedRecord();
    SectionFields(OneSection(), 1, 0);
    assert r'[0..4] == r[0..4] && r'[8..16] == r[8..16] && r'[16..24] == r[16..24];
    assert r'[24..32] == r[24..32] && r'[32..40] == r[32..40] && r'[40..44] == r[40..44];
  }

  /** A record with these fields is read as the empty section, whatever its padding is. */
  lemma EmptySectionReads(b: seq<u8>, x: Extents, r: seq<u8>)
    requires StandsAt(b, HEADER_SIZE, r) && |r| == SECTION_SIZE && x.blob == [] && ReadString(x.strings, 1) == Some([])
    requires FieldIs(r, 0, 4, 1) && r[4] == 0 && r[5] == 0 && FieldIs(r, 8, 8, 1)
    requires FieldIs(r, 16, 8, 0) && FieldIs(r, 24, 8, 0) && FieldIs(r, 32, 8, 0) && FieldIs(r, 40, 4, 0)
    ensures ReadSection(b, x, HEADER_SIZE) == Ok(OneSection())
  {
    hide NumberAt, FieldIs, ReadString, PowerOfTwo;
    ReadField(b, HEADER_SIZE, r, 0, 4, 1);
    ReadByte(b, HEADER_SIZE, r, 4);
    ReadByte(b, HEADER_SIZE, r, 5);
    ReadField(b, HEADER_SIZE, r, 8, 8, 1);
    ReadField(b, HEADER_SIZE, r, 16, 8, 0);
    ReadField(b, HEADER_SIZE, r, 24, 8, 0);
    ReadField(b, HEADER_SIZE, r, 32, 8, 0);
    ReadField(b, HEADER_SIZE, r, 40, 4, 0);
    OneIsPower();
  }

  lemma PaddedSection()
    ensures |PaddedBuffer()| == 114
    ensures ReadSection(PaddedBuffer(), Extents(1, 0, 0, 0, 0, [0, 0], []), HEADER_SIZE) == Ok(OneSection())
  {
    hide FieldIs, PaddedBuffer, PaddedRecord, ReadSection, ReadHeader, StandsAt;
    PaddedHeader();
    PaddedFields();
    EmptySectionReads(PaddedBuffer(), Extents(1, 0, 0, 0, 0, [0, 0], []), PaddedRecord());
  }

  lemma OneIsPower()
    ensures PowerOfTwo(1)
  {
  }

  lemma OneSectionPut()
    ensures PutAll(OneSectionObject()) == Output(SectionBytes(OneSection(), 1, 0), StringTable([0, 0], map[[] := 1]), [])
  {
    hide SectionBytes;
    var o := OneSectionObject();
    assert PutSections(EMPTY_OUTPUT, o.sections, 0) == EMPTY_OUTPUT;
    var w := PutSections(EMPTY_OUTPUT, o.sections, 1);
    NothingPut(w, o);
  }

  lemma OneSectionFits()
    ensures WellFormed(OneSectionObject())
  {
    OneIsPower();
  }

  lemma OneSectionWritten()
    ensures WellFormed(OneSectionObject()) && WriteObject(OneSectionObject()).Ok?
    ensures |WriteObject(OneSectionObject()).value| == 114 && WriteObject(OneSectionObject()).value[70] == 0
  {
    hide Crc.Checksum, SectionBytes, HeaderBytes, PutAll, WellFormed, Zeros;
    OneSectionFits();
    OneSectionPut();
    SectionParts(OneSection(), 1, 0);
    assert SectionBytes(OneSection(), 1, 0)[6..8][0] == SectionBytes(OneSection(), 1, 0)[6];
    assert Zeros(2)[0] == 0 by { TwoZeros(); }
  }

  lemma TwoZeros()
    ensures Zeros(2)[0] == 0
  {
  }

  lemma PaddedReads(b: seq<u8>)
    requires |b| == 114 && ReadHeader(b) == Ok(Extents(1, 0, 0, 0, 0, [0, 0], []))
    requires ReadSection(b, Extents(1, 0, 0, 0, 0, [0, 0], []), HEADER_SIZE) == Ok(OneSection())
    ensures ReadObject(b) == Ok(OneSectionObject())
  {
    hide ReadHeader, ReadSection;
    var x := Extents(1, 0, 0, 0, 0, [0, 0], []);
    var none: seq<SectionRecord> := [];
    assert ReadSections(b, x, 0) == Ok(none) && none + [OneSection()] == [OneSection()];
    assert ReadSection(b, x, HEADER_SIZE + (1 - 1) * SECTION_SIZE) == Ok(OneSection());
    assert ReadSections(b, x, 1) == Ok([OneSection()]);
  }

  /** Reading is not injective: two different buffers, the writer's own among them, are read as the same
      object. */
  lemma PaddingIsIgnored()
    ensures ReadObject(PaddedBuffer()) == Ok(OneSectionObject())
    ensures WriteObject(OneSectionObject()).Ok?
    ensures ReadObject(WriteObject(OneSectionObject()).value) == Ok(OneSectionObject())
    ensures WriteObject(OneSectionObject()).value != PaddedBuffer()
  {
    hide ReadHeader, ReadSection, ReadObject, WriteObject, WellFormed, PaddedBuffer, OneSectionObject;
    PaddedHeader();
    PaddedSection();
    PaddedReads(PaddedBuffer());
    OneSectionWritten();
    RoundTripIff(OneSectionObject());
    PaddedByte();
  }

  lemma PaddedByte()
    ensures |PaddedBuffer()| > 70 && PaddedBuffer()[70] == 1
  {
    hide HeaderBytes, SectionBytes, Crc.Checksum;
  }
}
