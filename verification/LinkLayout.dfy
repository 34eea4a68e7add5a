/** Where the linker puts sections: in order, apart from one another, aligned, inside their region,
    with their bytes copied and the gaps zero. */
module LinkLayout {
  import opened Words
  import opened Memory
  import opened ControlFlowGraph
  import opened AssemblySpec
  import opened LinkSpec
  import Bits

  // ----- one list of sections -----

  function Flat<T>(lists: seq<seq<T>>): seq<T> {
    if lists == [] then [] else Flat(lists[..|lists| - 1]) + lists[|lists| - 1]
  }

  /** The sections of the first n objects. */
  function AllSections(objects: seq<ObjectFile>, n: nat): seq<ObjectSection>
    requires n <= |objects|
  {
    if n == 0 then [] else AllSections(objects, n - 1) + objects[n - 1].sections
  }

  lemma {:induction false} MergeSplit(regions: seq<OutputRegion>, a: seq<ObjectSection>, b: seq<ObjectSection>, n: nat)
    requires |regions| == 4 && n <= |b| && MergeObject(regions, a, |a|).Ok?
    ensures var m := MergeObject(regions, a, |a|).value;
            var r := MergeObject(m.0, b, n);
      MergeObject(regions, a + b, |a| + n) == if r.Err? then r else Ok((r.value.0, m.1 + r.value.1))
  {
    if n == 0 {
      MergePrefix(regions, a, a + b, |a|);
      var placed := MergeObject(regions, a, |a|).value.1;
      assert placed + [] == placed;
    } else {
      hide MergeSection;
      MergeSplit(regions, a, b, n - 1);
      assert (a + b)[|a| + n - 1] == b[n - 1];
      var m := MergeObject(regions, a, |a|).value;
      var before := MergeObject(m.0, b, n - 1);
      if before.Ok? && MergeSection(before.value.0, b[n - 1]).Ok? {
        var p := MergeSection(before.value.0, b[n - 1]).value.1;
        assert m.1 + (before.value.1 + [p]) == (m.1 + before.value.1) + [p];
      }
    }
  }

  lemma {:induction false} MergePrefix(regions: seq<OutputRegion>, a: seq<ObjectSection>, b: seq<ObjectSection>, n: nat)
    requires |regions| == 4 && n <= |a| <= |b| && a[..n] == b[..n]
    ensures MergeObject(regions, a, n) == MergeObject(regions, b, n)
  {
    if n > 0 {
      assert a[..n - 1] == a[..n][..n - 1] == b[..n - 1];
      MergePrefix(regions, a, b, n - 1);
      assert a[n - 1] == a[..n][n - 1] == b[n - 1];
    }
  }

  /** Merging object by object is merging all sections in one list. */
  lemma {:induction false} MergeFlat(regions: seq<OutputRegion>, objects: seq<ObjectFile>, n: nat)
    requires |regions| == 4 && n <= |objects| && MergeObjects(regions, objects, n).Ok?
    ensures var m := MergeObjects(regions, objects, n).value; var all := AllSections(objects, n);
      MergeObject(regions, all, |all|) == Ok((m.0, Flat(m.1)))
  {
    hide MergeObject;
    if n > 0 {
      MergeFlat(regions, objects, n - 1);
      var before := MergeObjects(regions, objects, n - 1).value;
      var last := MergeObject(before.0, objects[n - 1].sections, |objects[n - 1].sections|).value;
      MergeSplit(regions, AllSections(objects, n - 1), objects[n - 1].sections, |objects[n - 1].sections|);
      assert (before.1 + [last.1])[..n - 1] == before.1;
    } else {
      MergeNothing(regions);
    }
  }

  lemma MergeNothing(regions: seq<OutputRegion>)
    requires |regions| == 4
    ensures MergeObject(regions, [], 0) == Ok((regions, []))
  {
  }

  // ----- the layout -----

  ghost predicate RegionOk(g: nat, region: OutputRegion)
    requires g < 4
  {
    && region.kind == SECTION_ORDER[g] && region.size <= REGION_SIZE
    && (if region.ZeroFilled() then region.data == [] else |region.data| == region.size)
  }

  /** The section lies in its region, aligned, with its bytes. */
  ghost predicate PlacedOk(section: ObjectSection, placement: Placement, regions: seq<OutputRegion>)
    requires |regions| == 4
  {
    match section.kind
    case None => placement.Unplaced?
    case Some(kind) =>
      && placement.Placed? && placement.region == RegionIndex(kind)
      && (section.alignment > 1 ==> placement.offset % section.alignment == 0)
      && placement.offset + section.size <= regions[placement.region].size
      && (kind.Bss? || Holds(regions[placement.region].data, placement.offset, section))
  }

  ghost predicate Holds(data: seq<u8>, offset: nat, section: ObjectSection) {
    offset + section.size <= |data| && data[offset..offset + section.size] == Resized(section.data, section.size)
  }

  /** Byte p of region g belongs to some section. */
  ghost predicate Covered(sections: seq<ObjectSection>, placed: seq<Placement>, g: nat, p: nat)
    requires |placed| == |sections|
  {
    exists k :: 0 <= k < |sections| && Covers(sections[k], placed[k], g, p)
  }

  predicate Covers(section: ObjectSection, placement: Placement, g: nat, p: nat) {
    placement.Placed? && placement.region == g && placement.offset <= p < placement.offset + section.size
  }

  /** One section ends before another of the same region begins. */
  ghost predicate Before(section: ObjectSection, placement: Placement, later: Placement) {
    placement.Placed? && later.Placed? && placement.region == later.region ==> placement.offset + section.size <= later.offset
  }

  ghost predicate LaidOut(sections: seq<ObjectSection>, placed: seq<Placement>, regions: seq<OutputRegion>) {
    && |placed| == |sections| && |regions| == 4
    && (forall g :: 0 <= g < 4 ==> RegionOk(g, regions[g]))
    && (forall k :: 0 <= k < |sections| ==> PlacedOk(sections[k], placed[k], regions))
    && (forall j, k :: 0 <= j < k < |sections| ==> Before(sections[j], placed[j], placed[k]))
    && (forall g, p :: 0 <= g < 4 && 0 <= p < |regions[g].data| && !Covered(sections, placed, g, p) ==> regions[g].data[p] == 0)
  }

  ghost predicate Empty(regions: seq<OutputRegion>) {
    |regions| == 4 && forall g :: 0 <= g < 4 ==> RegionOk(g, regions[g]) && regions[g].size == 0
  }

  /** Appending keeps what a region holds, pads with zeros and copies the section. */
  lemma AppendedMeans(g: nat, region: OutputRegion, section: ObjectSection)
    requires g < 4 && RegionOk(g, region) && section.kind == Some(SECTION_ORDER[g])
    requires var offset := AlignUp(region.size, section.alignment); offset <= REGION_SIZE && section.size <= REGION_SIZE - offset
    ensures var offset := AlignUp(region.size, section.alignment);
            var after := Appended(region, offset, section);
      && RegionOk(g, after) && region.size <= offset && after.size == offset + section.size && after.base == region.base
      && region.data <= after.data
      && (region.ZeroFilled() || Holds(after.data, offset, section))
      && (forall p :: |region.data| <= p < |after.data| && !(offset <= p < offset + section.size) ==> after.data[p] == 0)
  {
    var offset := AlignUp(region.size, section.alignment);
    var after := Appended(region, offset, section);
    if !region.ZeroFilled() {
      var padded := Resized(region.data, offset);
      assert after.data == padded + Resized(section.data, section.size);
      assert padded[..|region.data|] == region.data;
    }
  }

  lemma PlacedStays(section: ObjectSection, placement: Placement, regions: seq<OutputRegion>, g: nat, after: OutputRegion)
    requires |regions| == 4 && g < 4 && PlacedOk(section, placement, regions)
    requires regions[g].data <= after.data && regions[g].size <= after.size
    ensures PlacedOk(section, placement, regions[g := after])
  {
    if placement.Placed? && placement.region == g && !section.kind.value.Bss? {
      assert after.data[placement.offset..placement.offset + section.size]
          == regions[g].data[placement.offset..placement.offset + section.size];
    }
  }

  /** One more section. */
  lemma MergeStep(sections: seq<ObjectSection>, placed: seq<Placement>, regions: seq<OutputRegion>, section: ObjectSection)
    requires LaidOut(sections, placed, regions) && MergeSection(regions, section).Ok?
    ensures var m := MergeSection(regions, section).value; LaidOut(sections + [section], placed + [m.1], m.0)
  {
    hide PlacedOk, RegionOk, Appended, AlignUp;
    var m := MergeSection(regions, section).value;
    var all, ps := sections + [section], placed + [m.1];
    if section.kind.None? {
      NothingPlaced(section, regions);
      forall g, p | 0 <= g < 4 && 0 <= p < |regions[g].data| && !Covered(all, ps, g, p)
        ensures regions[g].data[p] == 0
      {
        CoveredGrows(sections, placed, section, m.1, g, p);
      }
    } else {
      var g := RegionIndex(section.kind.value);
      SizedRegion(g, regions[g]);
      AppendedMeans(g, regions[g], section);
      forall k | 0 <= k < |sections|
        ensures PlacedOk(sections[k], placed[k], m.0) && Before(sections[k], placed[k], m.1)
      {
        PlacedStays(sections[k], placed[k], regions, g, m.0[g]);
        PlacedInside(sections[k], placed[k], regions);
      }
      NewPlaced(regions, section);
      forall h, p | 0 <= h < 4 && 0 <= p < |m.0[h].data| && !Covered(all, ps, h, p)
        ensures m.0[h].data[p] == 0
      {
        CoveredGrows(sections, placed, section, m.1, h, p);
      }
    }
  }

  lemma NothingPlaced(section: ObjectSection, regions: seq<OutputRegion>)
    requires |regions| == 4 && section.kind.None?
    ensures PlacedOk(section, Unplaced, regions)
  {
  }

  lemma SizedRegion(g: nat, region: OutputRegion)
    requires g < 4 && RegionOk(g, region)
    ensures region.kind == SECTION_ORDER[g] && (region.ZeroFilled() || |region.data| == region.size)
  {
  }

  lemma PlacedInside(section: ObjectSection, placement: Placement, regions: seq<OutputRegion>)
    requires |regions| == 4 && PlacedOk(section, placement, regions)
    ensures placement.Placed? ==> placement.region < 4 && placement.offset + section.size <= regions[placement.region].size
  {
  }

  lemma NewPlaced(regions: seq<OutputRegion>, section: ObjectSection)
    requires |regions| == 4 && section.kind.Some? && MergeSection(regions, section).Ok?
    requires RegionOk(RegionIndex(section.kind.value), regions[RegionIndex(section.kind.value)])
    ensures var m := MergeSection(regions, section).value;
      && PlacedOk(section, m.1, m.0)
      && m.1 == Placed(RegionIndex(section.kind.value), AlignUp(regions[RegionIndex(section.kind.value)].size, section.alignment))
  {
    hide Appended, Resized;
    AppendedMeans(RegionIndex(section.kind.value), regions[RegionIndex(section.kind.value)], section);
  }

  lemma CoveredGrows(sections: seq<ObjectSection>, placed: seq<Placement>, section: ObjectSection, placement: Placement, g: nat, p: nat)
    requires |placed| == |sections| && !Covered(sections + [section], placed + [placement], g, p)
    ensures !Covered(sections, placed, g, p) && !Covers(section, placement, g, p)
  {
    var all, ps := sections + [section], placed + [placement];
    assert all[|sections|] == section && ps[|sections|] == placement;
    assert forall k :: 0 <= k < |sections| ==> all[k] == sections[k] && ps[k] == placed[k];
  }

  lemma {:induction false} MergedLayout(regions: seq<OutputRegion>, sections: seq<ObjectSection>, n: nat)
    requires Empty(regions) && n <= |sections| && MergeObject(regions, sections, n).Ok?
    ensures var m := MergeObject(regions, sections, n).value;
      LaidOut(sections[..n], m.1, m.0) && forall g :: 0 <= g < 4 ==> m.0[g].base == regions[g].base
  {
    hide RegionOk, MergeSection, LaidOut;
    if n == 0 {
      EmptyLayout(regions);
    } else {
      MergedLayout(regions, sections, n - 1);
      var before := MergeObject(regions, sections, n - 1).value;
      MergeStep(sections[..n - 1], before.1, before.0, sections[n - 1]);
      MergeKeepsBases(before.0, sections[n - 1]);
      assert sections[..n] == sections[..n - 1] + [sections[n - 1]];
    }
  }

  lemma EmptyLayout(regions: seq<OutputRegion>)
    requires Empty(regions)
    ensures LaidOut([], [], regions)
  {
  }

  lemma MergeKeepsBases(regions: seq<OutputRegion>, section: ObjectSection)
    requires |regions| == 4 && MergeSection(regions, section).Ok?
    ensures forall g :: 0 <= g < 4 ==> MergeSection(regions, section).value.0[g].base == regions[g].base
  {
  }

  lemma InitialEmpty(options: LinkOptions)
    requires options.Valid()
    ensures Empty(InitialRegions(options))
    ensures forall g :: 0 <= g < 4 ==> InitialRegions(options)[g].base == options.bases[g]
  {
  }

  /** `mergeSections`: every section of every object is placed in its region, in input order and
      apart from the others, at a multiple of its alignment, with its bytes copied; the gaps are zero
      and no region grows past its size. */
  lemma LayoutOfLink(objects: seq<ObjectFile>, options: LinkOptions)
    requires options.Valid() && MergeObjects(InitialRegions(options), objects, |objects|).Ok?
    ensures var m := MergeObjects(InitialRegions(options), objects, |objects|).value;
      && LaidOut(AllSections(objects, |objects|), Flat(m.1), m.0)
      && forall g :: 0 <= g < 4 ==> m.0[g].base == options.bases[g]
  {
    hide LaidOut, MergeObject, MergeObjects, InitialRegions, Empty;
    var all := AllSections(objects, |objects|);
    InitialEmpty(options);
    MergeFlat(InitialRegions(options), objects, |objects|);
    MergedLayout(InitialRegions(options), all, |all|);
    assert all[..|all|] == all;
  }

  /** Rounding an offset inside a region up to any alignment does not wrap around. */
  lemma AlignUpNoWrap(value: u64, alignment: u64)
    requires value <= REGION_SIZE
    ensures AlignUp(value, alignment) < TWO64
  {
    if 0 < value < alignment {
      SmallRemainder(value, alignment);
    }
  }

  lemma SmallRemainder(value: nat, alignment: nat)
    requires value < alignment
    ensures value % alignment == value
  {
    Bits.DivModUnique(value, alignment, 0, value);
  }
}
