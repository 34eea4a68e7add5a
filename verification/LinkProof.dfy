/** Relocations of a whole link: every site ends up with the value its formula gives, computed on the
    merged bytes, and every other byte stays as it was merged. */
module LinkProof {
  import opened Words
  import opened Relocations
  import opened Symbols
  import opened ControlFlowGraph
  import opened AssemblySpec
  import opened LinkSpec
  import opened LinkLayout

  // ----- one list of patches -----

  /** The patch of relocation r, of an object placed at `placements`. */
  function PatchOf(bases: seq<u64>, placements: seq<Placement>, defs: Definitions, unit: ObjectFile, r: nat): Patch
    requires |bases| == 4 && r < |unit.relocations|
  {
    var p := ResolvePatch(bases, placements, defs, unit.symbols, unit.relocations[r]);
    if p.Ok? then p.value else Patch(0, Resolved(unit.relocations[r], 0))
  }

  function Patches(bases: seq<u64>, placements: seq<Placement>, defs: Definitions, unit: ObjectFile, n: nat): (ps: seq<Patch>)
    requires |bases| == 4 && n <= |unit.relocations|
    ensures |ps| == n
  {
    seq(n, r requires 0 <= r < n => PatchOf(bases, placements, defs, unit, r))
  }

  function AllPatches(bases: seq<u64>, placements: seq<seq<Placement>>, defs: Definitions, objects: seq<ObjectFile>, n: nat): seq<Patch>
    requires |bases| == 4 && n <= |objects| == |placements|
  {
    if n == 0 then []
    else AllPatches(bases, placements, defs, objects, n - 1)
         + Patches(bases, placements[n - 1], defs, objects[n - 1], |objects[n - 1].relocations|)
  }

  function FoldPatches(regions: seq<OutputRegion>, ps: seq<Patch>): (r: Result<seq<OutputRegion>, LinkError>)
    requires |regions| == 4
    ensures r.Ok? ==> |r.value| == 4
  {
    if ps == [] then Ok(regions)
    else
      var before := FoldPatches(regions, ps[..|ps| - 1]);
      if before.Err? || ps[|ps| - 1].region >= 4 then before else ApplyPatch(before.value, ps[|ps| - 1])
  }

  lemma FoldSnoc(regions: seq<OutputRegion>, ps: seq<Patch>, p: Patch)
    requires |regions| == 4 && FoldPatches(regions, ps).Ok? && p.region < 4
    ensures FoldPatches(regions, ps + [p]) == ApplyPatch(FoldPatches(regions, ps).value, p)
  {
    assert (ps + [p])[..|ps|] == ps;
  }

  lemma {:induction false} ApplyFolds(
    bases: seq<u64>, placements: seq<Placement>, defs: Definitions, unit: ObjectFile,
    start: seq<OutputRegion>, ps: seq<Patch>, regions: seq<OutputRegion>, n: nat)
    requires |bases| == 4 == |regions| == |start| && n <= |unit.relocations|
    requires FoldPatches(start, ps) == Ok(regions)
    requires ApplyAll(bases, placements, defs, unit, regions, n).Ok?
    ensures FoldPatches(start, ps + Patches(bases, placements, defs, unit, n)) == ApplyAll(bases, placements, defs, unit, regions, n)
    ensures forall r :: 0 <= r < n ==> ResolvePatch(bases, placements, defs, unit.symbols, unit.relocations[r]).Ok?
  {
    hide ApplyPatch, ResolvePatch;
    var all := Patches(bases, placements, defs, unit, n);
    if n == 0 {
      assert ps + all == ps;
    } else {
      ApplyFolds(bases, placements, defs, unit, start, ps, regions, n - 1);
      var before := Patches(bases, placements, defs, unit, n - 1);
      FoldSnoc(start, ps + before, all[n - 1]);
      assert ps + all == ps + before + [all[n - 1]];
    }
  }

  lemma FoldNothing(regions: seq<OutputRegion>)
    requires |regions| == 4
    ensures FoldPatches(regions, []) == Ok(regions)
  {
  }

  lemma {:induction false} ObjectsFold(
    bases: seq<u64>, placements: seq<seq<Placement>>, defs: Definitions, objects: seq<ObjectFile>, regions: seq<OutputRegion>, n: nat)
    requires |bases| == 4 == |regions| && n <= |objects| == |placements|
    requires ApplyObjects(bases, placements, defs, objects, regions, n).Ok?
    ensures FoldPatches(regions, AllPatches(bases, placements, defs, objects, n)) == ApplyObjects(bases, placements, defs, objects, regions, n)
    ensures forall i, r :: 0 <= i < n && 0 <= r < |objects[i].relocations| ==>
      ResolvePatch(bases, placements[i], defs, objects[i].symbols, objects[i].relocations[r]).Ok?
  {
    hide ApplyAll, Patches, ResolvePatch, FoldPatches;
    if n == 0 {
      assert FoldPatches(regions, []) == Ok(regions) by { FoldNothing(regions); }
    } else {
      ObjectsFold(bases, placements, defs, objects, regions, n - 1);
      ApplyFolds(bases, placements[n - 1], defs, objects[n - 1], regions, AllPatches(bases, placements, defs, objects, n - 1),
                 ApplyObjects(bases, placements, defs, objects, regions, n - 1).value, |objects[n - 1].relocations|);
    }
  }

  // ----- region by region -----

  /** The patches of region g, in order. */
  function Only(ps: seq<Patch>, g: nat): seq<Resolved> {
    if ps == [] then []
    else Only(ps[..|ps| - 1], g) + (if ps[|ps| - 1].region == g then [ps[|ps| - 1].patch] else [])
  }

  lemma {:induction false} FoldByRegion(regions: seq<OutputRegion>, ps: seq<Patch>, g: nat)
    requires |regions| == 4 && g < 4 && FoldPatches(regions, ps).Ok? && forall x :: 0 <= x < |ps| ==> ps[x].region < 4
    ensures var after := FoldPatches(regions, ps).value[g];
      && RelocatedAll(regions[g].data, regions[g].base, Only(ps, g)) == Ok(after.data)
      && after == regions[g].(data := after.data)
  {
    hide Relocated;
    if ps != [] {
      var init, last := ps[..|ps| - 1], ps[|ps| - 1];
      FoldByRegion(regions, init, g);
      if last.region == g {
        assert (Only(init, g) + [last.patch])[..|Only(init, g)|] == Only(init, g);
      } else {
        assert Only(ps, g) == Only(init, g);
      }
    }
  }

  ghost predicate PairwiseApart(ps: seq<Patch>) {
    forall x, y :: 0 <= x < y < |ps| && ps[x].region == ps[y].region ==> Apart(ps[x].patch.relocation, ps[y].patch.relocation)
  }

  lemma {:induction false} OnlyFrom(ps: seq<Patch>, g: nat, q: nat) returns (x: nat)
    requires q < |Only(ps, g)|
    ensures x < |ps| && ps[x].region == g && Only(ps, g)[q] == ps[x].patch
  {
    var init := ps[..|ps| - 1];
    if q < |Only(init, g)| {
      x := OnlyFrom(init, g, q);
    } else {
      x := |ps| - 1;
    }
  }

  lemma {:induction false} OnlyAt(ps: seq<Patch>, x: nat) returns (q: nat)
    requires x < |ps|
    ensures q < |Only(ps, ps[x].region)| && Only(ps, ps[x].region)[q] == ps[x].patch
  {
    var init := ps[..|ps| - 1];
    if x < |ps| - 1 {
      q := OnlyAt(init, x);
    } else {
      q := |Only(init, ps[x].region)|;
    }
  }

  lemma {:induction false} OnlyApart(ps: seq<Patch>, g: nat)
    requires PairwiseApart(ps)
    ensures AllApart(Only(ps, g))
  {
    if ps != [] {
      hide Apart;
      var init, last := ps[..|ps| - 1], ps[|ps| - 1];
      OnlyApart(init, g);
      forall i, j | 0 <= i < j < |Only(ps, g)|
        ensures Apart(Only(ps, g)[i].relocation, Only(ps, g)[j].relocation)
      {
        if j == |Only(init, g)| {
          var x := OnlyFrom(init, g, i);
          assert ps[x] == init[x];
        }
      }
    }
  }

  // ----- sites of an object -----

  /** Every relocation lies in its section, apart from the others of the section. */
  ghost predicate SitesOk(unit: ObjectFile) {
    && (forall r :: 0 <= r < |unit.relocations| ==> SiteInside(unit, unit.relocations[r]))
    && (forall r, r' :: 0 <= r < r' < |unit.relocations| && unit.relocations[r].section == unit.relocations[r'].section ==>
         Apart(unit.relocations[r], unit.relocations[r']))
  }

  ghost predicate SiteInside(unit: ObjectFile, r: Relocation) {
    r.section < |unit.sections| ==> r.offset + RelocationWidth(r.kind) <= unit.sections[r.section].size
  }

  /** The patch lies in a placed section. */
  ghost predicate Lies(p: Patch, section: ObjectSection, placement: Placement) {
    && placement.Placed? && placement.region == p.region
    && placement.offset <= p.patch.relocation.offset
    && p.patch.relocation.offset + RelocationWidth(p.patch.relocation.kind) <= placement.offset + section.size
  }

  ghost predicate LiesSomewhere(p: Patch, sections: seq<ObjectSection>, placed: seq<Placement>) {
    exists k :: 0 <= k < |sections| && k < |placed| && Lies(p, sections[k], placed[k])
  }

  lemma PatchLies(bases: seq<u64>, placements: seq<Placement>, defs: Definitions, unit: ObjectFile, r: nat, regions: seq<OutputRegion>)
    requires |bases| == 4 && r < |unit.relocations| && |placements| == |unit.sections| && SiteInside(unit, unit.relocations[r])
    requires ResolvePatch(bases, placements, defs, unit.symbols, unit.relocations[r]).Ok?
    requires |regions| == 4 && forall g :: 0 <= g < 4 ==> regions[g].size <= REGION_SIZE
    requires forall k :: 0 <= k < |placements| ==> PlacedOk(unit.sections[k], placements[k], regions)
    ensures var p := PatchOf(bases, placements, defs, unit, r);
            var s := unit.relocations[r].section;
      && s < |placements| && placements[s].Placed? && Lies(p, unit.sections[s], placements[s])
      && p.patch.relocation == unit.relocations[r].(offset := placements[s].offset + unit.relocations[r].offset)
  {
    hide SymbolAddress, Holds;
    var s := unit.relocations[r].section;
    assert PlacedOk(unit.sections[s], placements[s], regions);
  }

  lemma SameSectionApart(p: Patch, q: Patch, a: Relocation, b: Relocation, offset: nat)
    requires Apart(a, b) && p.patch.relocation.kind == a.kind && q.patch.relocation.kind == b.kind
    requires p.patch.relocation.offset == offset + a.offset && q.patch.relocation.offset == offset + b.offset
    ensures Apart(p.patch.relocation, q.patch.relocation)
  {
  }

  lemma OtherSectionApart(p: Patch, q: Patch, a: ObjectSection, b: ObjectSection, pa: Placement, pb: Placement)
    requires Lies(p, a, pa) && Lies(q, b, pb) && (Before(a, pa, pb) || Before(b, pb, pa))
    ensures p.region == q.region ==> Apart(p.patch.relocation, q.patch.relocation)
  {
  }

  /** The patches of one object do not meet. */
  lemma ObjectApart(bases: seq<u64>, placements: seq<Placement>, defs: Definitions, unit: ObjectFile, regions: seq<OutputRegion>)
    requires |bases| == 4 && SitesOk(unit) && |placements| == |unit.sections|
    requires forall r :: 0 <= r < |unit.relocations| ==> ResolvePatch(bases, placements, defs, unit.symbols, unit.relocations[r]).Ok?
    requires |regions| == 4 && forall g :: 0 <= g < 4 ==> regions[g].size <= REGION_SIZE
    requires forall k :: 0 <= k < |placements| ==> PlacedOk(unit.sections[k], placements[k], regions)
    requires forall j, k :: 0 <= j < k < |placements| ==> Before(unit.sections[j], placements[j], placements[k])
    ensures PairwiseApart(Patches(bases, placements, defs, unit, |unit.relocations|))
    ensures forall x :: 0 <= x < |unit.relocations| ==>
      LiesSomewhere(Patches(bases, placements, defs, unit, |unit.relocations|)[x], unit.sections, placements)
  {
    hide ResolvePatch, Apart, Before, PlacedOk, Lies, PatchOf;
    var ps := Patches(bases, placements, defs, unit, |unit.relocations|);
    forall x | 0 <= x < |ps|
      ensures LiesSomewhere(ps[x], unit.sections, placements)
    {
      PatchLies(bases, placements, defs, unit, x, regions);
    }
    forall x, y | 0 <= x < y < |ps| && ps[x].region == ps[y].region
      ensures Apart(ps[x].patch.relocation, ps[y].patch.relocation)
    {
      PatchLies(bases, placements, defs, unit, x, regions);
      PatchLies(bases, placements, defs, unit, y, regions);
      var s, t := unit.relocations[x].section, unit.relocations[y].section;
      if s == t {
        SameSectionApart(ps[x], ps[y], unit.relocations[x], unit.relocations[y], placements[s].offset);
      } else if s < t {
        assert Before(unit.sections[s], placements[s], placements[t]);
        OtherSectionApart(ps[x], ps[y], unit.sections[s], unit.sections[t], placements[s], placements[t]);
      } else {
        assert Before(unit.sections[t], placements[t], placements[s]);
        OtherSectionApart(ps[x], ps[y], unit.sections[s], unit.sections[t], placements[s], placements[t]);
      }
    }
  }

  /** A list of patches in front of another one whose patches lie in later sections. */
  lemma ApartConcat(a: seq<Patch>, b: seq<Patch>, sa: seq<ObjectSection>, pa: seq<Placement>, sb: seq<ObjectSection>, pb: seq<Placement>)
    requires PairwiseApart(a) && PairwiseApart(b) && |sa| == |pa| && |sb| == |pb|
    requires forall x :: 0 <= x < |a| ==> LiesSomewhere(a[x], sa, pa)
    requires forall y :: 0 <= y < |b| ==> LiesSomewhere(b[y], sb, pb)
    requires forall j, k :: 0 <= j < |sa| && 0 <= k < |sb| ==> Before(sa[j], pa[j], pb[k])
    ensures PairwiseApart(a + b)
    ensures forall x :: 0 <= x < |a + b| ==> LiesSomewhere((a + b)[x], sa + sb, pa + pb)
  {
    hide Apart, Before, Lies;
    forall x | 0 <= x < |a + b|
      ensures LiesSomewhere((a + b)[x], sa + sb, pa + pb)
    {
      if x < |a| {
        var k :| 0 <= k < |sa| && Lies(a[x], sa[k], pa[k]);
        assert (sa + sb)[k] == sa[k] && (pa + pb)[k] == pa[k];
      } else {
        var k :| 0 <= k < |sb| && Lies(b[x - |a|], sb[k], pb[k]);
        assert (sa + sb)[|sa| + k] == sb[k] && (pa + pb)[|sa| + k] == pb[k];
      }
    }
    forall x, y | 0 <= x < |a| && 0 <= y < |b| && a[x].region == b[y].region
      ensures Apart(a[x].patch.relocation, b[y].patch.relocation)
    {
      var j :| 0 <= j < |sa| && Lies(a[x], sa[j], pa[j]);
      var k :| 0 <= k < |sb| && Lies(b[y], sb[k], pb[k]);
      OtherSectionApart(a[x], b[y], sa[j], sb[k], pa[j], pb[k]);
    }
  }

  /** What of the layout keeps patches apart. */
  ghost predicate Arranged(sections: seq<ObjectSection>, placed: seq<Placement>, regions: seq<OutputRegion>) {
    && |placed| == |sections| && |regions| == 4
    && (forall g :: 0 <= g < 4 ==> regions[g].size <= REGION_SIZE)
    && (forall k :: 0 <= k < |sections| ==> PlacedOk(sections[k], placed[k], regions))
    && (forall j, k :: 0 <= j < k < |sections| ==> Before(sections[j], placed[j], placed[k]))
  }

  lemma {:induction false} LinkApart(
    bases: seq<u64>, placements: seq<seq<Placement>>, defs: Definitions, objects: seq<ObjectFile>, regions: seq<OutputRegion>, n: nat)
    requires |bases| == 4 == |regions| && n <= |objects| == |placements|
    requires forall i :: 0 <= i < n ==> SitesOk(objects[i]) && |placements[i]| == |objects[i].sections|
    requires forall i, r :: 0 <= i < n && 0 <= r < |objects[i].relocations| ==>
      ResolvePatch(bases, placements[i], defs, objects[i].symbols, objects[i].relocations[r]).Ok?
    requires Arranged(AllSections(objects, n), Flat(placements[..n]), regions)
    ensures PairwiseApart(AllPatches(bases, placements, defs, objects, n))
    ensures forall x :: 0 <= x < |AllPatches(bases, placements, defs, objects, n)| ==>
      LiesSomewhere(AllPatches(bases, placements, defs, objects, n)[x], AllSections(objects, n), Flat(placements[..n]))
  {
    hide ResolvePatch, Before, PlacedOk, LiesSomewhere, PairwiseApart, SitesOk, Patches, RegionOk, Covered;
    if n > 0 {
      var sa, sb := AllSections(objects, n - 1), objects[n - 1].sections;
      var pa, pb := Flat(placements[..n - 1]), placements[n - 1];
      assert placements[..n][..n - 1] == placements[..n - 1];
      FlatLength(objects, placements, n - 1);
      ArrangedParts(sa, pa, sb, pb, regions);
      LinkApartStart(bases, placements, defs, objects, n);
      LinkApart(bases, placements, defs, objects, regions, n - 1);
      ObjectApart(bases, pb, defs, objects[n - 1], regions);
      ApartConcat(AllPatches(bases, placements, defs, objects, n - 1),
                  Patches(bases, pb, defs, objects[n - 1], |objects[n - 1].relocations|), sa, pa, sb, pb);
    } else {
      NothingApart();
    }
  }

  lemma NothingApart()
    ensures PairwiseApart([])
  {
  }

  lemma LinkApartStart(bases: seq<u64>, placements: seq<seq<Placement>>, defs: Definitions, objects: seq<ObjectFile>, n: nat)
    requires |bases| == 4 && 0 < n <= |objects| == |placements|
    ensures AllPatches(bases, placements, defs, objects, n) == AllPatches(bases, placements, defs, objects, n - 1)
         + Patches(bases, placements[n - 1], defs, objects[n - 1], |objects[n - 1].relocations|)
  {
  }

  lemma {:induction false} FlatLength(objects: seq<ObjectFile>, placements: seq<seq<Placement>>, n: nat)
    requires n <= |objects| == |placements| && forall i :: 0 <= i < n ==> |placements[i]| == |objects[i].sections|
    ensures |Flat(placements[..n])| == |AllSections(objects, n)|
  {
    if n > 0 {
      assert placements[..n][..n - 1] == placements[..n - 1];
      FlatLength(objects, placements, n - 1);
    }
  }

  /** A laid-out list of sections, cut in two. */
  lemma ArrangedParts(sa: seq<ObjectSection>, pa: seq<Placement>, sb: seq<ObjectSection>, pb: seq<Placement>, regions: seq<OutputRegion>)
    requires |sa| == |pa| && |sb| == |pb| && Arranged(sa + sb, pa + pb, regions)
    ensures Arranged(sa, pa, regions) && Arranged(sb, pb, regions)
    ensures forall j, k :: 0 <= j < |sa| && 0 <= k < |sb| ==> Before(sa[j], pa[j], pb[k])
  {
    hide Before, PlacedOk;
    var s, p := sa + sb, pa + pb;
    forall k | 0 <= k < |sa|
      ensures PlacedOk(sa[k], pa[k], regions)
    {
      assert PlacedOk(s[k], p[k], regions);
    }
    forall k | 0 <= k < |sb|
      ensures PlacedOk(sb[k], pb[k], regions)
    {
      assert PlacedOk(s[|sa| + k], p[|sa| + k], regions);
    }
    forall j, k | 0 <= j < k < |sa|
      ensures Before(sa[j], pa[j], pa[k])
    {
      assert Before(s[j], p[j], p[k]);
    }
    forall j, k | 0 <= j < k < |sb|
      ensures Before(sb[j], pb[j], pb[k])
    {
      assert Before(s[|sa| + j], p[|sa| + j], p[|sa| + k]);
    }
    forall j, k | 0 <= j < |sa| && 0 <= k < |sb|
      ensures Before(sa[j], pa[j], pb[k])
    {
      assert Before(s[j], p[j], p[|sa| + k]);
    }
  }

  // ----- the whole link -----

  /** The stages of a successful link. */
  datatype Stages = Stages(
    merged: seq<OutputRegion>, placements: seq<seq<Placement>>, defs: Definitions, patched: seq<OutputRegion>)

  ghost predicate LinkStages(objects: seq<ObjectFile>, options: LinkOptions, t: Stages)
    requires options.Valid()
  {
    && objects != [] && |t.placements| == |objects| && |t.merged| == 4 == |t.patched|
    && MergeObjects(InitialRegions(options), objects, |objects|) == Ok((t.merged, t.placements))
    && DefineObjects(options.bases, t.placements, objects, |objects|).Ok?
    && CheckObjects(DefineObjects(options.bases, t.placements, objects, |objects|).value, objects, |objects|) == Ok(t.defs)
    && ApplyObjects(options.bases, t.placements, t.defs, objects, t.merged, |objects|) == Ok(t.patched)
  }

  lemma LinkHasStages(objects: seq<ObjectFile>, options: LinkOptions) returns (t: Stages)
    requires options.Valid() && Link(objects, options).Ok?
    ensures LinkStages(objects, options, t) && |t.placements| == |objects| && |t.merged| == 4 == |t.patched|
    ensures Link(objects, options) == BuildExecutable(t.patched, t.defs, options.entry)
  {
    hide MergeObjects, DefineObjects, CheckObjects, ApplyObjects, BuildExecutable, InitialRegions;
    var m := MergeObjects(InitialRegions(options), objects, |objects|).value;
    var d := DefineObjects(options.bases, m.1, objects, |objects|).value;
    var defs := CheckObjects(d, objects, |objects|).value;
    t := Stages(m.0, m.1, defs, ApplyObjects(options.bases, m.1, defs, objects, m.0, |objects|).value);
  }

  /** All relocations of a link: in every region each site holds the value computed from the merged
      bytes, every other byte is as merged, and nothing but the bytes has changed. */
  lemma RelocationsOfLink(objects: seq<ObjectFile>, options: LinkOptions, t: Stages, g: nat)
    requires options.Valid() && LinkStages(objects, options, t) && g < 4
    requires forall i :: 0 <= i < |objects| ==> SitesOk(objects[i])
    ensures t.patched[g] == t.merged[g].(data := t.patched[g].data)
    ensures AllApplied(t.merged[g].data, options.bases[g],
              Only(AllPatches(options.bases, t.placements, t.defs, objects, |objects|), g), t.patched[g].data)
  {
    hide MergeObjects, DefineObjects, CheckObjects, ApplyObjects, InitialRegions, SitesOk, AllApplied, FoldPatches;
    var ps := AllPatches(options.bases, t.placements, t.defs, objects, |objects|);
    LayoutOfLink(objects, options);
    LaidOutArranged(AllSections(objects, |objects|), Flat(t.placements), t.merged);
    ObjectsFold(options.bases, t.placements, t.defs, objects, t.merged, |objects|);
    assert t.placements[..|objects|] == t.placements;
    LinkApart(options.bases, t.placements, t.defs, objects, t.merged, |objects|);
    PatchRegions(options.bases, t.placements, t.defs, objects, |objects|);
    FoldByRegion(t.merged, ps, g);
    OnlyApart(ps, g);
    RelocatedAllMeans(t.merged[g].data, options.bases[g], Only(ps, g));
  }

  lemma LaidOutArranged(sections: seq<ObjectSection>, placed: seq<Placement>, regions: seq<OutputRegion>)
    requires LaidOut(sections, placed, regions)
    ensures Arranged(sections, placed, regions)
  {
    hide Before, PlacedOk, Covered;
  }

  lemma {:induction false} PatchRegions(
    bases: seq<u64>, placements: seq<seq<Placement>>, defs: Definitions, objects: seq<ObjectFile>, n: nat)
    requires |bases| == 4 && n <= |objects| == |placements|
    ensures forall x :: 0 <= x < |AllPatches(bases, placements, defs, objects, n)| ==>
      AllPatches(bases, placements, defs, objects, n)[x].region < 4
  {
    hide ResolvePatch;
    if n > 0 {
      PatchRegions(bases, placements, defs, objects, n - 1);
    }
  }

  /** The same, relocation by relocation: relocation r of object i has a patch whose site holds S + A,
      S + A - P or the displacement of a branch to S + A. */
  lemma RelocationHolds(objects: seq<ObjectFile>, options: LinkOptions, t: Stages, i: nat, r: nat)
    requires options.Valid() && LinkStages(objects, options, t) && i < |objects| && r < |objects[i].relocations|
    requires forall k :: 0 <= k < |objects| ==> SitesOk(objects[k])
    ensures var p := PatchOf(options.bases, t.placements[i], t.defs, objects[i], r);
            var x := p.patch.relocation;
      && p.region < 3 && InBounds(t.merged[p.region].data, x) && InBounds(t.patched[p.region].data, x)
      && FieldHolds(x.kind, p.patch.address, x.addend, Place(options.bases[p.region], x),
           Field(t.merged[p.region].data, x), Field(t.patched[p.region].data, x))
  {
    hide MergeObjects, DefineObjects, CheckObjects, ApplyObjects, InitialRegions, SitesOk, FieldHolds, ResolvePatch, PatchedField;
    var ps := AllPatches(options.bases, t.placements, t.defs, objects, |objects|);
    var p := PatchOf(options.bases, t.placements[i], t.defs, objects[i], r);
    var x := p.patch.relocation;
    ObjectsFold(options.bases, t.placements, t.defs, objects, t.merged, |objects|);
    RelocationsOfLink(objects, options, t, p.region);
    var k := PatchListed(options.bases, t.placements, t.defs, objects, |objects|, i, r);
    var q := OnlyAt(ps, k);
    assert FieldApplied(t.merged[p.region].data, options.bases[p.region], Only(ps, p.region)[q], t.patched[p.region].data);
    PatchedFieldHolds(x.kind, p.patch.address, x.addend, Place(options.bases[p.region], x),
                      x.offset % 8 == 0, Field(t.merged[p.region].data, x));
  }

  lemma {:induction false} PatchListed(
    bases: seq<u64>, placements: seq<seq<Placement>>, defs: Definitions, objects: seq<ObjectFile>, n: nat, i: nat, r: nat)
    returns (x: nat)
    requires |bases| == 4 && i < n <= |objects| == |placements| && r < |objects[i].relocations|
    ensures x < |AllPatches(bases, placements, defs, objects, n)|
    ensures AllPatches(bases, placements, defs, objects, n)[x] == PatchOf(bases, placements[i], defs, objects[i], r)
  {
    hide PatchOf;
    if i == n - 1 {
      x := |AllPatches(bases, placements, defs, objects, n - 1)| + r;
    } else {
      x := PatchListed(bases, placements, defs, objects, n - 1, i, r);
    }
  }
}
