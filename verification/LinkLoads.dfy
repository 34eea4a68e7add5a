/** Which images the machine can load, and that every successful link with the default bases is one. */
module LinkLoads {
  import opened Words
  import opened Memory
  import opened Syscall
  import opened ControlFlowGraph
  import opened AssemblySpec
  import opened Executables
  import opened LinkSpec
  import opened LinkLayout
  import opened LinkProof
  import opened Relocations
  import opened VmSpec
  import opened VmInvariant

  predicate ClearOf(s: Segment, base: u64, size: u64) {
    !(base < s.address + s.size && s.address < base + size)
  }

  /** Mapping valid segments never fails. */
  lemma {:induction false} SegmentsMap(segments: seq<Segment>, n: nat)
    requires n <= |segments| && forall k :: 0 <= k < |segments| ==> SegmentFault(segments[k]).None?
    requires forall j, k :: 0 <= j < k < |segments| ==> !Overlap(segments[j], segments[k])
    ensures MapSegments(segments, n).Ok?
  {
    if n > 0 {
      hide AddRegion;
      SegmentsMap(segments, n - 1);
      SegmentsMapped(segments, n - 1);
      var m := MapSegments(segments, n - 1).value;
      var s := segments[n - 1];
      forall k | 0 <= k < |m.regions|
        ensures !(s.address < m.regions[k].base + m.regions[k].size && m.regions[k].base < s.address + s.size)
      {
        assert Maps(segments[k], m.regions[k]) && !Overlap(segments[k], s);
      }
      RegionFits(m, RegionName(s.kind), s.address, s.size, PermissionsOf(s.flags), s.data);
    }
  }

  lemma RegionFits(m: Memory, name: string, base: u64, size: u64, permissions: Permission, initial: seq<u8>)
    requires size > 0 && base + size < TWO64
    ensures AddRegion(m, name, base, size, permissions, initial).Some? <==>
      forall k :: 0 <= k < |m.regions| ==> !(base < m.regions[k].base + m.regions[k].size && m.regions[k].base < base + size)
  {
  }

  /** An image loads exactly when it is valid and clear of the stack and of the heap. */
  lemma LoadsIff(e: Executable, world: World)
    ensures LoadImage(e, world).Ok? <==>
      && Validate(e).None?
      && forall k :: 0 <= k < |e.segments| ==>
           ClearOf(e.segments[k], STACK_LIMIT, STACK_SIZE) && ClearOf(e.segments[k], HEAP_BASE, HEAP_SIZE)
  {
    hide AddRegion, Validate, MapSegments;
    if Validate(e).None? {
      ValidImage(e);
      SegmentsMap(e.segments, |e.segments|);
      SegmentsMapped(e.segments, |e.segments|);
      var image := MapSegments(e.segments, |e.segments|).value;
      RegionFits(image, "stack", STACK_LIMIT, STACK_SIZE, READ_WRITE, []);
      RegionsAreSegments(e.segments, image, STACK_LIMIT, STACK_SIZE);
      if AddRegion(image, "stack", STACK_LIMIT, STACK_SIZE, READ_WRITE, []).Some? {
        var stack := AddRegion(image, "stack", STACK_LIMIT, STACK_SIZE, READ_WRITE, []).value;
        AddedRegion(image, "stack", STACK_LIMIT, STACK_SIZE, READ_WRITE, []);
        RegionFits(stack, "heap", HEAP_BASE, HEAP_SIZE, READ_WRITE, []);
        RegionsAreSegments(e.segments, image, HEAP_BASE, HEAP_SIZE);
        HeapClear(image, stack);
      }
    }
  }

  lemma RegionsAreSegments(segments: seq<Segment>, m: Memory, base: u64, size: u64)
    requires |m.regions| == |segments| && forall k :: 0 <= k < |segments| ==> Maps(segments[k], m.regions[k])
    ensures (forall k :: 0 <= k < |segments| ==> ClearOf(segments[k], base, size)) <==>
      forall k :: 0 <= k < |m.regions| ==> !(base < m.regions[k].base + m.regions[k].size && m.regions[k].base < base + size)
  {
    forall k | 0 <= k < |segments|
      ensures ClearOf(segments[k], base, size) <==> !(base < m.regions[k].base + m.regions[k].size && m.regions[k].base < base + size)
    {
      assert Maps(segments[k], m.regions[k]);
    }
  }

  /** The stack is out of the way of the heap. */
  lemma HeapClear(image: Memory, stack: Memory)
    requires |stack.regions| == |image.regions| + 1 && stack.regions[..|image.regions|] == image.regions
    requires stack.regions[|image.regions|].base == STACK_LIMIT && stack.regions[|image.regions|].size == STACK_SIZE
    ensures (forall k :: 0 <= k < |image.regions| ==>
               !(HEAP_BASE < image.regions[k].base + image.regions[k].size && image.regions[k].base < HEAP_BASE + HEAP_SIZE))
      <==> (forall k :: 0 <= k < |stack.regions| ==>
               !(HEAP_BASE < stack.regions[k].base + stack.regions[k].size && stack.regions[k].base < HEAP_BASE + HEAP_SIZE))
  {
    assert forall k :: 0 <= k < |image.regions| ==> stack.regions[k] == stack.regions[..|image.regions|][k] == image.regions[k];
  }

  lemma {:induction false} SegmentFrom(regions: seq<OutputRegion>, n: nat, k: nat) returns (g: nat)
    requires n <= |regions| && k < |SegmentsOf(regions, n)|
    ensures g < n && SegmentsOf(regions, n)[k] == SegmentOf(regions[g])
  {
    if k < |SegmentsOf(regions, n - 1)| {
      g := SegmentFrom(regions, n - 1, k);
    } else {
      g := n - 1;
    }
  }

  /** With the default bases no region reaches the next one, the stack or the heap: whatever links,
      loads. */
  lemma DefaultLinkLoads(objects: seq<ObjectFile>, options: LinkOptions, world: World)
    requires options.Valid() && options.bases == DEFAULT_BASES && Link(objects, options).Ok?
    ensures LoadImage(Link(objects, options).value, world).Ok?
  {
    hide LoadImage, Link, LinkStages, LaidOut, MergeObjects, InitialRegions;
    var e := Link(objects, options).value;
    var t := LinkHasStages(objects, options);
    LinkedLayout(objects, options, t);
    forall k | 0 <= k < |e.segments|
      ensures ClearOf(e.segments[k], STACK_LIMIT, STACK_SIZE) && ClearOf(e.segments[k], HEAP_BASE, HEAP_SIZE)
    {
      var g := SegmentFrom(t.patched, 4, k);
    }
    LoadsIff(e, world);
  }

  lemma LinkedLayout(objects: seq<ObjectFile>, options: LinkOptions, t: Stages)
    requires options.Valid() && LinkStages(objects, options, t)
    ensures |t.patched| == 4 && forall g :: 0 <= g < 4 ==> t.patched[g].base == options.bases[g] && t.patched[g].size <= REGION_SIZE
  {
    hide LaidOut, MergeObjects, InitialRegions, FoldPatches, DefineObjects, CheckObjects, ApplyObjects, RelocatedAll;
    LayoutOfLink(objects, options);
    LaidOutArranged(AllSections(objects, |objects|), Flat(t.placements), t.merged);
    var ps := AllPatches(options.bases, t.placements, t.defs, objects, |objects|);
    ObjectsFold(options.bases, t.placements, t.defs, objects, t.merged, |objects|);
    PatchRegions(options.bases, t.placements, t.defs, objects, |objects|);
    forall g | 0 <= g < 4
      ensures t.patched[g].base == options.bases[g] && t.patched[g].size <= REGION_SIZE
    {
      FoldByRegion(t.merged, ps, g);
    }
  }
}
