/** What a machine looks like after a successful load. */
module LoadMeaning {
  import opened Words
  import opened Memory
  import opened Syscall
  import opened Executables
  import opened VmSpec
  import opened MemoryMeaning

  /** The region holds `size` bytes from `base` on: those given, then zeros. */
  ghost predicate Maps(region: Region, base: u64, size: u64, permissions: Permission, initial: seq<u8>) {
    && region.base == base && region.size == size == |region.data| && region.permissions == permissions
    && forall k :: 0 <= k < size ==> region.data[k] == if k < |initial| then initial[k] else 0
  }

  /** A segment is mapped where it says, to be written and executed as it says; what may be executed may
      also be read. */
  ghost predicate MapsSegment(region: Region, s: Segment) {
    Maps(region, s.address, s.size, Permission(s.flags.read || s.flags.exec, s.flags.write, s.flags.exec), s.data)
  }

  lemma RegionAdded(m: Memory, name: string, base: u64, size: u64, permissions: Permission, initial: seq<u8>)
    requires AddRegion(m, name, base, size, permissions, initial).Some?
    ensures var m' := AddRegion(m, name, base, size, permissions, initial).value;
            && |m'.regions| == |m.regions| + 1 && m'.regions[..|m.regions|] == m.regions
            && m'.regions[|m.regions|].name == name && Maps(m'.regions[|m.regions|], base, size, permissions, initial)
            && m'.heapNext == (if name == "heap" then base else m.heapNext)
  {
    hide AddRegion;
    AddRegionMeans(m, name, base, size, permissions, initial);
  }

  lemma {:induction false} SegmentsMapped(segments: seq<Segment>, n: nat)
    requires n <= |segments| && MapSegments(segments, n).Ok?
    ensures |MapSegments(segments, n).value.regions| == n
    ensures forall k :: 0 <= k < n ==> MapsSegment(MapSegments(segments, n).value.regions[k], segments[k])
  {
    hide AddRegion, Maps;
    if n > 0 {
      SegmentsMapped(segments, n - 1);
      var before, after := MapSegments(segments, n - 1).value, MapSegments(segments, n).value;
      var s := segments[n - 1];
      RegionAdded(before, RegionName(s.kind), s.address, s.size, PermissionsOf(s.flags), s.data);
      assert forall k :: 0 <= k < n - 1 ==> after.regions[k] == after.regions[..n - 1][k];
    }
  }

  /** After a load PC is the entry, SP the top of an empty stack, everything else zero; memory is the
      segments, in order, then a stack of 2^20 bytes below its top and a heap as large, both zero. */
  lemma LoadMeans(e: Executable, world: World)
    requires LoadImage(e, world).Ok?
    ensures var v := LoadImage(e, world).value;
            && (forall r :: 0 <= r < 16 ==> v.regs[r] == 0)
            && v.pc == e.entry && v.sp == 0x7FFF_0000 && v.flags == 0 && !v.halted && v.count == 0 && v.exitCode == 0
            && v.world == world
    ensures var m, n := LoadImage(e, world).value.memory, |e.segments|;
            && |m.regions| == n + 2
            && (forall k :: 0 <= k < n ==> MapsSegment(m.regions[k], e.segments[k]))
            && Maps(m.regions[n], 0x7FEF_0000, 0x10_0000, Permission(true, true, false), [])
            && Maps(m.regions[n + 1], 0x1000_0000, 0x10_0000, Permission(true, true, false), [])
            && m.regions[n + 1].name == "heap" && m.heapNext == 0x1000_0000
  {
    hide AddRegion, Maps, MapSegments, Validate;
    var n := |e.segments|;
    SegmentsMapped(e.segments, n);
    var image := MapSegments(e.segments, n).value;
    var stack := AddRegion(image, "stack", STACK_LIMIT, STACK_SIZE, READ_WRITE, []).value;
    RegionAdded(image, "stack", STACK_LIMIT, STACK_SIZE, READ_WRITE, []);
    RegionAdded(stack, "heap", HEAP_BASE, HEAP_SIZE, READ_WRITE, []);
    var heap := AddRegion(stack, "heap", HEAP_BASE, HEAP_SIZE, READ_WRITE, []).value;
    assert forall k :: 0 <= k < n ==> stack.regions[k] == stack.regions[..n][k];
    assert forall k :: 0 <= k < n + 1 ==> heap.regions[k] == heap.regions[..n + 1][k];
  }
}
