/** The heap of a loaded machine as an address space of its own: what succeeds on the heap alone
    succeeds in the whole memory, with the same result, and touches nothing else. */
module HeapMemory {
  import opened Words
  import opened ByteOrder
  import opened Memory
  import opened Syscall
  import opened VmSpec

  /** Code, stack and heap, as the loader maps a program with one code section. */
  ghost predicate ThreeRegions(m: Memory) {
    && |m.regions| == 3
    && m.regions[0].name != "heap" && m.regions[0].permissions == Permission(true, false, true)
    && m.regions[1].name != "heap" && m.regions[1].base == STACK_LIMIT && m.regions[1].size == STACK_SIZE
    && m.regions[1].permissions == READ_WRITE
    && m.regions[2].name == "heap"
  }

  function HeapPart(m: Memory): Memory
    requires |m.regions| == 3
  {
    RawMemory([m.regions[2]], m.heapNext)
  }

  /** The memory with another heap. */
  ghost predicate OnlyHeapChanged(m: Memory, m': Memory) {
    |m'.regions| == 3 == |m.regions| && m'.regions[0] == m.regions[0] && m'.regions[1] == m.regions[1]
    && m'.regions[2].name == m.regions[2].name
  }

  lemma OneRegion(r: Region, address: u64)
    ensures RegionAt([r], address) == if r.Contains(address) then 0 else 1
  {
    assert [r][1..] == [];
  }

  /** An access that the heap allows is allowed, in the heap. */
  lemma HeapAccess(m: Memory, address: u64, size: nat, needed: Access)
    requires |m.regions| == 3 && CheckAccess(HeapPart(m).regions, address, size, needed).Ok?
    ensures m.regions[2].Contains(address) && CheckAccess(HeapPart(m).regions, address, size, needed) == Ok(0)
    ensures CheckAccess(m.regions, address, size, needed) == Ok(2)
  {
    OneRegion(m.regions[2], address);
    RegionAtUnique(m, address, 2);
  }

  lemma HeapFetch(m: Memory, address: u64, size: nat, needed: Access)
    requires |m.regions| == 3 && Fetch(HeapPart(m), address, size, needed).Ok?
    ensures Fetch(m, address, size, needed) == Fetch(HeapPart(m), address, size, needed)
  {
    HeapAccess(m, address, size, needed);
  }

  lemma HeapStore(m: Memory, address: u64, bytes: seq<u8>)
    requires |m.regions| == 3 && Store(HeapPart(m), address, bytes).Ok?
    ensures Store(m, address, bytes).Ok?
    ensures var m' := Store(m, address, bytes).value;
      OnlyHeapChanged(m, m') && HeapPart(m') == Store(HeapPart(m), address, bytes).value
  {
    hide Splice, CheckAccess;
    HeapAccess(m, address, |bytes|, Write);
    CheckAccessOk(m, address, |bytes|, Write);
    CheckAccessOk(HeapPart(m), address, |bytes|, Write);
    var h', m' := Store(HeapPart(m), address, bytes).value, Store(m, address, bytes).value;
    assert h'.regions == [m'.regions[2]];
  }

  lemma HeapWrite(m: Memory, address: u64, value: u64)
    requires |m.regions| == 3 && WriteU64(HeapPart(m), address, value).Ok?
    ensures WriteU64(m, address, value).Ok?
    ensures var m' := WriteU64(m, address, value).value;
      OnlyHeapChanged(m, m') && HeapPart(m') == WriteU64(HeapPart(m), address, value).value
  {
    hide Store;
    HeapStore(m, address, Bytes(value, 8));
  }

  /** Allocation sees the heap only. */
  lemma HeapAllocate(m: Memory, size: u64)
    requires ThreeRegions(m)
    ensures Allocate(m, size).Ok? <==> Allocate(HeapPart(m), size).Ok?
    ensures Allocate(m, size).Ok? ==>
      Allocate(m, size).value.0 == Allocate(HeapPart(m), size).value.0
    ensures Allocate(m, size).Ok? ==>
      HeapPart(Allocate(m, size).value.1) == Allocate(HeapPart(m), size).value.1 && OnlyHeapChanged(m, Allocate(m, size).value.1)
  {
    OneRegion(m.regions[2], m.heapNext);
    if m.regions[2].Contains(m.heapNext) {
      RegionAtUnique(m, m.heapNext, 2);
    }
  }

  /** A system call that succeeds on the heap alone does the same in the whole memory. */
  lemma HeapInvoke(number: u64, a1: u64, a2: u64, a3: u64, m: Memory, w: World)
    requires ThreeRegions(m) && Invoke(number, a1, a2, a3, HeapPart(m), w).Some?
    ensures Invoke(number, a1, a2, a3, m, w).Some?
    ensures var o, o' := Invoke(number, a1, a2, a3, HeapPart(m), w).value, Invoke(number, a1, a2, a3, m, w).value;
      && OnlyHeapChanged(m, o'.memory) && o.memory == HeapPart(o'.memory)
      && o' == o.(memory := o'.memory)
  {
    hide Fetch, Store, Allocate;
    if number == WRITE {
      if a3 > 0 {
        HeapFetch(m, a2, a3, Read);
      }
    } else if number == READ {
      var count := if a3 < |w.input| then a3 else |w.input|;
      if w.input[..count] != [] {
        HeapStore(m, a2, w.input[..count]);
      }
    } else if number == ALLOCATE {
      HeapAllocate(m, a1);
    }
  }

  // ----- the stack -----

  /** The stack region is found at every stack address. */
  lemma StackAccess(m: Memory, address: u64, needed: Access)
    requires ThreeRegions(m) && STACK_LIMIT <= address && address + 8 <= STACK_TOP && !needed.Exec?
    ensures CheckAccess(m.regions, address, 8, needed) == Ok(1)
  {
    RegionAtUnique(m, address, 1);
  }

  lemma StackRead(m: Memory, address: u64, value: u64)
    requires ThreeRegions(m) && STACK_LIMIT <= address && address + 8 <= STACK_TOP
    requires |m.regions[1].data| == STACK_SIZE
    requires m.regions[1].data[address - STACK_LIMIT..address - STACK_LIMIT + 8] == Bytes(value, 8)
    ensures ReadU64(m, address) == Ok(value)
  {
    StackAccess(m, address, Read);
    LoadAfterStore64(value);
  }

  lemma StackWrite(m: Memory, address: u64, value: u64)
    requires ThreeRegions(m) && STACK_LIMIT <= address && address + 8 <= STACK_TOP
    requires |m.regions[1].data| == STACK_SIZE
    ensures WriteU64(m, address, value).Ok?
    ensures var m' := WriteU64(m, address, value).value;
      m' == m.(regions := m.regions[1 := m.regions[1].(data := Splice(m.regions[1].data, address - STACK_LIMIT, Bytes(value, 8)))])
  {
    hide Splice, Bytes;
    StackAccess(m, address, Write);
  }

  /** Code is fetched from the first region. */
  lemma CodeFetch(m: Memory, address: u64, code: seq<u8>)
    requires ThreeRegions(m) && m.regions[0].data == code && m.regions[0].Contains(address)
    requires address - m.regions[0].base + 8 <= |code|
    ensures FetchInstruction(m, address) == Ok(Load64(code[address - m.regions[0].base..address - m.regions[0].base + 8]))
  {
    RegionAtUnique(m, address, 0);
  }
}
