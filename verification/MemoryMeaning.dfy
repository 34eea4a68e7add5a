/** Memory as bytes at addresses: what reading and writing a word does, when it fails and why, and what
    the allocator hands out. */
module MemoryMeaning {
  import opened Words
  import opened Bits
  import opened ByteOrder
  import opened Memory

  /** Eight bytes from `at` on are those of the word, least significant first. */
  ghost predicate WordIn(data: seq<u8>, at: nat, word: u64) {
    at + 8 <= |data| && forall k: nat :: k < 8 ==> data[at + k] == (word / Pow2(8 * k)) % 256
  }

  /** Region i takes an access of `size` bytes at the address. */
  predicate Covers(m: Memory, i: int, address: u64, size: nat) {
    0 <= i < |m.regions| && m.regions[i].base <= address && address + size <= m.regions[i].base + m.regions[i].size
  }

  /** A word at an address, in a region that may be read (or fetched from). */
  ghost predicate WordAt(m: Memory, address: u64, word: u64, access: Access) {
    exists i :: Covers(m, i, address, 8) && Allowed(m.regions[i].permissions, access)
                && WordIn(m.regions[i].data, address - m.regions[i].base, word)
  }

  predicate Allowed(p: Permission, access: Access) {
    match access case Read => p.read case Write => p.write case Exec => p.exec
  }

  // ----- words -----

  lemma ByteMeans(value: nat, width: nat, k: nat)
    requires k < width
    ensures Bytes(value, width)[k] == (value / Pow2(8 * k)) % 256
  {
    ByteAt(value, width, k);
    AndMask(High(value, 8 * k), 8);
    HighLowIsDivMod(High(value, 8 * k), 8);
    HighLowIsDivMod(value, 8 * k);
    assert Pow2(8) == 256;
  }

  lemma WordMeans(data: seq<u8>, at: nat, word: u64)
    requires at + 8 <= |data|
    ensures Load64(data[at..at + 8]) == word <==> WordIn(data, at, word)
  {
    hide Bytes, FromBytes, Pow2;
    var bytes := data[at..at + 8];
    StoreAfterLoad(bytes);
    LoadAfterStore64(word);
    forall k: nat | k < 8
      ensures Bytes(word, 8)[k] == (word / Pow2(8 * k)) % 256 && bytes[k] == data[at + k]
    {
      ByteMeans(word, 8, k);
    }
    if WordIn(data, at, word) {
      assert bytes == Bytes(word, 8);
    }
  }

  /** Why an access of eight bytes fails: nothing there, the end of the region, or its permissions. */
  ghost predicate Fails(m: Memory, address: u64, size: nat, access: Access, f: MemoryFault) {
    && f.address == address && f.size == size
    && match f.kind
       case Unmapped => forall i :: 0 <= i < |m.regions| ==> !Covers(m, i, address, 1)
       case CrossesRegionEnd => exists i :: Covers(m, i, address, 1) && !Covers(m, i, address, size)
       case ReadDenied => access.Read? && exists i :: Covers(m, i, address, size) && !m.regions[i].permissions.read
       case WriteDenied => access.Write? && exists i :: Covers(m, i, address, size) && !m.regions[i].permissions.write
       case ExecuteDenied => access.Exec? && exists i :: Covers(m, i, address, size) && !m.regions[i].permissions.exec
       case OutOfMemory => false
  }

  lemma CheckMeans(m: Memory, address: u64, size: nat, access: Access)
    requires size > 0
    ensures var c := CheckAccess(m.regions, address, size, access);
            if c.Err? then Fails(m, address, size, access, c.error)
            else Covers(m, c.value, address, size) && Allowed(m.regions[c.value].permissions, access)
    ensures CheckAccess(m.regions, address, size, access).Ok? <==>
            exists i :: Covers(m, i, address, size) && Allowed(m.regions[i].permissions, access)
  {
    var i := RegionAt(m.regions, address);
    if i < |m.regions| {
      assert Covers(m, i, address, 1);
      assert m.regions[i].Valid();
    }
    forall j | Covers(m, j, address, 1)
      ensures i == j
    {
      RegionAtUnique(m, address, j);
    }
    assert forall j :: Covers(m, j, address, size) ==> Covers(m, j, address, 1);
  }

  /** Reading gives exactly the word whose bytes are there, and fails for the reason stated. */
  lemma ReadMeans(m: Memory, address: u64, word: u64)
    ensures ReadU64(m, address) == Ok(word) <==> WordAt(m, address, word, Read)
    ensures ReadU64(m, address).Err? ==> Fails(m, address, 8, Read, ReadU64(m, address).error)
    ensures FetchInstruction(m, address) == Ok(word) <==> WordAt(m, address, word, Exec)
    ensures FetchInstruction(m, address).Err? ==> Fails(m, address, 8, Exec, FetchInstruction(m, address).error)
  {
    AccessMeans(m, address, word, Read);
    AccessMeans(m, address, word, Exec);
    hide Fetch, Load64, Fails, WordAt;
  }

  lemma AccessMeans(m: Memory, address: u64, word: u64, access: Access)
    ensures var r := Fetch(m, address, 8, access);
            if r.Err? then !WordAt(m, address, word, access) && Fails(m, address, 8, access, r.error)
            else (Load64(r.value) == word <==> WordAt(m, address, word, access))
  {
    hide Load64, Fails, CheckAccess, WordIn, Allowed;
    CheckMeans(m, address, 8, access);
    var c := CheckAccess(m.regions, address, 8, access);
    if c.Ok? {
      var i := c.value;
      CheckAccessOk(m, address, 8, access);
      WordMeans(m.regions[i].data, address - m.regions[i].base, word);
      forall j | Covers(m, j, address, 8)
        ensures j == i
      {
        OneCovers(m, address, i, j);
      }
    }
  }

  lemma OneCovers(m: Memory, address: u64, i: int, j: int)
    requires Covers(m, i, address, 8) && Covers(m, j, address, 8)
    ensures i == j
  {
    RegionAtUnique(m, address, i);
    RegionAtUnique(m, address, j);
  }

  /** Nothing but the bytes of region i from `at` to `at + size` differs. */
  ghost predicate OnlyBytes(m: Memory, m': Memory, i: nat, at: nat, size: nat) {
    && i < |m.regions| == |m'.regions| && m'.heapNext == m.heapNext
    && (forall j :: 0 <= j < |m.regions| && j != i ==> m'.regions[j] == m.regions[j])
    && m'.regions[i] == m.regions[i].(data := m'.regions[i].data)
    && |m'.regions[i].data| == |m.regions[i].data|
    && forall k :: 0 <= k < |m.regions[i].data| && !(at <= k < at + size) ==> m'.regions[i].data[k] == m.regions[i].data[k]
  }

  /** The memory with the bytes of a word at the address, and nothing else changed. */
  ghost predicate Wrote(m: Memory, m': Memory, address: u64, word: u64) {
    exists i :: Covers(m, i, address, 8) && OnlyBytes(m, m', i, address - m.regions[i].base, 8)
                && i < |m'.regions| && WordIn(m'.regions[i].data, address - m.regions[i].base, word)
  }

  predicate Writable(m: Memory, address: u64, size: nat) {
    exists i :: 0 <= i < |m.regions| && Covers(m, i, address, size) && m.regions[i].permissions.write
  }

  predicate Readable(m: Memory, address: u64, size: nat) {
    exists i :: 0 <= i < |m.regions| && Covers(m, i, address, size) && m.regions[i].permissions.read
  }

  /** Writing puts the bytes of the word there and changes nothing else; it succeeds exactly when one
      region takes all of them and may be written. */
  lemma WriteMeans(m: Memory, address: u64, word: u64)
    ensures WriteU64(m, address, word).Ok? <==> Writable(m, address, 8)
    ensures WriteU64(m, address, word).Err? ==> Fails(m, address, 8, Write, WriteU64(m, address, word).error)
    ensures WriteU64(m, address, word).Ok? ==> Wrote(m, WriteU64(m, address, word).value, address, word)
  {
    hide Fails, CheckAccess, WordIn, OnlyBytes, Bytes;
    CheckMeans(m, address, 8, Write);
    var c := CheckAccess(m.regions, address, 8, Write);
    if c.Ok? {
      CheckAccessOk(m, address, 8, Write);
      PatchMeans(m, c.value, address - m.regions[c.value].base, word);
    }
  }

  lemma PatchMeans(m: Memory, i: nat, at: nat, word: u64)
    requires i < |m.regions| && at + 8 <= |m.regions[i].data|
    ensures var m' := Patch(m, i, at, Bytes(word, 8));
            OnlyBytes(m, m', i, at, 8) && WordIn(m'.regions[i].data, at, word)
  {
    hide Bytes, WordIn, Load64;
    var m' := Patch(m, i, at, Bytes(word, 8));
    LoadAfterStore64(word);
    WordMeans(m'.regions[i].data, at, word);
    assert Load64(m'.regions[i].data[at..at + 8]) == word by {
      LoadsBack(word);
    }
  }

  lemma LoadsBack(word: u64)
    ensures Load64(Bytes(word, 8)) == word
  {
    LoadAfterStore64(word);
  }

  // ----- bytes -----

  /** These bytes stand at the address, all in one region that may be accessed so. */
  ghost predicate BytesAt(m: Memory, address: u64, bytes: seq<u8>, access: Access) {
    exists i :: Covers(m, i, address, |bytes|) && Allowed(m.regions[i].permissions, access)
                && forall k :: 0 <= k < |bytes| && address - m.regions[i].base + k < |m.regions[i].data| ==>
                     m.regions[i].data[address - m.regions[i].base + k] == bytes[k]
  }

  /** Reading bytes gives those that stand there; reading none always succeeds. */
  lemma ReadBytesMeans(m: Memory, address: u64, size: nat)
    ensures size == 0 ==> ReadBytes(m, address, size) == Ok([])
    ensures size > 0 ==> (ReadBytes(m, address, size).Ok? <==> Readable(m, address, size))
    ensures size > 0 && ReadBytes(m, address, size).Ok? ==>
              |ReadBytes(m, address, size).value| == size && BytesAt(m, address, ReadBytes(m, address, size).value, Read)
  {
    hide CheckAccess;
    if size > 0 {
      CheckMeans(m, address, size, Read);
      var c := CheckAccess(m.regions, address, size, Read);
      if c.Ok? {
        CheckAccessOk(m, address, size, Read);
        var region := m.regions[c.value];
        var at := address - region.base;
        var bytes := region.data[at..at + size];
        assert forall k :: 0 <= k < size ==> bytes[k] == region.data[at + k];
      }
    }
  }

  /** The memory with these bytes at the address, and nothing else changed. */
  ghost predicate WroteBytes(m: Memory, m': Memory, address: u64, bytes: seq<u8>) {
    && BytesAt(m', address, bytes, Write)
    && exists i :: Covers(m, i, address, |bytes|) && OnlyBytes(m, m', i, address - m.regions[i].base, |bytes|)
  }

  /** Writing bytes leaves them there and changes nothing else; writing none changes nothing. */
  lemma WriteBytesMeans(m: Memory, address: u64, bytes: seq<u8>)
    ensures bytes == [] ==> WriteBytes(m, address, bytes) == Ok(m)
    ensures bytes != [] ==>
              (WriteBytes(m, address, bytes).Ok? <==> Writable(m, address, |bytes|))
    ensures bytes != [] && WriteBytes(m, address, bytes).Ok? ==>
              WroteBytes(m, WriteBytes(m, address, bytes).value, address, bytes)
  {
    hide CheckAccess;
    if bytes != [] {
      CheckMeans(m, address, |bytes|, Write);
      var c := CheckAccess(m.regions, address, |bytes|, Write);
      if c.Ok? {
        CheckAccessOk(m, address, |bytes|, Write);
        BytesPatched(m, address, c.value, bytes);
      }
    }
  }

  lemma BytesPatched(m: Memory, address: u64, i: nat, bytes: seq<u8>)
    requires Covers(m, i, address, |bytes|) && address - m.regions[i].base + |bytes| <= |m.regions[i].data|
    requires m.regions[i].permissions.write
    ensures var m' := Patch(m, i, address - m.regions[i].base, bytes);
            OnlyBytes(m, m', i, address - m.regions[i].base, |bytes|) && BytesAt(m', address, bytes, Write)
  {
    var at := address - m.regions[i].base;
    var m' := Patch(m, i, at, bytes);
    var data := m'.regions[i].data;
    var written := data[at..at + |bytes|];
    assert written == bytes;
    assert forall k :: 0 <= k < |bytes| ==> written[k] == data[at + k];
    assert Covers(m', i, address, |bytes|);
  }

  // ----- regions -----

  /** A region is mapped when it is not empty, ends in the address space and meets no other: behind the
      others, with the bytes given as far as they go and zeros after them. */
  lemma AddRegionMeans(m: Memory, name: string, base: u64, size: u64, permissions: Permission, initial: seq<u8>)
    ensures AddRegion(m, name, base, size, permissions, initial).Some? <==>
            && size > 0 && base + size < TWO64
            && forall i :: 0 <= i < |m.regions| ==>
                 base + size <= m.regions[i].base || m.regions[i].base + m.regions[i].size <= base
    ensures AddRegion(m, name, base, size, permissions, initial).Some? ==>
            var m' := AddRegion(m, name, base, size, permissions, initial).value;
            && |m'.regions| == |m.regions| + 1 && m'.regions[..|m.regions|] == m.regions
            && m'.heapNext == (if name == "heap" then base else m.heapNext)
            && var region := m'.regions[|m.regions|];
               && region.name == name && region.base == base && region.size == size && region.permissions == permissions
               && |region.data| == size
               && (forall k :: 0 <= k < size ==> region.data[k] == if k < |initial| then initial[k] else 0)
  {
  }

  // ----- allocation -----

  /** The heap, with the pointer in it. */
  ghost predicate HeapAt(m: Memory, i: nat) {
    i < |m.regions| && m.regions[i].name == "heap" && m.regions[i].Contains(m.heapNext)
  }

  function HeapEnd(m: Memory, i: nat): nat
    requires i < |m.regions|
  {
    m.regions[i].base + m.regions[i].size
  }

  /** The size of a block, a multiple of eight. */
  function BlockSize(size: u64): nat { (size + 7) / 8 * 8 }

  /** A block is handed out when it fits between the pointer and the end of the heap, and only then unless
      it is larger than the address of that end: at the pointer, which moves behind it. */
  lemma AllocateMeans(m: Memory, size: u64, i: nat)
    requires HeapAt(m, i) && BlockSize(size) <= HeapEnd(m, i)
    ensures if m.heapNext + BlockSize(size) <= HeapEnd(m, i) then
              && Allocate(m, size).Ok?
              && Allocate(m, size).value.0 == m.heapNext
              && Allocate(m, size).value.1.regions == m.regions
              && Allocate(m, size).value.1.heapNext == m.heapNext + BlockSize(size)
            else Allocate(m, size) == Err(MemoryFault(OutOfMemory, m.heapNext, size))
  {
    RegionAtUnique(m, m.heapNext, i);
    assert m.regions[i].Valid();
  }

  /** Without a heap at the pointer there is nothing to hand out. */
  lemma NothingToAllocate(m: Memory, size: u64)
    requires forall i: nat :: !HeapAt(m, i)
    ensures Allocate(m, size) == Err(MemoryFault(OutOfMemory, m.heapNext, size))
  {
    var i := RegionAt(m.regions, m.heapNext);
    assert !HeapAt(m, i);
  }

  /** The pointer after allocating blocks of these sizes one after the other, and the blocks. */
  function AllocateAll(m: Memory, sizes: seq<u64>): Result<(seq<u64>, Memory), MemoryFault> {
    if sizes == [] then Ok(([], m))
    else
      var before := AllocateAll(m, sizes[..|sizes| - 1]);
      if before.Err? then before
      else
        var last := Allocate(before.value.1, sizes[|sizes| - 1]);
        if last.Err? then Err(last.error) else Ok((before.value.0 + [last.value.0], last.value.1))
  }

  /** However many blocks are handed out one after the other, they lie in the heap, in order and apart. */
  lemma {:induction false} BlocksApart(m: Memory, sizes: seq<u64>, i: nat)
    requires OneHeap(m, i) && HeapAt(m, i) && AllocateAll(m, sizes).Ok?
    requires forall k :: 0 <= k < |sizes| ==> BlockSize(sizes[k]) <= HeapEnd(m, i)
    ensures var (blocks, m') := AllocateAll(m, sizes).value;
            && |blocks| == |sizes| && m'.regions == m.regions && m.heapNext <= m'.heapNext <= HeapEnd(m, i)
            && (forall k :: 0 <= k < |sizes| ==> m.heapNext <= blocks[k] && blocks[k] + sizes[k] <= m'.heapNext)
            && (forall j, k :: 0 <= j < k < |sizes| ==> blocks[j] + sizes[j] <= blocks[k])
  {
    if sizes != [] {
      var init, last := sizes[..|sizes| - 1], sizes[|sizes| - 1];
      BlocksApart(m, init, i);
      var (blocks, m1) := AllocateAll(m, init).value;
      NextBlock(m, m1, last, i);
    }
  }

  /** There is one heap, and the pointer of a successful allocation is in it. */
  lemma PointerInside(m: Memory, size: u64, i: nat)
    requires OneHeap(m, i) && Allocate(m, size).Ok?
    ensures HeapAt(m, i)
  {
    assert RegionAt(m.regions, m.heapNext) == i;
  }

  ghost predicate OneHeap(m: Memory, i: nat) {
    i < |m.regions| && forall j :: 0 <= j < |m.regions| ==> (m.regions[j].name == "heap" <==> j == i)
  }

  lemma NextBlock(m: Memory, m1: Memory, size: u64, i: nat)
    requires OneHeap(m, i) && m1.regions == m.regions && m.heapNext <= m1.heapNext <= HeapEnd(m, i)
    requires BlockSize(size) <= HeapEnd(m, i) && Allocate(m1, size).Ok?
    ensures var (block, m2) := Allocate(m1, size).value;
            block == m1.heapNext && block + size <= m2.heapNext <= HeapEnd(m, i) && m2.regions == m.regions
  {
    assert OneHeap(m1, i);
    hide OneHeap;
    PointerInside(m1, size, i);
    AllocateMeans(m1, size, i);
  }
}
