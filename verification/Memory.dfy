/** The address space: named, permissioned, pairwise disjoint regions, as a value. */
module Memory {
  import opened Words
  import opened ByteOrder

  datatype Permission = Permission(read: bool, write: bool, exec: bool)

  datatype Access = Read | Write | Exec

  datatype MemoryErrorKind =
    | Unmapped | ReadDenied | WriteDenied | ExecuteDenied | CrossesRegionEnd | OutOfMemory

  datatype MemoryFault = MemoryFault(kind: MemoryErrorKind, address: u64, size: nat)

  datatype Region = Region(name: string, base: u64, size: u64, permissions: Permission, data: seq<u8>) {
    ghost predicate Valid() {
      0 < size == |data| && base + size < TWO64
    }

    predicate Contains(address: u64) {
      address >= base && address - base < size
    }
  }

  datatype RawMemory = RawMemory(regions: seq<Region>, heapNext: u64) {
    ghost predicate Valid() {
      && (forall i :: 0 <= i < |regions| ==> regions[i].Valid())
      && (forall i, j :: 0 <= i < j < |regions| ==> Disjoint(regions[i], regions[j]))
    }
  }

  /** Every address space the machine builds: regions well-sized and pairwise disjoint. */
  type Memory = m: RawMemory | m.Valid() witness RawMemory([], 0)

  predicate Disjoint(a: Region, b: Region) {
    a.base + a.size <= b.base || b.base + b.size <= a.base
  }

  predicate Grants(p: Permission, needed: Access) {
    match needed
    case Read => p.read
    case Write => p.write
    case Exec => p.exec
  }

  function Denied(needed: Access): MemoryErrorKind {
    match needed
    case Read => ReadDenied
    case Write => WriteDenied
    case Exec => ExecuteDenied
  }

  /** Index of the first region holding `address`, or `|regions|`. */
  function RegionAt(regions: seq<Region>, address: u64): (i: nat)
    ensures i <= |regions|
    ensures i < |regions| ==> regions[i].Contains(address)
    ensures forall k :: 0 <= k < i ==> !regions[k].Contains(address)
  {
    if regions == [] then 0
    else if regions[0].Contains(address) then 0
    else 1 + RegionAt(regions[1..], address)
  }

  /** Bounds and permission check of an access; the index of the region on success. */
  function CheckAccess(regions: seq<Region>, address: u64, size: nat, needed: Access): Result<nat, MemoryFault> {
    var i := RegionAt(regions, address);
    if i == |regions| then Err(MemoryFault(Unmapped, address, size))
    else if size > regions[i].size - (address - regions[i].base) then
      Err(MemoryFault(CrossesRegionEnd, address, size))
    else if !Grants(regions[i].permissions, needed) then Err(MemoryFault(Denied(needed), address, size))
    else Ok(i)
  }

  lemma CheckAccessOk(m: Memory, address: u64, size: nat, needed: Access)
    requires CheckAccess(m.regions, address, size, needed).Ok?
    ensures var i := CheckAccess(m.regions, address, size, needed).value;
            && i < |m.regions| && m.regions[i].Contains(address)
            && address - m.regions[i].base + size <= |m.regions[i].data|
  {
  }

  function Fetch(m: Memory, address: u64, size: nat, needed: Access): (r: Result<seq<u8>, MemoryFault>)
    ensures r.Ok? ==> |r.value| == size
  {
    var c := CheckAccess(m.regions, address, size, needed);
    if c.Err? then Err(c.error)
    else
      CheckAccessOk(m, address, size, needed);
      var region := m.regions[c.value];
      Ok(region.data[address - region.base..address - region.base + size])
  }

  function ReadU64(m: Memory, address: u64): Result<u64, MemoryFault>
  {
    var r := Fetch(m, address, 8, Read);
    if r.Err? then Err(r.error) else Ok(Load64(r.value))
  }

  function FetchInstruction(m: Memory, address: u64): Result<u64, MemoryFault>
  {
    var r := Fetch(m, address, 8, Exec);
    if r.Err? then Err(r.error) else Ok(Load64(r.value))
  }

  /** `readBytes`: an empty read never fails. */
  function ReadBytes(m: Memory, address: u64, size: nat): Result<seq<u8>, MemoryFault>
  {
    if size == 0 then Ok([]) else Fetch(m, address, size, Read)
  }

  function Patch(m: Memory, i: nat, offset: nat, bytes: seq<u8>): Memory
    requires i < |m.regions| && offset + |bytes| <= |m.regions[i].data|
  {
    var region := m.regions[i];
    var updated := region.(data := Splice(region.data, offset, bytes));
    var r := m.(regions := m.regions[i := updated]);
    assert forall k :: 0 <= k < |m.regions| ==>
      r.regions[k].base == m.regions[k].base && r.regions[k].size == m.regions[k].size
      && |r.regions[k].data| == |m.regions[k].data|;
    r
  }

  function Store(m: Memory, address: u64, bytes: seq<u8>): Result<Memory, MemoryFault>
  {
    var c := CheckAccess(m.regions, address, |bytes|, Write);
    if c.Err? then Err(c.error)
    else
      CheckAccessOk(m, address, |bytes|, Write);
      Ok(Patch(m, c.value, address - m.regions[c.value].base, bytes))
  }

  function WriteU64(m: Memory, address: u64, value: u64): Result<Memory, MemoryFault>
  {
    Store(m, address, Bytes(value, 8))
  }

  /** `writeBytes`: an empty write never fails. */
  function WriteBytes(m: Memory, address: u64, bytes: seq<u8>): Result<Memory, MemoryFault>
  {
    if bytes == [] then Ok(m) else Store(m, address, bytes)
  }

  /** `addRegion`: `None` when the range is empty, wraps, or overlaps a mapped region. */
  function AddRegion(m: Memory, name: string, base: u64, size: u64, permissions: Permission, initial: seq<u8>)
    : Option<Memory>
  {
    if size == 0 || base > TWO64 - 1 - size || Overlaps(m.regions, base, size) then None
    else
      var copied := if |initial| < size then |initial| else size;
      var data := initial[..copied] + Zeros(size - copied);
      Some(RawMemory(m.regions + [Region(name, base, size, permissions, data)],
                  if name == "heap" then base else m.heapNext))
  }

  predicate Overlaps(regions: seq<Region>, base: u64, size: u64) {
    exists i :: 0 <= i < |regions| && base < regions[i].base + regions[i].size && regions[i].base < base + size
  }

  function Zeros(n: nat): (r: seq<u8>)
    ensures |r| == n && forall i :: 0 <= i < n ==> r[i] == 0
  {
    seq(n, _ => 0)
  }

  function RoundUp8(size: u64): u64 {
    var s := Wrap(size + 7);
    s - s % 8
  }

  /** `allocate`: bumps `heapNext` in the region named "heap", with the 64-bit
      wrap-around of `end - rounded` and of the bump. */
  function Allocate(m: Memory, size: u64): (r: Result<(u64, Memory), MemoryFault>)
    ensures r.Ok? ==> r.value.1.regions == m.regions
  {
    var i := RegionAt(m.regions, m.heapNext);
    if i == |m.regions| || m.regions[i].name != "heap" then Err(MemoryFault(OutOfMemory, m.heapNext, size))
    else
      var rounded := RoundUp8(size);
      var end := Wrap(m.regions[i].base + m.regions[i].size);
      if rounded < size || m.heapNext > Wrap(end - rounded) then Err(MemoryFault(OutOfMemory, m.heapNext, size))
      else Ok((m.heapNext, m.(heapNext := Wrap(m.heapNext + rounded))))
  }

  // ----- laws -----

  lemma RegionAtUnique(m: Memory, address: u64, i: nat)
    requires i < |m.regions| && m.regions[i].Contains(address)
    ensures RegionAt(m.regions, address) == i
  {
    assert forall k :: 0 <= k < i ==> Disjoint(m.regions[k], m.regions[i]);
  }

  /** A word read right after it was written is that word. */
  lemma ReadAfterWrite(m: Memory, address: u64, value: u64)
    requires WriteU64(m, address, value).Ok?
    requires ReadU64(m, address).Ok?
    ensures ReadU64(WriteU64(m, address, value).value, address) == Ok(value)
  {
    var m' := WriteU64(m, address, value).value;
    var i := RegionAt(m.regions, address);
    assert m'.regions[i].Contains(address);
    RegionAtUnique(m', address, i);
    LoadAfterStore64(value);
  }

  lemma MapRegions(m: Memory, m': Memory)
    requires |m.regions| == |m'.regions|
    requires forall k :: 0 <= k < |m.regions| ==>
      m'.regions[k].base == m.regions[k].base && m'.regions[k].size == m.regions[k].size
    ensures forall a: u64 :: RegionAt(m'.regions, a) == RegionAt(m.regions, a)
  {
    forall a: u64
      ensures RegionAt(m'.regions, a) == RegionAt(m.regions, a)
    {
      assert forall k :: 0 <= k < |m.regions| ==> m'.regions[k].Contains(a) == m.regions[k].Contains(a);
    }
  }

  /** The block `allocate` hands out lies inside the heap exactly when the rounded size is not
      larger than the heap's end address; a larger size slips past the wrapped comparison. */
  lemma AllocatedBlockInsideHeapIff(m: Memory, size: u64, i: nat)
    requires i < |m.regions| && m.regions[i].name == "heap" && m.regions[i].Contains(m.heapNext)
    requires Allocate(m, size).Ok?
    ensures Allocate(m, size).value.0 == m.heapNext
    ensures var end := m.regions[i].base + m.regions[i].size;
            m.heapNext + RoundUp8(size) <= end <==> RoundUp8(size) <= end
  {
    RegionAtUnique(m, m.heapNext, i);
  }

  /** The failing input: asking for 2^63 bytes of a small heap succeeds. */
  lemma AllocateHugeSucceeds(m: Memory, i: nat)
    requires i < |m.regions| && m.regions[i].name == "heap" && m.regions[i].Contains(m.heapNext)
    requires m.regions[i].base + m.regions[i].size < TWO63
    ensures Allocate(m, TWO63).Ok?
  {
    RegionAtUnique(m, m.heapNext, i);
  }
}
