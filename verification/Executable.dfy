/** The loadable image and the checks every image passes before it is loaded. */
module Executables {
  import opened Words
  import opened Memory
  import opened ControlFlowGraph

  datatype Segment = Segment(kind: SectionKind, flags: Permission, address: u64, size: u64, data: seq<u8>)

  /** Of the debug table only the source files its entries name are kept; without any by default. */
  datatype Executable = Executable(
    entry: u64, segments: seq<Segment>,
    version: nat := EXE_VERSION, sourceCount: nat := 0, debugFiles: seq<nat> := [])

  const EXE_VERSION := 1

  datatype ImageError =
    | BadVersion | NoSegments | EmptySegment | TooMuchData | SegmentWraps | BssHasData | WritableCode
    | SegmentsOverlap | EntryUnaligned | EntryUnmapped | EntryNotExecutable | BadDebugEntry

  predicate Overlap(a: Segment, b: Segment) {
    a.address < b.address + b.size && b.address < a.address + a.size
  }

  function SegmentFault(s: Segment): Option<ImageError> {
    if s.size == 0 then Some(EmptySegment)
    else if s.size < |s.data| then Some(TooMuchData)
    else if s.address > TWO64 - 1 - s.size then Some(SegmentWraps)
    else if s.kind.Bss? && s.data != [] then Some(BssHasData)
    else if s.flags.write && s.flags.exec then Some(WritableCode)
    else None
  }

  /** The first fault of the first n segments. */
  function SegmentsFault(segments: seq<Segment>, n: nat): Option<ImageError>
    requires n <= |segments|
  {
    if n == 0 then None
    else
      var before := SegmentsFault(segments, n - 1);
      if before.Some? then before else SegmentFault(segments[n - 1])
  }

  predicate AnyOverlap(segments: seq<Segment>) {
    exists i, j :: 0 <= i < j < |segments| && Overlap(segments[i], segments[j])
  }

  /** `findSegment` */
  function FindSegment(segments: seq<Segment>, address: u64): Option<Segment> {
    if segments == [] then None
    else if address >= segments[0].address && address - segments[0].address < segments[0].size then Some(segments[0])
    else FindSegment(segments[1..], address)
  }

  /** The checks in the order they are made; `None` is a valid image. */
  function Validate(e: Executable): Option<ImageError> {
    var fault := SegmentsFault(e.segments, |e.segments|);
    if e.version != EXE_VERSION then Some(BadVersion)
    else if e.segments == [] then Some(NoSegments)
    else if fault.Some? then fault
    else if AnyOverlap(e.segments) then Some(SegmentsOverlap)
    else if e.entry % 8 != 0 then Some(EntryUnaligned)
    else
      var s := FindSegment(e.segments, e.entry);
      if s.None? then Some(EntryUnmapped)
      else if !s.value.flags.exec then Some(EntryNotExecutable)
      else if exists i :: 0 <= i < |e.debugFiles| && e.debugFiles[i] >= e.sourceCount then Some(BadDebugEntry)
      else None
  }

  lemma {:induction false} NoSegmentFault(segments: seq<Segment>, n: nat)
    requires n <= |segments|
    ensures SegmentsFault(segments, n).None? <==> forall k :: 0 <= k < n ==> SegmentFault(segments[k]).None?
  {
    if n > 0 {
      NoSegmentFault(segments, n - 1);
    }
  }

  lemma {:induction false} SegmentFound(segments: seq<Segment>, address: u64)
    ensures FindSegment(segments, address).Some? ==> exists k :: 0 <= k < |segments| && segments[k] == FindSegment(segments, address).value
    ensures FindSegment(segments, address).Some? ==>
      FindSegment(segments, address).value.address <= address < FindSegment(segments, address).value.address + FindSegment(segments, address).value.size
    ensures FindSegment(segments, address).None? ==> forall k :: 0 <= k < |segments| ==>
      !(segments[k].address <= address < segments[k].address + segments[k].size)
  {
    if segments != [] {
      SegmentFound(segments[1..], address);
      if FindSegment(segments[1..], address).Some? {
        var k :| 0 <= k < |segments[1..]| && segments[1..][k] == FindSegment(segments[1..], address).value;
        assert segments[k + 1] == segments[1..][k];
      } else {
        assert forall k :: 1 <= k < |segments| ==> segments[k] == segments[1..][k - 1];
      }
    }
  }

  /** `validate`: the loops over segments and pairs of segments. */
  method ValidateImage(e: Executable) returns (fault: Option<ImageError>)
    ensures fault == Validate(e)
  {
    if e.version != EXE_VERSION {
      return Some(BadVersion);
    }
    if e.segments == [] {
      return Some(NoSegments);
    }
    var n := 0;
    while n < |e.segments|
      invariant n <= |e.segments| && SegmentsFault(e.segments, n).None?
    {
      var f := SegmentFault(e.segments[n]);
      if f.Some? {
        FaultStays(e.segments, n + 1, |e.segments|);
        return f;
      }
      n := n + 1;
    }
    var i := 0;
    while i < |e.segments|
      invariant i <= |e.segments|
      invariant forall k, j :: 0 <= k < i && k < j < |e.segments| ==> !Overlap(e.segments[k], e.segments[j])
    {
      var j := i + 1;
      while j < |e.segments|
        invariant i < j <= |e.segments|
        invariant forall k :: i < k < j ==> !Overlap(e.segments[i], e.segments[k])
      {
        if Overlap(e.segments[i], e.segments[j]) {
          return Some(SegmentsOverlap);
        }
        j := j + 1;
      }
      i := i + 1;
    }
    if e.entry % 8 != 0 {
      return Some(EntryUnaligned);
    }
    var s := FindSegment(e.segments, e.entry);
    if s.None? {
      return Some(EntryUnmapped);
    }
    if !s.value.flags.exec {
      return Some(EntryNotExecutable);
    }
    var d := 0;
    while d < |e.debugFiles|
      invariant d <= |e.debugFiles| && forall k :: 0 <= k < d ==> e.debugFiles[k] < e.sourceCount
    {
      if e.debugFiles[d] >= e.sourceCount {
        return Some(BadDebugEntry);
      }
      d := d + 1;
    }
    return None;
  }

  lemma {:induction false} FaultStays(segments: seq<Segment>, m: nat, n: nat)
    requires m <= n <= |segments| && SegmentsFault(segments, m).Some?
    ensures SegmentsFault(segments, n) == SegmentsFault(segments, m)
  {
    if m < n {
      FaultStays(segments, m, n - 1);
    }
  }

  /** What a valid image promises the loader. */
  lemma ValidImage(e: Executable)
    ensures Validate(e).None? <==>
      && e.version == EXE_VERSION && e.segments != []
      && (forall k :: 0 <= k < |e.segments| ==> SegmentFault(e.segments[k]).None?)
      && (forall j, k :: 0 <= j < k < |e.segments| ==> !Overlap(e.segments[j], e.segments[k]))
      && e.entry % 8 == 0
      && (forall i :: 0 <= i < |e.debugFiles| ==> e.debugFiles[i] < e.sourceCount)
      && exists k :: 0 <= k < |e.segments| && e.segments[k].address <= e.entry < e.segments[k].address + e.segments[k].size
           && e.segments[k].flags.exec
  {
    NoSegmentFault(e.segments, |e.segments|);
    SegmentFound(e.segments, e.entry);
    forall j, k | 0 <= j < k < |e.segments| && e.segments[j].address <= e.entry < e.segments[j].address + e.segments[j].size
      && e.segments[k].address <= e.entry < e.segments[k].address + e.segments[k].size
      ensures Overlap(e.segments[j], e.segments[k])
    {
    }
  }
}
