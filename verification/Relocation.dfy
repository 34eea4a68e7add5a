/** Relocations: the value a reference needs, and patching it into a field of a section. */
module Relocations {
  import opened Words
  import opened Bits
  import opened Isa
  import opened ByteOrder
  import opened Codec

  datatype RelocationType = ABS32 | ABS64 | PCREL32 | IMM48 | PCREL48

  datatype RelocationError = OutOfBounds | Overflow | UnalignedInstructionField | NotAnInstruction

  datatype Relocation = Relocation(section: nat, offset: u64, kind: RelocationType, symbol: nat, addend: i64)

  function RelocationWidth(kind: RelocationType): nat {
    if kind.ABS32? || kind.PCREL32? then 4 else 8
  }

  predicate PatchesInstruction(kind: RelocationType) { kind.IMM48? || kind.PCREL48? }

  /** S + A, modulo 2^64. */
  function Target(address: u64, addend: i64): u64 { Wrap(address + ToU64(addend)) }

  function RelocatedValue(kind: RelocationType, address: u64, addend: i64, place: u64): i64 {
    match kind
    case ABS32 | ABS64 | IMM48 => ToI64(Target(address, addend))
    case PCREL32 => ToI64(Wrap(Target(address, addend) - place))
    case PCREL48 => BranchDisplacement(place, Target(address, addend))
  }

  // ----- one field -----

  /** The new bytes of a field, or why the value cannot be stored there. */
  function PatchedField(kind: RelocationType, value: i64, aligned: bool, field: seq<u8>): (r: Result<seq<u8>, RelocationError>)
    requires |field| == RelocationWidth(kind)
    ensures r.Ok? ==> |r.value| == |field|
  {
    match kind
    case ABS32 => if FitsUnsigned(ToU64(value), 32) then Ok(Bytes(ToU64(value), 4)) else Err(Overflow)
    case ABS64 => Ok(Bytes(ToU64(value), 8))
    case PCREL32 =>
      if FitsSigned(value, 32) then Ok(Bytes(BitAnd(ToU64(value), 0xFFFF_FFFF), 4)) else Err(Overflow)
    case IMM48 | PCREL48 =>
      if !aligned then Err(UnalignedInstructionField)
      else if !FitsSigned(value, IMMEDIATE_BITS) then Err(Overflow)
      else
        var decoded := DecodeFrom(field);
        if decoded.Err? then Err(NotAnInstruction)
        else
          var patched := decoded.value.(imm := value);
          if Encode(patched).Err? then Err(Overflow) else Ok(EncodedBytes(patched))
  }

  /** What a patched field holds, for every relocation type. */
  ghost predicate FieldHolds(kind: RelocationType, address: u64, addend: i64, place: u64, before: seq<u8>, after: seq<u8>)
    requires |before| == |after| == RelocationWidth(kind)
  {
    match kind
    case ABS32 => FromBytes(after) == Target(address, addend)
    case ABS64 => FromBytes(after) == Target(address, addend)
    case PCREL32 => FromBytes(after) < TWO64 && Wrap(place + ToU64(SignExtend(FromBytes(after), 32))) == Target(address, addend)
    case IMM48 =>
      && DecodeFrom(before).Ok? && DecodeFrom(after).Ok?
      && DecodeFrom(after).value == DecodeFrom(before).value.(imm := DecodeFrom(after).value.imm)
      && ToU64(DecodeFrom(after).value.imm) == Target(address, addend)
    case PCREL48 =>
      && DecodeFrom(before).Ok? && DecodeFrom(after).Ok?
      && DecodeFrom(after).value == DecodeFrom(before).value.(imm := DecodeFrom(after).value.imm)
      && BranchAddress(place, DecodeFrom(after).value.imm) == Target(address, addend)
  }

  /** A field that was patched holds the formula value of its relocation type; the instruction
      fields keep everything but the immediate, and a patched branch lands on S + A. */
  lemma PatchedFieldHolds(kind: RelocationType, address: u64, addend: i64, place: u64, aligned: bool, field: seq<u8>)
    requires |field| == RelocationWidth(kind)
    requires PatchedField(kind, RelocatedValue(kind, address, addend, place), aligned, field).Ok?
    ensures FieldHolds(kind, address, addend, place, field,
              PatchedField(kind, RelocatedValue(kind, address, addend, place), aligned, field).value)
  {
    hide SignExtend, Encode, Decode, FromBytes, Bytes, BitAnd, DecodeFrom, EncodedBytes;
    var value := RelocatedValue(kind, address, addend, place);
    if PatchesInstruction(kind) {
      InstructionHolds(field, value);
      BranchesInverse(place, Target(address, addend), 0);
    } else {
      DataFieldHolds(kind, address, addend, place, aligned, field);
    }
  }

  lemma DataFieldHolds(kind: RelocationType, address: u64, addend: i64, place: u64, aligned: bool, field: seq<u8>)
    requires |field| == RelocationWidth(kind) && !PatchesInstruction(kind)
    requires PatchedField(kind, RelocatedValue(kind, address, addend, place), aligned, field).Ok?
    ensures FieldHolds(kind, address, addend, place, field,
              PatchedField(kind, RelocatedValue(kind, address, addend, place), aligned, field).value)
  {
    hide SignExtend, FromBytes, Bytes, BitAnd, Pow2;
    var value := RelocatedValue(kind, address, addend, place);
    Pow2Values();
    if kind.ABS32? {
      LoadAfterStore(ToU64(value), 4);
    } else if kind.ABS64? {
      LoadAfterStore64(ToU64(value));
    } else {
      PcRel32Holds(value);
      PlacePlus(place, Target(address, addend));
    }
  }

  lemma PlacePlus(place: u64, target: u64)
    ensures Wrap(place + ToU64(ToI64(Wrap(target - place)))) == target
  {
  }

  lemma PcRel32Holds(value: i64)
    requires FitsSigned(value, 32)
    ensures BitAnd(ToU64(value), 0xFFFF_FFFF) < TWO64
    ensures FromBytes(Bytes(BitAnd(ToU64(value), 0xFFFF_FFFF), 4)) == BitAnd(ToU64(value), 0xFFFF_FFFF)
    ensures SignExtend(BitAnd(ToU64(value), 0xFFFF_FFFF), 32) == value
  {
    hide SignExtend, FromBytes, Bytes;
    Pow2Values();
    AndMask(ToU64(value), 32);
    LowBound(ToU64(value), 32);
    LoadAfterStore(Low(ToU64(value), 32), 4);
    SignExtendTruncated(value, 32, Low(ToU64(value), 32));
  }

  lemma InstructionHolds(field: seq<u8>, value: i64)
    requires |field| == 8 && DecodeFrom(field).Ok? && Encode(DecodeFrom(field).value.(imm := value)).Ok?
    ensures DecodeFrom(EncodedBytes(DecodeFrom(field).value.(imm := value))) == Ok(DecodeFrom(field).value.(imm := value))
  {
    hide DecodeFrom;
    var patched := DecodeFrom(field).value.(imm := value);
    BufferRoundTrip(patched, []);
    assert EncodedBytes(patched) + [] == EncodedBytes(patched);
  }

  // ----- one relocation -----

  function Place(base: u64, r: Relocation): u64 { Wrap(base + r.offset) }

  predicate InBounds(data: seq<u8>, r: Relocation) {
    r.offset + RelocationWidth(r.kind) <= |data|
  }

  function Field(data: seq<u8>, r: Relocation): (f: seq<u8>)
    requires InBounds(data, r)
    ensures |f| == RelocationWidth(r.kind)
  {
    data[r.offset..r.offset + RelocationWidth(r.kind)]
  }

  function NewField(data: seq<u8>, base: u64, r: Relocation, address: u64): (f: Result<seq<u8>, RelocationError>)
    requires InBounds(data, r)
    ensures f.Ok? ==> |f.value| == RelocationWidth(r.kind)
  {
    PatchedField(r.kind, RelocatedValue(r.kind, address, r.addend, Place(base, r)), r.offset % INSTRUCTION_SIZE == 0, Field(data, r))
  }

  /** The section with one relocation applied. */
  function Relocated(data: seq<u8>, base: u64, r: Relocation, address: u64): (d: Result<seq<u8>, RelocationError>)
    ensures d.Ok? ==> InBounds(data, r) && |d.value| == |data|
  {
    if !InBounds(data, r) then Err(OutOfBounds)
    else
      var f := NewField(data, base, r, address);
      if f.Err? then Err(f.error) else Ok(Splice(data, r.offset, f.value))
  }

  /** `applyRelocation`: patches the buffer in place; a failure leaves it untouched. */
  method ApplyRelocation(data: array<u8>, base: u64, r: Relocation, address: u64) returns (result: Result<(), RelocationError>)
    modifies data
    ensures result.Ok? <==> Relocated(old(data[..]), base, r, address).Ok?
    ensures result.Ok? ==> data[..] == Relocated(old(data[..]), base, r, address).value
    ensures result.Err? ==> data[..] == old(data[..]) && result.error == Relocated(old(data[..]), base, r, address).error
  {
    hide SignExtend, BitAnd, Decode, Encode, FitsSigned, FitsUnsigned, Splice, Bytes;
    var width := RelocationWidth(r.kind);
    if r.offset > data.Length || width > data.Length - r.offset {
      return Err(OutOfBounds);
    }
    var value := RelocatedValue(r.kind, address, r.addend, Place(base, r));
    match r.kind {
      case ABS32 =>
        if !FitsUnsigned(ToU64(value), 32) {
          return Err(Overflow);
        }
        StoreBytes(data, r.offset, ToU64(value), 4);
        return Ok(());
      case ABS64 =>
        StoreBytes(data, r.offset, ToU64(value), 8);
        return Ok(());
      case PCREL32 =>
        if !FitsSigned(value, 32) {
          return Err(Overflow);
        }
        PcRel32Holds(value);
        StoreBytes(data, r.offset, BitAnd(ToU64(value), 0xFFFF_FFFF), 4);
        return Ok(());
      case IMM48 | PCREL48 =>
        result := PatchInstruction(data, r.offset, value);
    }
  }

  method PatchInstruction(data: array<u8>, offset: nat, value: i64) returns (result: Result<(), RelocationError>)
    requires offset + INSTRUCTION_SIZE <= data.Length
    modifies data
    ensures var patched := PatchedField(IMM48, value, offset % INSTRUCTION_SIZE == 0, old(data[offset..offset + 8]));
      && (result.Ok? <==> patched.Ok?)
      && (result.Ok? ==> data[..] == Splice(old(data[..]), offset, patched.value))
      && (result.Err? ==> data[..] == old(data[..]) && result.error == patched.error)
  {
    hide Decode, Encode, FitsSigned, Splice, EncodedBytes;
    if offset % INSTRUCTION_SIZE != 0 {
      return Err(UnalignedInstructionField);
    }
    if !FitsSigned(value, IMMEDIATE_BITS) {
      return Err(Overflow);
    }
    var decoded := DecodeFrom(data[offset..offset + INSTRUCTION_SIZE]);
    if decoded.Err? {
      return Err(NotAnInstruction);
    }
    var encoded := EncodeInto(data, offset, INSTRUCTION_SIZE, decoded.value.(imm := value));
    if encoded.Err? {
      return Err(Overflow);
    }
    return Ok(());
  }

  // ----- many relocations of one section -----

  /** A relocation together with the address of its symbol. */
  datatype Resolved = Resolved(relocation: Relocation, address: u64)

  predicate Apart(a: Relocation, b: Relocation) {
    a.offset + RelocationWidth(a.kind) <= b.offset || b.offset + RelocationWidth(b.kind) <= a.offset
  }

  ghost predicate AllApart(rs: seq<Resolved>) {
    forall i, j :: 0 <= i < j < |rs| ==> Apart(rs[i].relocation, rs[j].relocation)
  }

  /** The section after all relocations, in order. */
  function RelocatedAll(data: seq<u8>, base: u64, rs: seq<Resolved>): (d: Result<seq<u8>, RelocationError>)
    ensures d.Ok? ==> |d.value| == |data|
  {
    if rs == [] then Ok(data)
    else
      var before := RelocatedAll(data, base, rs[..|rs| - 1]);
      if before.Err? then before
      else Relocated(before.value, base, rs[|rs| - 1].relocation, rs[|rs| - 1].address)
  }

  /** Byte p lies in the field of some relocation. */
  ghost predicate Touched(rs: seq<Resolved>, p: nat) {
    exists i :: 0 <= i < |rs| && rs[i].relocation.offset <= p < rs[i].relocation.offset + RelocationWidth(rs[i].relocation.kind)
  }

  /** `d` is `data` with every field holding the value computed from the bytes of `data`, and no
      other byte changed. */
  ghost predicate AllApplied(data: seq<u8>, base: u64, rs: seq<Resolved>, d: seq<u8>) {
    && |d| == |data|
    && (forall i :: 0 <= i < |rs| ==> FieldApplied(data, base, rs[i], d))
    && (forall p :: 0 <= p < |data| && !Touched(rs, p) ==> d[p] == data[p])
  }

  ghost predicate FieldApplied(data: seq<u8>, base: u64, x: Resolved, d: seq<u8>)
    requires |d| == |data|
  {
    InBounds(data, x.relocation) && NewField(data, base, x.relocation, x.address) == Ok(Field(d, x.relocation))
  }

  lemma RelocatedChanges(data: seq<u8>, base: u64, r: Relocation, address: u64)
    requires Relocated(data, base, r, address).Ok?
    ensures var d := Relocated(data, base, r, address).value;
      && NewField(data, base, r, address) == Ok(Field(d, r))
      && (forall q :: InBounds(data, q) && Apart(q, r) ==> Field(d, q) == Field(data, q))
      && (forall p :: 0 <= p < |data| && !(r.offset <= p < r.offset + RelocationWidth(r.kind)) ==> d[p] == data[p])
  {
    hide PatchedField, RelocatedValue, RelocationWidth;
  }

  /** All relocations applied to disjoint fields, in whatever order they come. */
  lemma {:induction false} RelocatedAllMeans(data: seq<u8>, base: u64, rs: seq<Resolved>)
    requires AllApart(rs) && RelocatedAll(data, base, rs).Ok?
    ensures AllApplied(data, base, rs, RelocatedAll(data, base, rs).value)
  {
    if rs != [] {
      hide PatchedField, RelocatedValue, RelocationWidth, Relocated, NewField;
      var last := |rs| - 1;
      RelocatedAllMeans(data, base, rs[..last]);
      var d0 := RelocatedAll(data, base, rs[..last]).value;
      RelocatedChanges(d0, base, rs[last].relocation, rs[last].address);
      AppliedStep(data, base, rs, d0, RelocatedAll(data, base, rs).value);
    }
  }

  lemma AppliedStep(data: seq<u8>, base: u64, rs: seq<Resolved>, d0: seq<u8>, d: seq<u8>)
    requires rs != [] && AllApart(rs) && AllApplied(data, base, rs[..|rs| - 1], d0) && |d| == |data|
    requires var x := rs[|rs| - 1]; Relocated(d0, base, x.relocation, x.address) == Ok(d)
    ensures AllApplied(data, base, rs, d)
  {
    hide PatchedField, RelocatedValue, RelocationWidth, Relocated, NewField, Field;
    var last := |rs| - 1;
    var r := rs[last].relocation;
    RelocatedChanges(d0, base, r, rs[last].address);
    SameField(data, base, rs, d0);
    forall i | 0 <= i < last
      ensures FieldApplied(data, base, rs[i], d)
    {
      assert rs[..last][i] == rs[i] && Apart(rs[i].relocation, r);
    }
    forall p | 0 <= p < |data| && !Touched(rs, p)
      ensures d[p] == data[p]
    {
      LessTouched(rs, p);
    }
  }

  lemma LessTouched(rs: seq<Resolved>, p: nat)
    requires rs != [] && !Touched(rs, p)
    ensures !Touched(rs[..|rs| - 1], p)
    ensures var r := rs[|rs| - 1].relocation; !(r.offset <= p < r.offset + RelocationWidth(r.kind))
  {
    assert forall i :: 0 <= i < |rs| - 1 ==> rs[..|rs| - 1][i] == rs[i];
  }

  /** The field of the last relocation is still as it was. */
  lemma SameField(data: seq<u8>, base: u64, rs: seq<Resolved>, d0: seq<u8>)
    requires rs != [] && AllApart(rs) && AllApplied(data, base, rs[..|rs| - 1], d0)
    requires InBounds(d0, rs[|rs| - 1].relocation)
    ensures Field(d0, rs[|rs| - 1].relocation) == Field(data, rs[|rs| - 1].relocation)
    ensures NewField(d0, base, rs[|rs| - 1].relocation, rs[|rs| - 1].address)
         == NewField(data, base, rs[|rs| - 1].relocation, rs[|rs| - 1].address)
  {
    hide PatchedField, RelocatedValue, NewField, RelocationWidth;
    var last := |rs| - 1;
    var r := rs[last].relocation;
    forall p | r.offset <= p < r.offset + RelocationWidth(r.kind)
      ensures d0[p] == data[p]
    {
      NotTouchedBefore(rs, p);
    }
    SameNewField(data, d0, base, r, rs[last].address);
  }

  lemma NotTouchedBefore(rs: seq<Resolved>, p: nat)
    requires rs != [] && AllApart(rs)
    requires var r := rs[|rs| - 1].relocation; r.offset <= p < r.offset + RelocationWidth(r.kind)
    ensures !Touched(rs[..|rs| - 1], p)
  {
    hide RelocationWidth;
    var last := |rs| - 1;
    forall i | 0 <= i < last
      ensures rs[..last][i] == rs[i] && Apart(rs[i].relocation, rs[last].relocation)
    {
    }
  }

  lemma SameNewField(data: seq<u8>, d0: seq<u8>, base: u64, r: Relocation, address: u64)
    requires InBounds(data, r) && InBounds(d0, r) && Field(d0, r) == Field(data, r)
    ensures NewField(d0, base, r, address) == NewField(data, base, r, address)
  {
    hide PatchedField, RelocatedValue, Field;
  }
}
