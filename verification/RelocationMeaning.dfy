/** When a relocation can be applied, said of the integers involved. */
module RelocationMeaning {
  import opened Words
  import opened Isa
  import opened Codec
  import opened Relocations
  import opened InstructionTable

  function Modulo(x: int): u64 { x % 0x1_0000_0000_0000_0000 }

  /** The number a relocation stores: S + A, the distance to it from the place, or the distance from behind
      the branch at the place; read as a signed word. */
  function Stored(kind: RelocationType, address: u64, addend: i64, place: u64): int {
    match kind
    case ABS32 | ABS64 | IMM48 => ToI64(Modulo(address + addend))
    case PCREL32 => ToI64(Modulo(address + addend - place))
    case PCREL48 => ToI64(Modulo(address + addend - place - 8))
  }

  lemma StoredIsValue(kind: RelocationType, address: u64, addend: i64, place: u64)
    ensures RelocatedValue(kind, address, addend, place) == Stored(kind, address, addend, place)
  {
    match kind
    case PCREL32 => Differences(address, addend, place);
    case PCREL48 => Differences(address, addend, place);
    case _ => Differences(address, addend, 0);
  }

  lemma Differences(address: u64, addend: i64, place: u64)
    ensures Target(address, addend) == Modulo(address + addend)
    ensures Wrap(Target(address, addend) - place) == Modulo(address + addend - place)
    ensures Wrap(Target(address, addend) - Wrap(place + INSTRUCTION_SIZE)) == Modulo(address + addend - place - 8)
  {
  }

  /** The first thing that is wrong with a relocation, in the order of the checks; `None` if it applies. */
  ghost function Wrong(data: seq<u8>, base: u64, r: Relocation, address: u64): Option<RelocationError> {
    var width := if r.kind.ABS32? || r.kind.PCREL32? then 4 else 8;
    if r.offset + width > |data| then Some(OutOfBounds)
    else
      var x := Stored(r.kind, address, r.addend, Modulo(base + r.offset));
      match r.kind
      case ABS64 => None
      case ABS32 => if 0 <= x < 0x1_0000_0000 then None else Some(Overflow)
      case PCREL32 => if -0x8000_0000 <= x < 0x8000_0000 then None else Some(Overflow)
      case IMM48 | PCREL48 =>
        if r.offset % 8 != 0 then Some(UnalignedInstructionField)
        else if !(-0x8000_0000_0000 <= x < 0x8000_0000_0000) then Some(Overflow)
        else
          var m := DecodeFrom(data[r.offset..r.offset + 8]);
          if m.Err? then Some(NotAnInstruction)
          else if Encodable(m.value.(imm := x)) then None
          else Some(Overflow)
  }

  /** A relocation applies exactly when nothing is wrong with it, and fails with what is. */
  lemma AppliesIff(data: seq<u8>, base: u64, r: Relocation, address: u64)
    ensures match Wrong(data, base, r, address)
            case None => Relocated(data, base, r, address).Ok?
            case Some(error) => Relocated(data, base, r, address) == Err(error)
  {
    hide Stored, RelocatedValue, DecodeFrom, Encodable, Encode, FitsSigned, FitsUnsigned;
    var place := Modulo(base + r.offset);
    var x := Stored(r.kind, address, r.addend, place);
    StoredIsValue(r.kind, address, r.addend, place);
    FitsMean(x);
    if InBounds(data, r) && PatchesInstruction(r.kind) && DecodeFrom(data[r.offset..r.offset + 8]).Ok? {
      EncodableIff(DecodeFrom(data[r.offset..r.offset + 8]).value.(imm := x));
    }
  }

  lemma FitsMean(x: i64)
    ensures FitsSigned(x, 32) <==> -0x8000_0000 <= x < 0x8000_0000
    ensures FitsSigned(x, 48) <==> -0x8000_0000_0000 <= x < 0x8000_0000_0000
    ensures FitsUnsigned(ToU64(x), 32) <==> 0 <= x < 0x1_0000_0000
  {
    Pow2Values();
    Pow2Half();
    hide Pow2;
  }

  lemma Pow2Half()
    ensures Pow2(31) == 0x8000_0000
  {
    Pow2Values();
    assert Pow2(32) == 2 * Pow2(31);
  }
}
