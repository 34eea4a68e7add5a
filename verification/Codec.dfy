/** The 64-bit instruction word: opcode, two register fields and a 48-bit immediate, packed with
    shifts and masks. Encoding and decoding are inverse bijections, also through byte buffers. */
module Codec {
  import opened Words
  import opened Bits
  import opened Isa
  import opened ByteOrder

  const OPCODE_SHIFT := 56
  const DST_SHIFT := 52
  const SRC_SHIFT := 48
  const TWO47: int := 0x8000_0000_0000
  const TWO48: int := 0x1_0000_0000_0000
  const TWO52: int := 0x10_0000_0000_0000
  const TWO56: int := 0x100_0000_0000_0000

  datatype EncodeError = UnknownOpcode | ImmediateOutOfRange | NonCanonicalOperand | BufferTooSmall

  datatype DecodeError = BadOpcode | ReservedRegisterFieldSet | ReservedImmediateFieldSet | Truncated

  /** Which fields carry meaning for a format. */
  datatype FieldUse = FieldUse(dst: bool, src: bool, imm: bool, signed: bool)

  function FieldsOf(format: Format): FieldUse {
    match format
    case NoOperands => FieldUse(false, false, false, true)
    case Reg1 => FieldUse(true, false, false, true)
    case Reg2 => FieldUse(true, true, false, true)
    case RegImm => FieldUse(true, false, true, true)
    case Mem => FieldUse(true, true, true, true)
    case Jump => FieldUse(false, false, true, true)
    case SysImm => FieldUse(false, false, true, false)
  }

  // ----- opcode numbers -----

  function OpcodeNumber(op: Opcode): u8 {
    match op
    case NOP => 0x00 case HALT => 0x01 case SYSCALL => 0x02
    case MOV => 0x10 case MOVI => 0x11 case LOAD => 0x12 case STORE => 0x13
    case LEA => 0x14 case PUSH => 0x15 case POP => 0x16
    case ADD => 0x20 case SUB => 0x21 case MUL => 0x22 case DIV => 0x23
    case MOD => 0x24 case INC => 0x25 case DEC => 0x26 case NEG => 0x27
    case AND => 0x30 case OR => 0x31 case XOR => 0x32 case NOT => 0x33
    case SHL => 0x34 case SHR => 0x35 case SAR => 0x36
    case CMP => 0x40 case TEST => 0x41
    case JMP => 0x50 case JE => 0x51 case JNE => 0x52 case JG => 0x53
    case JL => 0x54 case JGE => 0x55 case JLE => 0x56 case CALL => 0x57 case RET => 0x58
    case Unknown(code) => code
  }

  function OpcodeOf(code: u8): Opcode {
    match code
    case 0x00 => NOP case 0x01 => HALT case 0x02 => SYSCALL
    case 0x10 => MOV case 0x11 => MOVI case 0x12 => LOAD case 0x13 => STORE
    case 0x14 => LEA case 0x15 => PUSH case 0x16 => POP
    case 0x20 => ADD case 0x21 => SUB case 0x22 => MUL case 0x23 => DIV
    case 0x24 => MOD case 0x25 => INC case 0x26 => DEC case 0x27 => NEG
    case 0x30 => AND case 0x31 => OR case 0x32 => XOR case 0x33 => NOT
    case 0x34 => SHL case 0x35 => SHR case 0x36 => SAR
    case 0x40 => CMP case 0x41 => TEST
    case 0x50 => JMP case 0x51 => JE case 0x52 => JNE case 0x53 => JG
    case 0x54 => JL case 0x55 => JGE case 0x56 => JLE case 0x57 => CALL case 0x58 => RET
    case _ => Unknown(code)
  }

  lemma OpcodeOfNumber(op: Opcode)
    requires FindOpcode(op).Some?
    ensures OpcodeOf(OpcodeNumber(op)) == op
  {
  }

  lemma NumberOfOpcode(code: u8)
    ensures OpcodeNumber(OpcodeOf(code)) == code
  {
  }

  // ----- immediates -----

  predicate FitsSigned(value: i64, bits: nat)
    requires bits > 0
  {
    var half: int := Pow2(bits - 1);
    bits >= 64 || -half <= value <= half - 1
  }

  predicate FitsUnsigned(value: u64, bits: nat) {
    bits >= 64 || value < Pow2(bits)
  }

  /** `signExtend`: truncates to `bits` bits, then flips and subtracts the sign bit. */
  function SignExtend(value: u64, bits: nat): i64
    requires bits > 0
  {
    if bits >= 64 then ToI64(value)
    else
      var truncated := BitAnd(value, Pow2(bits) - 1);
      ToI64(Wrap(BitXor(truncated, Pow2(bits - 1)) - Pow2(bits - 1)))
  }

  /** Sign extension reads the low bits as two's complement. */
  lemma SignExtendMeans(value: u64, bits: nat)
    requires 0 < bits < 64
    ensures var t := Low(value, bits); SignExtend(value, bits) == if t < Pow2(bits - 1) then t else t - Pow2(bits)
    ensures FitsSigned(SignExtend(value, bits), bits)
  {
    hide Bitwise, Low;
    AndMask(value, bits);
    LowBound(value, bits);
    XorTopBit(Low(value, bits), bits - 1);
    Pow2Values();
    Pow2Monotone(bits, 63);
  }

  /** What fits survives being cut down to the field and extended again. */
  lemma SignExtendTruncated(value: i64, bits: nat, field: u64)
    requires 0 < bits < 64 && FitsSigned(value, bits) && field == Low(ToU64(value), bits)
    ensures SignExtend(field, bits) == value
  {
    hide SignExtend, High, Low;
    TruncatedValue(value, bits);
    LowBound(ToU64(value), bits);
    LowOfSmall(field, bits);
    SignExtendMeans(field, bits);
  }

  lemma LowOfSmall(t: nat, bits: nat)
    requires t < Pow2(bits)
    ensures Low(t, bits) == t
  {
    HighLowUnique(0, t, bits);
  }

  lemma TruncatedValue(value: i64, bits: nat)
    requires 0 < bits < 64 && FitsSigned(value, bits)
    ensures Low(ToU64(value), bits) == if value < 0 then value + Pow2(bits) else value
  {
    hide High, Low;
    if value < 0 {
      NegativeLow(value, bits);
    } else {
      LowOfSmall(value, bits);
    }
  }

  lemma NegativeLow(value: i64, bits: nat)
    requires 0 < bits < 64 && value < 0 && value + Pow2(bits) >= 0
    ensures Low(value + TWO64, bits) == value + Pow2(bits)
  {
    hide High, Low, Pow2;
    Pow2Add(64 - bits, bits);
    Pow2Values();
    NegativeParts(value, Pow2(bits), Pow2(64 - bits));
    HighLowUnique(Pow2(64 - bits) - 1, value + Pow2(bits), bits);
  }

  lemma NegativeParts(value: int, p: int, high: int)
    requires high * p == TWO64
    ensures value + TWO64 == (high - 1) * p + (value + p)
  {
    assert (high - 1) * p == high * p - p;
  }

  // ----- words -----

  function PackFields(code: u8, dst: Reg, src: Reg, immBits: u64): nat {
    BitOr(BitOr(BitOr(Shl64(code, OPCODE_SHIFT), Shl64(dst, DST_SHIFT)), Shl64(src, SRC_SHIFT)), immBits)
  }

  function OpcodeField(word: u64): nat { BitAnd(Shr64(word, OPCODE_SHIFT), 0xFF) }
  function DstField(word: u64): nat { BitAnd(Shr64(word, DST_SHIFT), 0xF) }
  function SrcField(word: u64): nat { BitAnd(Shr64(word, SRC_SHIFT), 0xF) }
  function ImmField(word: u64): nat { BitAnd(word, TWO48 - 1) }

  lemma Powers()
    ensures Pow2(4) == 16 && Pow2(8) == 256
    ensures Pow2(47) == TWO47 && Pow2(48) == TWO48 && Pow2(52) == TWO52 && Pow2(56) == TWO56
  {
    Pow2Values();
    assert Pow2(4) == 16;
    Pow2Add(48, 4);
    Pow2Add(48, 8);
  }

  /** The fields do not overlap: packing adds them up. */
  lemma PackedWord(code: u8, dst: Reg, src: Reg, immBits: u64)
    requires immBits < TWO48
    ensures PackFields(code, dst, src, immBits) == code * TWO56 + dst * TWO52 + src * TWO48 + immBits < TWO64
  {
    Powers();
    OrDisjoint(code, dst * TWO52, 56);
    OrDisjoint(code * 16 + dst, src * TWO48, 52);
    OrDisjoint((code * 16 + dst) * 16 + src, immBits, 48);
  }

  /** The low bits of what is left after dropping k bits. */
  lemma FieldAt(word: nat, high: nat, field: nat, rest: nat, k: nat, bits: nat)
    requires field < Pow2(bits) && rest < Pow2(k) && word == (high * Pow2(bits) + field) * Pow2(k) + rest
    ensures BitAnd(High(word, k), Pow2(bits) - 1) == field
  {
    hide Bitwise, High, Low;
    HighLowUnique(high * Pow2(bits) + field, rest, k);
    HighLowUnique(high, field, bits);
    AndMask(High(word, k), bits);
  }

  /** Reading the fields of a packed word gives them back. */
  lemma UnpackedWord(word: u64, code: u8, dst: Reg, src: Reg, immBits: u64)
    requires immBits < TWO48 && word == code * TWO56 + dst * TWO52 + src * TWO48 + immBits
    ensures OpcodeField(word) == code && DstField(word) == dst && SrcField(word) == src && ImmField(word) == immBits
  {
    hide Bitwise, High, Low, Pow2;
    Powers();
    FieldAt(word, 0, code, dst * TWO52 + src * TWO48 + immBits, 56, 8);
    FieldAt(word, code, dst, src * TWO48 + immBits, 52, 4);
    FieldAt(word, code * 16 + dst, src, immBits, 48, 4);
    HighLowUnique((code * 16 + dst) * 16 + src, immBits, 48);
    AndMask(word, 48);
  }

  /** Every word is packed from its fields. */
  lemma WordFields(word: u64)
    ensures OpcodeField(word) < 256 && DstField(word) < 16 && SrcField(word) < 16 && ImmField(word) < TWO48
    ensures PackFields(OpcodeField(word), DstField(word), SrcField(word), ImmField(word)) == word
  {
    var code, rest := word / TWO56, word % TWO56;
    var dst, rest2 := rest / TWO52, rest % TWO52;
    var src, immBits := rest2 / TWO48, rest2 % TWO48;
    UnpackedWord(word, code, dst, src, immBits);
    PackedWord(code, dst, src, immBits);
  }

  /** The unused operand fields are zero. */
  predicate Canonical(i: Instruction, fields: FieldUse) {
    && (fields.dst || i.dst == 0)
    && (fields.src || i.src == 0)
    && (fields.imm || i.imm == 0)
  }

  predicate ImmediateFits(i: Instruction, fields: FieldUse) {
    !fields.imm
    || (if fields.signed then FitsSigned(i.imm, IMMEDIATE_BITS) else i.imm >= 0 && FitsUnsigned(ToU64(i.imm), IMMEDIATE_BITS))
  }

  function Encode(i: Instruction): (r: Result<u64, EncodeError>) {
    var info := FindOpcode(i.opcode);
    if info.None? then Err(UnknownOpcode)
    else
      var fields := FieldsOf(info.value.format);
      if !Canonical(i, fields) then Err(NonCanonicalOperand)
      else if !ImmediateFits(i, fields) then Err(ImmediateOutOfRange)
      else
        ImmediateBits(i.imm);
        var immBits := if fields.imm then BitAnd(ToU64(i.imm), TWO48 - 1) else 0;
        PackedWord(OpcodeNumber(i.opcode), i.dst, i.src, immBits);
        Ok(PackFields(OpcodeNumber(i.opcode), i.dst, i.src, immBits))
  }

  lemma ImmediateBits(imm: i64)
    ensures BitAnd(ToU64(imm), TWO48 - 1) == Low(ToU64(imm), 48) < TWO48
  {
    Powers();
    AndMask(ToU64(imm), 48);
    LowBound(ToU64(imm), 48);
  }

  function Decode(word: u64): Result<Instruction, DecodeError> {
    WordFields(word);
    var opcode := OpcodeOf(OpcodeField(word));
    var info := FindOpcode(opcode);
    if info.None? then Err(BadOpcode)
    else
      var fields := FieldsOf(info.value.format);
      if !fields.dst && DstField(word) != 0 then Err(ReservedRegisterFieldSet)
      else if !fields.src && SrcField(word) != 0 then Err(ReservedRegisterFieldSet)
      else if !fields.imm && ImmField(word) != 0 then Err(ReservedImmediateFieldSet)
      else
        var imm: i64 := if !fields.imm then 0
          else if fields.signed then SignExtend(ImmField(word), IMMEDIATE_BITS) else ImmField(word);
        Ok(Instruction(opcode, DstField(word), SrcField(word), imm))
  }

  // ----- the bijection -----

  /** Decoding an encoded instruction gives the instruction back. */
  lemma DecodeEncode(i: Instruction)
    requires Encode(i).Ok?
    ensures Decode(Encode(i).value) == Ok(i)
  {
    hide PackFields, OpcodeField, DstField, SrcField, ImmField, SignExtend, BitAnd, OpcodeOf, OpcodeNumber, High, Low, Pow2;
    var fields := FieldsOf(FindOpcode(i.opcode).value.format);
    ImmediateBits(i.imm);
    var immBits := if fields.imm then BitAnd(ToU64(i.imm), TWO48 - 1) else 0;
    PackedWord(OpcodeNumber(i.opcode), i.dst, i.src, immBits);
    UnpackedWord(Encode(i).value, OpcodeNumber(i.opcode), i.dst, i.src, immBits);
    OpcodeOfNumber(i.opcode);
    if fields.imm {
      if fields.signed {
        SignExtendTruncated(i.imm, 48, immBits);
      } else {
        Powers();
        HighLowUnique(0, i.imm, 48);
      }
    }
  }

  /** Encoding a decoded word gives the word back. */
  lemma EncodeDecode(word: u64)
    requires Decode(word).Ok?
    ensures Encode(Decode(word).value) == Ok(word)
  {
    hide PackFields, OpcodeField, DstField, SrcField, ImmField, SignExtend, BitAnd;
    var i := Decode(word).value;
    WordFields(word);
    NumberOfOpcode(OpcodeField(word));
    Powers();
    ImmediateBits(i.imm);
    var immBits := ImmField(word);
    HighLowUnique(0, immBits, 48);
    SignExtendMeans(immBits, 48);
    TruncatedImmediate(immBits);
  }

  lemma TruncatedImmediate(immBits: u64)
    requires immBits < TWO48
    ensures Low(ToU64(SignExtend(immBits, 48)), 48) == immBits
  {
    Powers();
    HighLowUnique(0, immBits, 48);
    SignExtendMeans(immBits, 48);
    TruncatedValue(SignExtend(immBits, 48), 48);
  }

  /** Exactly the words that encode some instruction are accepted. */
  lemma AcceptedWords(word: u64)
    ensures Decode(word).Ok? <==> exists i :: Encode(i) == Ok(word)
  {
    if Decode(word).Ok? {
      EncodeDecode(word);
    }
    if i :| Encode(i) == Ok(word) {
      DecodeEncode(i);
    }
  }

  // ----- buffers -----

  function DecodeFrom(bytes: seq<u8>): Result<Instruction, DecodeError> {
    if |bytes| < INSTRUCTION_SIZE then Err(Truncated) else Decode(Load64(bytes[..INSTRUCTION_SIZE]))
  }

  /** The eight bytes of an encoded instruction. */
  function EncodedBytes(i: Instruction): (r: seq<u8>)
    requires Encode(i).Ok?
    ensures |r| == INSTRUCTION_SIZE
  {
    Bytes(Encode(i).value, INSTRUCTION_SIZE)
  }

  /** `encodeInto` on the span [at, at + size): writes eight bytes or, on an error, nothing. */
  method EncodeInto(out: array<u8>, at: nat, size: nat, i: Instruction) returns (r: Result<(), EncodeError>)
    requires at + size <= out.Length
    modifies out
    ensures r.Ok? <==> size >= INSTRUCTION_SIZE && Encode(i).Ok?
    ensures r.Ok? ==> out[..] == Splice(old(out[..]), at, EncodedBytes(i))
    ensures r.Err? ==> out[..] == old(out[..])
    ensures r.Err? ==> r.error == if size < INSTRUCTION_SIZE then BufferTooSmall else Encode(i).error
  {
    if size < INSTRUCTION_SIZE {
      return Err(BufferTooSmall);
    }
    var word := Encode(i);
    if word.Err? {
      return Err(word.error);
    }
    StoreBytes(out, at, word.value, INSTRUCTION_SIZE);
    return Ok(());
  }

  /** What was encoded into a buffer is decoded from it, whatever follows. */
  lemma BufferRoundTrip(i: Instruction, rest: seq<u8>)
    requires Encode(i).Ok?
    ensures DecodeFrom(EncodedBytes(i) + rest) == Ok(i)
  {
    LoadAfterStore64(Encode(i).value);
    DecodeEncode(i);
    assert (EncodedBytes(i) + rest)[..INSTRUCTION_SIZE] == EncodedBytes(i);
  }

  /** What is decoded from a buffer encodes to exactly its first eight bytes. */
  lemma BufferReencodes(bytes: seq<u8>)
    requires DecodeFrom(bytes).Ok?
    ensures Encode(DecodeFrom(bytes).value).Ok?
    ensures EncodedBytes(DecodeFrom(bytes).value) == bytes[..INSTRUCTION_SIZE]
  {
    EncodeDecode(Load64(bytes[..INSTRUCTION_SIZE]));
    StoreAfterLoad(bytes[..INSTRUCTION_SIZE]);
  }

  // ----- branches -----

  /** The address after the branch plus the displacement, modulo 2^64. */
  function BranchAddress(address: u64, displacement: i64): u64 {
    Wrap(address + INSTRUCTION_SIZE + ToU64(displacement))
  }

  function BranchDisplacement(address: u64, target: u64): i64 {
    ToI64(Wrap(target - Wrap(address + INSTRUCTION_SIZE)))
  }

  /** The two are inverse for every address, however the sums wrap. */
  lemma BranchesInverse(address: u64, target: u64, displacement: i64)
    ensures BranchAddress(address, BranchDisplacement(address, target)) == target
    ensures BranchDisplacement(address, BranchAddress(address, displacement)) == displacement
  {
  }
}
