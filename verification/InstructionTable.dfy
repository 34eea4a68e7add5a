/** The instruction set as its specification lists it (docs/isa.md), and the words it is stored in. */
module InstructionTable {
  import opened Words
  import opened Bits
  import opened Isa
  import opened Codec
  import opened Spelling

  datatype Row = Row(number: nat, mnemonic: string, format: Format)

  /** The rows of section 4. */
  function RowOf(op: Opcode): Row {
    match op
    case NOP => Row(0x00, "NOP", NoOperands) case HALT => Row(0x01, "HALT", NoOperands)
    case SYSCALL => Row(0x02, "SYSCALL", SysImm)
    case MOV => Row(0x10, "MOV", Reg2) case MOVI => Row(0x11, "MOVI", RegImm)
    case LOAD => Row(0x12, "LOAD", Mem) case STORE => Row(0x13, "STORE", Mem)
    case LEA => Row(0x14, "LEA", RegImm) case PUSH => Row(0x15, "PUSH", Reg1) case POP => Row(0x16, "POP", Reg1)
    case ADD => Row(0x20, "ADD", Reg2) case SUB => Row(0x21, "SUB", Reg2) case MUL => Row(0x22, "MUL", Reg2)
    case DIV => Row(0x23, "DIV", Reg2) case MOD => Row(0x24, "MOD", Reg2)
    case INC => Row(0x25, "INC", Reg1) case DEC => Row(0x26, "DEC", Reg1) case NEG => Row(0x27, "NEG", Reg1)
    case AND => Row(0x30, "AND", Reg2) case OR => Row(0x31, "OR", Reg2) case XOR => Row(0x32, "XOR", Reg2)
    case NOT => Row(0x33, "NOT", Reg1)
    case SHL => Row(0x34, "SHL", Reg2) case SHR => Row(0x35, "SHR", Reg2) case SAR => Row(0x36, "SAR", Reg2)
    case CMP => Row(0x40, "CMP", Reg2) case TEST => Row(0x41, "TEST", Reg2)
    case JMP => Row(0x50, "JMP", Jump) case JE => Row(0x51, "JE", Jump) case JNE => Row(0x52, "JNE", Jump)
    case JG => Row(0x53, "JG", Jump) case JL => Row(0x54, "JL", Jump) case JGE => Row(0x55, "JGE", Jump)
    case JLE => Row(0x56, "JLE", Jump) case CALL => Row(0x57, "CALL", Jump) case RET => Row(0x58, "RET", NoOperands)
    case Unknown(_) => Row(0xFF, "", NoOperands)
  }

  /** Every opcode has the number, the mnemonic and the format of its row, and no other opcode has that
      number. */
  lemma OpcodeDescribed(op: Opcode)
    requires FindOpcode(op).Some?
    ensures OpcodeNumber(op) == RowOf(op).number && Mnemonic(op) == RowOf(op).mnemonic
    ensures FindOpcode(op).value.format == RowOf(op).format
    ensures forall other: Opcode :: FindOpcode(other).Some? && OpcodeNumber(other) == RowOf(op).number ==> other == op
  {
    forall other: Opcode | FindOpcode(other).Some? && OpcodeNumber(other) == OpcodeNumber(op)
      ensures other == op
    {
      OpcodeOfNumber(op);
      OpcodeOfNumber(other);
    }
  }

  /** What the columns about registers say: which instructions leave a result in their first register, and
      which take it as an operand. */
  lemma RegistersUsed(op: Opcode)
    requires FindOpcode(op).Some?
    ensures WritesDst(op) <==>
            op in {MOV, MOVI, LEA, LOAD, POP, ADD, SUB, MUL, DIV, MOD, INC, DEC, NEG, AND, OR, XOR, NOT, SHL, SHR, SAR}
    ensures ReadsDst(op) <==>
            op in {PUSH, STORE, CMP, TEST, ADD, SUB, MUL, DIV, MOD, INC, DEC, NEG, AND, OR, XOR, NOT, SHL, SHR, SAR}
    ensures WritesFlags(op) <==>
            op in {ADD, SUB, MUL, DIV, MOD, INC, DEC, NEG, AND, OR, XOR, SHL, SHR, SAR, CMP, TEST}
    ensures IsTerminator(op) <==> op in {HALT, JMP, RET}
    ensures IsBranch(op) <==> op in {JMP, JE, JNE, JG, JL, JGE, JLE, CALL, RET}
  {
  }

  // ----- the word -----

  /** An immediate in a field of 48 bits, in two's complement. */
  function Field(imm: i64): int { if imm < 0 then imm + 0x1_0000_0000_0000 else imm }

  /** An encoded instruction has its opcode in the top eight bits, its registers in the next two fields of
      four, and its immediate in the low 48. */
  lemma EncodedWord(i: Instruction)
    requires Encode(i).Ok?
    ensures Encode(i).value == OpcodeNumber(i.opcode) * 0x100_0000_0000_0000 + i.dst * 0x10_0000_0000_0000
                               + i.src * 0x1_0000_0000_0000 + Field(i.imm)
    ensures 0 <= Field(i.imm) < 0x1_0000_0000_0000
  {
    hide PackFields, OpcodeNumber, Low, High, Bitwise, Pow2;
    var fields := FieldsOf(FindOpcode(i.opcode).value.format);
    ImmediateBits(i.imm);
    var immBits := if fields.imm then BitAnd(ToU64(i.imm), TWO48 - 1) else 0;
    PackedWord(OpcodeNumber(i.opcode), i.dst, i.src, immBits);
    if fields.imm {
      FieldOfImmediate(i.imm, fields.signed);
    }
  }

  lemma FieldOfImmediate(imm: i64, signed: bool)
    requires if signed then FitsSigned(imm, IMMEDIATE_BITS) else imm >= 0 && FitsUnsigned(ToU64(imm), IMMEDIATE_BITS)
    ensures BitAnd(ToU64(imm), TWO48 - 1) == Field(imm) && 0 <= Field(imm) < TWO48
  {
    Powers();
    ImmediateBits(imm);
    if signed {
      TruncatedValue(imm, 48);
    } else {
      LowOfSmall(imm, 48);
    }
    hide Low, High, Bitwise, Pow2;
  }

  /** The fields a format does not use must be zero; the others must fit. */
  predicate Encodable(i: Instruction) {
    match FindOpcode(i.opcode)
    case None => false
    case Some(info) =>
      match info.format
      case NoOperands => i.dst == 0 && i.src == 0 && i.imm == 0
      case Reg1 => i.src == 0 && i.imm == 0
      case Reg2 => i.imm == 0
      case RegImm => i.src == 0 && -0x8000_0000_0000 <= i.imm < 0x8000_0000_0000
      case Mem => -0x8000_0000_0000 <= i.imm < 0x8000_0000_0000
      case Jump => i.dst == 0 && i.src == 0 && -0x8000_0000_0000 <= i.imm < 0x8000_0000_0000
      case SysImm => i.dst == 0 && i.src == 0 && 0 <= i.imm < 0x1_0000_0000_0000
  }

  /** Exactly those instructions encode. */
  lemma EncodableIff(i: Instruction)
    ensures Encode(i).Ok? <==> Encodable(i)
  {
    Powers();
    hide PackFields, Pow2;
  }
}
