/** The frozen instruction set: opcodes, formats and the metadata table that the
    assembler, the optimizer, the codec and the machine all consult. */
module Isa {
  import opened Words

  const REGISTER_COUNT := 16
  const INSTRUCTION_SIZE := 8
  const IMMEDIATE_BITS := 48

  type Reg = r: nat | r < REGISTER_COUNT

  /** `Unknown` stands for the byte values that name no opcode. */
  datatype Opcode =
    | NOP | HALT | SYSCALL
    | MOV | MOVI | LOAD | STORE | LEA | PUSH | POP
    | ADD | SUB | MUL | DIV | MOD | INC | DEC | NEG
    | AND | OR | XOR | NOT | SHL | SHR | SAR
    | CMP | TEST
    | JMP | JE | JNE | JG | JL | JGE | JLE | CALL | RET
    | Unknown(code: u8)

  datatype Format = NoOperands | Reg1 | Reg2 | RegImm | Mem | Jump | SysImm

  datatype OpcodeInfo = OpcodeInfo(
    format: Format,
    writesDst: bool, readsDst: bool, writesFlags: bool,
    isTerminator: bool, isBranch: bool)

  /** The 36-row table; `None` for a byte that is no opcode. */
  function FindOpcode(op: Opcode): Option<OpcodeInfo> {
    match op
    case NOP => Some(OpcodeInfo(NoOperands, false, false, false, false, false))
    case HALT => Some(OpcodeInfo(NoOperands, false, false, false, true, false))
    case SYSCALL => Some(OpcodeInfo(SysImm, false, false, false, false, false))
    case MOV => Some(OpcodeInfo(Reg2, true, false, false, false, false))
    case MOVI => Some(OpcodeInfo(RegImm, true, false, false, false, false))
    case LOAD => Some(OpcodeInfo(Mem, true, false, false, false, false))
    case STORE => Some(OpcodeInfo(Mem, false, true, false, false, false))
    case LEA => Some(OpcodeInfo(RegImm, true, false, false, false, false))
    case PUSH => Some(OpcodeInfo(Reg1, false, true, false, false, false))
    case POP => Some(OpcodeInfo(Reg1, true, false, false, false, false))
    case ADD | SUB | MUL | DIV | MOD => Some(OpcodeInfo(Reg2, true, true, true, false, false))
    case INC | DEC | NEG => Some(OpcodeInfo(Reg1, true, true, true, false, false))
    case AND | OR | XOR => Some(OpcodeInfo(Reg2, true, true, true, false, false))
    case NOT => Some(OpcodeInfo(Reg1, true, true, false, false, false))
    case SHL | SHR | SAR => Some(OpcodeInfo(Reg2, true, true, true, false, false))
    case CMP | TEST => Some(OpcodeInfo(Reg2, false, true, true, false, false))
    case JMP => Some(OpcodeInfo(Jump, false, false, false, true, true))
    case JE | JNE | JG | JL | JGE | JLE => Some(OpcodeInfo(Jump, false, false, false, false, true))
    case CALL => Some(OpcodeInfo(Jump, false, false, false, false, true))
    case RET => Some(OpcodeInfo(NoOperands, false, false, false, true, true))
    case Unknown(_) => None
  }

  predicate WritesDst(op: Opcode) { var i := FindOpcode(op); i.Some? && i.value.writesDst }
  predicate ReadsDst(op: Opcode) { var i := FindOpcode(op); i.Some? && i.value.readsDst }
  predicate WritesFlags(op: Opcode) { var i := FindOpcode(op); i.Some? && i.value.writesFlags }
  predicate IsTerminator(op: Opcode) { var i := FindOpcode(op); i.Some? && i.value.isTerminator }
  predicate IsBranch(op: Opcode) { var i := FindOpcode(op); i.Some? && i.value.isBranch }

  predicate ReadsFlags(op: Opcode) {
    op.JE? || op.JNE? || op.JG? || op.JL? || op.JGE? || op.JLE?
  }

  predicate IsBinaryAlu(op: Opcode) {
    op.ADD? || op.SUB? || op.MUL? || op.DIV? || op.MOD? || op.AND? || op.OR? || op.XOR?
    || op.SHL? || op.SHR? || op.SAR? || op.CMP? || op.TEST?
  }

  predicate IsUnaryAlu(op: Opcode) {
    op.INC? || op.DEC? || op.NEG? || op.NOT?
  }

  /** A decoded instruction. */
  datatype Instruction = Instruction(opcode: Opcode, dst: Reg, src: Reg, imm: i64)

  /** The register read in the `src` position, by the formats that have one. */
  predicate ReadsRegister(machine: Instruction, reg: Reg) {
    match FindOpcode(machine.opcode)
    case None => true
    case Some(info) =>
      || (info.readsDst && machine.dst == reg)
      || ((info.format.Reg2? || info.format.Mem?) && machine.src == reg)
  }

  predicate WritesRegister(machine: Instruction, reg: Reg) {
    WritesDst(machine.opcode) && machine.dst == reg
  }
}
