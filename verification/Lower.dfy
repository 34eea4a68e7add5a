/** From a parsed instruction to the intermediate representation: what semantic analysis accepts, and
    what lowering makes of it. */
module Lowering {
  import opened Words
  import opened Isa
  import opened Ir
  import opened Codec
  import opened Spelling
  import opened Grammar
  import opened ControlFlowGraph
  import opened AssemblySpec

  function OperandCount(format: Format): nat {
    match format
    case NoOperands => 0
    case Reg1 => 1 case Jump => 1 case SysImm => 1
    case Reg2 => 2 case RegImm => 2 case Mem => 2
  }

  predicate IsValue(x: Operand) { x.kind.ImmediateOperand? || x.kind.SymbolOperand? }

  /** Only immediates are checked here; the displacement of a memory operand is not. */
  predicate InSignedRange(x: Operand) { x.kind.ImmediateOperand? ==> FitsSigned(x.immediate, IMMEDIATE_BITS) }

  /** `checkInstruction` finds nothing wrong. */
  predicate Accepts(mnemonic: string, operands: seq<Operand>) {
    var op := FindMnemonic(mnemonic);
    if op.None? then false
    else
      var info := FindOpcode(op.value);
      && info.Some? && |operands| == OperandCount(info.value.format)
      && match info.value.format
         case NoOperands => true
         case Reg1 => operands[0].kind.RegisterOperand?
         case Reg2 => operands[0].kind.RegisterOperand? && operands[1].kind.RegisterOperand?
         case RegImm => operands[0].kind.RegisterOperand? && IsValue(operands[1]) && InSignedRange(operands[1])
         case Mem =>
           var memory := if op.value.STORE? then operands[0] else operands[1];
           var reg := if op.value.STORE? then operands[1] else operands[0];
           reg.kind.RegisterOperand? && memory.kind.MemoryOperand? && InSignedRange(memory)
         case Jump =>
           && IsValue(operands[0]) && InSignedRange(operands[0])
           && (operands[0].kind.ImmediateOperand? ==> operands[0].immediate % INSTRUCTION_SIZE == 0)
         case SysImm =>
           operands[0].kind.ImmediateOperand? && operands[0].immediate >= 0 && FitsUnsigned(ToU64(operands[0].immediate), IMMEDIATE_BITS)
  }

  /** `setValue`: a literal, or a symbol with a zero placeholder. */
  function WithValue(m: Instruction, x: Operand): IrInstruction {
    if x.kind.SymbolOperand? then IrInstruction(m.(imm := 0), Some(SymbolRef(x.symbol, x.immediate)))
    else IrInstruction(m.(imm := x.immediate), None)
  }

  /** The instruction of an opcode and as many operands as its format takes. */
  function LoweredInstruction(op: Opcode, format: Format, operands: seq<Operand>): IrInstruction
    requires |operands| == OperandCount(format)
  {
    var m := Instruction(op, 0, 0, 0);
    match format
    case NoOperands => IrInstruction(m, None)
    case Reg1 => IrInstruction(m.(dst := operands[0].reg), None)
    case Reg2 => IrInstruction(m.(dst := operands[0].reg, src := operands[1].reg), None)
    case RegImm => WithValue(m.(dst := operands[0].reg), operands[1])
    case Mem =>
      var memory := if op.STORE? then operands[0] else operands[1];
      var reg := if op.STORE? then operands[1] else operands[0];
      IrInstruction(m.(dst := if op.STORE? then memory.reg else reg.reg, src := if op.STORE? then reg.reg else memory.reg, imm := memory.immediate), None)
    case Jump => WithValue(m, operands[0])
    case SysImm => IrInstruction(m.(imm := operands[0].immediate), None)
  }

  datatype LowerError = UnknownInstruction | OutsideText

  function Lowered(kind: SectionKind, mnemonic: string, operands: seq<Operand>): Result<IrInstruction, LowerError>
    requires Accepts(mnemonic, operands)
  {
    var op := FindMnemonic(mnemonic);
    if op.None? then Err(UnknownInstruction)
    else if !kind.Text? then Err(OutsideText)
    else Ok(LoweredInstruction(op.value, FindOpcode(op.value).value.format, operands))
  }

  predicate CarriesRegister(x: Operand) { x.kind.RegisterOperand? || x.kind.MemoryOperand? }

  /** The shapes of operand lists: R a register, M a memory operand, I an immediate, V an immediate or a
      symbol. */
  function ShapeOf(op: Opcode): string {
    match op
    case NOP | HALT | RET => ""
    case INC | DEC | NEG | NOT | PUSH | POP => "R"
    case MOVI | LEA => "RV"
    case LOAD => "RM"
    case STORE => "MR"
    case JMP | JE | JNE | JG | JL | JGE | JLE | CALL => "V"
    case SYSCALL => "I"
    case _ => "RR"
  }

  predicate HasShape(x: Operand, shape: char) {
    match x.kind
    case RegisterOperand => shape == 'R'
    case MemoryOperand => shape == 'M'
    case ImmediateOperand => shape == 'I' || shape == 'V'
    case SymbolOperand => shape == 'V'
  }

  /** The numbers an instruction takes: 48 bits, signed; unsigned for a system call; a whole number of
      instructions for a branch. */
  predicate TakesNumber(op: Opcode, n: i64) {
    if op.SYSCALL? then 0 <= n < 0x1_0000_0000_0000
    else -0x8000_0000_0000 <= n < 0x8000_0000_0000 && (op.MOVI? || op.LEA? || n % 8 == 0)
  }

  /** Exactly what is accepted: the name of an opcode, with operands of its shape and immediates it takes. */
  lemma AcceptsIff(mnemonic: string, operands: seq<Operand>)
    ensures Accepts(mnemonic, operands) <==>
            exists op: Opcode ::
              && !op.Unknown? && Upper(mnemonic) == Mnemonic(op) && |operands| == |ShapeOf(op)|
              && (forall i :: 0 <= i < |operands| ==> HasShape(operands[i], ShapeOf(op)[i]))
              && (forall i :: 0 <= i < |operands| && operands[i].kind.ImmediateOperand? ==> TakesNumber(op, operands[i].immediate))
  {
    hide FindMnemonic, Mnemonic, Upper, FitsSigned, FitsUnsigned;
    forall op: Opcode
      ensures FindMnemonic(mnemonic) == Some(op) <==> !op.Unknown? && Upper(mnemonic) == Mnemonic(op)
    {
      MnemonicFoundIff(mnemonic, op);
    }
    if FindMnemonic(mnemonic).Some? {
      AcceptsShape(FindMnemonic(mnemonic).value, mnemonic, operands);
    }
    hide Accepts;
  }

  lemma AcceptsShape(op: Opcode, mnemonic: string, operands: seq<Operand>)
    requires FindMnemonic(mnemonic) == Some(op) && !op.Unknown?
    ensures Accepts(mnemonic, operands) <==>
              && |operands| == |ShapeOf(op)|
              && (forall i :: 0 <= i < |operands| ==> HasShape(operands[i], ShapeOf(op)[i]))
              && (forall i :: 0 <= i < |operands| && operands[i].kind.ImmediateOperand? ==> TakesNumber(op, operands[i].immediate))
  {
    hide FindMnemonic;
    Powers();
    hide Pow2;
  }

  /** What an accepted instruction becomes, whatever its format: its opcode by name; the registers of its
      first and second operand, where these have one; the name and the addend of a symbol, with nothing
      else in the immediate field; and otherwise the number of an immediate or a displacement. */
  lemma LoweredMeans(mnemonic: string, operands: seq<Operand>)
    requires Accepts(mnemonic, operands)
    ensures Lowered(Text, mnemonic, operands).Ok? && |operands| <= 2
    ensures var ins := Lowered(Text, mnemonic, operands).value;
            && !ins.machine.opcode.Unknown? && Upper(mnemonic) == Mnemonic(ins.machine.opcode)
            && ins.machine.dst == (if |operands| > 0 && CarriesRegister(operands[0]) then operands[0].reg else 0)
            && ins.machine.src == (if |operands| > 1 && CarriesRegister(operands[1]) then operands[1].reg else 0)
            && (forall i :: 0 <= i < |operands| && operands[i].kind.SymbolOperand? ==>
                  ins.symbol == Some(SymbolRef(operands[i].symbol, operands[i].immediate)) && ins.machine.imm == 0)
            && (forall i :: 0 <= i < |operands| && (operands[i].kind.ImmediateOperand? || operands[i].kind.MemoryOperand?) ==>
                  ins.symbol.None? && ins.machine.imm == operands[i].immediate)
            && ((forall i :: 0 <= i < |operands| ==> operands[i].kind.RegisterOperand?) ==> ins.symbol.None? && ins.machine.imm == 0)
  {
    hide FindMnemonic, FindOpcode, FitsSigned, FitsUnsigned, Mnemonic;
    MnemonicFoundIff(mnemonic, FindMnemonic(mnemonic).value);
  }

  /** Outside the code section nothing is lowered. */
  lemma OnlyText(kind: SectionKind, mnemonic: string, operands: seq<Operand>)
    requires Accepts(mnemonic, operands) && !kind.Text?
    ensures Lowered(kind, mnemonic, operands) == Err(OutsideText)
  {
    hide FindMnemonic, FindOpcode;
  }

  lemma EncodesIff(i: Instruction)
    requires FindOpcode(i.opcode).Some?
    ensures var fields := FieldsOf(FindOpcode(i.opcode).value.format);
      Encode(i).Ok? <==> Canonical(i, fields) && ImmediateFits(i, fields)
  {
    hide PackFields, FitsSigned, FitsUnsigned;
  }

  lemma ZeroFits()
    ensures FitsSigned(0, IMMEDIATE_BITS)
  {
    Powers();
  }

  /** An accepted instruction can be encoded, its symbol aside, exactly when a displacement it may have fits
      the field: semantic analysis checks every other operand but not that one. */
  lemma AcceptedEncodesIff(mnemonic: string, operands: seq<Operand>)
    requires Accepts(mnemonic, operands)
    ensures var ins := Lowered(Text, mnemonic, operands).value;
      Encode(Placeholder(ins)).Ok? <==> (FindOpcode(ins.machine.opcode).value.format.Mem? ==> FitsSigned(ins.machine.imm, IMMEDIATE_BITS))
  {
    hide FindMnemonic, Encode, FitsSigned, FitsUnsigned, FindOpcode;
    ZeroFits();
    EncodesIff(Placeholder(Lowered(Text, mnemonic, operands).value));
  }

  /** A load from a displacement of 2^47 is accepted and lowered but does not encode. */
  lemma LongDisplacement()
    ensures var operands := [Operand(RegisterOperand, 1, 0, ""), Operand(MemoryOperand, 2, TWO47, "")];
      Accepts(Mnemonic(LOAD), operands) && Encode(Placeholder(Lowered(Text, Mnemonic(LOAD), operands).value)).Err?
  {
    hide FindMnemonic, Mnemonic, Encode, FitsSigned;
    MnemonicLetters(LOAD);
    MnemonicFoundIff(Mnemonic(LOAD), LOAD);
    TooLong();
    AcceptedEncodesIff(Mnemonic(LOAD), [Operand(RegisterOperand, 1, 0, ""), Operand(MemoryOperand, 2, TWO47, "")]);
  }

  lemma TooLong()
    ensures !FitsSigned(TWO47, IMMEDIATE_BITS)
  {
    Powers();
  }

  /** The lowering of one file: the current section, and the items of the code section. */
  class Lowerer {
    var current: SectionKind
    var text: seq<Item>
    var failed: bool

    constructor ()
      ensures current == Text && text == [] && !failed
    {
      current, text, failed := Text, [], false;
    }

    /** `lowerStatement` for an instruction. */
    method LowerInstruction(mnemonic: string, operands: seq<Operand>)
      requires Accepts(mnemonic, operands)
      modifies this`text, this`failed
      ensures var r := Lowered(current, mnemonic, operands);
        && text == old(text) + (if r.Ok? then [Instr(r.value)] else [])
        && (failed <==> old(failed) || r.Err?)
    {
      var op := FindMnemonic(mnemonic);
      if op.None? || !current.Text? {
        failed := true;
        return;
      }
      var format := FindOpcode(op.value).value.format;
      var m := Instruction(op.value, 0, 0, 0);
      var ins := IrInstruction(m, None);
      match format {
        case NoOperands =>
        case Reg1 => ins := IrInstruction(m.(dst := operands[0].reg), None);
        case Reg2 => ins := IrInstruction(m.(dst := operands[0].reg, src := operands[1].reg), None);
        case RegImm => ins := WithValue(m.(dst := operands[0].reg), operands[1]);
        case Mem =>
          var store := op.value.STORE?;
          var memory := if store then operands[0] else operands[1];
          var reg := if store then operands[1] else operands[0];
          ins := IrInstruction(m.(dst := if store then memory.reg else reg.reg, src := if store then reg.reg else memory.reg, imm := memory.immediate), None);
        case Jump => ins := WithValue(m, operands[0]);
        case SysImm => ins := IrInstruction(m.(imm := operands[0].immediate), None);
      }
      text := text + [Instr(ins)];
    }
  }
}
