/** How instructions are spelled: the mnemonics, the registers, and the printed form. */
module Spelling {
  import opened Words
  import opened Isa
  import opened Codec

  // ----- characters -----

  predicate IsDigit(c: char) { '0' <= c <= '9' }

  predicate IsIdentifierStart(c: char) { 'a' <= c <= 'z' || 'A' <= c <= 'Z' || c == '_' }

  predicate IsIdentifierContinue(c: char) { IsIdentifierStart(c) || IsDigit(c) }

  function UpperChar(c: char): char { if 'a' <= c <= 'z' then c - 'a' + 'A' else c }

  function LowerChar(c: char): char { if 'A' <= c <= 'Z' then c - 'A' + 'a' else c }

  function Upper(text: string): (r: string)
    ensures |r| == |text|
  {
    seq(|text|, i requires 0 <= i < |text| => UpperChar(text[i]))
  }

  // ----- mnemonics -----

  /** The rows of the opcode table, in order. */
  const OPCODES: seq<Opcode> := [
    NOP, HALT, SYSCALL, MOV, MOVI, LOAD, STORE, LEA, PUSH, POP, ADD, SUB, MUL, DIV, MOD, INC, DEC, NEG,
    AND, OR, XOR, NOT, SHL, SHR, SAR, CMP, TEST, JMP, JE, JNE, JG, JL, JGE, JLE, CALL, RET]

  function Mnemonic(op: Opcode): string {
    match op
    case NOP => "NOP" case HALT => "HALT" case SYSCALL => "SYSCALL"
    case MOV => "MOV" case MOVI => "MOVI" case LOAD => "LOAD" case STORE => "STORE"
    case LEA => "LEA" case PUSH => "PUSH" case POP => "POP"
    case ADD => "ADD" case SUB => "SUB" case MUL => "MUL" case DIV => "DIV" case MOD => "MOD"
    case INC => "INC" case DEC => "DEC" case NEG => "NEG"
    case AND => "AND" case OR => "OR" case XOR => "XOR" case NOT => "NOT"
    case SHL => "SHL" case SHR => "SHR" case SAR => "SAR" case CMP => "CMP" case TEST => "TEST"
    case JMP => "JMP" case JE => "JE" case JNE => "JNE" case JG => "JG" case JL => "JL" case JGE => "JGE" case JLE => "JLE"
    case CALL => "CALL" case RET => "RET" case Unknown(_) => "???"
  }

  /** `findMnemonic`: the first row, from row n on, that the text spells in either case. */
  function FindMnemonicFrom(text: string, n: nat): Option<Opcode>
    decreases |OPCODES| - n
  {
    if n >= |OPCODES| then None
    else if Upper(text) == Mnemonic(OPCODES[n]) then Some(OPCODES[n])
    else FindMnemonicFrom(text, n + 1)
  }

  function FindMnemonic(text: string): Option<Opcode> { FindMnemonicFrom(text, 0) }

  /** A number that tells the mnemonics apart. */
  function Key(name: string): int {
    |name| + 8 * ((if |name| > 0 then name[0] as int else 0) + 128 * (if |name| > 1 then name[1] as int else 0)
                  + 16384 * (if |name| > 2 then name[2] as int else 0))
  }

  function OpcodeOfKey(key: int): Opcode {
    match key
    case 10567283 => NOP case 10028612 => HALT case 10970783 => SYSCALL case 11353707 => MOV
    case 11353708 => MOVI case 8601188 => LOAD case 10441373 => STORE case 8590947 => LEA
    case 10966660 => PUSH case 10567299 => POP case 8983051 => ADD case 8738459 => SUB
    case 10049131 => MUL case 11347491 => DIV case 8994411 => MOD case 8862283 => INC
    case 8853027 => DEC case 9377395 => NEG case 8993291 => AND case 84602 => OR
    case 10829507 => XOR case 11091571 => NOT case 10035867 => SHL case 10822299 => SHR
    case 10815131 => SAR case 10565147 => CMP case 10950308 => TEST case 10565203 => JMP
    case 71250 => JE case 9124435 => JNE case 73298 => JG case 78418 => JL
    case 9117267 => JGE case 9122387 => JLE case 10028572 => CALL case 11081363 => RET
    case _ => Unknown(0xFF)
  }

  lemma FirstKeys(op: Opcode)
    requires op in {NOP, HALT, SYSCALL, MOV, MOVI, LOAD, STORE, LEA, PUSH}
    ensures OpcodeOfKey(Key(Mnemonic(op))) == op
  {
  }

  lemma SecondKeys(op: Opcode)
    requires op in {POP, ADD, SUB, MUL, DIV, MOD, INC, DEC, NEG}
    ensures OpcodeOfKey(Key(Mnemonic(op))) == op
  {
  }

  lemma ThirdKeys(op: Opcode)
    requires op in {AND, OR, XOR, NOT, SHL, SHR, SAR, CMP, TEST}
    ensures OpcodeOfKey(Key(Mnemonic(op))) == op
  {
  }

  lemma LastKeys(op: Opcode)
    requires op in {JMP, JE, JNE, JG, JL, JGE, JLE, CALL, RET}
    ensures OpcodeOfKey(Key(Mnemonic(op))) == op
  {
  }

  /** Every mnemonic has a key of its own. */
  lemma KeysDiffer(op: Opcode)
    requires !op.Unknown?
    ensures OpcodeOfKey(Key(Mnemonic(op))) == op
  {
    hide OpcodeOfKey, Key, Mnemonic;
    if op in {NOP, HALT, SYSCALL, MOV, MOVI, LOAD, STORE, LEA, PUSH} {
      FirstKeys(op);
    } else if op in {POP, ADD, SUB, MUL, DIV, MOD, INC, DEC, NEG} {
      SecondKeys(op);
    } else if op in {AND, OR, XOR, NOT, SHL, SHR, SAR, CMP, TEST} {
      ThirdKeys(op);
    } else {
      LastKeys(op);
    }
  }

  lemma Listed(op: Opcode) returns (n: nat)
    requires !op.Unknown?
    ensures n < |OPCODES| && OPCODES[n] == op
  {
    n := match op
      case NOP => 0 case HALT => 1 case SYSCALL => 2 case MOV => 3 case MOVI => 4 case LOAD => 5 case STORE => 6
      case LEA => 7 case PUSH => 8 case POP => 9 case ADD => 10 case SUB => 11 case MUL => 12 case DIV => 13
      case MOD => 14 case INC => 15 case DEC => 16 case NEG => 17 case AND => 18 case OR => 19 case XOR => 20
      case NOT => 21 case SHL => 22 case SHR => 23 case SAR => 24 case CMP => 25 case TEST => 26 case JMP => 27
      case JE => 28 case JNE => 29 case JG => 30 case JL => 31 case JGE => 32 case JLE => 33 case CALL => 34
      case RET => 35;
  }

  lemma {:induction false} FoundFrom(text: string, n: nat, k: nat)
    requires n <= k < |OPCODES| && Upper(text) == Mnemonic(OPCODES[k])
    ensures FindMnemonicFrom(text, n) == Some(OPCODES[k])
    decreases k - n
  {
    hide Key, OpcodeOfKey, Upper, Mnemonic;
    if Upper(text) == Mnemonic(OPCODES[n]) {
      AllKnown(n);
      AllKnown(k);
      KeysDiffer(OPCODES[n]);
      KeysDiffer(OPCODES[k]);
    } else {
      FoundFrom(text, n + 1, k);
    }
  }

  lemma AllKnown(n: nat)
    requires n < |OPCODES|
    ensures !OPCODES[n].Unknown?
  {
  }

  lemma {:induction false} FoundMeans(text: string, n: nat)
    requires FindMnemonicFrom(text, n).Some?
    ensures var op := FindMnemonicFrom(text, n).value; !op.Unknown? && Upper(text) == Mnemonic(op)
    decreases |OPCODES| - n
  {
    hide Upper, Mnemonic;
    AllKnown(n);
    if Upper(text) != Mnemonic(OPCODES[n]) {
      FoundMeans(text, n + 1);
    }
  }

  /** The lookup finds an opcode exactly for its own name, whatever the case of the letters. */
  lemma MnemonicFoundIff(text: string, op: Opcode)
    ensures FindMnemonic(text) == Some(op) <==> !op.Unknown? && Upper(text) == Mnemonic(op)
  {
    hide Upper, Mnemonic;
    if FindMnemonic(text) == Some(op) {
      FoundMeans(text, 0);
    }
    if !op.Unknown? && Upper(text) == Mnemonic(op) {
      var n := Listed(op);
      FoundFrom(text, 0, n);
    }
  }

  /** A mnemonic is a word of capital letters. */
  lemma MnemonicLetters(op: Opcode)
    requires !op.Unknown?
    ensures |Mnemonic(op)| > 0 && forall i :: 0 <= i < |Mnemonic(op)| ==> 'A' <= Mnemonic(op)[i] <= 'Z'
    ensures Upper(Mnemonic(op)) == Mnemonic(op)
  {
  }

  // ----- registers -----

  function DigitChar(d: nat): char
    requires d < 10
  {
    '0' + (d as char)
  }

  /** The decimal digits of a number. */
  function Decimal(n: nat): (s: string)
    ensures |s| > 0
  {
    if n < 10 then [DigitChar(n)] else Decimal(n / 10) + [DigitChar(n % 10)]
  }

  function RegisterName(r: Reg): string { "R" + Decimal(r) }

  /** The value of a run of decimal digits; `None` if there is anything else in it. */
  function RegisterNumber(digits: string): Option<nat> {
    if digits == "" then Some(0)
    else
      var last := |digits| - 1;
      var before := RegisterNumber(digits[..last]);
      if before.None? || !IsDigit(digits[last]) then None else Some(before.value * 10 + (digits[last] as int - '0' as int))
  }

  function ParseRegister(text: string): Option<Reg> {
    if |text| == 2 && UpperChar(text[0]) == 'F' && UpperChar(text[1]) == 'P' then Some(13)
    else if |text| == 2 && UpperChar(text[0]) == 'R' && UpperChar(text[1]) == 'V' then Some(14)
    else if |text| < 2 || |text| > 3 || UpperChar(text[0]) != 'R' then None
    else if |text| > 2 && text[1] == '0' then None
    else
      var value := RegisterNumber(text[1..]);
      if value.None? || value.value >= REGISTER_COUNT then None else Some(value.value)
  }

  /** Printing and parsing a register. */
  lemma RegisterRoundTrip(r: Reg)
    ensures ParseRegister(RegisterName(r)) == Some(r)
    ensures |RegisterName(r)| > 0 && RegisterName(r)[0] == 'R' && forall i :: 0 <= i < |RegisterName(r)| ==> IsIdentifierContinue(RegisterName(r)[i])
  {
    if r < 10 {
      assert Decimal(r) == [DigitChar(r)];
      assert RegisterName(r)[1..] == [DigitChar(r)] && [DigitChar(r)][..0] == "";
      assert RegisterNumber([DigitChar(r)]) == Some(r);
    } else {
      assert Decimal(r / 10) == [DigitChar(1)] && Decimal(r) == [DigitChar(1), DigitChar(r % 10)];
      var digits := RegisterName(r)[1..];
      assert digits == [DigitChar(1), DigitChar(r % 10)] && digits[..1] == [DigitChar(1)] && digits[..1][..0] == "";
      assert RegisterNumber(digits[..1]) == Some(1);
    }
  }

  /** No mnemonic is a register name. */
  lemma MnemonicIsNoRegister(op: Opcode)
    requires !op.Unknown?
    ensures ParseRegister(Mnemonic(op)).None?
  {
    if op.RET? {
      assert "RET"[1..] == "ET" && "ET"[..1] == "E" && "E"[..0] == "";
      assert RegisterNumber("E").None?;
    }
  }

  // ----- the printed form -----

  function Signed(n: int): string { if n < 0 then "-" + Decimal(-n) else Decimal(n) }

  function HexChar(d: nat): char
    requires d < 16
  {
    if d < 10 then '0' + (d as char) else 'A' + ((d - 10) as char)
  }

  function MemoryText(base: Reg, imm: i64): string {
    var magnitude: int := imm;
    "[" + RegisterName(base) + (if imm < 0 then " - " else " + ") + Decimal(if magnitude < 0 then -magnitude else magnitude) + "]"
  }

  /** `toString` */
  function ToString(i: Instruction): string {
    var info := FindOpcode(i.opcode);
    if info.None? then ".word 0x" + [HexChar(OpcodeNumber(i.opcode) / 16), HexChar(OpcodeNumber(i.opcode) % 16)] + "..."
    else
      var name := Mnemonic(i.opcode);
      match info.value.format
      case NoOperands => name
      case Reg1 => name + " " + RegisterName(i.dst)
      case Reg2 => name + " " + RegisterName(i.dst) + ", " + RegisterName(i.src)
      case RegImm => name + " " + RegisterName(i.dst) + ", " + Signed(i.imm)
      case Mem =>
        if i.opcode.STORE? then name + " " + MemoryText(i.dst, i.imm) + ", " + RegisterName(i.src)
        else name + " " + RegisterName(i.dst) + ", " + MemoryText(i.src, i.imm)
      case Jump => name + " ." + (if i.imm < 0 then "" else "+") + Signed(i.imm)
      case SysImm => name + " " + Signed(i.imm)
  }
}
