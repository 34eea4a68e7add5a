/** Printed instructions can be read back: lexing, parsing, checking and lowering what `toString` prints
    gives the instruction again, for exactly the instructions that are not branches. */
module Listings {
  import opened Words
  import opened Isa
  import opened Ir
  import opened Codec
  import opened Spelling
  import opened Lexing
  import opened Grammar
  import opened Parsing
  import opened Lowering
  import opened ControlFlowGraph

  // ----- lexing what was printed -----

  /** The text does not go on with a letter or a digit. */
  predicate Breaks(t: string) { t == "" || !IsIdentifierContinue(t[0]) }

  lemma {:induction false} WordRuns(w: string, rest: string)
    requires (forall i :: 0 <= i < |w| ==> IsIdentifierContinue(w[i])) && Breaks(rest)
    ensures WordLength(w + rest) == |w|
  {
    if w != "" {
      assert (w + rest)[1..] == w[1..] + rest;
      WordRuns(w[1..], rest);
    } else {
      assert w + rest == rest;
    }
  }

  lemma {:induction false} DigitsRun(w: string, rest: string)
    requires (forall i :: 0 <= i < |w| ==> IsDigit(w[i])) && Breaks(rest)
    ensures DigitsLength(w + rest, 10) == |w|
  {
    if w != "" {
      assert (w + rest)[1..] == w[1..] + rest;
      DigitsRun(w[1..], rest);
    } else {
      assert w + rest == rest;
    }
  }

  /** A token with nothing in front of it. */
  lemma SolidToken(t: string)
    requires t != "" && !IsBlank(t[0]) && t[0] != ';'
    ensures Tokens(t) == [LexSolid(t).0] + Tokens(t[LexSolid(t).1..])
  {
    hide LexSolid;
    assert Blanks(t) == 0 && t[0..] == t;
  }

  /** A blank in front of text makes no difference. */
  lemma BlankToken(t: string)
    ensures Tokens(" " + t) == Tokens(t)
  {
    hide LexSolid;
    var s := " " + t;
    assert s[1..] == t;
    assert Blanks(s) == 1 + Blanks(t);
    if Blanks(t) < |t| {
      assert s[Blanks(s)..] == t[Blanks(t)..];
      assert s[LexNext(s).1..] == t[LexNext(t).1..];
    }
  }

  lemma WordToken(w: string, rest: string)
    requires w != "" && IsIdentifierStart(w[0]) && (forall i :: 0 <= i < |w| ==> IsIdentifierContinue(w[i])) && Breaks(rest)
    ensures Tokens(w + rest) == [if ParseRegister(w).Some? then RegisterToken(w) else Identifier(w)] + Tokens(rest)
  {
    hide ParseRegister;
    var t := w + rest;
    WordRuns(w, rest);
    assert t[..|w|] == w && t[|w|..] == rest;
    assert LexSolid(t) == LexWord(t);
    SolidToken(t);
  }

  lemma MnemonicToken(op: Opcode, rest: string)
    requires !op.Unknown? && Breaks(rest)
    ensures Tokens(Mnemonic(op) + rest) == [Identifier(Mnemonic(op))] + Tokens(rest)
  {
    hide Mnemonic, ParseRegister;
    MnemonicLetters(op);
    MnemonicIsNoRegister(op);
    WordToken(Mnemonic(op), rest);
  }

  lemma NameToken(r: Reg, rest: string)
    requires Breaks(rest)
    ensures Tokens(RegisterName(r) + rest) == [RegisterToken(RegisterName(r))] + Tokens(rest)
  {
    hide RegisterName, ParseRegister;
    RegisterRoundTrip(r);
    WordToken(RegisterName(r), rest);
  }

  lemma MarkSolid(c: char, rest: string)
    requires c in {',', '+', '.', '[', ']', '\n'}
    ensures LexSolid([c] + rest) == (LexSolid([c]).0, 1) && !IsBlank(c) && c != ';'
  {
    hide LexInteger, LexWord;
    assert ([c] + rest)[0] == c;
  }

  /** A token of one character. */
  lemma MarkToken(c: char, rest: string)
    requires c in {',', '+', '.', '[', ']', '\n'}
    ensures Tokens([c] + rest) == [LexSolid([c]).0] + Tokens(rest)
  {
    hide LexSolid, Tokens, IsBlank;
    var t := [c] + rest;
    assert t[0] == c && t[1..] == rest;
    MarkSolid(c, rest);
    SolidToken(t);
  }

  lemma MinusToken(rest: string)
    requires rest == "" || !IsDigit(rest[0])
    ensures Tokens("-" + rest) == [Minus] + Tokens(rest)
  {
    hide LexInteger, LexWord, Tokens;
    var t := "-" + rest;
    assert t[1..] == rest && t[0] == '-';
    assert rest != "" ==> t[1] == rest[0];
    assert LexSolid(t) == (Minus, 1);
    SolidToken(t);
  }

  // ----- numbers -----

  lemma {:induction false} DecimalDigits(n: nat)
    ensures forall i :: 0 <= i < |Decimal(n)| ==> IsDigit(Decimal(n)[i])
    ensures NumberValue(Decimal(n), 10) == n
    ensures Decimal(n)[0] == '0' ==> n == 0 && Decimal(n) == "0"
  {
    var s := Decimal(n);
    if n < 10 {
      assert s == [DigitChar(n)] && s[..0] == "";
    } else {
      var d := Decimal(n / 10);
      DecimalDigits(n / 10);
      assert s == d + [DigitChar(n % 10)] && s[..|s| - 1] == d;
      assert s[0] == d[0];
      DigitValues(n % 10);
    }
  }

  lemma DigitValues(d: nat)
    requires d < 10
    ensures IsDigit(DigitChar(d)) && DigitValue(DigitChar(d)) == d
  {
  }

  /** Decimal digits are read in base ten: a zero in front of a letter is never printed. */
  lemma NoPrefix(front: string, n: nat, rest: string)
    requires |front| <= 1 && Breaks(rest)
    ensures BaseOf(front + Decimal(n) + rest, |front|) == 10
  {
    hide Decimal;
    DecimalDigits(n);
    var t := front + Decimal(n) + rest;
    assert t[|front|] == Decimal(n)[0];
    if Decimal(n) == "0" && rest != "" {
      assert t[|front| + 1] == rest[0];
    }
  }

  lemma NumberToken(front: string, n: nat, rest: string)
    requires (front == "" || front == "-") && Breaks(rest) && n < TWO63
    ensures Tokens(front + Decimal(n) + rest) == [Integer(if front == "-" then 0 - n else n)] + Tokens(rest)
  {
    hide Decimal, NumberValue, BaseOf, DigitsLength, LexSolid, Tokens;
    var t, from, d := front + Decimal(n) + rest, |front|, Decimal(n);
    NoPrefix(front, n, rest);
    DecimalDigits(n);
    DigitsRun(d, rest);
    assert t[from..] == d + rest && t[from] == d[0];
    var end := from + |d|;
    assert t[from..end] == d && t[end..] == rest;
    assert end < |t| ==> t[end] == rest[0];
    assert LexDigits(t, from, 10, from == 1) == (Integer(if front == "-" then 0 - n else n), end);
    assert LexInteger(t, from) == (Integer(if front == "-" then 0 - n else n), end);
    NumberStarts(t, from);
    SolidToken(t);
  }

  lemma NumberStarts(t: string, from: nat)
    requires from <= 1 && from < |t| && IsDigit(t[from]) && (from == 1 ==> t[0] == '-')
    ensures LexSolid(t) == LexInteger(t, from) && !IsBlank(t[0]) && t[0] != ';'
  {
    hide LexInteger;
  }

  lemma SignedNumber(n: int, rest: string)
    requires -TWO63 < n < TWO63 && Breaks(rest)
    ensures Tokens(Signed(n) + rest) == [Integer(n)] + Tokens(rest)
  {
    hide Decimal, Tokens;
    if n < 0 {
      NumberToken("-", -n, rest);
    } else {
      NumberToken("", n, rest);
      assert "" + Decimal(n) + rest == Decimal(n) + rest;
    }
  }

  // ----- the tokens of a printed instruction -----

  function NameOf(r: Reg): Token { RegisterToken(RegisterName(r)) }

  function Magnitude(imm: i64): int { if imm < 0 then 0 - imm else imm }

  function MemoryTokens(base: Reg, imm: i64): seq<Token>
    requires imm > -TWO63
  {
    [LBracket, NameOf(base), if imm < 0 then Minus else Plus, Integer(Magnitude(imm)), RBracket]
  }

  /** The operands of a printed instruction, as tokens. */
  function OperandTokens(i: Instruction, format: Format): seq<Token>
    requires i.imm > -TWO63
  {
    match format
    case NoOperands => []
    case Reg1 => [NameOf(i.dst)]
    case Reg2 => [NameOf(i.dst), Comma, NameOf(i.src)]
    case RegImm => [NameOf(i.dst), Comma, Integer(i.imm)]
    case Mem => if i.opcode.STORE? then MemoryTokens(i.dst, i.imm) + [Comma, NameOf(i.src)] else [NameOf(i.dst), Comma] + MemoryTokens(i.src, i.imm)
    case Jump => if i.imm < 0 then [Dot, Integer(i.imm)] else [Dot, Plus, Integer(i.imm)]
    case SysImm => [Integer(i.imm)]
  }

  /** What `toString` prints behind the mnemonic. */
  function OperandText(i: Instruction, format: Format): string {
    match format
    case NoOperands => ""
    case Reg1 => " " + RegisterName(i.dst)
    case Reg2 => " " + RegisterName(i.dst) + ", " + RegisterName(i.src)
    case RegImm => " " + RegisterName(i.dst) + ", " + Signed(i.imm)
    case Mem =>
      if i.opcode.STORE? then " " + MemoryText(i.dst, i.imm) + ", " + RegisterName(i.src)
      else " " + RegisterName(i.dst) + ", " + MemoryText(i.src, i.imm)
    case Jump => " ." + (if i.imm < 0 then "" else "+") + Signed(i.imm)
    case SysImm => " " + Signed(i.imm)
  }

  lemma PrintedParts(i: Instruction)
    requires FindOpcode(i.opcode).Some?
    ensures ToString(i) == Mnemonic(i.opcode) + OperandText(i, FindOpcode(i.opcode).value.format)
  {
    hide Mnemonic, RegisterName, MemoryText, Signed;
    var name := Mnemonic(i.opcode);
    match FindOpcode(i.opcode).value.format {
      case NoOperands => assert name + "" == name;
      case Reg1 =>
      case Reg2 => Joined(name, " ", RegisterName(i.dst), ", ", RegisterName(i.src));
      case RegImm => Joined(name, " ", RegisterName(i.dst), ", ", Signed(i.imm));
      case Mem =>
        Joined(name, " ", MemoryText(i.dst, i.imm), ", ", RegisterName(i.src));
        Joined(name, " ", RegisterName(i.dst), ", ", MemoryText(i.src, i.imm));
      case Jump => assert name + " ." + (if i.imm < 0 then "" else "+") + Signed(i.imm) == name + (" ." + (if i.imm < 0 then "" else "+") + Signed(i.imm));
      case SysImm => assert name + " " + Signed(i.imm) == name + (" " + Signed(i.imm));
    }
  }

  lemma Joined(a: string, b: string, c: string, d: string, e: string)
    ensures a + b + c + d + e == a + (b + c + d + e) && a + b + c == a + (b + c)
  {
  }

  lemma SpaceName(r: Reg, rest: string)
    requires Breaks(rest)
    ensures Tokens(" " + RegisterName(r) + rest) == [NameOf(r)] + Tokens(rest)
  {
    hide Tokens, RegisterName;
    BlankToken(RegisterName(r) + rest);
    NameToken(r, rest);
    assert " " + RegisterName(r) + rest == " " + (RegisterName(r) + rest);
  }

  /** A comma and a blank in front of text. */
  lemma CommaToken(t: string)
    ensures Tokens(", " + t) == [Comma] + Tokens(t)
  {
    hide Tokens;
    MarkToken(',', " " + t);
    BlankToken(t);
    assert ", " + t == [','] + (" " + t);
  }

  lemma MemoryLexes(base: Reg, imm: i64, rest: string)
    requires imm > -TWO63
    ensures Tokens(MemoryText(base, imm) + rest) == MemoryTokens(base, imm) + Tokens(rest)
  {
    hide Tokens, RegisterName, Decimal, LexSolid;
    var d, sign := Decimal(Magnitude(imm)), if imm < 0 then " - " else " + ";
    var t4 := "]" + rest;
    var t3 := d + t4;
    var t2 := sign + t3;
    var t1 := RegisterName(base) + t2;
    MemorySplit(base, imm, rest, d, sign);
    OpenToken(t1);
    NameToken(base, t2);
    SignToken(imm < 0, t3);
    NumberToken("", Magnitude(imm), t4);
    assert "" + d + t4 == t3;
    CloseToken(rest);
  }

  lemma MemorySplit(base: Reg, imm: i64, rest: string, d: string, sign: string)
    requires imm > -TWO63 && d == Decimal(Magnitude(imm)) && sign == if imm < 0 then " - " else " + "
    ensures MemoryText(base, imm) + rest == "[" + (RegisterName(base) + (sign + (d + ("]" + rest))))
  {
    hide RegisterName, Decimal;
    assert "[" + RegisterName(base) + sign + d + "]" + rest == "[" + (RegisterName(base) + (sign + (d + ("]" + rest))));
  }

  lemma OpenToken(t: string)
    ensures Tokens("[" + t) == [LBracket] + Tokens(t)
  {
    hide Tokens;
    MarkToken('[', t);
  }

  lemma CloseToken(t: string)
    ensures Tokens("]" + t) == [RBracket] + Tokens(t)
  {
    hide Tokens;
    MarkToken(']', t);
  }

  lemma PlusToken(rest: string)
    ensures Tokens("+" + rest) == [Plus] + Tokens(rest)
  {
    hide Tokens;
    MarkToken('+', rest);
  }

  lemma SignToken(negative: bool, t: string)
    ensures Tokens((if negative then " - " else " + ") + t) == [if negative then Minus else Plus] + Tokens(t)
  {
    hide Tokens, LexSolid;
    BlankToken(t);
    if negative {
      BlankToken("-" + (" " + t));
      MinusToken(" " + t);
      assert " - " + t == " " + ("-" + (" " + t));
    } else {
      BlankToken("+" + (" " + t));
      PlusToken(" " + t);
      assert " + " + t == " " + ("+" + (" " + t));
    }
  }

  lemma NamesLex(a: Reg, b: Reg, rest: string)
    requires Breaks(rest)
    ensures Tokens(" " + RegisterName(a) + ", " + RegisterName(b) + rest) == [NameOf(a), Comma, NameOf(b)] + Tokens(rest)
  {
    hide Tokens, RegisterName;
    SpaceName(a, ", " + (RegisterName(b) + rest));
    CommaToken(RegisterName(b) + rest);
    NameToken(b, rest);
    assert " " + RegisterName(a) + ", " + RegisterName(b) + rest == " " + RegisterName(a) + (", " + (RegisterName(b) + rest));
  }

  lemma NameNumberLex(a: Reg, n: int, rest: string)
    requires -TWO63 < n < TWO63 && Breaks(rest)
    ensures Tokens(" " + RegisterName(a) + ", " + Signed(n) + rest) == [NameOf(a), Comma, Integer(n)] + Tokens(rest)
  {
    hide Tokens, RegisterName, Signed;
    SpaceName(a, ", " + (Signed(n) + rest));
    CommaToken(Signed(n) + rest);
    SignedNumber(n, rest);
    assert " " + RegisterName(a) + ", " + Signed(n) + rest == " " + RegisterName(a) + (", " + (Signed(n) + rest));
  }

  lemma StoreLexes(i: Instruction, rest: string)
    requires i.imm > -TWO63 && Breaks(rest)
    ensures Tokens(" " + MemoryText(i.dst, i.imm) + ", " + RegisterName(i.src) + rest)
         == MemoryTokens(i.dst, i.imm) + [Comma, NameOf(i.src)] + Tokens(rest)
  {
    hide Tokens, RegisterName, MemoryText, MemoryTokens;
    var t := ", " + (RegisterName(i.src) + rest);
    BlankToken(MemoryText(i.dst, i.imm) + t);
    MemoryLexes(i.dst, i.imm, t);
    CommaToken(RegisterName(i.src) + rest);
    NameToken(i.src, rest);
    assert " " + MemoryText(i.dst, i.imm) + ", " + RegisterName(i.src) + rest == " " + (MemoryText(i.dst, i.imm) + t);
    assert MemoryTokens(i.dst, i.imm) + ([Comma] + ([NameOf(i.src)] + Tokens(rest))) == MemoryTokens(i.dst, i.imm) + [Comma, NameOf(i.src)] + Tokens(rest);
  }

  lemma LoadLexes(i: Instruction, rest: string)
    requires i.imm > -TWO63
    ensures Tokens(" " + RegisterName(i.dst) + ", " + MemoryText(i.src, i.imm) + rest)
         == [NameOf(i.dst), Comma] + MemoryTokens(i.src, i.imm) + Tokens(rest)
  {
    hide Tokens, RegisterName, MemoryText, MemoryTokens;
    SpaceName(i.dst, ", " + (MemoryText(i.src, i.imm) + rest));
    CommaToken(MemoryText(i.src, i.imm) + rest);
    MemoryLexes(i.src, i.imm, rest);
    assert " " + RegisterName(i.dst) + ", " + MemoryText(i.src, i.imm) + rest
        == " " + RegisterName(i.dst) + (", " + (MemoryText(i.src, i.imm) + rest));
    assert [NameOf(i.dst)] + ([Comma] + (MemoryTokens(i.src, i.imm) + Tokens(rest))) == [NameOf(i.dst), Comma] + MemoryTokens(i.src, i.imm) + Tokens(rest);
  }

  lemma JumpLexes(n: int, rest: string)
    requires -TWO63 < n < TWO63 && Breaks(rest)
    ensures Tokens(" ." + (if n < 0 then "" else "+") + Signed(n) + rest)
         == (if n < 0 then [Dot, Integer(n)] else [Dot, Plus, Integer(n)]) + Tokens(rest)
  {
    hide Tokens, Signed;
    var t := Signed(n) + rest;
    var u := if n < 0 then t else "+" + t;
    SignedNumber(n, rest);
    BlankToken("." + u);
    MarkToken('.', u);
    assert " ." + (if n < 0 then "" else "+") + Signed(n) + rest == " " + ("." + u);
    if n >= 0 {
      MarkToken('+', t);
      assert [Dot] + ([Plus] + ([Integer(n)] + Tokens(rest))) == [Dot, Plus, Integer(n)] + Tokens(rest);
    }
  }

  lemma SpaceNumber(n: int, rest: string)
    requires -TWO63 < n < TWO63 && Breaks(rest)
    ensures Tokens(" " + Signed(n) + rest) == [Integer(n)] + Tokens(rest)
  {
    hide Tokens, Signed;
    BlankToken(Signed(n) + rest);
    SignedNumber(n, rest);
    assert " " + Signed(n) + rest == " " + (Signed(n) + rest);
  }

  lemma OperandsLex(i: Instruction, format: Format, rest: string)
    requires i.imm > -TWO63 && Breaks(rest)
    ensures Tokens(OperandText(i, format) + rest) == OperandTokens(i, format) + Tokens(rest)
  {
    hide Tokens, RegisterName, Signed, MemoryText, MemoryTokens;
    match format {
      case NoOperands => assert "" + rest == rest && [] + Tokens(rest) == Tokens(rest);
      case Reg1 => SpaceName(i.dst, rest);
      case Reg2 => NamesLex(i.dst, i.src, rest);
      case RegImm => NameNumberLex(i.dst, i.imm, rest);
      case Mem =>
        StoreLexes(i, rest);
        LoadLexes(i, rest);
      case Jump => JumpLexes(i.imm, rest);
      case SysImm => SpaceNumber(i.imm, rest);
    }
  }

  lemma OperandTextBreaks(i: Instruction, format: Format, rest: string)
    requires Breaks(rest)
    ensures Breaks(OperandText(i, format) + rest)
  {
    hide RegisterName, Signed, MemoryText;
    if format.NoOperands? {
      assert "" + rest == rest;
    } else {
      assert OperandText(i, format)[0] == ' ';
    }
  }

  /** Lexing what was printed, in front of more text. */
  lemma PrintedTokens(i: Instruction, rest: string)
    requires FindOpcode(i.opcode).Some? && i.imm > -TWO63 && Breaks(rest)
    ensures Tokens(ToString(i) + rest)
         == [Identifier(Mnemonic(i.opcode))] + OperandTokens(i, FindOpcode(i.opcode).value.format) + Tokens(rest)
  {
    hide Tokens, Mnemonic, OperandText, OperandTokens, ToString;
    var format := FindOpcode(i.opcode).value.format;
    PrintedParts(i);
    OperandTextBreaks(i, format, rest);
    MnemonicToken(i.opcode, OperandText(i, format) + rest);
    OperandsLex(i, format, rest);
    assert ToString(i) + rest == Mnemonic(i.opcode) + (OperandText(i, format) + rest);
    assert [Identifier(Mnemonic(i.opcode))] + (OperandTokens(i, format) + Tokens(rest))
        == [Identifier(Mnemonic(i.opcode))] + OperandTokens(i, format) + Tokens(rest);
  }

  // ----- parsing what was printed -----

  function RegisterValue(r: Reg): Operand { Operand(RegisterOperand, r, 0, "") }

  function MemoryValue(base: Reg, imm: i64): Operand { Operand(MemoryOperand, base, imm, "") }

  /** The operands a printed instruction has. */
  function OperandValues(i: Instruction, format: Format): seq<Operand> {
    match format
    case NoOperands => []
    case Reg1 => [RegisterValue(i.dst)]
    case Reg2 => [RegisterValue(i.dst), RegisterValue(i.src)]
    case RegImm => [RegisterValue(i.dst), Operand(ImmediateOperand, 0, i.imm, "")]
    case Mem => if i.opcode.STORE? then [MemoryValue(i.dst, i.imm), RegisterValue(i.src)] else [RegisterValue(i.dst), MemoryValue(i.src, i.imm)]
    case Jump => []
    case SysImm => [Operand(ImmediateOperand, 0, i.imm, "")]
  }

  predicate AtLineEnd(more: seq<Token>) { EndsLine(Nth(more, 0)) }

  lemma NthBehind(x: Token, ts: seq<Token>)
    ensures Nth([x] + ts, 0) == x && Behind([x] + ts) == ts
    ensures forall k: nat :: Nth([x] + ts, k + 1) == Nth(ts, k)
  {
  }

  lemma NameParses(r: Reg, ts: seq<Token>)
    ensures ParseOperand([NameOf(r)] + ts) == Parsed(RegisterValue(r), ts)
  {
    hide ParseRegister, RegisterName;
    RegisterRoundTrip(r);
    NthBehind(NameOf(r), ts);
  }

  lemma NumberParses(n: i64, ts: seq<Token>)
    ensures ParseOperand([Integer(n)] + ts) == Parsed(Operand(ImmediateOperand, 0, n, ""), ts)
  {
    NthBehind(Integer(n), ts);
  }

  lemma MemoryParses(base: Reg, imm: i64, ts: seq<Token>)
    requires imm > -TWO63
    ensures ParseOperand(MemoryTokens(base, imm) + ts) == Parsed(MemoryValue(base, imm), ts)
  {
    hide ParseRegister, RegisterName, Nth, Behind;
    RegisterRoundTrip(base);
    var sign := if imm < 0 then Minus else Plus;
    var t4 := [RBracket] + ts;
    var t3 := [Integer(Magnitude(imm))] + t4;
    var t2 := [sign] + t3;
    var t1 := [NameOf(base)] + t2;
    assert MemoryTokens(base, imm) + ts == [LBracket] + t1;
    NthBehind(LBracket, t1);
    NthBehind(NameOf(base), t2);
    NthBehind(sign, t3);
    NthBehind(Integer(Magnitude(imm)), t4);
    NthBehind(RBracket, ts);
    assert NegatedWord(Magnitude(imm)) == 0 - Magnitude(imm);
  }

  /** The last operand of a line. */
  lemma LastOperand(found: seq<Operand>, ts: seq<Token>, x: Operand, more: seq<Token>)
    requires ParseOperand(ts) == Parsed(x, more) && !AtLineEnd(ts) && AtLineEnd(more)
    ensures ParseOperands(found, ts) == Parsed(found + [x], more)
  {
    hide ParseOperand, ParseOperands, Nth;
    OperandTurn(found, ts);
  }

  lemma FirstOperand(ts: seq<Token>, x: Operand, after: seq<Token>)
    requires ParseOperand(ts) == Parsed(x, [Comma] + after) && !AtLineEnd(ts) && !AtLineEnd(after)
    ensures ParseOperands([], ts) == ParseOperands([x], after)
  {
    hide ParseOperand, ParseOperands, Nth, Behind;
    OperandTurn([], ts);
    NthBehind(Comma, after);
    assert [] + [x] == [x];
  }

  lemma TwoOperands(ts: seq<Token>, x: Operand, after: seq<Token>, y: Operand, more: seq<Token>)
    requires ParseOperand(ts) == Parsed(x, [Comma] + after) && !AtLineEnd(ts)
    requires ParseOperand(after) == Parsed(y, more) && !AtLineEnd(after) && AtLineEnd(more)
    ensures ParseOperands([], ts) == Parsed([x, y], more)
  {
    hide ParseOperand, ParseOperands, Nth, Behind;
    FirstOperand(ts, x, after);
    LastOperand([x], after, y, more);
    assert [x] + [y] == [x, y];
  }

  lemma SolidStart(x: Token, ts: seq<Token>)
    requires !x.Newline? && !x.Eof?
    ensures !AtLineEnd([x] + ts)
  {
  }

  lemma MemoryStart(base: Reg, imm: i64, ts: seq<Token>)
    requires imm > -TWO63
    ensures !AtLineEnd(MemoryTokens(base, imm) + ts)
  {
    hide RegisterName;
    assert (MemoryTokens(base, imm) + ts)[0] == LBracket;
  }

  lemma OperandsParse(i: Instruction, format: Format, more: seq<Token>)
    requires i.imm > -TWO63 && AtLineEnd(more) && !format.Jump?
    ensures ParseOperands([], OperandTokens(i, format) + more) == Parsed(OperandValues(i, format), more)
  {
    hide ParseOperand, ParseOperands, MemoryTokens, AtLineEnd, RegisterName;
    match format {
      case NoOperands =>
        assert [] + more == more;
        NoOperandsHere(more);
      case Reg1 =>
        NameParses(i.dst, more);
        SolidStart(NameOf(i.dst), more);
        LastOperand([], [NameOf(i.dst)] + more, RegisterValue(i.dst), more);
        assert [] + [RegisterValue(i.dst)] == [RegisterValue(i.dst)];
      case Reg2 =>
        NamesParse(i.dst, [NameOf(i.src)] + more);
        NameParses(i.src, more);
        SolidStart(NameOf(i.src), more);
        TwoOperands([NameOf(i.dst), Comma] + ([NameOf(i.src)] + more), RegisterValue(i.dst), [NameOf(i.src)] + more, RegisterValue(i.src), more);
        assert [NameOf(i.dst), Comma] + ([NameOf(i.src)] + more) == OperandTokens(i, format) + more;
      case RegImm =>
        NamesParse(i.dst, [Integer(i.imm)] + more);
        NumberParses(i.imm, more);
        SolidStart(Integer(i.imm), more);
        TwoOperands([NameOf(i.dst), Comma] + ([Integer(i.imm)] + more), RegisterValue(i.dst), [Integer(i.imm)] + more,
                    Operand(ImmediateOperand, 0, i.imm, ""), more);
        assert [NameOf(i.dst), Comma] + ([Integer(i.imm)] + more) == OperandTokens(i, format) + more;
      case Mem => MemoryOperandsParse(i, more);
      case SysImm =>
        NumberParses(i.imm, more);
        SolidStart(Integer(i.imm), more);
        LastOperand([], [Integer(i.imm)] + more, Operand(ImmediateOperand, 0, i.imm, ""), more);
        assert [] + [Operand(ImmediateOperand, 0, i.imm, "")] == [Operand(ImmediateOperand, 0, i.imm, "")];
    }
  }

  lemma NoOperandsHere(more: seq<Token>)
    requires AtLineEnd(more)
    ensures ParseOperands([], more) == Parsed([], more)
  {
  }

  lemma NamesParse(r: Reg, after: seq<Token>)
    ensures ParseOperand([NameOf(r), Comma] + after) == Parsed(RegisterValue(r), [Comma] + after)
    ensures !AtLineEnd([NameOf(r), Comma] + after)
  {
    hide ParseOperand, RegisterName;
    NameParses(r, [Comma] + after);
    assert [NameOf(r), Comma] + after == [NameOf(r)] + ([Comma] + after);
  }

  lemma MemoryOperandsParse(i: Instruction, more: seq<Token>)
    requires i.imm > -TWO63 && AtLineEnd(more)
    ensures ParseOperands([], OperandTokens(i, Mem) + more) == Parsed(OperandValues(i, Mem), more)
  {
    hide ParseOperand, ParseOperands, MemoryTokens, AtLineEnd, RegisterName;
    if i.opcode.STORE? {
      var after := [NameOf(i.src)] + more;
      var ts := MemoryTokens(i.dst, i.imm) + ([Comma] + after);
      MemoryParses(i.dst, i.imm, [Comma] + after);
      MemoryStart(i.dst, i.imm, [Comma] + after);
      NameParses(i.src, more);
      SolidStart(NameOf(i.src), more);
      TwoOperands(ts, MemoryValue(i.dst, i.imm), after, RegisterValue(i.src), more);
      assert ts == OperandTokens(i, Mem) + more;
    } else {
      var after := MemoryTokens(i.src, i.imm) + more;
      var ts := [NameOf(i.dst), Comma] + after;
      NamesParse(i.dst, after);
      MemoryParses(i.src, i.imm, more);
      MemoryStart(i.src, i.imm, more);
      TwoOperands(ts, RegisterValue(i.dst), after, MemoryValue(i.src, i.imm), more);
      assert ts == OperandTokens(i, Mem) + more;
    }
  }

  /** The printed operands of a branch are no operands. */
  lemma JumpRejected(i: Instruction, more: seq<Token>)
    requires i.imm > -TWO63
    ensures ParseOperands([], OperandTokens(i, Jump) + more).Rejected?
  {
    var ts := OperandTokens(i, Jump) + more;
    assert Nth(ts, 0) == Dot && (Nth(ts, 1).Integer? || Nth(ts, 1).Plus?);
    assert Nth(Behind(ts), 0) == Nth(ts, 1);
    assert ParseDotted(Behind(ts)).Rejected?;
    assert ParseOperand(ts).Rejected?;
  }

  // ----- lines -----

  function NodeOf(i: Instruction): Statement
    requires FindOpcode(i.opcode).Some?
  {
    InstructionNode(Mnemonic(i.opcode), OperandValues(i, FindOpcode(i.opcode).value.format))
  }

  /** The tokens of a printed line. */
  function LineTokens(i: Instruction): (r: seq<Token>)
    requires FindOpcode(i.opcode).Some? && i.imm > -TWO63
    ensures r != [] && r[0].Identifier?
  {
    [Identifier(Mnemonic(i.opcode))] + OperandTokens(i, FindOpcode(i.opcode).value.format)
  }

  /** A mnemonic is not followed by a colon, so the line has no labels. */
  lemma NoLabels(found: seq<Statement>, i: Instruction, more: seq<Token>)
    requires FindOpcode(i.opcode).Some? && i.imm > -TWO63 && AtLineEnd(more)
    ensures ParseLabels(found, LineTokens(i) + more) == (found, LineTokens(i) + more)
  {
    hide Mnemonic, RegisterName;
    var ts, format := LineTokens(i) + more, FindOpcode(i.opcode).value.format;
    var operands := OperandTokens(i, format);
    assert ts == [Identifier(Mnemonic(i.opcode))] + (operands + more);
    NthBehind(Identifier(Mnemonic(i.opcode)), operands + more);
    assert Nth(ts, 1) == Nth(operands + more, 0);
    if operands == [] {
      assert operands + more == more;
    } else {
      assert (operands + more)[0] == operands[0];
    }
  }

  lemma LineParses(found: seq<Statement>, i: Instruction, more: seq<Token>)
    requires FindOpcode(i.opcode).Some? && i.imm > -TWO63 && AtLineEnd(more)
    ensures !FindOpcode(i.opcode).value.format.Jump? ==>
      ParseLine(found, LineTokens(i) + more) == (found + [NodeOf(i)], true, EndLine(more))
    ensures FindOpcode(i.opcode).value.format.Jump? ==> !ParseLine(found, LineTokens(i) + more).1
  {
    hide ParseOperands, ParseLabels, OperandTokens, OperandValues, Mnemonic, Nth, Behind, EndLine, EndsLine;
    var format := FindOpcode(i.opcode).value.format;
    var operands := OperandTokens(i, format);
    NoLabels(found, i, more);
    NthBehind(Identifier(Mnemonic(i.opcode)), operands + more);
    assert LineTokens(i) + more == [Identifier(Mnemonic(i.opcode))] + (operands + more);
    NotAtEnd(Identifier(Mnemonic(i.opcode)));
    if format.Jump? {
      JumpRejected(i, more);
    } else {
      OperandsParse(i, format, more);
    }
  }

  lemma NotAtEnd(x: Token)
    requires x.Identifier?
    ensures !EndsLine(x)
  {
  }

  // ----- reading a text -----

  /** What the lexer and the parser make of a text: its statements, unless anything is malformed. */
  function ReadStatements(text: string): Option<seq<Statement>> {
    var ts := Tokens(text);
    var parsed := ParseLines([], Clean(ts));
    if CountBad(ts) == 0 && parsed.1 then Some(parsed.0) else None
  }

  /** Instructions only, checked and lowered in the code section. */
  function LowerAll(statements: seq<Statement>): Option<seq<IrInstruction>> {
    if statements == [] then Some([])
    else
      var last, before := statements[|statements| - 1], LowerAll(statements[..|statements| - 1]);
      if before.None? || !last.InstructionNode? || !Accepts(last.mnemonic, last.operands) then None
      else
        var ins := Lowered(Text, last.mnemonic, last.operands);
        if ins.Err? then None else Some(before.value + [ins.value])
  }

  function ReadInstructions(text: string): Option<seq<IrInstruction>> {
    var statements := ReadStatements(text);
    if statements.None? then None else LowerAll(statements.value)
  }

  /** The lexer and the parser on a text. */
  method ParseText(text: string) returns (program: Option<seq<Statement>>)
    requires Plain(text)
    ensures program == ReadStatements(text)
  {
    hide Clean, CountBad, Tokens, ParseLines;
    var lexer := new Lexer(text);
    assert lexer.Rest() == text;
    var parser := new Parser(lexer);
    program := parser.Parse();
  }

  /** The same with every statement checked and lowered. */
  method ReadText(text: string) returns (program: Option<seq<IrInstruction>>)
    requires Plain(text)
    ensures program == ReadInstructions(text)
  {
    hide ReadStatements, Accepts, Lowered;
    var statements := ParseText(text);
    if statements.None? {
      return None;
    }
    var lowerer := new Lowerer();
    var lowered: seq<IrInstruction> := [];
    var n := 0;
    while n < |statements.value|
      invariant n <= |statements.value| && LowerAll(statements.value[..n]) == Some(lowered)
      invariant lowerer.current == Text && !lowerer.failed && lowerer.text == Items(lowered)
    {
      var s := statements.value[n];
      assert statements.value[..n + 1][..n] == statements.value[..n] && statements.value[..n + 1][n] == s;
      if !s.InstructionNode? || !Accepts(s.mnemonic, s.operands) {
        LowerFails(statements.value, n + 1);
        return None;
      }
      lowerer.LowerInstruction(s.mnemonic, s.operands);
      if lowerer.failed {
        LowerFails(statements.value, n + 1);
        return None;
      }
      ItemsSnoc(lowered, Lowered(Text, s.mnemonic, s.operands).value);
      lowered := lowered + [lowerer.text[|lowered|].ins];
      n := n + 1;
    }
    assert statements.value[..n] == statements.value;
    return Some(lowered);
  }

  function Items(lowered: seq<IrInstruction>): (r: seq<Item>)
    ensures |r| == |lowered|
  {
    seq(|lowered|, i requires 0 <= i < |lowered| => Instr(lowered[i]))
  }

  lemma ItemsSnoc(lowered: seq<IrInstruction>, x: IrInstruction)
    ensures Items(lowered) + [Instr(x)] == Items(lowered + [x])
  {
  }

  lemma {:induction false} LowerFails(statements: seq<Statement>, n: nat)
    requires n <= |statements| && LowerAll(statements[..n]).None?
    ensures LowerAll(statements).None?
  {
    hide Accepts, Lowered;
    if n < |statements| {
      assert statements[..|statements| - 1][..n] == statements[..n];
      LowerFails(statements[..|statements| - 1], n);
    } else {
      assert statements[..n] == statements;
    }
  }

  // ----- lowering what was printed -----

  lemma EncodableBounds(i: Instruction)
    requires Encode(i).Ok?
    ensures FindOpcode(i.opcode).Some? && !i.opcode.Unknown? && i.imm > -TWO63
    ensures Canonical(i, FieldsOf(FindOpcode(i.opcode).value.format)) && ImmediateFits(i, FieldsOf(FindOpcode(i.opcode).value.format))
  {
    hide PackFields, FitsSigned, FitsUnsigned;
    if FieldsOf(FindOpcode(i.opcode).value.format).imm {
      FieldBounds(i.imm);
    }
  }

  lemma FieldBounds(imm: i64)
    ensures FitsSigned(imm, IMMEDIATE_BITS) || imm >= 0 ==> imm > -TWO63
  {
    Powers();
  }

  /** A printed instruction passes the checks and lowers to itself. */
  lemma LowersBack(i: Instruction)
    requires Encode(i).Ok? && !FindOpcode(i.opcode).value.format.Jump?
    ensures var operands := OperandValues(i, FindOpcode(i.opcode).value.format);
      Accepts(Mnemonic(i.opcode), operands) && Lowered(Text, Mnemonic(i.opcode), operands) == Ok(IrInstruction(i, None))
  {
    hide Mnemonic, FindMnemonic, Encode, FitsSigned, FitsUnsigned;
    EncodableBounds(i);
    MnemonicLetters(i.opcode);
    MnemonicFoundIff(Mnemonic(i.opcode), i.opcode);
  }

  // ----- listings -----

  /** Instructions, one to a line. */
  function ListingText(code: seq<Instruction>): string {
    if code == [] then "" else ToString(code[0]) + "\n" + ListingText(code[1..])
  }

  ghost predicate Printable(code: seq<Instruction>) {
    forall k :: 0 <= k < |code| ==> Encode(code[k]).Ok? && !FindOpcode(code[k].opcode).value.format.Jump?
  }

  function ListingTokens(code: seq<Instruction>): seq<Token>
    requires forall k :: 0 <= k < |code| ==> FindOpcode(code[k].opcode).Some? && code[k].imm > -TWO63
  {
    if code == [] then [] else LineTokens(code[0]) + ([Newline] + ListingTokens(code[1..]))
  }

  lemma PrintableBounds(code: seq<Instruction>)
    requires Printable(code)
    ensures forall k :: 0 <= k < |code| ==> FindOpcode(code[k].opcode).Some? && code[k].imm > -TWO63 && !code[k].opcode.Unknown?
  {
    hide Encode;
    forall k | 0 <= k < |code|
      ensures FindOpcode(code[k].opcode).Some? && code[k].imm > -TWO63 && !code[k].opcode.Unknown?
    {
      EncodableBounds(code[k]);
    }
  }

  lemma {:induction false} ListingLexes(code: seq<Instruction>)
    requires forall k :: 0 <= k < |code| ==> FindOpcode(code[k].opcode).Some? && code[k].imm > -TWO63
    ensures Tokens(ListingText(code)) == ListingTokens(code)
  {
    hide ToString, LineTokens, Mnemonic, OperandTokens, Tokens;
    if code == [] {
      NothingLeft();
    } else {
      var rest := ListingText(code[1..]);
      ListingLexes(code[1..]);
      MarkToken('\n', rest);
      LineLexes(code[0], "\n" + rest);
      assert ListingText(code) == ToString(code[0]) + ("\n" + rest);
      NewlineToken();
    }
  }

  lemma NewlineToken()
    ensures LexSolid("\n").0 == Newline
  {
  }

  lemma LineLexes(i: Instruction, rest: string)
    requires FindOpcode(i.opcode).Some? && i.imm > -TWO63 && Breaks(rest)
    ensures Tokens(ToString(i) + rest) == LineTokens(i) + Tokens(rest)
  {
    hide ToString, Mnemonic, OperandTokens, Tokens;
    PrintedTokens(i, rest);
  }

  /** No token of a printed line is malformed. */
  predicate Sound(ts: seq<Token>) { forall k :: 0 <= k < |ts| ==> !ts[k].Bad? }

  lemma LineSound(i: Instruction)
    requires FindOpcode(i.opcode).Some? && i.imm > -TWO63
    ensures Sound(LineTokens(i))
  {
    hide RegisterName, Mnemonic;
  }

  lemma {:induction false} SoundClean(ts: seq<Token>)
    requires Sound(ts)
    ensures Clean(ts) == ts && CountBad(ts) == 0
  {
    if ts != [] {
      SoundClean(ts[1..]);
      assert [ts[0]] + ts[1..] == ts;
    }
  }

  lemma {:induction false} ListingSound(code: seq<Instruction>)
    requires forall k :: 0 <= k < |code| ==> FindOpcode(code[k].opcode).Some? && code[k].imm > -TWO63
    ensures Sound(ListingTokens(code))
  {
    hide LineTokens;
    if code != [] {
      LineSound(code[0]);
      ListingSound(code[1..]);
    }
  }

  function Nodes(code: seq<Instruction>): (r: seq<Statement>)
    requires forall k :: 0 <= k < |code| ==> FindOpcode(code[k].opcode).Some?
    ensures |r| == |code|
  {
    seq(|code|, k requires 0 <= k < |code| => NodeOf(code[k]))
  }

  lemma {:induction false} ListingParses(found: seq<Statement>, code: seq<Instruction>)
    requires Printable(code)
    requires forall k :: 0 <= k < |code| ==> FindOpcode(code[k].opcode).Some? && code[k].imm > -TWO63
    ensures ParseLines(found, ListingTokens(code)) == (found + Nodes(code), true)
    decreases |code|
  {
    hide LineTokens, NodeOf, ParseLine, SkipLine, Printable, Encode;
    if code == [] {
      assert found + Nodes(code) == found;
    } else {
      var more := [Newline] + ListingTokens(code[1..]);
      PrintableHead(code);
      LineParses(found, code[0], more);
      assert EndLine(more) == ListingTokens(code[1..]);
      assert (LineTokens(code[0]) + more)[0] == LineTokens(code[0])[0];
      ListingParses(found + [NodeOf(code[0])], code[1..]);
      assert found + [NodeOf(code[0])] + Nodes(code[1..]) == found + Nodes(code);
    }
  }

  lemma PrintableHead(code: seq<Instruction>)
    requires Printable(code) && code != []
    ensures Encode(code[0]).Ok? && !FindOpcode(code[0].opcode).value.format.Jump? && Printable(code[1..])
  {
    hide Encode;
  }

  function Plainly(code: seq<Instruction>): (r: seq<IrInstruction>)
    ensures |r| == |code|
  {
    seq(|code|, k requires 0 <= k < |code| => IrInstruction(code[k], None))
  }

  lemma {:induction false} ListingLowers(code: seq<Instruction>, n: nat)
    requires Printable(code) && n <= |code|
    requires forall k :: 0 <= k < |code| ==> FindOpcode(code[k].opcode).Some?
    ensures LowerAll(Nodes(code)[..n]) == Some(Plainly(code)[..n])
  {
    hide Accepts, Lowered, OperandValues, Mnemonic, Encode;
    if n > 0 {
      ListingLowers(code, n - 1);
      LowersBack(code[n - 1]);
      var nodes := Nodes(code);
      assert nodes[..n][..n - 1] == nodes[..n - 1] && nodes[..n][n - 1] == NodeOf(code[n - 1]);
      assert Plainly(code)[..n] == Plainly(code)[..n - 1] + [IrInstruction(code[n - 1], None)];
    }
  }

  /** A listing of encodable instructions that are no branches is read back as it was. */
  lemma ListingRoundTrip(code: seq<Instruction>)
    requires Printable(code)
    ensures ReadInstructions(ListingText(code)) == Some(Plainly(code))
  {
    hide ListingText, ListingTokens, Tokens, Clean, CountBad, ParseLines, LowerAll, Printable, Sound, Nodes, Plainly;
    PrintableBounds(code);
    ListingLexes(code);
    ListingSound(code);
    SoundClean(ListingTokens(code));
    ListingParses([], code);
    assert [] + Nodes(code) == Nodes(code);
    ListingLowers(code, |code|);
    assert Nodes(code)[..|code|] == Nodes(code) && Plainly(code)[..|code|] == Plainly(code);
  }

  /** A single instruction, printed without the end of a line, is read back exactly when it is no branch:
      the parser does not accept the printed form of a branch. */
  lemma PrintReadIff(i: Instruction)
    requires Encode(i).Ok?
    ensures ReadInstructions(ToString(i)) == Some([IrInstruction(i, None)]) <==> !FindOpcode(i.opcode).value.format.Jump?
    ensures FindOpcode(i.opcode).value.format.Jump? ==> ReadInstructions(ToString(i)).None?
  {
    hide ToString, Tokens, Clean, CountBad, ParseLine, SkipLine, Sound, LineTokens, NodeOf, Encode, ParseLines, LowerAll;
    EncodableBounds(i);
    LineLexes(i, "");
    NothingLeft();
    assert ToString(i) + "" == ToString(i) && LineTokens(i) + [] == LineTokens(i);
    LineSound(i);
    SoundClean(LineTokens(i));
    LineParses([], i, []);
    OneLine(LineTokens(i));
    if !FindOpcode(i.opcode).value.format.Jump? {
      LowersOne(i);
    }
  }

  /** A text of one line. */
  lemma OneLine(ts: seq<Token>)
    requires ts != [] && ts[0].Identifier?
    ensures var line := ParseLine([], ts);
      && (line.1 && line.2 == [] ==> ParseLines([], ts) == (line.0, true))
      && (!line.1 ==> !ParseLines([], ts).1)
  {
    hide ParseLine, SkipLine;
  }

  lemma LowersOne(i: Instruction)
    requires Encode(i).Ok? && FindOpcode(i.opcode).Some? && !FindOpcode(i.opcode).value.format.Jump?
    ensures LowerAll([] + [NodeOf(i)]) == Some([IrInstruction(i, None)])
  {
    hide Accepts, Lowered, OperandValues, Mnemonic, Encode;
    LowersBack(i);
    var nodes, none: seq<IrInstruction> := [NodeOf(i)], [];
    assert [] + [NodeOf(i)] == nodes && nodes[..0] == [] && LowerAll(nodes[..0]) == Some(none);
    assert none + [IrInstruction(i, None)] == [IrInstruction(i, None)];
  }

  /** Different instructions that are no branches print differently. */
  lemma PrintingIsInjective(i: Instruction, j: Instruction)
    requires Encode(i).Ok? && Encode(j).Ok? && ToString(i) == ToString(j)
    requires !FindOpcode(i.opcode).value.format.Jump? && !FindOpcode(j.opcode).value.format.Jump?
    ensures i == j
  {
    hide ToString, ReadInstructions, Encode;
    PrintReadIff(i);
    PrintReadIff(j);
    assert [IrInstruction(i, None)][0] == [IrInstruction(j, None)][0];
  }

  // ----- listings are within the lexer's domain -----

  lemma PlainJoin(a: string, b: string)
    requires Plain(a) && Plain(b)
    ensures Plain(a + b)
  {
  }

  lemma PlainDigits(n: nat)
    ensures Plain(Decimal(n))
  {
    hide Decimal;
    DecimalDigits(n);
  }

  lemma PlainMemory(base: Reg, imm: i64)
    requires imm > -TWO63
    ensures Plain(MemoryText(base, imm)) && Plain(RegisterName(base)) && Plain(Signed(imm))
  {
    hide Decimal;
    PlainDigits(base);
    PlainDigits(Magnitude(imm));
  }

  lemma PlainMnemonic(op: Opcode)
    requires !op.Unknown?
    ensures Plain(Mnemonic(op))
  {
    hide Mnemonic;
    MnemonicLetters(op);
  }

  lemma PlainParts(i: Instruction)
    requires FindOpcode(i.opcode).Some? && i.imm > -TWO63
    ensures Plain(Mnemonic(i.opcode)) && Plain(RegisterName(i.dst)) && Plain(RegisterName(i.src)) && Plain(Signed(i.imm))
    ensures Plain(MemoryText(i.dst, i.imm)) && Plain(MemoryText(i.src, i.imm))
  {
    hide Plain, Mnemonic, RegisterName, MemoryText, Signed;
    PlainMnemonic(i.opcode);
    PlainMemory(i.dst, i.imm);
    PlainMemory(i.src, i.imm);
  }

  lemma PrintedIsPlain(i: Instruction)
    requires FindOpcode(i.opcode).Some? && i.imm > -TWO63
    ensures Plain(ToString(i))
  {
    hide Mnemonic, RegisterName, Signed, MemoryText;
    PlainParts(i);
  }

  /** So the round trip is one the lexer and the parser really make. */
  lemma {:induction false} ListingIsPlain(code: seq<Instruction>)
    requires Printable(code)
    ensures Plain(ListingText(code))
  {
    hide ToString, Plain;
    NothingPlain();
    if code != [] {
      PrintableHead(code);
      EncodableBounds(code[0]);
      PrintedIsPlain(code[0]);
      ListingIsPlain(code[1..]);
      PlainJoin(ToString(code[0]), "\n");
      PlainJoin(ToString(code[0]) + "\n", ListingText(code[1..]));
    }
  }

  lemma NothingPlain()
    ensures Plain("") && Plain("\n")
  {
  }
}
