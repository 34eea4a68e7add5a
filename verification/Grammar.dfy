/** What the parser makes of a sequence of tokens, line by line. Locations and the text of errors are
    outside this model; every error counts as one. */
module Grammar {
  import opened Words
  import opened Isa
  import opened Spelling
  import opened Lexing

  datatype OperandKind = RegisterOperand | ImmediateOperand | SymbolOperand | MemoryOperand

  /** Register or base register; immediate, displacement or addend; symbol. */
  datatype Operand = Operand(kind: OperandKind, reg: Reg, immediate: i64, symbol: string)

  datatype DirectiveKind = Section | Global | Extern | Weak | Byte | Word | Dword | Qword | Asciz | Align | Space

  datatype Statement =
    | InstructionNode(mnemonic: string, operands: seq<Operand>)
    | LabelNode(name: string, isLocal: bool)
    | DirectiveNode(kind: DirectiveKind, arguments: seq<Operand>)

  /** A rule either gives a value and what follows it, or has reported an error where it stopped. */
  datatype Parsed<+T> = Parsed(value: T, rest: seq<Token>) | Rejected(rest: seq<Token>)

  function Nth(ts: seq<Token>, n: nat): Token { if n < |ts| then ts[n] else Eof }

  function Behind(ts: seq<Token>): (r: seq<Token>)
    ensures |r| <= |ts| && (ts != [] ==> |r| < |ts|)
  {
    if ts == [] then [] else ts[1..]
  }

  predicate EndsLine(token: Token) { token.Newline? || token.Eof? }

  function NegatedWord(v: i64): i64 { ToI64(Wrap(0 - ToU64(v))) }

  // ----- operands -----

  function Symbol(name: string, addend: i64): Operand { Operand(SymbolOperand, 0, addend, name) }

  /** `symbol [ ('+' | '-') INTEGER ]` behind the name. */
  function ParseSymbol(name: string, ts: seq<Token>): (p: Parsed<Operand>)
    ensures |p.rest| <= |ts|
  {
    if Nth(ts, 0).Plus? || Nth(ts, 0).Minus? then
      var addend := Nth(Behind(ts), 0);
      if !addend.Integer? then Rejected(Behind(ts))
      else Parsed(Symbol(name, if Nth(ts, 0).Minus? then NegatedWord(addend.value) else addend.value), Behind(Behind(ts)))
    else Parsed(Symbol(name, 0), ts)
  }

  function RegisterOf(text: string): Reg {
    var r := ParseRegister(text);
    if r.Some? then r.value else 0
  }

  /** `[ ('+' | '-') INTEGER ]` in a memory operand; an integer without a sign is an error. */
  function ParseDisplacement(ts: seq<Token>): (p: Parsed<i64>)
    ensures |p.rest| <= |ts|
  {
    if Nth(ts, 0).Plus? || Nth(ts, 0).Minus? then
      var displacement := Nth(Behind(ts), 0);
      if !displacement.Integer? then Rejected(Behind(ts))
      else Parsed(if Nth(ts, 0).Minus? then NegatedWord(displacement.value) else displacement.value, Behind(Behind(ts)))
    else if Nth(ts, 0).Integer? then Rejected(ts)
    else Parsed(0, ts)
  }

  /** `'[' register [ ('+' | '-') INTEGER ] ']'` behind the bracket. */
  function ParseMemory(ts: seq<Token>): (p: Parsed<Operand>)
    ensures |p.rest| <= |ts|
  {
    if !Nth(ts, 0).RegisterToken? then Rejected(ts)
    else
      var displacement := ParseDisplacement(Behind(ts));
      if displacement.Rejected? then Rejected(displacement.rest)
      else if !Nth(displacement.rest, 0).RBracket? then Rejected(displacement.rest)
      else Parsed(Operand(MemoryOperand, RegisterOf(Nth(ts, 0).text), displacement.value, ""), Behind(displacement.rest))
  }

  /** An integer behind the optional immediate marker. */
  function ParseMarked(ts: seq<Token>): (p: Parsed<Operand>)
    ensures |p.rest| <= |ts|
  {
    if Nth(ts, 0).Integer? then Parsed(Operand(ImmediateOperand, 0, Nth(ts, 0).value, ""), Behind(ts)) else Rejected(ts)
  }

  /** A section name or a local label behind its dot. */
  function ParseDotted(ts: seq<Token>): (p: Parsed<Operand>)
    ensures |p.rest| <= |ts|
  {
    if Nth(ts, 0).Identifier? then ParseSymbol("." + Nth(ts, 0).text, Behind(ts)) else Rejected(ts)
  }

  function ParseOperand(ts: seq<Token>): (p: Parsed<Operand>)
    ensures |p.rest| <= |ts| && (p.Parsed? ==> |p.rest| < |ts|)
  {
    match Nth(ts, 0)
    case RegisterToken(text) => Parsed(Operand(RegisterOperand, RegisterOf(text), 0, ""), Behind(ts))
    case Integer(value) => Parsed(Operand(ImmediateOperand, 0, value, ""), Behind(ts))
    case Hash => ParseMarked(Behind(ts))
    case Identifier(name) => ParseSymbol(name, Behind(ts))
    case Dot => ParseDotted(Behind(ts))
    case LBracket => ParseMemory(Behind(ts))
    case _ => Rejected(ts)
  }

  /** A comma-separated list up to the end of the line, behind the operands found so far. */
  function ParseOperands(found: seq<Operand>, ts: seq<Token>): (p: Parsed<seq<Operand>>)
    ensures |p.rest| <= |ts|
    decreases |ts|
  {
    if EndsLine(Nth(ts, 0)) then Parsed(found, ts)
    else
      var operand := ParseOperand(ts);
      if operand.Rejected? then Rejected(operand.rest)
      else
        var more := found + [operand.value];
        if !Nth(operand.rest, 0).Comma? then Parsed(more, operand.rest)
        else if EndsLine(Nth(Behind(operand.rest), 0)) then Rejected(Behind(operand.rest))
        else ParseOperands(more, Behind(operand.rest))
  }

  // ----- lines -----

  /** The directives, and the section the shorthands stand for. */
  function FindDirective(name: string): Option<(DirectiveKind, string)> {
    if name == "section" then Some((Section, "")) else if name == "text" then Some((Section, ".text"))
    else if name == "data" then Some((Section, ".data")) else if name == "rodata" then Some((Section, ".rodata"))
    else if name == "bss" then Some((Section, ".bss")) else if name == "global" || name == "globl" then Some((Global, ""))
    else if name == "extern" then Some((Extern, "")) else if name == "weak" then Some((Weak, ""))
    else if name == "byte" then Some((Byte, "")) else if name == "word" then Some((Word, ""))
    else if name == "dword" then Some((Dword, "")) else if name == "qword" then Some((Qword, ""))
    else if name == "asciz" then Some((Asciz, "")) else if name == "align" then Some((Align, ""))
    else if name == "space" then Some((Space, "")) else None
  }

  /** `parseDirective`, behind the dot. */
  function ParseDirective(ts: seq<Token>): (p: Parsed<Statement>)
    ensures |p.rest| <= |ts|
  {
    if !Nth(ts, 0).Identifier? then Rejected(ts)
    else
      var spelling := FindDirective(Nth(ts, 0).text);
      if spelling.None? then Rejected(Behind(ts))
      else if spelling.value.1 != "" then Parsed(DirectiveNode(spelling.value.0, [Symbol(spelling.value.1, 0)]), Behind(ts))
      else
        var operands := ParseOperands([], Behind(ts));
        if operands.Rejected? then Rejected(operands.rest) else Parsed(DirectiveNode(spelling.value.0, operands.value), operands.rest)
  }

  /** `parseInstruction`: the mnemonic and its operands. */
  function ParseInstruction(ts: seq<Token>): (p: Parsed<Statement>)
    requires Nth(ts, 0).Identifier?
    ensures |p.rest| < |ts|
  {
    var operands := ParseOperands([], Behind(ts));
    if operands.Rejected? then Rejected(operands.rest) else Parsed(InstructionNode(Nth(ts, 0).text, operands.value), operands.rest)
  }

  /** A directive or an instruction. */
  function ParseStatement(ts: seq<Token>): (p: Parsed<Statement>)
    ensures |p.rest| <= |ts|
  {
    if Nth(ts, 0).Dot? then ParseDirective(Behind(ts))
    else if Nth(ts, 0).Identifier? then ParseInstruction(ts)
    else Rejected(ts)
  }

  /** The labels a line begins with. */
  function ParseLabels(found: seq<Statement>, ts: seq<Token>): (r: (seq<Statement>, seq<Token>))
    ensures |r.1| <= |ts|
    decreases |ts|
  {
    if Nth(ts, 0).Identifier? && Nth(ts, 1).Colon? then
      ParseLabels(found + [LabelNode(Nth(ts, 0).text, false)], Behind(Behind(ts)))
    else if Nth(ts, 0).Dot? && Nth(ts, 1).Identifier? && Nth(ts, 2).Colon? then
      ParseLabels(found + [LabelNode("." + Nth(ts, 1).text, true)], Behind(Behind(Behind(ts))))
    else (found, ts)
  }

  function SkipLine(ts: seq<Token>): (r: seq<Token>)
    ensures |r| <= |ts|
    decreases |ts|
  {
    if Nth(ts, 0).Eof? then ts else if Nth(ts, 0).Newline? then Behind(ts) else SkipLine(Behind(ts))
  }

  /** The end of a line: nothing, or a newline that is consumed. */
  function EndLine(ts: seq<Token>): seq<Token> { if Nth(ts, 0).Newline? then Behind(ts) else ts }

  /** `parseLine`: the statements found so far with those of the line, whether the line is well formed, and
      what follows. */
  function ParseLine(found: seq<Statement>, ts: seq<Token>): (r: (seq<Statement>, bool, seq<Token>))
    ensures |r.2| <= |ts|
  {
    var labels := ParseLabels(found, ts);
    if EndsLine(Nth(labels.1, 0)) then (labels.0, true, EndLine(labels.1))
    else
      var statement := ParseStatement(labels.1);
      if statement.Rejected? then (labels.0, false, statement.rest)
      else if !EndsLine(Nth(statement.rest, 0)) then (labels.0 + [statement.value], false, statement.rest)
      else (labels.0 + [statement.value], true, EndLine(statement.rest))
  }

  /** `parse`: all statements, and whether every line was well formed. A line that is not is skipped. */
  function ParseLines(found: seq<Statement>, ts: seq<Token>): (seq<Statement>, bool)
    decreases |ts|
  {
    if Nth(ts, 0).Eof? then (found, true)
    else if ts[0].Newline? then ParseLines(found, ts[1..])
    else
      var line := ParseLine(found, ts);
      LineConsumes(found, ts);
      if line.1 then ParseLines(line.0, line.2) else (ParseLines(line.0, SkipLine(line.2)).0, false)
  }

  lemma {:induction false} LabelsConsume(found: seq<Statement>, ts: seq<Token>)
    ensures ParseLabels(found, ts).1 == ts || |ParseLabels(found, ts).1| < |ts|
  {
  }

  /** Every line makes progress, well formed or not. */
  lemma LineConsumes(found: seq<Statement>, ts: seq<Token>)
    requires !EndsLine(Nth(ts, 0))
    ensures var line := ParseLine(found, ts); if line.1 then |line.2| < |ts| else |SkipLine(line.2)| < |ts|
  {
  }

  /** One turn of the operand list. */
  lemma OperandTurn(found: seq<Operand>, ts: seq<Token>)
    ensures EndsLine(Nth(ts, 0)) ==> ParseOperands(found, ts) == Parsed(found, ts)
    ensures !EndsLine(Nth(ts, 0)) ==>
      var o := ParseOperand(ts);
      if o.Rejected? then ParseOperands(found, ts) == Rejected(o.rest)
      else if !Nth(o.rest, 0).Comma? then ParseOperands(found, ts) == Parsed(found + [o.value], o.rest)
      else if EndsLine(Nth(Behind(o.rest), 0)) then ParseOperands(found, ts) == Rejected(Behind(o.rest))
      else ParseOperands(found, ts) == ParseOperands(found + [o.value], Behind(o.rest)) && |Behind(o.rest)| < |ts|
  {
    hide ParseOperand;
  }

  /** One turn of skipping a line. */
  lemma SkipTurn(ts: seq<Token>)
    ensures EndsLine(Nth(ts, 0)) ==> SkipLine(ts) == EndLine(ts)
    ensures !EndsLine(Nth(ts, 0)) ==> SkipLine(ts) == SkipLine(Behind(ts)) && |Behind(ts)| < |ts|
  {
  }

  /** One turn of the loop over the lines. */
  lemma LineTurn(found: seq<Statement>, ts: seq<Token>)
    ensures Nth(ts, 0).Eof? ==> ParseLines(found, ts) == (found, true)
    ensures Nth(ts, 0).Newline? ==> ParseLines(found, ts) == ParseLines(found, Behind(ts)) && |Behind(ts)| < |ts|
    ensures !EndsLine(Nth(ts, 0)) ==>
      var line := ParseLine(found, ts);
      if line.1 then ParseLines(found, ts) == ParseLines(line.0, line.2) && |line.2| < |ts|
      else ParseLines(found, ts) == (ParseLines(line.0, SkipLine(line.2)).0, false) && |SkipLine(line.2)| < |ts|
  {
    hide ParseLine, SkipLine;
    if !EndsLine(Nth(ts, 0)) {
      LineConsumes(found, ts);
    }
  }

  lemma AtTheEnd(ts: seq<Token>)
    requires Nth(ts, 0).Eof? && Eof !in ts
    ensures ts == []
  {
  }
}
