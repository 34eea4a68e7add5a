/** The grammar, read backwards: every program can be written as tokens, one statement to a line, and
    parsing them gives the program. */
module GrammarProof {
  import opened Words
  import opened Spelling
  import opened Lexing
  import opened Grammar

  // ----- writing -----

  /** An addend or a displacement with its sign in front. */
  function Offset(n: i64): seq<Token> {
    if n == 0 then []
    else if n == -0x8000_0000_0000_0000 then [Plus, Integer(n)]
    else if n < 0 then [Minus, Integer(-n)]
    else [Plus, Integer(n)]
  }

  /** A name; a dot in front of it is a token of its own. */
  function NameTokens(name: string): seq<Token> {
    if name != "" && name[0] == '.' then [Dot, Identifier(name[1..])] else [Identifier(name)]
  }

  function OperandTokens(x: Operand): (ts: seq<Token>)
    ensures ts != []
  {
    match x.kind
    case RegisterOperand => [RegisterToken(RegisterName(x.reg))]
    case ImmediateOperand => [Integer(x.immediate)]
    case SymbolOperand => NameTokens(x.symbol) + Offset(x.immediate)
    case MemoryOperand => [LBracket, RegisterToken(RegisterName(x.reg))] + Offset(x.immediate) + [RBracket]
  }

  function OperandList(xs: seq<Operand>): seq<Token> {
    if xs == [] then []
    else if |xs| == 1 then OperandTokens(xs[0])
    else OperandTokens(xs[0]) + [Comma] + OperandList(xs[1..])
  }

  function DirectiveName(kind: DirectiveKind): string {
    match kind
    case Section => "section" case Global => "global" case Extern => "extern" case Weak => "weak"
    case Byte => "byte" case Word => "word" case Dword => "dword" case Qword => "qword"
    case Asciz => "asciz" case Align => "align" case Space => "space"
  }

  function StatementTokens(s: Statement): seq<Token> {
    match s
    case LabelNode(name, _) => NameTokens(name) + [Colon, Newline]
    case InstructionNode(mnemonic, operands) => [Identifier(mnemonic)] + OperandList(operands) + [Newline]
    case DirectiveNode(kind, arguments) => [Dot, Identifier(DirectiveName(kind))] + OperandList(arguments) + [Newline]
  }

  function ProgramTokens(program: seq<Statement>): seq<Token> {
    if program == [] then [] else StatementTokens(program[0]) + ProgramTokens(program[1..])
  }

  /** An operand as the parser makes them: the fields its kind does not use are empty. */
  predicate Shaped(x: Operand) {
    match x.kind
    case RegisterOperand => x.immediate == 0 && x.symbol == ""
    case ImmediateOperand => x.reg == 0 && x.symbol == ""
    case SymbolOperand => x.reg == 0
    case MemoryOperand => x.symbol == ""
  }

  predicate AllShaped(xs: seq<Operand>) { forall i :: 0 <= i < |xs| ==> Shaped(xs[i]) }

  /** A label is local exactly when its name begins with a dot. */
  predicate StatementShaped(s: Statement) {
    match s
    case LabelNode(name, local) => local <==> name != "" && name[0] == '.'
    case InstructionNode(_, operands) => AllShaped(operands)
    case DirectiveNode(_, arguments) => AllShaped(arguments)
  }

  // ----- reading -----

  lemma Head(x: Token, rest: seq<Token>)
    ensures Nth([x] + rest, 0) == x && Behind([x] + rest) == rest
  {
    assert ([x] + rest)[1..] == rest;
  }

  lemma NoSign(rest: seq<Token>)
    requires Nth(rest, 0).Comma? || Nth(rest, 0).Newline? || Nth(rest, 0).RBracket?
    ensures !Nth(rest, 0).Plus? && !Nth(rest, 0).Minus? && !Nth(rest, 0).Integer?
  {
  }

  lemma SymbolReads(name: string, n: i64, rest: seq<Token>)
    requires Nth(rest, 0).Comma? || Nth(rest, 0).Newline?
    ensures ParseSymbol(name, Offset(n) + rest) == Parsed(Symbol(name, n), rest)
  {
    NoSign(rest);
    if n == 0 {
      assert Offset(n) + rest == rest;
    } else {
      var sign, number := Offset(n)[0], Offset(n)[1];
      assert Offset(n) + rest == [sign] + ([number] + rest);
      Head(sign, [number] + rest);
      Head(number, rest);
    }
  }

  lemma DisplacementReads(n: i64, rest: seq<Token>)
    requires Nth(rest, 0).RBracket?
    ensures ParseDisplacement(Offset(n) + rest) == Parsed(n, rest)
  {
    NoSign(rest);
    if n == 0 {
      assert Offset(n) + rest == rest;
    } else {
      var sign, number := Offset(n)[0], Offset(n)[1];
      assert Offset(n) + rest == [sign] + ([number] + rest);
      Head(sign, [number] + rest);
      Head(number, rest);
    }
  }

  lemma NameReads(x: Operand, rest: seq<Token>)
    requires x.kind.SymbolOperand? && Shaped(x) && (Nth(rest, 0).Comma? || Nth(rest, 0).Newline?)
    ensures ParseOperand(OperandTokens(x) + rest) == Parsed(x, rest)
  {
    hide ParseSymbol, Offset, ParseMemory, ParseMarked, ParseOperand, NameTokens;
    SymbolReads(x.symbol, x.immediate, rest);
    var behind := Offset(x.immediate) + rest;
    Associate(NameTokens(x.symbol), Offset(x.immediate), rest);
    assert OperandTokens(x) + rest == NameTokens(x.symbol) + behind;
    NameParses(x.symbol, behind);
  }

  lemma Associate(a: seq<Token>, b: seq<Token>, c: seq<Token>)
    ensures a + b + c == a + (b + c)
  {
  }

  lemma NameParses(name: string, behind: seq<Token>)
    ensures ParseOperand(NameTokens(name) + behind) == ParseSymbol(name, behind)
  {
    hide ParseSymbol, ParseMemory, ParseMarked;
    if name != "" && name[0] == '.' {
      assert NameTokens(name) + behind == [Dot] + ([Identifier(name[1..])] + behind);
      Head(Dot, [Identifier(name[1..])] + behind);
      Head(Identifier(name[1..]), behind);
      assert "." + name[1..] == name;
    } else {
      Head(Identifier(name), behind);
    }
  }

  lemma MemoryReads(x: Operand, rest: seq<Token>)
    requires x.kind.MemoryOperand? && Shaped(x)
    ensures ParseOperand(OperandTokens(x) + rest) == Parsed(x, rest)
  {
    hide ParseSymbol, Offset, ParseMarked, ParseDotted, ParseRegister, RegisterName, ParseDisplacement;
    var name := RegisterToken(RegisterName(x.reg));
    var behind := Offset(x.immediate) + ([RBracket] + rest);
    RegisterRoundTrip(x.reg);
    Head(RBracket, rest);
    DisplacementReads(x.immediate, [RBracket] + rest);
    assert OperandTokens(x) + rest == [LBracket] + ([name] + behind);
    Head(LBracket, [name] + behind);
    Head(name, behind);
  }

  /** Parsing the tokens of an operand gives the operand. */
  lemma OperandReads(x: Operand, rest: seq<Token>)
    requires Shaped(x) && (Nth(rest, 0).Comma? || Nth(rest, 0).Newline?)
    ensures ParseOperand(OperandTokens(x) + rest) == Parsed(x, rest)
  {
    hide ParseSymbol, ParseMemory, ParseMarked, ParseDotted, ParseRegister, RegisterName;
    match x.kind
    case RegisterOperand =>
      RegisterRoundTrip(x.reg);
      Head(RegisterToken(RegisterName(x.reg)), rest);
    case ImmediateOperand => Head(Integer(x.immediate), rest);
    case SymbolOperand => NameReads(x, rest);
    case MemoryOperand => MemoryReads(x, rest);
  }

  /** No operand begins with a token that could end a line or make a label of what is in front. */
  lemma OperandBegins(x: Operand, rest: seq<Token>)
    ensures var t := Nth(OperandTokens(x) + rest, 0); !EndsLine(t) && !t.Colon?
  {
    hide RegisterName;
  }

  lemma {:induction false} ListReads(found: seq<Operand>, xs: seq<Operand>, rest: seq<Token>)
    requires AllShaped(xs) && Nth(rest, 0).Newline?
    ensures ParseOperands(found, OperandList(xs) + rest) == Parsed(found + xs, rest)
    decreases |xs|
  {
    hide ParseOperand, OperandTokens;
    if xs == [] {
      OperandTurn(found, rest);
      assert OperandList(xs) + rest == rest && found + xs == found;
    } else if |xs| == 1 {
      OperandTurn(found, OperandTokens(xs[0]) + rest);
      OperandBegins(xs[0], rest);
      OperandReads(xs[0], rest);
      assert found + xs == found + [xs[0]];
    } else {
      var behind := OperandList(xs[1..]) + rest;
      ListTurn(found, xs, rest);
      ListReads(found + [xs[0]], xs[1..], rest);
      assert found + [xs[0]] + xs[1..] == found + xs;
    }
  }

  lemma ListTurn(found: seq<Operand>, xs: seq<Operand>, rest: seq<Token>)
    requires |xs| > 1 && AllShaped(xs) && Nth(rest, 0).Newline?
    ensures ParseOperands(found, OperandList(xs) + rest) == ParseOperands(found + [xs[0]], OperandList(xs[1..]) + rest)
  {
    var behind := OperandList(xs[1..]) + rest;
    ListGoesOn(xs, rest);
    ListBegins(xs[1..], rest);
    Head(Comma, behind);
    OperandReads(xs[0], [Comma] + behind);
    hide ParseOperand, OperandTokens, OperandList, ParseOperands, AllShaped;
    OperandTurn(found, OperandTokens(xs[0]) + ([Comma] + behind));
  }

  lemma ListGoesOn(xs: seq<Operand>, rest: seq<Token>)
    requires |xs| > 1
    ensures OperandList(xs) + rest == OperandTokens(xs[0]) + ([Comma] + (OperandList(xs[1..]) + rest))
    ensures !EndsLine(Nth(OperandList(xs) + rest, 0))
  {
    OperandBegins(xs[0], [Comma] + (OperandList(xs[1..]) + rest));
    Regrouped(OperandTokens(xs[0]), Comma, OperandList(xs[1..]), rest);
    assert OperandList(xs) == OperandTokens(xs[0]) + [Comma] + OperandList(xs[1..]);
    hide OperandTokens, OperandList;
  }

  lemma Regrouped(a: seq<Token>, c: Token, b: seq<Token>, rest: seq<Token>)
    ensures a + [c] + b + rest == a + ([c] + (b + rest))
  {
  }

  lemma ListBegins(xs: seq<Operand>, rest: seq<Token>)
    ensures xs != [] ==> !EndsLine(Nth(OperandList(xs) + rest, 0)) && !Nth(OperandList(xs) + rest, 0).Colon?
    ensures xs == [] ==> OperandList(xs) + rest == rest
  {
    hide OperandTokens;
    if |xs| == 1 {
      OperandBegins(xs[0], rest);
    } else if |xs| > 1 {
      ListGoesOn(xs, rest);
      OperandBegins(xs[0], [Comma] + (OperandList(xs[1..]) + rest));
    }
  }

  // ----- lines -----

  lemma DirectiveFound(kind: DirectiveKind)
    ensures FindDirective(DirectiveName(kind)) == Some((kind, ""))
  {
  }

  /** A line of one statement. */
  lemma LineReads(found: seq<Statement>, s: Statement, rest: seq<Token>)
    requires StatementShaped(s)
    ensures ParseLine(found, StatementTokens(s) + rest) == (found + [s], true, rest)
    ensures !EndsLine(Nth(StatementTokens(s) + rest, 0))
  {
    match s
    case LabelNode(name, local) => LabelReads(found, s, rest);
    case InstructionNode(mnemonic, operands) => InstructionReads(found, s, rest);
    case DirectiveNode(kind, arguments) => DirectiveReads(found, s, rest);
  }

  lemma NoLabel(found: seq<Statement>, ts: seq<Token>)
    requires Nth(ts, 0).Newline?
    ensures ParseLabels(found, ts) == (found, ts)
  {
  }

  lemma PlainLabel(found: seq<Statement>, name: string, end: seq<Token>)
    requires Nth(end, 0).Newline?
    ensures ParseLabels(found, [Identifier(name), Colon] + end) == (found + [LabelNode(name, false)], end)
  {
    var ts := [Identifier(name), Colon] + end;
    assert Behind(Behind(ts)) == end;
    NoLabel(found + [LabelNode(name, false)], end);
  }

  lemma DottedLabel(found: seq<Statement>, name: string, end: seq<Token>)
    requires Nth(end, 0).Newline?
    ensures ParseLabels(found, [Dot, Identifier(name), Colon] + end) == (found + [LabelNode("." + name, true)], end)
  {
    var ts := [Dot, Identifier(name), Colon] + end;
    assert Behind(Behind(Behind(ts))) == end;
    NoLabel(found + [LabelNode("." + name, true)], end);
  }

  lemma LabelReads(found: seq<Statement>, s: Statement, rest: seq<Token>)
    requires s.LabelNode? && StatementShaped(s)
    ensures ParseLine(found, StatementTokens(s) + rest) == (found + [s], true, rest)
    ensures !EndsLine(Nth(StatementTokens(s) + rest, 0))
  {
    hide ParseStatement, ParseLabels;
    var ts := StatementTokens(s) + rest;
    var end := [Newline] + rest;
    Head(Newline, rest);
    if s.isLocal {
      assert ts == [Dot, Identifier(s.name[1..]), Colon] + end;
      assert "." + s.name[1..] == s.name;
      DottedLabel(found, s.name[1..], end);
    } else {
      assert ts == [Identifier(s.name), Colon] + end;
      PlainLabel(found, s.name, end);
    }
  }

  /** A list of operands up to the end of its line. */
  lemma ListOfLine(xs: seq<Operand>, rest: seq<Token>)
    requires AllShaped(xs)
    ensures ParseOperands([], OperandList(xs) + ([Newline] + rest)) == Parsed(xs, [Newline] + rest)
  {
    hide ParseOperands, OperandList, AllShaped;
    Head(Newline, rest);
    ListReads([], xs, [Newline] + rest);
    assert [] + xs == xs;
  }

  lemma InstructionReads(found: seq<Statement>, s: Statement, rest: seq<Token>)
    requires s.InstructionNode? && StatementShaped(s)
    ensures ParseLine(found, StatementTokens(s) + rest) == (found + [s], true, rest)
    ensures !EndsLine(Nth(StatementTokens(s) + rest, 0))
  {
    hide ParseOperands, OperandList, AllShaped, ParseLabels;
    var ts, end := StatementTokens(s) + rest, [Newline] + rest;
    var behind := OperandList(s.operands) + end;
    Regrouped3([Identifier(s.mnemonic)], OperandList(s.operands), [Newline], rest);
    Head(Identifier(s.mnemonic), behind);
    InstructionNoLabel(found, s.mnemonic, s.operands, end);
    ListOfLine(s.operands, rest);
    Head(Newline, rest);
  }

  lemma Regrouped3(a: seq<Token>, b: seq<Token>, c: seq<Token>, rest: seq<Token>)
    ensures a + b + c + rest == a + (b + (c + rest))
  {
  }

  lemma InstructionNoLabel(found: seq<Statement>, mnemonic: string, xs: seq<Operand>, end: seq<Token>)
    requires Nth(end, 0).Newline?
    ensures var ts := [Identifier(mnemonic)] + (OperandList(xs) + end); ParseLabels(found, ts) == (found, ts)
  {
    hide OperandList;
    var behind := OperandList(xs) + end;
    var ts := [Identifier(mnemonic)] + behind;
    ListBegins(xs, end);
    assert Nth(ts, 1) == Nth(behind, 0);
  }

  lemma DirectiveReads(found: seq<Statement>, s: Statement, rest: seq<Token>)
    requires s.DirectiveNode? && StatementShaped(s)
    ensures ParseLine(found, StatementTokens(s) + rest) == (found + [s], true, rest)
    ensures !EndsLine(Nth(StatementTokens(s) + rest, 0))
  {
    hide ParseOperands, OperandList, AllShaped, FindDirective, DirectiveName, ParseLabels;
    var ts, end := StatementTokens(s) + rest, [Newline] + rest;
    var behind := OperandList(s.arguments) + end;
    var name := Identifier(DirectiveName(s.kind));
    Regrouped3([Dot, name], OperandList(s.arguments), [Newline], rest);
    assert ts == [Dot] + ([name] + behind);
    Head(Dot, [name] + behind);
    Head(name, behind);
    DirectiveNoLabel(found, DirectiveName(s.kind), s.arguments, end);
    DirectiveFound(s.kind);
    ListOfLine(s.arguments, rest);
    Head(Newline, rest);
  }

  lemma DirectiveNoLabel(found: seq<Statement>, name: string, xs: seq<Operand>, end: seq<Token>)
    requires Nth(end, 0).Newline?
    ensures var ts := [Dot] + ([Identifier(name)] + (OperandList(xs) + end)); ParseLabels(found, ts) == (found, ts)
  {
    hide OperandList;
    var behind := OperandList(xs) + end;
    var ts := [Dot] + ([Identifier(name)] + behind);
    ListBegins(xs, end);
    assert Nth(ts, 2) == Nth(behind, 0);
  }

  lemma {:induction false} LinesRead(found: seq<Statement>, program: seq<Statement>)
    requires forall i :: 0 <= i < |program| ==> StatementShaped(program[i])
    ensures ParseLines(found, ProgramTokens(program)) == (found + program, true)
    decreases |program|
  {
    hide ParseLine, StatementTokens, StatementShaped;
    var ts := ProgramTokens(program);
    LineTurn(found, ts);
    if program == [] {
      assert found + program == found;
    } else {
      var rest := ProgramTokens(program[1..]);
      LineReads(found, program[0], rest);
      LinesRead(found + [program[0]], program[1..]);
      assert found + [program[0]] + program[1..] == found + program;
    }
  }

  /** Every program, labels, instructions and directives with operands of every kind, is what parsing its
      tokens gives. */
  lemma ProgramReads(program: seq<Statement>)
    requires forall i :: 0 <= i < |program| ==> StatementShaped(program[i])
    ensures ParseLines([], ProgramTokens(program)) == (program, true)
  {
    hide ParseLines, ProgramTokens, StatementShaped;
    LinesRead([], program);
    assert [] + program == program;
  }
}
