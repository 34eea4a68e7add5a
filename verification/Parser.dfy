/** The recursive-descent parser with its lookahead buffer: each method is proved to consume and to give
    what `Grammar` says, and to mark the parse as failed exactly when there was an error. */
module Parsing {
  import opened Words
  import opened Lexing
  import opened Grammar

  /** The tokens without the malformed ones, which are reported and skipped. */
  function Clean(ts: seq<Token>): seq<Token> {
    if ts == [] then [] else if ts[0].Bad? then Clean(ts[1..]) else [ts[0]] + Clean(ts[1..])
  }

  function CountBad(ts: seq<Token>): nat {
    if ts == [] then 0 else (if ts[0].Bad? then 1 else 0) + CountBad(ts[1..])
  }

  function Drop(ts: seq<Token>, n: nat): seq<Token> { if n <= |ts| then ts[n..] else [] }

  lemma TokensStep(t: string)
    ensures var next := LexNext(t);
      && Clean(Tokens(t)) == (if next.0.Eof? then [] else if next.0.Bad? then Clean(Tokens(t[next.1..])) else [next.0] + Clean(Tokens(t[next.1..])))
      && CountBad(Tokens(t)) == (if next.0.Eof? then 0 else (if next.0.Bad? then 1 else 0) + CountBad(Tokens(t[next.1..])))
  {
    hide LexNext;
    var next := LexNext(t);
    if !next.0.Eof? {
      assert Tokens(t)[1..] == Tokens(t[next.1..]);
    }
  }

  lemma NothingLeft()
    ensures LexNext("") == (Eof, 0) && Tokens("") == []
  {
  }

  datatype TokenType =
    | IdentifierType | RegisterType | IntegerType | ColonType | CommaType | PlusType | MinusType | DotType | HashType
    | LBracketType | RBracketType | NewlineType | EofType | ErrorType

  function TypeOf(token: Token): TokenType {
    match token
    case Identifier(_) => IdentifierType case RegisterToken(_) => RegisterType case Integer(_) => IntegerType
    case Colon => ColonType case Comma => CommaType case Plus => PlusType case Minus => MinusType case Dot => DotType
    case Hash => HashType case LBracket => LBracketType case RBracket => RBracketType case Newline => NewlineType
    case Eof => EofType case Bad => ErrorType
  }

  const LOOKAHEAD := 3

  class Parser {
    const lexer: Lexer
    const buffer: array<Token>
    var buffered: nat
    var failed: bool
    /** The tokens still to come, from the front of the buffer on. */
    ghost var stream: seq<Token>

    ghost predicate Valid()
      reads this, lexer, buffer
    {
      && lexer.Valid() && !lexer.peeked && buffer.Length == LOOKAHEAD && buffered <= LOOKAHEAD
      && (forall k :: 0 <= k < buffered ==> buffer[k] == Nth(stream, k))
      && Eof !in stream && (|stream| < buffered ==> lexer.Rest() == "")
      && Clean(Tokens(lexer.Rest())) == Drop(stream, buffered)
    }

    /** Malformed tokens that have not been met yet. */
    ghost function ErrorsLeft(): nat
      requires Valid()
      reads this, lexer, buffer
    {
      CountBad(Tokens(lexer.Rest()))
    }

    constructor (lexer: Lexer)
      requires lexer.Valid() && !lexer.peeked
      ensures Valid() && this.lexer == lexer && fresh(buffer) && !failed && buffered == 0
      ensures stream == Clean(Tokens(lexer.Rest()))
    {
      this.lexer := lexer;
      buffer := new Token[LOOKAHEAD](_ => Eof);
      buffered, failed := 0, false;
      NoEnd(lexer.Rest());
      stream := Clean(Tokens(lexer.Rest()));
    }

    // ----- the buffer -----

    /** The next token that is not malformed; malformed ones are reported. */
    method NextGood() returns (token: Token)
      requires lexer.Valid() && !lexer.peeked
      modifies lexer, this`failed
      ensures lexer.Valid() && !lexer.peeked
      ensures token == Nth(old(Clean(Tokens(lexer.Rest()))), 0) && (token.Eof? || old(lexer.Rest()) == "" ==> lexer.Rest() == "")
      ensures Clean(Tokens(lexer.Rest())) == Behind(old(Clean(Tokens(lexer.Rest()))))
      ensures CountBad(Tokens(lexer.Rest())) <= old(CountBad(Tokens(lexer.Rest())))
      ensures failed <==> old(failed) || CountBad(Tokens(lexer.Rest())) < old(CountBad(Tokens(lexer.Rest())))
    {
      hide LexNext, Clean, CountBad, Tokens;
      EmptyClean();
      TokensStep(lexer.Rest());
      token := lexer.Next();
      while token.Bad?
        invariant lexer.Valid() && !lexer.peeked
        invariant old(Clean(Tokens(lexer.Rest()))) == if token.Eof? then [] else if token.Bad? then Clean(Tokens(lexer.Rest()))
                                                      else [token] + Clean(Tokens(lexer.Rest()))
        invariant token.Eof? || old(lexer.Rest()) == "" ==> lexer.Rest() == ""
        invariant CountBad(Tokens(lexer.Rest())) + (if token.Bad? then 1 else 0) <= old(CountBad(Tokens(lexer.Rest())))
        invariant failed <==> old(failed) || CountBad(Tokens(lexer.Rest())) + (if token.Bad? then 1 else 0) < old(CountBad(Tokens(lexer.Rest())))
        decreases token.Bad?, |lexer.Rest()|
      {
        failed := true;
        TokensStep(lexer.Rest());
        token := lexer.Next();
      }
    }

    /** One more token into the buffer. */
    method Fill()
      requires Valid() && buffered < LOOKAHEAD
      modifies this`buffered, this`failed, buffer, lexer
      ensures Valid() && buffered == old(buffered) + 1
      ensures ErrorsLeft() <= old(ErrorsLeft()) && (failed <==> old(failed) || ErrorsLeft() < old(ErrorsLeft()))
    {
      hide Clean, CountBad, Tokens, Drop, Behind, Nth;
      DropNext(stream, buffered);
      var next := NextGood();
      assert next == Nth(stream, buffered);
      buffer[buffered] := next;
      buffered := buffered + 1;
    }

    method Peek(ahead: nat) returns (token: Token)
      requires Valid() && ahead < LOOKAHEAD
      modifies this`buffered, this`failed, buffer, lexer
      ensures Valid() && token == Nth(stream, ahead) && buffered > ahead
      ensures ErrorsLeft() <= old(ErrorsLeft()) && (failed <==> old(failed) || ErrorsLeft() < old(ErrorsLeft()))
    {
      hide Clean, CountBad, Tokens;
      while buffered <= ahead
        invariant Valid() && stream == old(stream)
        invariant ErrorsLeft() <= old(ErrorsLeft()) && (failed <==> old(failed) || ErrorsLeft() < old(ErrorsLeft()))
      {
        Fill();
      }
      token := buffer[ahead];
    }

    /** The buffer moves up by one. */
    method Shift()
      requires buffer.Length == LOOKAHEAD && 0 < buffered <= LOOKAHEAD
      modifies buffer
      ensures forall k :: 0 <= k < buffered - 1 ==> buffer[k] == old(buffer[k + 1])
    {
      var i := 1;
      while i < buffered
        invariant 1 <= i <= buffered <= LOOKAHEAD
        invariant forall k :: 0 <= k < i - 1 ==> buffer[k] == old(buffer[k + 1])
        invariant forall k :: i <= k < buffered ==> buffer[k] == old(buffer[k])
      {
        buffer[i - 1] := buffer[i];
        i := i + 1;
      }
    }

    method Advance() returns (token: Token)
      requires Valid()
      modifies this`buffered, this`failed, this`stream, buffer, lexer
      ensures Valid() && token == Nth(old(stream), 0) && stream == Behind(old(stream))
      ensures ErrorsLeft() <= old(ErrorsLeft()) && (failed <==> old(failed) || ErrorsLeft() < old(ErrorsLeft()))
    {
      hide Clean, CountBad, Tokens, Drop, Nth;
      token := Peek(0);
      DropBehind(stream, buffered);
      Shift();
      buffered := buffered - 1;
      stream := Behind(stream);
    }

    /** `match` */
    method Match(kind: TokenType) returns (matched: bool)
      requires Valid()
      modifies this`buffered, this`failed, this`stream, buffer, lexer
      ensures Valid() && matched == (TypeOf(Nth(old(stream), 0)) == kind)
      ensures stream == if matched then Behind(old(stream)) else old(stream)
      ensures ErrorsLeft() <= old(ErrorsLeft()) && (failed <==> old(failed) || ErrorsLeft() < old(ErrorsLeft()))
    {
      hide Clean, CountBad, Tokens;
      var token := Peek(0);
      matched := TypeOf(token) == kind;
      if matched {
        token := Advance();
      }
    }

    /** `expect`: a token of another type is an error and stays. */
    method Expect(kind: TokenType) returns (token: Option<Token>)
      requires Valid()
      modifies this`buffered, this`failed, this`stream, buffer, lexer
      ensures Valid()
      ensures token == if TypeOf(Nth(old(stream), 0)) == kind then Some(Nth(old(stream), 0)) else None
      ensures stream == if token.Some? then Behind(old(stream)) else old(stream)
      ensures ErrorsLeft() <= old(ErrorsLeft()) && (failed <==> old(failed) || ErrorsLeft() < old(ErrorsLeft()) || token.None?)
    {
      hide Clean, CountBad, Tokens;
      var t := Peek(0);
      if TypeOf(t) == kind {
        t := Advance();
        return Some(t);
      }
      failed := true;
      return None;
    }

    // ----- operands -----

    method ParseSymbolExpression(name: string) returns (operand: Option<Operand>)
      requires Valid()
      modifies this`buffered, this`failed, this`stream, buffer, lexer
      ensures Valid()
      ensures var p := ParseSymbol(name, old(stream)); stream == p.rest && operand == if p.Parsed? then Some(p.value) else None
      ensures ErrorsLeft() <= old(ErrorsLeft()) && (failed <==> old(failed) || ErrorsLeft() < old(ErrorsLeft()) || operand.None?)
    {
      hide Clean, CountBad, Tokens, Nth, Behind, Drop;
      var next := Peek(0);
      if next.Plus? || next.Minus? {
        var sign := Advance();
        var addend := Expect(IntegerType);
        if addend.None? {
          return None;
        }
        return Some(Symbol(name, if sign.Minus? then NegatedWord(addend.value.value) else addend.value.value));
      }
      return Some(Symbol(name, 0));
    }

    method ParseDisplacementValue() returns (displacement: Option<i64>)
      requires Valid()
      modifies this`buffered, this`failed, this`stream, buffer, lexer
      ensures Valid()
      ensures var p := ParseDisplacement(old(stream)); stream == p.rest && displacement == if p.Parsed? then Some(p.value) else None
      ensures ErrorsLeft() <= old(ErrorsLeft()) && (failed <==> old(failed) || ErrorsLeft() < old(ErrorsLeft()) || displacement.None?)
    {
      hide Clean, CountBad, Tokens, Nth, Behind, Drop;
      var next := Peek(0);
      if next.Plus? || next.Minus? {
        var sign := Advance();
        var number := Expect(IntegerType);
        return if number.None? then None else Some(if sign.Minus? then NegatedWord(number.value.value) else number.value.value);
      }
      if next.Integer? {
        failed := true;
        return None;
      }
      return Some(0);
    }

    method ParseMemoryOperand() returns (operand: Option<Operand>)
      requires Valid()
      modifies this`buffered, this`failed, this`stream, buffer, lexer
      ensures Valid()
      ensures var p := ParseMemory(Behind(old(stream))); stream == p.rest && operand == if p.Parsed? then Some(p.value) else None
      ensures ErrorsLeft() <= old(ErrorsLeft()) && (failed <==> old(failed) || ErrorsLeft() < old(ErrorsLeft()) || operand.None?)
    {
      hide Clean, CountBad, Tokens, ParseDisplacement, Nth, Behind, Drop;
      var open := Advance();
      var base := Expect(RegisterType);
      if base.None? {
        return None;
      }
      var displacement := ParseDisplacementValue();
      if displacement.None? {
        return None;
      }
      var close := Expect(RBracketType);
      return if close.None? then None else Some(Operand(MemoryOperand, RegisterOf(base.value.text), displacement.value, ""));
    }

    method ParseMarkedOperand() returns (operand: Option<Operand>)
      requires Valid()
      modifies this`buffered, this`failed, this`stream, buffer, lexer
      ensures Valid()
      ensures var p := ParseMarked(Behind(old(stream))); stream == p.rest && operand == if p.Parsed? then Some(p.value) else None
      ensures ErrorsLeft() <= old(ErrorsLeft()) && (failed <==> old(failed) || ErrorsLeft() < old(ErrorsLeft()) || operand.None?)
    {
      hide Clean, CountBad, Tokens;
      var hash := Advance();
      var value := Expect(IntegerType);
      operand := if value.None? then None else Some(Operand(ImmediateOperand, 0, value.value.value, ""));
    }

    method ParseDottedOperand() returns (operand: Option<Operand>)
      requires Valid()
      modifies this`buffered, this`failed, this`stream, buffer, lexer
      ensures Valid()
      ensures var p := ParseDotted(Behind(old(stream))); stream == p.rest && operand == if p.Parsed? then Some(p.value) else None
      ensures ErrorsLeft() <= old(ErrorsLeft()) && (failed <==> old(failed) || ErrorsLeft() < old(ErrorsLeft()) || operand.None?)
    {
      hide Clean, CountBad, Tokens, ParseSymbol, Nth, Behind, Drop;
      var dot := Advance();
      var name := Expect(IdentifierType);
      if name.None? {
        return None;
      }
      operand := ParseSymbolExpression("." + name.value.text);
    }

    method ParseOneOperand() returns (operand: Option<Operand>)
      requires Valid()
      modifies this`buffered, this`failed, this`stream, buffer, lexer
      ensures Valid()
      ensures var p := ParseOperand(old(stream)); stream == p.rest && operand == if p.Parsed? then Some(p.value) else None
      ensures ErrorsLeft() <= old(ErrorsLeft()) && (failed <==> old(failed) || ErrorsLeft() < old(ErrorsLeft()) || operand.None?)
    {
      hide Clean, CountBad, Tokens, ParseSymbol, ParseMemory, ParseMarked, ParseDotted, Nth, Behind, Drop;
      var token := Peek(0);
      match token {
        case RegisterToken(text) =>
          token := Advance();
          operand := Some(Operand(RegisterOperand, RegisterOf(text), 0, ""));
        case Integer(value) =>
          token := Advance();
          operand := Some(Operand(ImmediateOperand, 0, value, ""));
        case Hash => operand := ParseMarkedOperand();
        case Identifier(name) =>
          token := Advance();
          operand := ParseSymbolExpression(name);
        case Dot => operand := ParseDottedOperand();
        case LBracket => operand := ParseMemoryOperand();
        case _ =>
          failed := true;
          operand := None;
      }
    }

    /** The operand loop of instructions and directives. */
    method ParseOperandList() returns (operands: Option<seq<Operand>>)
      requires Valid()
      modifies this`buffered, this`failed, this`stream, buffer, lexer
      ensures Valid()
      ensures var p := ParseOperands([], old(stream)); stream == p.rest && operands == if p.Parsed? then Some(p.value) else None
      ensures ErrorsLeft() <= old(ErrorsLeft()) && (failed <==> old(failed) || ErrorsLeft() < old(ErrorsLeft()) || operands.None?)
    {
      hide Clean, CountBad, Tokens, ParseOperand, ParseOperands, Nth, Behind, Drop, EndsLine;
      var found: seq<Operand> := [];
      var next := Peek(0);
      while !EndsLine(next)
        invariant Valid() && next == Nth(stream, 0)
        invariant ParseOperands(found, stream) == ParseOperands([], old(stream))
        invariant ErrorsLeft() <= old(ErrorsLeft()) && (failed <==> old(failed) || ErrorsLeft() < old(ErrorsLeft()))
        decreases |stream|
      {
        OperandTurn(found, stream);
        var operand := ParseOneOperand();
        if operand.None? {
          return None;
        }
        found := found + [operand.value];
        var comma := Match(CommaType);
        if !comma {
          return Some(found);
        }
        next := Peek(0);
        if EndsLine(next) {
          failed := true;
          return None;
        }
      }
      OperandTurn(found, stream);
      return Some(found);
    }

    // ----- lines -----

    method ParseInstructionNode() returns (statement: Option<Statement>)
      requires Valid() && Nth(stream, 0).Identifier?
      modifies this`buffered, this`failed, this`stream, buffer, lexer
      ensures Valid()
      ensures var p := ParseInstruction(old(stream)); stream == p.rest && statement == if p.Parsed? then Some(p.value) else None
      ensures ErrorsLeft() <= old(ErrorsLeft()) && (failed <==> old(failed) || ErrorsLeft() < old(ErrorsLeft()) || statement.None?)
    {
      hide Clean, CountBad, Tokens, ParseOperands, Nth, Behind, Drop;
      var mnemonic := Advance();
      var operands := ParseOperandList();
      return if operands.None? then None else Some(InstructionNode(mnemonic.text, operands.value));
    }

    method ParseDirectiveNode() returns (statement: Option<Statement>)
      requires Valid()
      modifies this`buffered, this`failed, this`stream, buffer, lexer
      ensures Valid()
      ensures var p := ParseDirective(Behind(old(stream))); stream == p.rest && statement == if p.Parsed? then Some(p.value) else None
      ensures ErrorsLeft() <= old(ErrorsLeft()) && (failed <==> old(failed) || ErrorsLeft() < old(ErrorsLeft()) || statement.None?)
    {
      hide Clean, CountBad, Tokens, ParseOperands, FindDirective, Nth, Behind, Drop;
      var dot := Advance();
      var name := Expect(IdentifierType);
      if name.None? {
        return None;
      }
      var spelling := FindDirective(name.value.text);
      if spelling.None? {
        failed := true;
        return None;
      }
      if spelling.value.1 != "" {
        return Some(DirectiveNode(spelling.value.0, [Symbol(spelling.value.1, 0)]));
      }
      var operands := ParseOperandList();
      return if operands.None? then None else Some(DirectiveNode(spelling.value.0, operands.value));
    }

    method ParseLabelNodes(statements: seq<Statement>) returns (found: seq<Statement>)
      requires Valid()
      modifies this`buffered, this`failed, this`stream, buffer, lexer
      ensures Valid() && (found, stream) == ParseLabels(statements, old(stream))
      ensures ErrorsLeft() <= old(ErrorsLeft()) && (failed <==> old(failed) || ErrorsLeft() < old(ErrorsLeft()))
    {
      hide Clean, CountBad, Tokens;
      found := statements;
      while true
        invariant Valid() && ParseLabels(found, stream) == ParseLabels(statements, old(stream))
        invariant ErrorsLeft() <= old(ErrorsLeft()) && (failed <==> old(failed) || ErrorsLeft() < old(ErrorsLeft()))
        decreases |stream|
      {
        var plain := PeekLabel(false);
        var isLocal := PeekLabel(true);
        if !plain && !isLocal {
          return;
        }
        if isLocal {
          var dot := Advance();
          var name := Advance();
          found := found + [LabelNode("." + name.text, true)];
        } else {
          var name := Advance();
          found := found + [LabelNode(name.text, false)];
        }
        var colon := Advance();
      }
    }

    /** Does a label, with or without a dot, come next? */
    method PeekLabel(dotted: bool) returns (isLabel: bool)
      requires Valid()
      modifies this`buffered, this`failed, buffer, lexer
      ensures Valid() && stream == old(stream)
      ensures isLabel == if dotted then Nth(stream, 0).Dot? && Nth(stream, 1).Identifier? && Nth(stream, 2).Colon?
                        else Nth(stream, 0).Identifier? && Nth(stream, 1).Colon?
      ensures ErrorsLeft() <= old(ErrorsLeft()) && (failed <==> old(failed) || ErrorsLeft() < old(ErrorsLeft()))
    {
      hide Clean, CountBad, Tokens;
      var first := Peek(0);
      if dotted {
        if !first.Dot? {
          return false;
        }
        var second := Peek(1);
        if !second.Identifier? {
          return false;
        }
        var third := Peek(2);
        return third.Colon?;
      }
      if !first.Identifier? {
        return false;
      }
      var second := Peek(1);
      return second.Colon?;
    }

    method ParseStatementNode() returns (statement: Option<Statement>)
      requires Valid()
      modifies this`buffered, this`failed, this`stream, buffer, lexer
      ensures Valid()
      ensures var p := ParseStatement(old(stream)); stream == p.rest && statement == if p.Parsed? then Some(p.value) else None
      ensures ErrorsLeft() <= old(ErrorsLeft()) && (failed <==> old(failed) || ErrorsLeft() < old(ErrorsLeft()) || statement.None?)
    {
      hide Clean, CountBad, Tokens, ParseDirective, ParseInstruction, Nth, Behind, Drop;
      var next := Peek(0);
      if next.Dot? {
        statement := ParseDirectiveNode();
      } else if next.Identifier? {
        statement := ParseInstructionNode();
      } else {
        failed := true;
        statement := None;
      }
    }

    /** The end of a line that should end here. */
    method EndOfLine() returns (ends: bool)
      requires Valid()
      modifies this`buffered, this`failed, this`stream, buffer, lexer
      ensures Valid() && ends == EndsLine(Nth(old(stream), 0))
      ensures stream == if ends then EndLine(old(stream)) else old(stream)
      ensures ErrorsLeft() <= old(ErrorsLeft()) && (failed <==> old(failed) || ErrorsLeft() < old(ErrorsLeft()))
    {
      hide Clean, CountBad, Tokens, Nth, Behind, Drop;
      var next := Peek(0);
      ends := EndsLine(next);
      if ends {
        var newline := Match(NewlineType);
      }
    }

    method ParseOneLine(statements: seq<Statement>) returns (ok: bool, found: seq<Statement>)
      requires Valid()
      modifies this`buffered, this`failed, this`stream, buffer, lexer
      ensures Valid() && (found, ok, stream) == ParseLine(statements, old(stream))
      ensures ErrorsLeft() <= old(ErrorsLeft()) && (failed <==> old(failed) || ErrorsLeft() < old(ErrorsLeft()) || !ok)
    {
      hide Clean, CountBad, Tokens, ParseLabels, ParseStatement, Nth, Behind, Drop, EndsLine, EndLine;
      found := ParseLabelNodes(statements);
      var ends := EndOfLine();
      if ends {
        return true, found;
      }
      var statement := ParseStatementNode();
      if statement.None? {
        return false, found;
      }
      found := found + [statement.value];
      ok := EndOfLine();
      if !ok {
        failed := true;
      }
    }

    method SkipToEndOfLine()
      requires Valid()
      modifies this`buffered, this`failed, this`stream, buffer, lexer
      ensures Valid() && stream == SkipLine(old(stream))
      ensures ErrorsLeft() <= old(ErrorsLeft()) && (failed <==> old(failed) || ErrorsLeft() < old(ErrorsLeft()))
    {
      hide Clean, CountBad, Tokens, Nth, Behind, Drop, EndsLine, EndLine, SkipLine;
      var ends := EndOfLine();
      SkipTurn(old(stream));
      while !ends
        invariant Valid() && if ends then stream == SkipLine(old(stream)) else SkipLine(stream) == SkipLine(old(stream)) && !EndsLine(Nth(stream, 0))
        invariant ErrorsLeft() <= old(ErrorsLeft()) && (failed <==> old(failed) || ErrorsLeft() < old(ErrorsLeft()))
        decreases !ends, |stream|
      {
        SkipTurn(stream);
        var skipped := Advance();
        SkipTurn(stream);
        ends := EndOfLine();
      }
    }

    /** `parse`: the whole file. It gives the program exactly when no token and no line is malformed. */
    method Parse() returns (program: Option<seq<Statement>>)
      requires Valid() && !failed
      modifies this`buffered, this`failed, this`stream, buffer, lexer
      ensures Valid()
      ensures var r := ParseLines([], old(stream)); program == if r.1 && old(ErrorsLeft()) == 0 then Some(r.0) else None
    {
      hide Clean, CountBad, Tokens, ParseLine, SkipLine, ParseLines, Nth, Behind, Drop;
      var found: seq<Statement> := [];
      ghost var ok := true;
      var next := Peek(0);
      while !next.Eof?
        invariant Valid() && next == Nth(stream, 0) && buffered > 0
        invariant var all, rest := ParseLines([], old(stream)), ParseLines(found, stream); all.0 == rest.0 && all.1 == (ok && rest.1)
        invariant ErrorsLeft() <= old(ErrorsLeft()) && (failed <==> ErrorsLeft() < old(ErrorsLeft()) || !ok)
        decreases |stream|
      {
        LineTurn(found, stream);
        var newline := Match(NewlineType);
        if !newline {
          var line;
          line, found := ParseOneLine(found);
          if !line {
            ok := false;
            SkipToEndOfLine();
          }
        }
        next := Peek(0);
      }
      LineTurn(found, stream);
      AtTheEnd(stream);
      EmptyClean();
      return if failed then None else Some(found);
    }
  }

  lemma {:induction false} NoEnd(t: string)
    ensures Eof !in Clean(Tokens(t))
    decreases |t|
  {
    hide LexNext, Clean, CountBad;
    TokensStep(t);
    if !LexNext(t).0.Eof? {
      NoEnd(t[LexNext(t).1..]);
    }
  }

  lemma DropNext(ts: seq<Token>, n: nat)
    ensures Nth(Drop(ts, n), 0) == Nth(ts, n) && Behind(Drop(ts, n)) == Drop(ts, n + 1)
    ensures |ts| <= n ==> Nth(ts, n).Eof?
  {
  }

  lemma DropBehind(ts: seq<Token>, n: nat)
    requires n > 0
    ensures Drop(Behind(ts), n - 1) == Drop(ts, n)
    ensures forall k: nat :: Nth(Behind(ts), k) == Nth(ts, k + 1)
  {
  }

  lemma EmptyClean()
    ensures Clean(Tokens("")) == [] && CountBad(Tokens("")) == 0
  {
  }
}
