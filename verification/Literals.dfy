/** What is between tokens, what integer literals and register names mean: the value of a literal in each
    base, and which words are registers. */
module Literals {
  import opened Words
  import opened Isa
  import opened Spelling
  import opened Lexing

  // ----- between tokens -----

  lemma FrontSkipped(front: string, t: string)
    requires Blanks(front + t) == |front| + Blanks(t)
    ensures Tokens(front + t) == Tokens(t)
  {
    hide LexNext, Blanks, Tokens;
    NextShifts(front, t);
    TokensShift(front, t);
  }

  lemma NextShifts(front: string, t: string)
    requires Blanks(front + t) == |front| + Blanks(t)
    ensures LexNext(front + t) == (LexNext(t).0, |front| + LexNext(t).1)
  {
    hide LexSolid, Blanks;
    DropFront(front, t, Blanks(t));
  }

  lemma TokensShift(front: string, t: string)
    requires LexNext(front + t) == (LexNext(t).0, |front| + LexNext(t).1)
    ensures Tokens(front + t) == Tokens(t)
  {
    FirstToken(t);
    FirstToken(front + t);
    hide LexNext, Tokens;
    DropFront(front, t, LexNext(t).1);
  }

  lemma DropFront(front: string, t: string, n: nat)
    requires n <= |t|
    ensures (front + t)[|front| + n..] == t[n..]
  {
  }

  lemma FirstToken(t: string)
    ensures var next := LexNext(t); Tokens(t) == if next.0.Eof? then [] else [next.0] + Tokens(t[next.1..])
  {
    hide LexNext;
  }

  /** Spaces, tabs, carriage returns and form and vertical feeds are skipped. */
  lemma BlankSkipped(c: char, t: string)
    requires c == ' ' || c == '\t' || c == '\r' || c == 11 as char || c == 12 as char
    ensures Tokens([c] + t) == Tokens(t)
  {
    assert ([c] + t)[1..] == t;
    FrontSkipped([c], t);
  }

  lemma {:induction false} LineEnds(line: string, rest: string)
    requires (forall i :: 0 <= i < |line| ==> line[i] != '\n') && (rest == "" || rest[0] == '\n')
    ensures LineLength(line + rest) == |line|
  {
    if line == "" {
      assert line + rest == rest;
    } else {
      assert (line + rest)[1..] == line[1..] + rest;
      LineEnds(line[1..], rest);
    }
  }

  /** A semicolon and everything behind it, up to the end of the line, is skipped. */
  lemma CommentSkipped(comment: string, rest: string)
    requires (forall i :: 0 <= i < |comment| ==> comment[i] != '\n') && (rest == "" || rest[0] == '\n')
    ensures Tokens(";" + comment + rest) == Tokens(rest)
  {
    var front := ";" + comment;
    LineEnds(front, rest);
    assert (front + rest)[|front|..] == rest && (front + rest)[0] == ';';
    FrontSkipped(front, rest);
  }

  // ----- literals -----

  /** The digits, least first, in both cases of the letters. */
  const SMALL: string := "0123456789abcdef"
  const LARGE: string := "0123456789ABCDEF"

  /** The character is the digit d. */
  predicate IsDigitFor(c: char, d: int) { 0 <= d < 16 && (SMALL[d] == c || LARGE[d] == c) }

  predicate KnownBase(base: nat) { base == 2 || base == 8 || base == 10 || base == 16 }

  ghost predicate InBase(c: char, base: nat) { exists d :: 0 <= d < base && IsDigitFor(c, d) }

  lemma DigitMeans(c: char, d: int)
    requires IsDigitFor(c, d)
    ensures DigitValue(c) == d
    ensures forall base: nat :: KnownBase(base) ==> (IsDigitOfBase(c, base) <==> d < base)
  {
  }

  lemma NoDigitMeans(c: char, base: nat)
    requires KnownBase(base) && IsDigitOfBase(c, base)
    ensures InBase(c, base)
  {
    assert IsDigitFor(c, DigitValue(c));
  }

  /** A character is a digit of a base exactly when it is one of the first characters of the list. */
  lemma DigitOfBaseIff(c: char, base: nat)
    requires KnownBase(base)
    ensures IsDigitOfBase(c, base) <==> InBase(c, base)
  {
    hide IsDigitOfBase;
    if InBase(c, base) {
      var d :| 0 <= d < base && IsDigitFor(c, d);
      DigitMeans(c, d);
    }
    if IsDigitOfBase(c, base) {
      NoDigitMeans(c, base);
    }
  }

  function Power(base: nat, n: nat): nat { if n == 0 then 1 else base * Power(base, n - 1) }

  /** The sum of the digits' values, each times the power of the base of its place. */
  ghost function Sum(digits: seq<nat>, base: nat): nat {
    if digits == [] then 0 else digits[0] * Power(base, |digits| - 1) + Sum(digits[1..], base)
  }

  ghost predicate Spells(text: string, digits: seq<nat>) {
    |text| == |digits| && forall i :: 0 <= i < |text| ==> IsDigitFor(text[i], digits[i])
  }

  lemma {:induction false} SumSnoc(digits: seq<nat>, d: nat, base: nat)
    ensures Sum(digits + [d], base) == base * Sum(digits, base) + d
  {
    if digits == [] {
      assert [d][1..] == [];
    } else {
      SumSnoc(digits[1..], d, base);
      assert (digits + [d])[1..] == digits[1..] + [d];
      Shifts(digits[0], base, Power(base, |digits| - 1), Sum(digits[1..], base), d);
    }
  }

  lemma Shifts(x: int, base: int, p: int, s: int, d: int)
    ensures x * (base * p) + (base * s + d) == base * (x * p + s) + d
  {
    assert x * (base * p) == base * (x * p);
    assert base * (x * p + s) == base * (x * p) + base * s;
  }

  /** The value of a run of digits is that sum. */
  lemma {:induction false} NumberMeans(text: string, digits: seq<nat>, base: nat)
    requires Spells(text, digits)
    ensures NumberValue(text, base) == Sum(digits, base)
  {
    hide DigitValue, IsDigitFor;
    if text == "" {
    } else {
      var n := |text| - 1;
      NumberMeans(text[..n], digits[..n], base);
      SumSnoc(digits[..n], digits[n], base);
      assert digits == digits[..n] + [digits[n]];
      DigitMeans(text[n], digits[n]);
      assert base * NumberValue(text[..n], base) == NumberValue(text[..n], base) * base;
    }
  }

  // ----- whole literals -----

  /** The prefix that announces a base. */
  predicate Announces(prefix: string, base: nat) {
    match base
    case 10 => prefix == ""
    case 16 => prefix == "0x" || prefix == "0X"
    case 8 => prefix == "0o" || prefix == "0O"
    case 2 => prefix == "0b" || prefix == "0B"
    case _ => false
  }

  ghost predicate AllInBase(text: string, base: nat) {
    forall i :: 0 <= i < |text| ==> IsDigitOfBase(text[i], base)
  }

  lemma SpelledInBase(text: string, digits: seq<nat>, base: nat)
    requires KnownBase(base) && Spells(text, digits) && forall i :: 0 <= i < |digits| ==> digits[i] < base
    ensures AllInBase(text, base)
  {
    hide IsDigitOfBase, IsDigitFor;
    forall i | 0 <= i < |text|
      ensures IsDigitOfBase(text[i], base)
    {
      DigitMeans(text[i], digits[i]);
    }
  }

  lemma {:induction false} RunOfDigits(text: string, rest: string, base: nat)
    requires AllInBase(text, base) && (rest == "" || !IsDigitOfBase(rest[0], base))
    ensures DigitsLength(text + rest, base) == |text|
  {
    hide IsDigitOfBase;
    if text == "" {
      assert text + rest == rest;
    } else {
      assert (text + rest)[1..] == text[1..] + rest;
      RunOfDigits(text[1..], rest, base);
    }
  }

  lemma DigitContinues(c: char, base: nat)
    requires IsDigitOfBase(c, base)
    ensures IsIdentifierContinue(c)
  {
  }

  lemma BaseMeans(sign: string, prefix: string, base: nat, text: string, rest: string)
    requires (sign == "" || sign == "-") && KnownBase(base) && Announces(prefix, base) && text != "" && AllInBase(text, base)
    requires rest == "" || !IsIdentifierContinue(rest[0])
    ensures BaseOf(sign + prefix + text + rest, |sign|) == base
    ensures IsDigit((sign + prefix + text + rest)[|sign|])
  {
    var t := sign + prefix + text + rest;
    if base == 10 {
      assert t[|sign|] == text[0];
      if |text| > 1 {
        assert t[|sign| + 1] == text[1];
      } else if rest != "" {
        assert t[|sign| + 1] == rest[0];
      }
    } else {
      assert t[|sign|] == prefix[0] == '0' && t[|sign| + 1] == prefix[1];
    }
  }

  /** A literal, with or without a sign, in any of the four bases: its value is that of its digits if it
      fits a signed word, and it is malformed if it does not. */
  lemma LiteralMeans(negative: bool, prefix: string, base: nat, text: string, digits: seq<nat>, rest: string)
    requires KnownBase(base) && Announces(prefix, base) && text != "" && Spells(text, digits)
    requires forall i :: 0 <= i < |digits| ==> digits[i] < base
    requires rest == "" || !IsIdentifierContinue(rest[0])
    ensures var sign := if negative then "-" else "";
            var t := sign + prefix + text + rest;
            var value := if negative then 0 - Sum(digits, base) else Sum(digits, base);
            && IsDigit(t[|sign|])
            && LexInteger(t, |sign|) ==
               (if -0x8000_0000_0000_0000 <= value < 0x8000_0000_0000_0000 then Integer(value) else Bad, |sign + prefix + text|)
  {
    hide DigitsLength, NumberValue, IsDigitOfBase, BaseOf, IsDigitFor, LexDigits, Sum;
    var sign := if negative then "-" else "";
    var t := sign + prefix + text + rest;
    SpelledInBase(text, digits, base);
    BaseMeans(sign, prefix, base, text, rest);
    NumberMeans(text, digits, base);
    var from := |sign + prefix|;
    assert t[from..] == text + rest;
    DigitsRead(t, from, base, text, rest, negative);
  }

  lemma DigitsRead(t: string, from: nat, base: nat, text: string, rest: string, negative: bool)
    requires from <= |t| && t[from..] == text + rest && text != "" && AllInBase(text, base)
    requires rest == "" || !IsIdentifierContinue(rest[0])
    ensures LexDigits(t, from, base, negative) == (SignedToken(NumberValue(text, base), negative), from + |text|)
  {
    hide DigitsLength, NumberValue, IsDigitOfBase, IsIdentifierContinue;
    if rest != "" && IsDigitOfBase(rest[0], base) {
      DigitContinues(rest[0], base);
    }
    RunOfDigits(text, rest, base);
    assert t[from..from + |text|] == t[from..][..|text|] == text;
    assert rest != "" ==> t[from + |text|] == t[from..][|text|];
  }

  // ----- registers -----

  /** The sixteen canonical names. */
  const NAMES: seq<string> :=
    ["R0", "R1", "R2", "R3", "R4", "R5", "R6", "R7", "R8", "R9", "R10", "R11", "R12", "R13", "R14", "R15"]

  /** A word is a register exactly when it is one of the names, FP for R13 or RV for R14, in either case. */
  lemma RegisterFoundIff(text: string, r: Reg)
    ensures ParseRegister(text) == Some(r) <==>
            Upper(text) == NAMES[r] || (r == 13 && Upper(text) == "FP") || (r == 14 && Upper(text) == "RV")
  {
    if |text| == 2 {
      OneDigit(text, r);
    } else if |text| == 3 {
      TwoDigits(text, r);
    }
  }

  lemma OneDigit(text: string, r: Reg)
    requires |text| == 2
    ensures ParseRegister(text) == Some(r) <==>
            Upper(text) == NAMES[r] || (r == 13 && Upper(text) == "FP") || (r == 14 && Upper(text) == "RV")
  {
    assert text[1..] == [text[1]] && [text[1]][..0] == "";
    var u := Upper(text);
    assert u == [u[0], u[1]];
    assert RegisterNumber([text[1]]) == if IsDigit(text[1]) then Some(text[1] as int - '0' as int) else None;
  }

  lemma TwoDigits(text: string, r: Reg)
    requires |text| == 3
    ensures ParseRegister(text) == Some(r) <==> Upper(text) == NAMES[r]
  {
    var u := Upper(text);
    assert u == [u[0], u[1], u[2]];
    TwoDigitNumber(text[1], text[2]);
    assert text[1..] == [text[1], text[2]];
    hide RegisterNumber;
  }

  lemma TwoDigitNumber(a: char, b: char)
    ensures RegisterNumber([a, b]) ==
            if IsDigit(a) && IsDigit(b) then Some((a as int - '0' as int) * 10 + (b as int - '0' as int)) else None
  {
    assert [a, b][..1] == [a] && [a][..0] == "";
    assert RegisterNumber([a]) == if IsDigit(a) then Some(a as int - '0' as int) else None;
  }
}
