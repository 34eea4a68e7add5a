/** The scanner: what the next token of a text is, and the cursor that finds it. Texts with string or
    character literals are outside this model. */
module Lexing {
  import opened Words
  import opened Spelling

  datatype Token =
    | Identifier(text: string) | RegisterToken(text: string) | Integer(value: i64)
    | Colon | Comma | Plus | Minus | Dot | Hash | LBracket | RBracket | Newline | Eof | Bad

  /** No quotes: neither strings nor character literals. */
  predicate Plain(t: string) { forall i :: 0 <= i < |t| ==> t[i] != '"' && t[i] != '\'' }

  // ----- runs of characters -----

  /** How many characters of the text are in front of the end of the line. */
  function LineLength(t: string): (n: nat)
    ensures n <= |t|
  {
    if t == "" || t[0] == '\n' then 0 else 1 + LineLength(t[1..])
  }

  predicate IsBlank(c: char) { c == ' ' || c == '\t' || c == '\r' || c == 12 as char || c == 11 as char }

  /** How many characters of blanks and comments the text begins with. */
  function Blanks(t: string): (n: nat)
    ensures n <= |t|
    decreases |t|
  {
    if t == "" then 0
    else if IsBlank(t[0]) then 1 + Blanks(t[1..])
    else if t[0] == ';' then LineLength(t) + Blanks(t[LineLength(t)..])
    else 0
  }

  function WordLength(t: string): (n: nat)
    ensures n <= |t| && (n < |t| ==> !IsIdentifierContinue(t[n]))
  {
    if t == "" || !IsIdentifierContinue(t[0]) then 0 else 1 + WordLength(t[1..])
  }

  predicate IsDigitOfBase(c: char, base: nat) {
    var l := LowerChar(c);
    if base == 2 then l == '0' || l == '1'
    else if base == 8 then '0' <= l <= '7'
    else if base == 16 then IsDigit(l) || 'a' <= l <= 'f'
    else IsDigit(l)
  }

  function DigitsLength(t: string, base: nat): (n: nat)
    ensures n <= |t| && (n < |t| ==> !IsDigitOfBase(t[n], base))
    ensures forall i :: 0 <= i < n ==> IsDigitOfBase(t[i], base)
  {
    if t == "" || !IsDigitOfBase(t[0], base) then 0 else 1 + DigitsLength(t[1..], base)
  }

  function DigitValue(c: char): nat {
    var l := LowerChar(c);
    if IsDigit(l) then l as int - '0' as int else if 'a' <= l <= 'f' then l as int - 'a' as int + 10 else 0
  }

  /** The number the digits spell. */
  function NumberValue(digits: string, base: nat): nat {
    if digits == "" then 0
    else NumberValue(digits[..|digits| - 1], base) * base + DigitValue(digits[|digits| - 1])
  }

  lemma NoDigits(base: nat)
    ensures NumberValue("", base) == 0
  {
  }

  lemma NextDigit(digits: string, c: char, base: nat, value: nat)
    requires value == NumberValue(digits, base)
    ensures NumberValue(digits + [c], base) == value * base + DigitValue(c)
  {
    hide DigitValue;
    assert (digits + [c])[..|digits|] == digits;
  }

  // ----- tokens -----

  /** Another base than ten is announced by 0x, 0b or 0o. */
  function BaseOf(t: string, begin: nat): (base: nat)
    ensures base == 10 || begin + 1 < |t|
  {
    if begin + 1 < |t| && t[begin] == '0' then
      var prefix := LowerChar(t[begin + 1]);
      if prefix == 'x' then 16 else if prefix == 'b' then 2 else if prefix == 'o' then 8 else 10
    else 10
  }

  /** The integer whose digits begin at `from`. */
  function LexDigits(t: string, from: nat, base: nat, negative: bool): (r: (Token, nat))
    requires from <= |t|
    ensures from <= r.1 <= |t|
  {
    var end := from + DigitsLength(t[from..], base);
    if end == from then (Bad, from + WordLength(t[from..]))
    else if end < |t| && IsIdentifierContinue(t[end]) then (Bad, end + WordLength(t[end..]))
    else (SignedToken(NumberValue(t[from..end], base), negative), end)
  }

  /** What does not fit a signed word is no integer. */
  function SignedToken(magnitude: nat, negative: bool): Token {
    if negative then
      if magnitude > TWO63 then Bad else Integer(0 - magnitude)
    else if magnitude >= TWO63 then Bad
    else Integer(magnitude)
  }

  /** The integer at the start of the text, whose first digit is at `begin`. */
  function LexInteger(t: string, begin: nat): (r: (Token, nat))
    requires begin <= 1 && begin < |t| && IsDigit(t[begin])
    ensures 0 < r.1 <= |t|
  {
    var base := BaseOf(t, begin);
    LexDigits(t, if base == 10 then begin else begin + 2, base, begin == 1)
  }

  function LexWord(t: string): (r: (Token, nat))
    requires t != "" && IsIdentifierStart(t[0])
    ensures 0 < r.1 <= |t|
  {
    var word := t[..WordLength(t)];
    (if ParseRegister(word).Some? then RegisterToken(word) else Identifier(word), |word|)
  }

  /** The token a text without leading blanks begins with, and its length. */
  function LexSolid(t: string): (r: (Token, nat))
    requires t != ""
    ensures 0 < r.1 <= |t| && !r.0.Eof?
  {
    match t[0]
    case ':' => (Colon, 1)
    case ',' => (Comma, 1)
    case '+' => (Plus, 1)
    case '.' => (Dot, 1)
    case '#' => (Hash, 1)
    case '[' => (LBracket, 1)
    case ']' => (RBracket, 1)
    case '\n' => (Newline, 1)
    case '-' => if |t| > 1 && IsDigit(t[1]) then LexInteger(t, 1) else (Minus, 1)
    case _ =>
      if IsIdentifierStart(t[0]) then LexWord(t)
      else if IsDigit(t[0]) then LexInteger(t, 0)
      else (Bad, 1)
  }

  /** `lexNext`: the next token and how many characters it takes, blanks in front included. */
  function LexNext(t: string): (r: (Token, nat))
    ensures r.1 <= |t| && (!r.0.Eof? ==> r.1 > 0) && (r.0.Eof? ==> r.1 == |t|)
  {
    var n := Blanks(t);
    if n == |t| then (Eof, n)
    else
      var token := LexSolid(t[n..]);
      (token.0, n + token.1)
  }

  /** All tokens in front of the end of the text. */
  function Tokens(t: string): seq<Token>
    decreases |t|
  {
    var next := LexNext(t);
    if next.0.Eof? then [] else [next.0] + Tokens(t[next.1..])
  }

  // ----- the scanner -----

  class Lexer {
    const source: string
    var ptr: nat
    var peeked: bool
    var peekedToken: Token

    ghost predicate Valid()
      reads this
    {
      ptr <= |source| && Plain(source)
    }

    ghost function Rest(): string
      requires Valid()
      reads this
    {
      source[ptr..]
    }

    /** The token to come and the text behind it. */
    ghost function Upcoming(): (Token, string)
      requires Valid()
      reads this
    {
      if peeked then (peekedToken, Rest()) else (LexNext(Rest()).0, Rest()[LexNext(Rest()).1..])
    }

    constructor (text: string)
      requires Plain(text)
      ensures Valid() && source == text && ptr == 0 && !peeked
    {
      source, ptr, peeked, peekedToken := text, 0, false, Eof;
    }

    method SkipBlanks()
      requires Valid()
      modifies this`ptr
      ensures Valid() && ptr == old(ptr) + Blanks(old(Rest()))
    {
      while ptr < |source|
        invariant Valid() && old(ptr) <= ptr && ptr + Blanks(Rest()) == old(ptr) + Blanks(old(Rest()))
      {
        var c := source[ptr];
        assert Rest()[1..] == source[ptr + 1..];
        if IsBlank(c) {
          ptr := ptr + 1;
        } else if c == ';' {
          ghost var start := Rest();
          ghost var at := ptr;
          while ptr < |source| && source[ptr] != '\n'
            invariant at <= ptr <= |source| && ptr + LineLength(Rest()) == at + LineLength(start)
            decreases |source| - ptr
          {
            assert Rest()[1..] == source[ptr + 1..];
            ptr := ptr + 1;
          }
          assert start[LineLength(start)..] == Rest();
        } else {
          return;
        }
      }
    }

    method SkipWord()
      requires Valid()
      modifies this`ptr
      ensures Valid() && ptr == old(ptr) + WordLength(old(Rest()))
    {
      while ptr < |source| && IsIdentifierContinue(source[ptr])
        invariant Valid() && ptr + WordLength(Rest()) == old(ptr) + WordLength(old(Rest()))
      {
        assert Rest()[1..] == source[ptr + 1..];
        ptr := ptr + 1;
      }
    }

    method SkipDigits(base: nat)
      requires Valid()
      modifies this`ptr
      ensures Valid() && ptr == old(ptr) + DigitsLength(old(Rest()), base)
    {
      while ptr < |source| && IsDigitOfBase(source[ptr], base)
        invariant Valid() && ptr + DigitsLength(Rest(), base) == old(ptr) + DigitsLength(old(Rest()), base)
      {
        assert Rest()[1..] == source[ptr + 1..];
        ptr := ptr + 1;
      }
    }

    /** `lexIdentifierOrRegister`, with the cursor behind the first character. */
    method LexIdentifierOrRegister(start: nat) returns (token: Token)
      requires Valid() && ptr == start + 1 <= |source| && IsIdentifierStart(source[start])
      modifies this`ptr
      ensures Valid() && ptr == start + LexWord(source[start..]).1 && token == LexWord(source[start..]).0
    {
      assert source[start..][1..] == source[start + 1..];
      SkipWord();
      var word := source[start..ptr];
      assert word == source[start..][..WordLength(source[start..])];
      token := if ParseRegister(word).Some? then RegisterToken(word) else Identifier(word);
    }

    /** The value of the digits between two positions. */
    method Magnitude(from: nat, end: nat, base: nat) returns (magnitude: nat)
      requires from <= end <= |source|
      ensures magnitude == NumberValue(source[from..end], base)
    {
      hide NumberValue, DigitValue;
      NoDigits(base);
      assert source[from..from] == "";
      magnitude := 0;
      var i := from;
      while i < end
        invariant from <= i <= end && magnitude == NumberValue(source[from..i], base)
      {
        assert source[from..i + 1] == source[from..i] + [source[i]];
        NextDigit(source[from..i], source[i], base, magnitude);
        magnitude := magnitude * base + DigitValue(source[i]);
        i := i + 1;
      }
    }

    method DetectBase(start: nat, begin: nat) returns (base: nat)
      requires start <= begin < |source|
      ensures base == BaseOf(source[start..], begin - start)
    {
      base := 10;
      if source[begin] == '0' && begin + 1 < |source| {
        var prefix := LowerChar(source[begin + 1]);
        base := if prefix == 'x' then 16 else if prefix == 'b' then 2 else if prefix == 'o' then 8 else 10;
      }
    }

    /** The digits of a number, with the cursor on them. */
    method LexDigitsHere(start: nat, base: nat, negative: bool) returns (token: Token)
      requires Valid() && start <= ptr
      modifies this`ptr
      ensures Valid()
      ensures var r := LexDigits(source[start..], old(ptr) - start, base, negative); token == r.0 && ptr == start + r.1
    {
      hide NumberValue, DigitsLength, WordLength, SignedToken;
      ghost var t := source[start..];
      var from := ptr;
      assert t[from - start..] == source[from..];
      SkipDigits(base);
      assert t[ptr - start..] == source[ptr..];
      if ptr == from {
        SkipWord();
        return Bad;
      }
      if ptr < |source| && IsIdentifierContinue(source[ptr]) {
        SkipWord();
        return Bad;
      }
      assert t[from - start..ptr - start] == source[from..ptr];
      var magnitude := Magnitude(from, ptr, base);
      token := SignedToken(magnitude, negative);
    }

    /** `lexInteger`, with the cursor behind the sign or the first digit. */
    method LexNumber(start: nat, negative: bool) returns (token: Token)
      requires Valid() && ptr == start + 1 <= |source|
      requires var begin := if negative then 1 else 0; start + begin < |source| && IsDigit(source[start + begin])
      modifies this`ptr
      ensures Valid()
      ensures var r := LexInteger(source[start..], if negative then 1 else 0); token == r.0 && ptr == start + r.1
    {
      hide LexDigits, BaseOf;
      var begin: nat := if negative then start + 1 else start;
      var base := DetectBase(start, begin);
      ptr := if base == 10 then begin else begin + 2;
      token := LexDigitsHere(start, base, negative);
    }

    method LexToken() returns (token: Token)
      requires Valid()
      modifies this`ptr
      ensures Valid() && token == LexNext(old(Rest())).0 && ptr == old(ptr) + LexNext(old(Rest())).1
    {
      hide LexInteger, LexWord, Blanks;
      SkipBlanks();
      if ptr == |source| {
        return Eof;
      }
      var start := ptr;
      assert old(Rest())[Blanks(old(Rest()))..] == source[start..];
      var c := source[ptr];
      ptr := ptr + 1;
      match c {
        case ':' => return Colon;
        case ',' => return Comma;
        case '+' => return Plus;
        case '.' => return Dot;
        case '#' => return Hash;
        case '[' => return LBracket;
        case ']' => return RBracket;
        case '\n' => return Newline;
        case '-' =>
          if ptr < |source| && IsDigit(source[ptr]) {
            token := LexNumber(start, true);
          } else {
            token := Minus;
          }
        case _ =>
          if IsIdentifierStart(c) {
            token := LexIdentifierOrRegister(start);
          } else if IsDigit(c) {
            token := LexNumber(start, false);
          } else {
            token := Bad;
          }
      }
    }

    /** `next` */
    method Next() returns (token: Token)
      requires Valid()
      modifies this`ptr, this`peeked
      ensures Valid() && !peeked && (token, Rest()) == old(Upcoming())
    {
      hide LexNext, Plain;
      if peeked {
        peeked := false;
        return peekedToken;
      }
      token := LexToken();
    }

    /** `peek` */
    method Peek() returns (token: Token)
      requires Valid()
      modifies this`ptr, this`peeked, this`peekedToken
      ensures Valid() && peeked && token == old(Upcoming()).0 && Upcoming() == old(Upcoming())
    {
      hide LexNext, Plain;
      if !peeked {
        peekedToken := LexToken();
        peeked := true;
      }
      token := peekedToken;
    }
  }
}
