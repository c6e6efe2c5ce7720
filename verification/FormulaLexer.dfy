/** The tokenizer: text to tokens. */
module FormulaLexer {
  import opened Decimals
  import opened FormulaSyntax
  import opened Results
  import opened Strings

  datatype LexError = EmptyExpression | BadNumber | UnsupportedOperator | UnsupportedCharacter

  type Lexed = Result<seq<Token>, LexError>

  predicate IsBlank(c: char) { c == ' ' || c == '\t' || c == '\r' || c == '\n' }

  predicate IsIdentifierStart(c: char) { 'A' <= c <= 'Z' || 'a' <= c <= 'z' }

  predicate IsDigit(c: char) { '0' <= c <= '9' }

  predicate IsIdentifierPart(c: char) { IsIdentifierStart(c) || IsDigit(c) || c == '_' }

  predicate IsNumberPart(c: char) { IsDigit(c) || c == '.' }

  /** Length of the longest identifier-like prefix. */
  function IdentifierSpan(s: string): (n: nat)
    ensures n <= |s| && forall i :: 0 <= i < n ==> IsIdentifierPart(s[i])
    ensures n < |s| ==> !IsIdentifierPart(s[n])
  {
    if s != "" && IsIdentifierPart(s[0]) then 1 + IdentifierSpan(s[1..]) else 0
  }

  function NumberSpan(s: string): (n: nat)
    ensures n <= |s| && forall i :: 0 <= i < n ==> IsNumberPart(s[i])
    ensures n < |s| ==> !IsNumberPart(s[n])
  {
    if s != "" && IsNumberPart(s[0]) then 1 + NumberSpan(s[1..]) else 0
  }

  function DigitValue(c: char): (v: real)
    requires IsDigit(c)
    ensures v >= 0.0
  {
    (c as int - '0' as int) as real
  }

  function DigitsValue(s: string): real
    requires forall i :: 0 <= i < |s| ==> IsDigit(s[i])
  {
    if s == "" then 0.0 else 10.0 * DigitsValue(s[..|s| - 1]) + DigitValue(s[|s| - 1])
  }

  /** The fraction a digit string stands for behind a decimal point. */
  function FractionValue(s: string): real
    requires forall i :: 0 <= i < |s| ==> IsDigit(s[i])
  {
    if s == "" then 0.0 else (DigitValue(s[0]) + FractionValue(s[1..])) / 10.0
  }

  function DigitSpan(s: string): (n: nat)
    ensures n <= |s| && forall i :: 0 <= i < n ==> IsDigit(s[i])
    ensures n < |s| ==> !IsDigit(s[n])
  {
    if s != "" && IsDigit(s[0]) then 1 + DigitSpan(s[1..]) else 0
  }

  function FourthPower(x: real): real { x * x * x * x }

  /** From here on a number is out of range for 64-bit floating point: it would be rounded to
      the power 1024 of two, which is infinity. The power 54 of two is written out. */
  function FloatLimit(): real
  {
    FourthPower(FourthPower(FourthPower(FourthPower(FourthPower(2.0))))) * (1.0 - 1.0 / 18014398509481984.0)
  }

  /** A number with finitely many decimals and within range. */
  ghost predicate IsLiteral(v: real)
  {
    IsDecimal(v) && v < FloatLimit()
  }

  function InRange(v: real): Option<real>
  {
    if v < FloatLimit() then Some(v) else None
  }

  /** The exact value of digits with at most one decimal point and at least one digit, if it is
      within range. */
  function ReadNumber(s: string): (v: Option<real>)
    ensures v.Some? ==> IsLiteral(v.value)
  {
    var n := DigitSpan(s);
    DigitsAreWhole(s[..n]);
    WholeIsDecimal(DigitsValue(s[..n]));
    if n == |s| then if n == 0 then None else InRange(DigitsValue(s[..n]))
    else if s[n] != '.' then None
    else
      var fraction := s[n + 1..];
      if DigitSpan(fraction) < |fraction| || |s| == 1 then None
      else
        DecimalSum(s[..n], fraction);
        InRange(DigitsValue(s[..n]) + FractionValue(fraction))
  }

  lemma {:induction false} DigitsAreWhole(s: string)
    requires forall i :: 0 <= i < |s| ==> IsDigit(s[i])
    ensures DigitsValue(s) >= 0.0 && IsWhole(DigitsValue(s))
  {
    if s != "" {
      DigitsAreWhole(s[..|s| - 1]);
      WholeTimesTen(DigitsValue(s[..|s| - 1]));
      WholeSum(10.0 * DigitsValue(s[..|s| - 1]), DigitValue(s[|s| - 1]));
    }
  }

  lemma {:induction false} FractionEnds(s: string)
    requires forall i :: 0 <= i < |s| ==> IsDigit(s[i])
    ensures FractionValue(s) >= 0.0 && EndsAfter(FractionValue(s), |s|)
  {
    if s != "" {
      FractionEnds(s[1..]);
      WholeEnds(DigitValue(s[0]), |s| - 1);
      EndsSum(DigitValue(s[0]), FractionValue(s[1..]), |s| - 1);
    }
  }

  lemma WholeIsDecimal(x: real)
    requires x >= 0.0 && IsWhole(x)
    ensures IsDecimal(x)
  {
    WholeEnds(x, 0);
  }

  lemma DecimalSum(whole: string, fraction: string)
    requires forall i :: 0 <= i < |whole| ==> IsDigit(whole[i])
    requires forall i :: 0 <= i < |fraction| ==> IsDigit(fraction[i])
    ensures IsDecimal(DigitsValue(whole) + FractionValue(fraction))
  {
    DigitsAreWhole(whole);
    WholeEnds(DigitsValue(whole), |fraction|);
    FractionEnds(fraction);
    EndsSum(DigitsValue(whole), FractionValue(fraction), |fraction|);
  }

  function UpperChar(c: char): char
  {
    if 'a' <= c <= 'z' then c - 'a' + 'A' else c
  }

  predicate Spells(s: string, word: string)
  {
    |s| == |word| && forall i :: 0 <= i < |s| ==> UpperChar(s[i]) == word[i]
  }

  /** An identifier, or one of the operators spelled in letters of either case. */
  function WordToken(s: string): Token
  {
    if Spells(s, "AND") then Operator(And)
    else if Spells(s, "OR") then Operator(Or)
    else if Spells(s, "NOT") then NotToken
    else Identifier(s)
  }

  /** An identifier that is no operator. */
  predicate IsName(s: string)
  {
    s != "" && IsIdentifierStart(s[0]) && (forall i :: 0 <= i < |s| ==> IsIdentifierPart(s[i])) && WordToken(s) == Identifier(s)
  }

  /** A token as the tokenizer makes them: no sign in a literal and finitely many decimals, no
      operator as a name. */
  ghost predicate IsLexical(t: Token)
  {
    t != EndOfInput && (t.Literal? ==> IsLiteral(t.value)) && (t.Identifier? ==> IsName(t.name))
  }

  /** Operators of two characters, and those refused. */
  function PairToken(a: char, b: char): Option<Lexed>
  {
    if a == '>' && b == '=' then Some(Success([Operator(Ge)]))
    else if a == '<' && b == '=' then Some(Success([Operator(Le)]))
    else if a == '!' && b == '=' then Some(Success([Operator(Ne)]))
    else if (a == '=' && b == '=') || (a == '&' && b == '&') || (a == '|' && b == '|') then Some(Failure(UnsupportedOperator))
    else None
  }

  function CharToken(c: char): Result<Token, LexError>
  {
    match c
    case '+' => Success(Operator(Add))
    case '-' => Success(Operator(Sub))
    case '*' => Success(Operator(Mul))
    case '/' => Success(Operator(Div))
    case '>' => Success(Operator(Gt))
    case '<' => Success(Operator(Lt))
    case '=' => Success(Operator(Eq))
    case '(' => Success(LeftParen)
    case ')' => Success(RightParen)
    case ',' => Success(Comma)
    case '!' => Failure(UnsupportedOperator)
    case _ => Failure(UnsupportedCharacter)
  }

  /** What the text starts with: the tokens of its first lexeme, and how long that is. */
  function First(s: string): (r: Result<(seq<Token>, nat), LexError>)
    requires s != ""
    ensures r.Success? ==> 1 <= r.value.1 <= |s|
    ensures r.Success? ==> forall t :: t in r.value.0 ==> IsLexical(t)
  {
    if IsBlank(s[0]) then Success(([], 1))
    else if IsIdentifierStart(s[0]) then
      Success(([WordToken(s[..IdentifierSpan(s)])], IdentifierSpan(s)))
    else if IsNumberPart(s[0]) then
      var v := ReadNumber(s[..NumberSpan(s)]);
      if v.None? then Failure(BadNumber) else Success(([Literal(v.value)], NumberSpan(s)))
    else if |s| >= 2 && PairToken(s[0], s[1]).Some? then
      var pair := PairToken(s[0], s[1]).value;
      if pair.Failure? then Failure(pair.error) else Success((pair.value, 2))
    else
      var t := CharToken(s[0]);
      if t.Failure? then Failure(t.error) else Success(([t.value], 1))
  }

  function Lex(s: string): (r: Lexed)
    ensures r.Success? ==> forall t :: t in r.value ==> IsLexical(t)
    decreases |s|
  {
    if s == "" then Success([])
    else
      var first := First(s);
      if first.Failure? then Failure(first.error)
      else
        var rest := Lex(s[first.value.1..]);
        if rest.Failure? then rest else Success(first.value.0 + rest.value)
  }

  /** Tokens read before the rest of a text. */
  function Behind(tokens: seq<Token>, rest: Lexed): Lexed
  {
    if rest.Failure? then rest else Success(tokens + rest.value)
  }

  lemma LexStep(tokens: seq<Token>, s: string)
    requires s != ""
    ensures Behind(tokens, Lex(s)) ==
            var first := First(s);
            if first.Failure? then Failure(first.error) else Behind(tokens + first.value.0, Lex(s[first.value.1..]))
  {
    hide First;
    var first := First(s);
    if first.Success? && Lex(s[first.value.1..]).Success? {
      var rest := Lex(s[first.value.1..]).value;
      assert tokens + (first.value.0 + rest) == tokens + first.value.0 + rest;
    }
  }

  method SpanOf(input: string, start: nat, number: bool) returns (end: nat)
    requires start <= |input|
    ensures start <= end <= |input|
    ensures end == start + if number then NumberSpan(input[start..]) else IdentifierSpan(input[start..])
  {
    end := start;
    while end < |input| && (if number then IsNumberPart(input[end]) else IsIdentifierPart(input[end]))
      invariant start <= end <= |input|
      invariant (if number then NumberSpan(input[start..]) else IdentifierSpan(input[start..])) ==
                end - start + if number then NumberSpan(input[end..]) else IdentifierSpan(input[end..])
    {
      assert input[end..][1..] == input[end + 1..];
      end := end + 1;
    }
  }

  /** Splits an expression into tokens. */
  method Tokenize(expression: string) returns (r: Lexed)
    ensures r == if TrimSpace(expression) == "" then Failure(EmptyExpression) else Lex(TrimSpace(expression))
  {
    var input := TrimSpace(expression);
    if input == "" {
      return Failure(EmptyExpression);
    }
    hide TrimSpace, First;
    var tokens: seq<Token> := [];
    var index: nat := 0;
    assert input[0..] == input;
    assert Behind([], Lex(input)) == Lex(input) by {
      if Lex(input).Success? { assert [] + Lex(input).value == Lex(input).value; }
    }
    while index < |input|
      invariant index <= |input| && Lex(input) == Behind(tokens, Lex(input[index..]))
    {
      LexStep(tokens, input[index..]);
      var next: Result<(seq<Token>, nat), LexError> := NextLexeme(input, index);
      if next.Failure? {
        return Failure(next.error);
      }
      assert input[index..][next.value.1 - index..] == input[next.value.1..];
      tokens := tokens + next.value.0;
      index := next.value.1;
    }
    assert input[|input|..] == "" && tokens + [] == tokens;
    r := Success(tokens);
  }

  /** One lexeme from a position: its tokens, none for a blank, and where it ends. */
  method NextLexeme(input: string, start: nat) returns (r: Result<(seq<Token>, nat), LexError>)
    requires start < |input|
    ensures r.Failure? <==> First(input[start..]).Failure?
    ensures r.Failure? ==> r.error == First(input[start..]).error
    ensures r.Success? ==>
      && r.value.0 == First(input[start..]).value.0
      && r.value.1 == start + First(input[start..]).value.1 && start < r.value.1 <= |input|
  {
    hide ReadNumber, WordToken, NumberSpan, IdentifierSpan;
    ghost var rest := input[start..];
    assert rest[0] == input[start];
    if IsBlank(input[start]) {
      return Success(([], start + 1));
    }
    if IsIdentifierStart(input[start]) {
      var end: nat := SpanOf(input, start, false);
      assert input[start..end] == rest[..IdentifierSpan(rest)];
      return Success(([WordToken(input[start..end])], end));
    }
    if IsNumberPart(input[start]) {
      var end: nat := SpanOf(input, start, true);
      assert input[start..end] == rest[..NumberSpan(rest)];
      var value: Option<real> := ReadNumber(input[start..end]);
      if value.None? {
        return Failure(BadNumber);
      }
      return Success(([Literal(value.value)], end));
    }
    if start + 1 < |input| {
      assert rest[1] == input[start + 1];
      if PairToken(input[start], input[start + 1]).Some? {
        var pair: Lexed := PairToken(input[start], input[start + 1]).value;
        if pair.Failure? {
          return Failure(pair.error);
        }
        return Success((pair.value, start + 2));
      }
    }
    var token: Result<Token, LexError> := CharToken(input[start]);
    if token.Failure? {
      return Failure(token.error);
    }
    r := Success(([token.value], start + 1));
  }
}
