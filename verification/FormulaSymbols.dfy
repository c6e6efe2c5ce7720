/** Which token every symbol and word stands for. */
module FormulaSymbols {
  import opened FormulaSyntax
  import opened FormulaLexer
  import opened FormulaText
  import opened Results
  import FormulaSet

  predicate IsSymbol(c: char) { !IsBlank(c) && !IsIdentifierStart(c) && !IsNumberPart(c) }

  lemma OneCharacter(s: string, t: Token, rest: string)
    requires |s| == 1 && IsSymbol(s[0]) && CharToken(s[0]) == Success(t)
    requires rest == "" || PairToken(s[0], rest[0]).None?
    ensures Lex(s + rest) == Behind([t], Lex(rest))
  {
    hide Lex, ReadNumber, WordToken, CharToken, PairToken;
    assert (s + rest)[0] == s[0] && (rest != "" ==> (s + rest)[1] == rest[0]);
    LexFirst(s, [t], rest);
  }

  lemma TwoCharacters(s: string, r: Lexed, rest: string)
    requires |s| == 2 && IsSymbol(s[0]) && PairToken(s[0], s[1]) == Some(r)
    ensures Lex(s + rest) == if r.Failure? then r else Behind(r.value, Lex(rest))
  {
    hide ReadNumber, WordToken, CharToken, PairToken;
    assert (s + rest)[0] == s[0] && (s + rest)[1] == s[1];
    if r.Success? {
      hide Lex;
      LexFirst(s, r.value, rest);
    }
  }

  /** Symbols of one character. */
  lemma CharactersMean(rest: string)
    ensures Lex("+" + rest) == Behind([Operator(Add)], Lex(rest)) && Lex("-" + rest) == Behind([Operator(Sub)], Lex(rest))
    ensures Lex("*" + rest) == Behind([Operator(Mul)], Lex(rest)) && Lex("/" + rest) == Behind([Operator(Div)], Lex(rest))
    ensures Lex("(" + rest) == Behind([LeftParen], Lex(rest)) && Lex(")" + rest) == Behind([RightParen], Lex(rest))
    ensures Lex("," + rest) == Behind([Comma], Lex(rest))
  {
    hide Lex, Behind;
    OneCharacter("+", Operator(Add), rest);
    OneCharacter("-", Operator(Sub), rest);
    OneCharacter("*", Operator(Mul), rest);
    OneCharacter("/", Operator(Div), rest);
    OneCharacter("(", LeftParen, rest);
    OneCharacter(")", RightParen, rest);
    OneCharacter(",", Comma, rest);
  }

  lemma NotPaired(c: char)
    requires c != '='
    ensures PairToken('>', c).None? && PairToken('<', c).None? && PairToken('=', c).None?
  {
  }

  lemma LexRefuses(rest: string)
    requires rest != "" ==> rest[0] != '='
    ensures Lex("!" + rest) == Failure(UnsupportedOperator)
  {
    hide First;
    FirstRefuses("!" + rest);
  }

  lemma FirstRefuses(s: string)
    requires s != "" && s[0] == '!' && (|s| >= 2 ==> s[1] != '=')
    ensures First(s) == Failure(UnsupportedOperator)
  {
    hide ReadNumber, WordToken;
  }

  /** Comparisons that are not followed by an equals sign. */
  lemma ComparisonsMean(rest: string)
    requires rest != "" ==> rest[0] != '='
    ensures Lex(">" + rest) == Behind([Operator(Gt)], Lex(rest)) && Lex("<" + rest) == Behind([Operator(Lt)], Lex(rest))
    ensures Lex("=" + rest) == Behind([Operator(Eq)], Lex(rest)) && Lex("!" + rest) == Failure(UnsupportedOperator)
  {
    hide Lex, Behind, PairToken, First, ReadNumber, WordToken;
    LexRefuses(rest);
    if rest != "" { NotPaired(rest[0]); }
    OneCharacter(">", Operator(Gt), rest);
    OneCharacter("<", Operator(Lt), rest);
    OneCharacter("=", Operator(Eq), rest);
  }

  /** Comparisons of two characters, and those refused. */
  lemma PairsMean(rest: string)
    ensures Lex(">=" + rest) == Behind([Operator(Ge)], Lex(rest)) && Lex("<=" + rest) == Behind([Operator(Le)], Lex(rest))
    ensures Lex("!=" + rest) == Behind([Operator(Ne)], Lex(rest)) && Lex("==" + rest) == Failure(UnsupportedOperator)
    ensures Lex("&&" + rest) == Failure(UnsupportedOperator) && Lex("||" + rest) == Failure(UnsupportedOperator)
  {
    hide Lex, Behind;
    TwoCharacters(">=", Success([Operator(Ge)]), rest);
    TwoCharacters("<=", Success([Operator(Le)]), rest);
    TwoCharacters("!=", Success([Operator(Ne)]), rest);
    TwoCharacters("==", Failure(UnsupportedOperator), rest);
    TwoCharacters("&&", Failure(UnsupportedOperator), rest);
    TwoCharacters("||", Failure(UnsupportedOperator), rest);
  }

  lemma BlanksMean(rest: string)
    ensures Lex(" " + rest) == Lex("\t" + rest) == Lex("\r" + rest) == Lex("\n" + rest) == Lex(rest)
  {
    LexFirst(" ", [], rest);
    LexFirst("\t", [], rest);
    LexFirst("\r", [], rest);
    LexFirst("\n", [], rest);
    BehindNothing(Lex(rest));
  }

  predicate Letter(c: char) { 65 <= c as int <= 90 || 97 <= c as int <= 122 }

  predicate Figure(c: char) { 48 <= c as int <= 57 }

  /** A word or number ends here. */
  predicate Ends(rest: string)
  {
    rest == "" || !(Letter(rest[0]) || Figure(rest[0]) || rest[0] == '_' || rest[0] == '.')
  }

  /** Any other character is refused, and so is a single & or |. */
  lemma OthersAreRefused(c: char, rest: string)
    requires !Letter(c) && !Figure(c) && c !in {'.', ' ', '\t', '\r', '\n', '+', '-', '*', '/', '(', ')', ',', '>', '<', '=', '!'}
    requires c in {'&', '|'} && rest != "" ==> rest[0] != c
    ensures Lex([c] + rest) == Failure(UnsupportedCharacter)
  {
    var s := [c] + rest;
    assert s[0] == c && (rest != "" ==> s[1] == rest[0]);
    assert First(s) == Failure(UnsupportedCharacter);
    hide First;
  }

  function TenTo(n: nat): real { if n == 0 then 1.0 else 10.0 * TenTo(n - 1) }

  predicate AllFigures(s: string) { forall i :: 0 <= i < |s| ==> Figure(s[i]) }

  /** Digits around a point stand for the whole number without it, over a power of ten. */
  lemma {:induction false} PointShifts(whole: string, fraction: string)
    requires AllFigures(whole) && AllFigures(fraction)
    ensures (DigitsValue(whole) + FractionValue(fraction)) * TenTo(|fraction|) == DigitsValue(whole + fraction)
    decreases |fraction|
  {
    hide DigitsValue, FractionValue, TenTo, DigitValue;
    if fraction == "" {
      assert whole + fraction == whole;
      NoFraction();
    } else {
      var more, others := whole + [fraction[0]], fraction[1..];
      PointShifts(more, others);
      assert more + others == whole + fraction;
      OneDigit(whole, fraction);
      Shifted(DigitsValue(whole), DigitValue(fraction[0]), FractionValue(others), TenTo(|others|),
              DigitsValue(more), FractionValue(fraction), TenTo(|fraction|));
    }
  }

  lemma OneDigit(whole: string, fraction: string)
    requires AllFigures(whole) && AllFigures(fraction) && fraction != ""
    ensures DigitsValue(whole + [fraction[0]]) == 10.0 * DigitsValue(whole) + DigitValue(fraction[0])
    ensures FractionValue(fraction) == (DigitValue(fraction[0]) + FractionValue(fraction[1..])) / 10.0
    ensures TenTo(|fraction|) == 10.0 * TenTo(|fraction[1..]|)
  {
    assert (whole + [fraction[0]])[..|whole|] == whole;
  }

  lemma NoFraction()
    ensures FractionValue("") == 0.0 && TenTo(0) == 1.0
  {
  }

  lemma Shifted(w: real, d: real, f: real, p: real, more: real, part: real, ten: real)
    requires more == 10.0 * w + d && part == (d + f) / 10.0 && ten == 10.0 * p
    ensures (w + part) * ten == (more + f) * p
  {
    var x := w + part;
    assert 10.0 * x == more + f;
    assert x * (10.0 * p) == (10.0 * x) * p;
  }

  function TwoTo(n: nat): (p: real)
    ensures p > 0.0
  {
    if n == 0 then 1.0 else 2.0 * TwoTo(n - 1)
  }

  lemma {:induction false} TwoToAdds(a: nat, b: nat)
    ensures TwoTo(a + b) == TwoTo(a) * TwoTo(b)
  {
    if a != 0 {
      TwoToAdds(a - 1, b);
      var x, y := TwoTo(a - 1), TwoTo(b);
      assert 2.0 * (x * y) == (2.0 * x) * y;
    }
  }

  lemma FourTimes(n: nat)
    ensures FourthPower(TwoTo(n)) == TwoTo(4 * n)
  {
    hide TwoTo;
    TwoToAdds(n, n);
    TwoToAdds(2 * n, n);
    TwoToAdds(3 * n, n);
    assert n + n == 2 * n && 2 * n + n == 3 * n && 3 * n + n == 4 * n;
  }

  lemma SmallPowers()
    ensures TwoTo(1) == 2.0 && TwoTo(54) == 18014398509481984.0
  {
    assert TwoTo(9) == 512.0;
    hide TwoTo;
    TwoToAdds(9, 9);
    TwoToAdds(18, 9);
    TwoToAdds(27, 27);
  }

  /** Literals end where 64-bit numbers do: halfway between the largest of them and the power 1024
      of two. */
  lemma LimitIsHalfway()
    ensures FloatLimit() == TwoTo(1024) - TwoTo(970)
  {
    hide TwoTo;
    SmallPowers();
    FourTimes(1);
    FourTimes(4);
    FourTimes(16);
    FourTimes(64);
    FourTimes(256);
    TwoToAdds(970, 54);
    hide FourthPower;
    Halfway(TwoTo(1024), TwoTo(970), TwoTo(54));
  }

  lemma Halfway(all: real, part: real, n: real)
    requires all == part * n && n > 0.0
    ensures all * (1.0 - 1.0 / n) == all - part
  {
    assert all * (1.0 / n) == part * (n * (1.0 / n));
  }

  /** A number is a row of digits, or two with a point between them of which one may be empty. */
  lemma NumbersMean(whole: string, fraction: string, rest: string) returns (v: real)
    requires AllFigures(whole) && AllFigures(fraction) && Ends(rest)
    ensures v * TenTo(|fraction|) == DigitsValue(whole + fraction)
    ensures fraction == "" && whole != "" ==>
              Lex(whole + rest) == if v < FloatLimit() then Behind([Literal(v)], Lex(rest)) else Failure(BadNumber)
    ensures Lex(whole + "." + fraction + rest) ==
            if whole + fraction != "" && v < FloatLimit() then Behind([Literal(v)], Lex(rest)) else Failure(BadNumber)
  {
    hide Lex, FloatLimit, DigitsValue, FractionValue, TenTo, ReadNumber, Behind;
    v := DigitsValue(whole) + FractionValue(fraction);
    PointShifts(whole, fraction);
    PointLexes(whole, fraction, rest);
    if fraction == "" && whole != "" {
      ReadsWhole(whole);
      NoFraction();
      NumberLexes(whole, rest);
    }
  }

  lemma PointLexes(whole: string, fraction: string, rest: string)
    requires AllFigures(whole) && AllFigures(fraction) && Ends(rest)
    ensures var v := DigitsValue(whole) + FractionValue(fraction);
            Lex(whole + "." + fraction + rest) ==
            if whole + fraction != "" && v < FloatLimit() then Behind([Literal(v)], Lex(rest)) else Failure(BadNumber)
  {
    hide Lex, FloatLimit, DigitsValue, FractionValue, ReadNumber, Behind;
    ReadsPoint(whole, fraction);
    NumberLexes(whole + "." + fraction, rest);
  }

  lemma NumberLexes(s: string, rest: string)
    requires s != "" && (forall i :: 0 <= i < |s| ==> Figure(s[i]) || s[i] == '.') && Ends(rest)
    ensures Lex(s + rest) == if ReadNumber(s).Some? then Behind([Literal(ReadNumber(s).value)], Lex(rest)) else Failure(BadNumber)
  {
    hide ReadNumber;
    SpanIsAll(s, rest, true);
    assert (s + rest)[..|s|] == s && (s + rest)[0] == s[0];
    if ReadNumber(s).Some? {
      hide Lex;
      LexFirst(s, [Literal(ReadNumber(s).value)], rest);
    }
  }

  lemma ReadsWhole(s: string)
    requires AllFigures(s) && s != ""
    ensures ReadNumber(s) == InRange(DigitsValue(s) + 0.0)
  {
    hide InRange;
    AllDigits(s);
    assert s[..|s|] == s;
  }

  lemma ReadsPoint(whole: string, fraction: string)
    requires AllFigures(whole) && AllFigures(fraction)
    ensures ReadNumber(whole + "." + fraction) ==
            if whole + fraction == "" then None else InRange(DigitsValue(whole) + FractionValue(fraction))
  {
    hide InRange, DigitsValue, FractionValue, FloatLimit, DigitSpan;
    var s := whole + "." + fraction;
    AllDigits(fraction);
    PointStops(whole, "." + fraction);
    assert s == whole + ("." + fraction);
    assert s[..|whole|] == whole && s[|whole| + 1..] == fraction;
  }

  lemma {:induction false} AllDigits(s: string)
    requires AllFigures(s)
    ensures DigitSpan(s) == |s|
  {
    if s != "" {
      AllDigits(s[1..]);
    }
  }

  lemma {:induction false} PointStops(s: string, rest: string)
    requires AllFigures(s) && rest != "" && rest[0] == '.'
    ensures DigitSpan(s + rest) == |s|
  {
    if s == "" {
      assert s + rest == rest;
    } else {
      PointStops(s[1..], rest);
      assert (s + rest)[1..] == s[1..] + rest;
    }
  }

  /** Two points are one too many. */
  lemma PointsAreRefused(a: string, b: string, c: string, rest: string)
    requires AllFigures(a) && AllFigures(b) && (forall i :: 0 <= i < |c| ==> Figure(c[i]) || c[i] == '.') && Ends(rest)
    ensures Lex(a + "." + b + "." + c + rest) == Failure(BadNumber)
  {
    hide ReadNumber, Lex, TenTo;
    var tail := b + "." + c;
    ReadsTwoPoints(a, b, c);
    assert a + "." + b + "." + c == a + "." + tail;
    NumberLexes(a + "." + tail, rest);
  }

  lemma ReadsTwoPoints(a: string, b: string, c: string)
    requires AllFigures(a) && AllFigures(b)
    ensures ReadNumber(a + "." + (b + "." + c)).None?
  {
    hide InRange;
    var tail := b + "." + c;
    var s := a + "." + tail;
    PointStops(a, "." + tail);
    PointStops(b, "." + c);
    assert tail == b + ("." + c);
    assert s == a + ("." + tail);
    assert s[|a| + 1..] == tail;
  }

  predicate IsAndWord(s: string) { |s| == 3 && s[0] in {'a', 'A'} && s[1] in {'n', 'N'} && s[2] in {'d', 'D'} }

  predicate IsOrWord(s: string) { |s| == 2 && s[0] in {'o', 'O'} && s[1] in {'r', 'R'} }

  predicate IsNotWord(s: string) { |s| == 3 && s[0] in {'n', 'N'} && s[1] in {'o', 'O'} && s[2] in {'t', 'T'} }

  /** A word is AND, OR or NOT in letters of either case, or a name. */
  lemma WordsMean(word: string, rest: string)
    requires word != "" && Letter(word[0]) && (forall i :: 0 <= i < |word| ==> Letter(word[i]) || Figure(word[i]) || word[i] == '_')
    requires Ends(rest)
    ensures IsAndWord(word) ==> Lex(word + rest) == Behind([Operator(And)], Lex(rest))
    ensures IsOrWord(word) ==> Lex(word + rest) == Behind([Operator(Or)], Lex(rest))
    ensures IsNotWord(word) ==> Lex(word + rest) == Behind([NotToken], Lex(rest))
    ensures !IsAndWord(word) && !IsOrWord(word) && !IsNotWord(word) ==> Lex(word + rest) == Behind([Identifier(word)], Lex(rest))
  {
    SpanIsAll(word, rest, false);
    assert (word + rest)[..|word|] == word && (word + rest)[0] == word[0];
    WordIs(word);
    hide WordToken, IsAndWord, IsOrWord, IsNotWord;
    LexFirst(word, [WordToken(word)], rest);
  }

  lemma WordIs(word: string)
    ensures WordToken(word) ==
            if IsAndWord(word) then Operator(And) else if IsOrWord(word) then Operator(Or)
            else if IsNotWord(word) then NotToken else Identifier(word)
  {
    assert forall c: char :: (UpperChar(c) == 'A' <==> c in {'a', 'A'}) && (UpperChar(c) == 'N' <==> c in {'n', 'N'})
                          && (UpperChar(c) == 'D' <==> c in {'d', 'D'}) && (UpperChar(c) == 'O' <==> c in {'o', 'O'})
                          && (UpperChar(c) == 'R' <==> c in {'r', 'R'}) && (UpperChar(c) == 'T' <==> c in {'t', 'T'});
    if |word| == 3 {
      assert Spells(word, "AND") <==> IsAndWord(word) by { SpellsThree(word, "AND"); }
      assert Spells(word, "NOT") <==> IsNotWord(word) by { SpellsThree(word, "NOT"); }
    } else if |word| == 2 {
      assert Spells(word, "OR") <==> UpperChar(word[0]) == 'O' && UpperChar(word[1]) == 'R';
    }
  }

  lemma SpellsThree(s: string, word: string)
    requires |s| == |word| == 3
    ensures Spells(s, word) <==> UpperChar(s[0]) == word[0] && UpperChar(s[1]) == word[1] && UpperChar(s[2]) == word[2]
  {
  }

  /** A formula may be named by any word; one that is an operator cannot be referred to. */
  lemma FormulaNames(name: string)
    ensures FormulaSet.ValidName(name) <==>
              name != "" && Letter(name[0]) && forall i :: 0 <= i < |name| ==> Letter(name[i]) || Figure(name[i]) || name[i] == '_'
    ensures FormulaSet.ValidName(name) ==>
              Lex(name) == Success([if IsAndWord(name) then Operator(And) else if IsOrWord(name) then Operator(Or)
                                    else if IsNotWord(name) then NotToken else Identifier(name)])
  {
    hide Lex, IsAndWord, IsOrWord, IsNotWord;
    if FormulaSet.ValidName(name) {
      WordsMean(name, "");
      assert name + "" == name;
      NothingLexes();
      assert [Operator(And)] + [] == [Operator(And)] && [Operator(Or)] + [] == [Operator(Or)];
      assert [NotToken] + [] == [NotToken] && [Identifier(name)] + [] == [Identifier(name)];
    }
  }

  lemma NothingLexes()
    ensures Lex("") == Success([])
  {
  }
}
