/** Literals in decimal notation: as many decimals as the number has, and no more. */
module FormulaLiterals {
  import opened Decimals
  import opened FormulaLexer
  import opened Results
  import opened Strings

  /** The decimals of a fraction, up to the last that is not zero. */
  function FractionText(f: real, k: nat): (s: string)
    requires 0.0 <= f < 1.0 && EndsAfter(f, k)
    ensures forall i :: 0 <= i < |s| ==> IsDigit(s[i])
    ensures FractionValue(s) == f
    ensures s != "" ==> s[|s| - 1] != '0'
    decreases k
  {
    if f == 0.0 then ""
    else
      var d := (10.0 * f).Floor;
      WholeEnds(d as real, k - 1);
      EndsSum(10.0 * f, d as real, k - 1);
      var rest := FractionText(10.0 * f - d as real, k - 1);
      assert ([Digit(d)] + rest)[1..] == rest;
      [Digit(d)] + rest
  }

  lemma {:induction false} DecimalReads(n: nat)
    ensures forall i :: 0 <= i < |Decimal(n)| ==> IsDigit(Decimal(n)[i])
    ensures DigitsValue(Decimal(n)) == n as real
  {
    if n >= 10 {
      DecimalReads(n / 10);
      var s := Decimal(n);
      assert s[..|s| - 1] == Decimal(n / 10);
      assert n == 10 * (n / 10) + n % 10;
    } else {
      assert Decimal(n)[..0] == "";
    }
  }

  lemma {:induction false} DigitSpanStops(digits: string, rest: string)
    requires forall i :: 0 <= i < |digits| ==> IsDigit(digits[i])
    requires rest != "" ==> !IsDigit(rest[0])
    ensures DigitSpan(digits + rest) == |digits|
  {
    if digits == "" {
      assert digits + rest == rest;
    } else {
      assert (digits + rest)[1..] == digits[1..] + rest;
      DigitSpanStops(digits[1..], rest);
    }
  }

  /** Decimal notation of a number with at most `k` decimals. */
  function Notation(v: real, k: nat): string
    requires v >= 0.0 && EndsAfter(v, k)
  {
    var n := v.Floor;
    WholeEnds(n as real, k);
    EndsSum(v, n as real, k);
    var fraction := FractionText(v - n as real, k);
    if fraction == "" then Decimal(n) else Decimal(n) + ("." + fraction)
  }

  lemma NotationReadsBack(v: real, k: nat)
    requires v >= 0.0 && EndsAfter(v, k) && v < FloatLimit()
    ensures Notation(v, k) != "" && forall i :: 0 <= i < |Notation(v, k)| ==> IsNumberPart(Notation(v, k)[i])
    ensures ReadNumber(Notation(v, k)) == Some(v)
  {
    hide FloatLimit, InRange, IsLiteral, ReadNumber, EndsAfter, FractionText, Decimal;
    var n := v.Floor;
    DecimalReads(n);
    WholeEnds(n as real, k);
    EndsSum(v, n as real, k);
    WithinRange(v);
    var whole, fraction := Decimal(n), FractionText(v - n as real, k);
    WholeReads(whole);
    PointReads(whole, fraction);
    NoFraction();
    hide DigitsValue, FractionValue;
  }

  lemma NoFraction()
    ensures FractionValue("") == 0.0
  {
  }

  lemma WithinRange(v: real)
    ensures v < FloatLimit() ==> InRange(v) == Some(v)
  {
  }

  lemma WholeReads(whole: string)
    requires whole != "" && forall i :: 0 <= i < |whole| ==> IsDigit(whole[i])
    ensures ReadNumber(whole) == InRange(DigitsValue(whole))
    ensures forall i :: 0 <= i < |whole| ==> IsNumberPart(whole[i])
  {
    hide FloatLimit, InRange, IsLiteral, DigitsValue;
    DigitSpanStops(whole, "");
    assert whole + "" == whole && whole[..|whole|] == whole;
  }

  lemma PointReads(whole: string, fraction: string)
    requires whole != "" && forall i :: 0 <= i < |whole| ==> IsDigit(whole[i])
    requires forall i :: 0 <= i < |fraction| ==> IsDigit(fraction[i])
    ensures ReadNumber(whole + ("." + fraction)) == InRange(DigitsValue(whole) + FractionValue(fraction))
    ensures forall i :: 0 <= i < |whole + ("." + fraction)| ==> IsNumberPart((whole + ("." + fraction))[i])
  {
    hide FloatLimit, InRange, IsLiteral, DigitsValue, FractionValue, DigitSpan;
    var text := whole + ("." + fraction);
    DigitSpanStops(whole, "." + fraction);
    DigitSpanStops(fraction, "");
    assert fraction + "" == fraction;
    assert text[..|whole|] == whole && text[|whole| + 1..] == fraction;
  }

  /** The writer of literals. */
  ghost function FormatLiteral(v: real): string
  {
    if !IsDecimal(v) then "" else var k :| EndsAfter(v, k); Notation(v, k)
  }

  /** What it writes is digits that read back as the same number. */
  lemma LiteralReadsBack(v: real)
    requires IsLiteral(v)
    ensures FormatLiteral(v) != "" && forall i :: 0 <= i < |FormatLiteral(v)| ==> IsNumberPart(FormatLiteral(v)[i])
    ensures ReadNumber(FormatLiteral(v)) == Some(v)
  {
    hide FloatLimit;
    var k :| EndsAfter(v, k) && FormatLiteral(v) == Notation(v, k);
    NotationReadsBack(v, k);
  }
}
