/** The numerals that `strtod` reads, as texts: it converts the longest one at the head of a text. */
module Numerals {
  import opened Text

  predicate Digits(digit: char -> bool, s: string) {
    forall i | 0 <= i < |s| :: digit(s[i])
  }

  /** Digits, with or without a point among, before or behind them. */
  ghost predicate IsMantissa(digit: char -> bool, s: string) {
    || (s != "" && Digits(digit, s))
    || exists a: string, b: string :: Digits(digit, a) && Digits(digit, b) && a + b != "" && s == a + ['.'] + b
  }

  predicate IsSign(s: string) {
    s == "" || s == "+" || s == "-"
  }

  /** Nothing, or the letter, an optional sign and decimal digits. */
  ghost predicate IsExponent(lower: char, upper: char, s: string) {
    || s == ""
    || exists sign: string, d: string ::
         IsSign(sign) && d != "" && Digits(IsDigit, d) && (s == [lower] + sign + d || s == [upper] + sign + d)
  }

  ghost predicate IsScaled(digit: char -> bool, lower: char, upper: char, s: string) {
    exists m: string, x: string :: IsMantissa(digit, m) && IsExponent(lower, upper, x) && s == m + x
  }

  ghost predicate IsDecimal(t: string) {
    IsScaled(IsDigit, 'e', 'E', t)
  }

  ghost predicate IsHexadecimal(t: string) {
    |t| > 2 && t[0] == '0' && (t[1] == 'x' || t[1] == 'X') && IsScaled(IsHexDigit, 'p', 'P', t[2..])
  }

  // ----- what the lengths count -----

  lemma MantissaRead(digit: char -> bool, s: string)
    requires !digit('.')
    ensures MantissaLength(digit, s) > 0 ==> IsMantissa(digit, s[..MantissaLength(digit, s)])
  {
    var whole, n := Span(digit, s), MantissaLength(digit, s);
    if n > 0 && whole < |s| && s[whole] == '.' {
      var a, b := s[..whole], s[whole + 1..n];
      DigitsOfSpan(digit, s[whole + 1..], b);
      assert s[..n] == a + ['.'] + b;
      assert |a + b| == n - 1;
      assert Digits(digit, a) && Digits(digit, b) && a + b != "" && s[..n] == a + ['.'] + b;
    }
  }

  lemma DigitsOfSpan(p: char -> bool, s: string, d: string)
    requires d <= s && |d| <= Span(p, s)
    ensures Digits(p, d)
  {
    forall i | 0 <= i < |d| ensures p(d[i]) {
      assert d[i] == s[i];
    }
  }

  /** A mantissa followed by something that is neither a digit nor a point is read whole, and never
      less of it, whatever follows. */
  lemma MantissaReadBack(digit: char -> bool, m: string, rest: string)
    requires !digit('.') && IsMantissa(digit, m)
    ensures MantissaLength(digit, m + rest) >= |m| > 0
    ensures rest == "" || (!digit(rest[0]) && rest[0] != '.') ==> MantissaLength(digit, m + rest) == |m|
  {
    var s := m + rest;
    if m != "" && Digits(digit, m) {
      SpanAtLeast(digit, m, rest);
    } else {
      var a: string, b: string :| Digits(digit, a) && Digits(digit, b) && a + b != "" && m == a + ['.'] + b;
      assert s == a + (['.'] + b + rest) && s[|a| + 1..] == b + rest;
      SpanUnique(digit, s, |a|);
      SpanAtLeast(digit, b, rest);
    }
  }

  lemma SpanAtLeast(p: char -> bool, d: string, rest: string)
    requires Digits(p, d)
    ensures Span(p, d + rest) >= |d|
    ensures rest == "" || !p(rest[0]) ==> Span(p, d + rest) == |d|
  {
    var s := d + rest;
    forall i | 0 <= i < |d| ensures p(s[i]) {
      assert s[i] == d[i];
    }
    if rest == "" || !p(rest[0]) {
      SpanUnique(p, s, |d|);
    }
  }

  lemma ExponentRead(lower: char, upper: char, s: string)
    ensures IsExponent(lower, upper, s[..ExponentLength(lower, upper, s)])
  {
    var n := ExponentLength(lower, upper, s);
    if n > 0 {
      var at := if |s| > 1 && (s[1] == '+' || s[1] == '-') then 2 else 1;
      var sign, d := s[1..at], s[at..n];
      DigitsOfSpan(IsDigit, s[at..], d);
      assert s[..n] == [s[0]] + sign + d && d != "";
      assert sign == "" || sign == [s[1]];
    }
  }

  lemma ExponentReadBack(lower: char, upper: char, x: string, rest: string)
    requires IsExponent(lower, upper, x)
    ensures ExponentLength(lower, upper, x + rest) >= |x|
    ensures ExponentLength(lower, upper, x) == |x|
    ensures x != "" ==> x[0] == lower || x[0] == upper
  {
    if x != "" {
      var sign: string, d: string :|
        IsSign(sign) && d != "" && Digits(IsDigit, d) && (x == [lower] + sign + d || x == [upper] + sign + d);
      PowerRead(lower, upper, x[0], sign, d, rest);
      PowerRead(lower, upper, x[0], sign, d, "");
      assert x == [x[0]] + sign + d && x + "" == x;
    }
  }

  lemma PowerRead(lower: char, upper: char, c: char, sign: string, d: string, rest: string)
    requires (c == lower || c == upper) && IsSign(sign) && d != "" && Digits(IsDigit, d)
    ensures var x := [c] + sign + d;
      && ExponentLength(lower, upper, x + rest) >= |x|
      && (rest == "" ==> ExponentLength(lower, upper, x + rest) == |x|)
  {
    var s, at := [c] + sign + d + rest, 1 + |sign|;
    assert s[at..] == d + rest;
    assert sign == "" ==> s[1] == d[0];
    assert sign != "" ==> s[1] == sign[0];
    SpanAtLeast(IsDigit, d, rest);
  }

  lemma ScaledMeans(digit: char -> bool, lower: char, upper: char, s: string)
    requires !digit('.') && !digit(lower) && !digit(upper) && lower != '.' && upper != '.'
    ensures s != "" && ScaledLength(digit, lower, upper, s) == |s| <==> IsScaled(digit, lower, upper, s)
  {
    var m := MantissaLength(digit, s);
    if s != "" && ScaledLength(digit, lower, upper, s) == |s| {
      MantissaRead(digit, s);
      ExponentRead(lower, upper, s[m..]);
      assert s == s[..m] + s[m..];
    }
    if a: string, x: string :| IsMantissa(digit, a) && IsExponent(lower, upper, x) && s == a + x {
      ExponentReadBack(lower, upper, x, "");
      MantissaReadBack(digit, a, x);
      assert s[|a|..] == x;
    }
  }

  lemma ScaledAtLeast(digit: char -> bool, lower: char, upper: char, t: string, rest: string)
    requires !digit('.') && !digit(lower) && !digit(upper) && lower != '.' && upper != '.'
    requires IsScaled(digit, lower, upper, t)
    ensures ScaledLength(digit, lower, upper, t + rest) >= |t|
  {
    var a: string, x: string :| IsMantissa(digit, a) && IsExponent(lower, upper, x) && t == a + x;
    ExponentReadBack(lower, upper, x, rest);
    assert t + rest == a + (x + rest);
    MantissaReadBack(digit, a, x + rest);
    if x != "" {
      assert (t + rest)[|a|..] == x + rest;
    }
  }

  // ----- numerals -----

  /** The numerals are the decimal and the hexadecimal ones. */
  lemma NumeralMeans(t: string)
    ensures IsNumeral(t) <==> IsDecimal(t) || IsHexadecimal(t)
  {
    ScaledMeans(IsDigit, 'e', 'E', t);
    if |t| > 2 {
      ScaledMeans(IsHexDigit, 'p', 'P', t[2..]);
    }
    if StartsHex(t) {
      DecimalStopsAtX(t);
    }
  }

  /** And `strtod` converts the longest numeral at the head of a text. */
  lemma LongestNumeral(s: string, k: nat)
    requires k <= |s|
    ensures StrtodLength(s) > 0 ==> IsNumeral(s[..StrtodLength(s)])
    ensures IsNumeral(s[..k]) ==> k <= StrtodLength(s)
  {
    if StrtodLength(s) > 0 {
      NumeralTake(s);
    }
    if IsNumeral(s[..k]) {
      NumeralMeans(s[..k]);
      if IsHexadecimal(s[..k]) {
        HexadecimalAtLeast(s, k);
      } else {
        DecimalAtLeast(s, k);
      }
    }
  }

  lemma HexadecimalAtLeast(s: string, k: nat)
    requires k <= |s| && IsHexadecimal(s[..k])
    ensures k <= StrtodLength(s)
  {
    assert s[2..] == s[..k][2..] + s[k..];
    ScaledAtLeast(IsHexDigit, 'p', 'P', s[..k][2..], s[k..]);
  }

  lemma DecimalAtLeast(s: string, k: nat)
    requires k <= |s| && IsDecimal(s[..k])
    ensures k <= StrtodLength(s)
  {
    assert s == s[..k] + s[k..];
    ScaledAtLeast(IsDigit, 'e', 'E', s[..k], s[k..]);
    ShortBeforeX(s, k);
  }

  lemma ShortBeforeX(s: string, k: nat)
    requires k <= |s| && IsDecimal(s[..k])
    ensures StartsHex(s) ==> k <= 1
  {
    if StartsHex(s) && k > 1 {
      assert StartsHex(s[..k]);
      ScaledMeans(IsDigit, 'e', 'E', s[..k]);
      DecimalStopsAtX(s[..k]);
    }
  }
}
