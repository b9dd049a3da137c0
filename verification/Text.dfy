/** Characters, trimming, numerals, decimal rendering and key order: the text
    primitives the parsers and the `std::map` loops rely on. */
module Text {

  // ----- character classes of the C locale -----

  predicate IsSpace(c: char) {
    c == ' ' || '\t' <= c <= '\r'
  }

  predicate IsDigit(c: char) {
    '0' <= c <= '9'
  }

  predicate IsIdentStart(c: char) {
    'a' <= c <= 'z' || 'A' <= c <= 'Z' || c == '_'
  }

  predicate IsIdentChar(c: char) {
    IsIdentStart(c) || IsDigit(c)
  }

  /** The classes by their ASCII codes. */
  lemma CharacterClasses(c: char)
    ensures IsSpace(c) <==> c as int == 32 || 9 <= c as int <= 13
    ensures IsDigit(c) <==> 48 <= c as int <= 57
    ensures IsIdentStart(c) <==> 65 <= c as int <= 90 || 97 <= c as int <= 122 || c as int == 95
    ensures IsIdentChar(c) <==> IsIdentStart(c) || IsDigit(c)
    ensures IsHexDigit(c) <==> IsDigit(c) || 65 <= c as int <= 70 || 97 <= c as int <= 102
  {
  }

  function ToUpper(s: string): (r: string)
    ensures |r| == |s|
  {
    seq(|s|, i requires 0 <= i < |s| => if 'a' <= s[i] <= 'z' then (s[i] as int - 32) as char else s[i])
  }

  /** Does `part` occur in `s`? (`std::string::find(part) != npos`) */
  predicate Contains(s: string, part: string) {
    exists k | 0 <= k <= |s| :: part <= s[k..]
  }

  /** `std::string::find(c)`, or the length of the text. */
  function IndexOf(s: string, c: char): (n: nat)
    ensures n <= |s|
    ensures n < |s| ==> s[n] == c
  {
    if s != "" && s[0] != c then 1 + IndexOf(s[1..], c) else 0
  }

  lemma {:induction false} IndexOfFirst(s: string, c: char)
    ensures forall i | 0 <= i < IndexOf(s, c) :: s[i] != c
  {
    if s != "" && s[0] != c {
      IndexOfFirst(s[1..], c);
      forall i | 0 <= i < IndexOf(s, c) ensures s[i] != c {
        assert i > 0 ==> s[i] == s[1..][i - 1];
      }
    }
  }

  lemma {:induction false} IndexOfUnique(s: string, c: char, n: nat)
    requires n <= |s| && (forall i | 0 <= i < n :: s[i] != c) && (n < |s| ==> s[n] == c)
    ensures IndexOf(s, c) == n
  {
    if n > 0 {
      assert s[0] != c;
      IndexOfUnique(s[1..], c, n - 1);
    }
  }

  // ----- runs and blanks -----

  /** Length of the longest prefix whose characters all satisfy `p`. */
  function Span(p: char -> bool, s: string): (n: nat)
    ensures n <= |s|
    ensures forall i | 0 <= i < n :: p(s[i])
    ensures n < |s| ==> !p(s[n])
  {
    if s != "" && p(s[0]) then 1 + Span(p, s[1..]) else 0
  }

  predicate Blank(s: string) {
    forall i | 0 <= i < |s| :: IsSpace(s[i])
  }

  function SkipSpaces(s: string): (r: string)
    ensures |r| <= |s|
    ensures r != "" ==> !IsSpace(r[0])
  {
    if s != "" && IsSpace(s[0]) then SkipSpaces(s[1..]) else s
  }

  lemma {:induction false} SkipSpacesSplit(s: string)
    ensures var k := |s| - |SkipSpaces(s)|; Blank(s[..k]) && s == s[..k] + SkipSpaces(s)
  {
    if s != "" && IsSpace(s[0]) {
      SkipSpacesSplit(s[1..]);
      var k := |s| - |SkipSpaces(s)|;
      assert s[..k] == [s[0]] + s[1..][..k - 1];
    }
  }

  function TrimEnd(s: string): (r: string)
    ensures r <= s
    ensures r != "" ==> !IsSpace(r[|r| - 1])
  {
    if s != "" && IsSpace(s[|s| - 1]) then TrimEnd(s[..|s| - 1]) else s
  }

  lemma {:induction false} TrimEndSplit(s: string)
    ensures Blank(s[|TrimEnd(s)|..])
  {
    if s != "" && IsSpace(s[|s| - 1]) {
      var r := TrimEnd(s);
      TrimEndSplit(s[..|s| - 1]);
      assert s[|r|..] == s[..|s| - 1][|r|..] + [s[|s| - 1]];
    }
  }

  function Trimmed(s: string): (r: string)
    ensures |r| <= |s|
    ensures r != "" ==> !IsSpace(r[0]) && !IsSpace(r[|r| - 1])
  {
    TrimEnd(SkipSpaces(s))
  }

  lemma {:induction false} SkipBlank(ws: string, s: string)
    requires Blank(ws)
    ensures SkipSpaces(ws + s) == SkipSpaces(s)
  {
    if ws == "" {
      assert ws + s == s;
    } else {
      assert (ws + s)[1..] == ws[1..] + s;
      SkipBlank(ws[1..], s);
    }
  }

  lemma SkipNonBlank(s: string)
    requires s == "" || !IsSpace(s[0])
    ensures SkipSpaces(s) == s
  {
  }

  /** Trimming removes blanks at both ends and nothing else. */
  lemma TrimmedSplit(s: string) returns (left: string, right: string)
    ensures Blank(left) && Blank(right) && s == left + Trimmed(s) + right
  {
    var r := SkipSpaces(s);
    SkipSpacesSplit(s);
    TrimEndSplit(r);
    left := s[..|s| - |r|];
    right := r[|Trimmed(s)|..];
    assert r == Trimmed(s) + right;
  }

  lemma {:induction false} TrimEndBlank(s: string, ws: string)
    requires Blank(ws) && s != "" && !IsSpace(s[|s| - 1])
    ensures TrimEnd(s + ws) == s
  {
    if ws == "" {
      assert s + ws == s;
    } else {
      assert (s + ws)[..|s + ws| - 1] == s + ws[..|ws| - 1];
      TrimEndBlank(s, ws[..|ws| - 1]);
    }
  }

  /** Blanks around a text are all that trimming removes. */
  lemma TrimmedBetween(left: string, s: string, right: string)
    requires Blank(left) && Blank(right) && s != "" && !IsSpace(s[0]) && !IsSpace(s[|s| - 1])
    ensures Trimmed(left + s + right) == s
  {
    assert left + s + right == left + (s + right);
    SkipBlank(left, s + right);
    SkipNonBlank(s + right);
    TrimEndBlank(s, right);
  }

  lemma DropLast(s: string, i: nat, j: nat)
    requires i < j <= |s|
    ensures s[i..j][..j - i - 1] == s[i..j - 1]
  {
  }

  /** `trimCopy` and `ConstraintEvaluator::trim`: two index loops and one `substr`. */
  method Trim(text: string) returns (r: string)
    ensures r == Trimmed(text)
  {
    var start := 0;
    assert text[0..] == text;
    while start < |text| && IsSpace(text[start])
      invariant 0 <= start <= |text|
      invariant SkipSpaces(text[start..]) == SkipSpaces(text)
    {
      LeftBehind(text, start);
      start := start + 1;
    }
    var end := |text|;
    assert text[start..end] == text[start..];
    while end > start && IsSpace(text[end - 1])
      invariant start <= end <= |text|
      invariant TrimEnd(text[start..end]) == Trimmed(text)
    {
      DropLast(text, start, end);
      end := end - 1;
    }
    r := text[start..end];
  }

  lemma SpanUnique(p: char -> bool, s: string, n: nat)
    requires n <= |s| && (forall i | 0 <= i < n :: p(s[i])) && (n < |s| ==> !p(s[n]))
    ensures Span(p, s) == n
  {
  }

  // ----- numerals that start with a digit or a point, as strtod reads them -----

  predicate IsHexDigit(c: char) {
    IsDigit(c) || 'a' <= c <= 'f' || 'A' <= c <= 'F'
  }

  /** The letter `lower` or `upper`, an optional sign and decimal digits. */
  function ExponentLength(lower: char, upper: char, s: string): (n: nat)
    ensures n <= |s|
  {
    if s != "" && (s[0] == lower || s[0] == upper) then
      var sign := if |s| > 1 && (s[1] == '+' || s[1] == '-') then 2 else 1;
      var digits := Span(IsDigit, s[sign..]);
      if digits == 0 then 0 else sign + digits
    else 0
  }

  /** Digits with at most one point, and at least one digit. */
  function MantissaLength(digit: char -> bool, s: string): (n: nat)
    ensures n <= |s|
  {
    var whole := Span(digit, s);
    if whole < |s| && s[whole] == '.' then
      var fraction := Span(digit, s[whole + 1..]);
      if whole + fraction == 0 then 0 else whole + 1 + fraction
    else whole
  }

  function ScaledLength(digit: char -> bool, lower: char, upper: char, s: string): (n: nat)
    ensures n <= |s|
  {
    var m := MantissaLength(digit, s);
    if m == 0 then 0 else m + ExponentLength(lower, upper, s[m..])
  }

  function DecimalLength(s: string): nat {
    ScaledLength(IsDigit, 'e', 'E', s)
  }

  predicate StartsHex(s: string) {
    |s| > 1 && s[0] == '0' && (s[1] == 'x' || s[1] == 'X')
  }

  function HexLength(s: string): nat {
    if !StartsHex(s) || ScaledLength(IsHexDigit, 'p', 'P', s[2..]) == 0 then 0
    else 2 + ScaledLength(IsHexDigit, 'p', 'P', s[2..])
  }

  /** Number of characters `strtod` converts at the start of `s`; 0 means no conversion. */
  function StrtodLength(s: string): (n: nat)
    ensures n <= |s|
    ensures n > 0 ==> IsDigit(s[0]) || s[0] == '.'
  {
    if HexLength(s) > 0 then HexLength(s) else DecimalLength(s)
  }

  predicate IsNumeral(t: string) {
    t != "" && StrtodLength(t) == |t|
  }

  /** A text that cannot lengthen a numeral or an identifier standing before it. */
  predicate Separates(rest: string) {
    rest == "" || !(IsIdentChar(rest[0]) || rest[0] == '.')
  }

  lemma SpanAppend(p: char -> bool, t: string, rest: string)
    requires Span(p, t) < |t| || rest == "" || !p(rest[0])
    ensures Span(p, t + rest) == Span(p, t)
  {
    SpanUnique(p, t + rest, Span(p, t));
  }

  lemma SpanTake(p: char -> bool, s: string, n: nat)
    requires Span(p, s) <= n <= |s|
    ensures Span(p, s[..n]) == Span(p, s)
  {
    SpanUnique(p, s[..n], Span(p, s));
  }

  lemma MantissaAppend(digit: char -> bool, t: string, rest: string)
    requires rest == "" || (!digit(rest[0]) && rest[0] != '.')
    ensures MantissaLength(digit, t + rest) == MantissaLength(digit, t)
  {
    var whole := Span(digit, t);
    SpanAppend(digit, t, rest);
    if whole < |t| && t[whole] == '.' {
      assert (t + rest)[whole + 1..] == t[whole + 1..] + rest;
      SpanAppend(digit, t[whole + 1..], rest);
    }
  }

  lemma ExponentAppend(lower: char, upper: char, e: string, rest: string)
    requires Separates(rest) && IsIdentChar(lower) && IsIdentChar(upper)
    requires ExponentLength(lower, upper, e) == |e|
    ensures ExponentLength(lower, upper, e + rest) == |e|
  {
    if e == "" {
      assert e + rest == rest;
    } else {
      var sign := if |e| > 1 && (e[1] == '+' || e[1] == '-') then 2 else 1;
      assert (e + rest)[sign..] == e[sign..] + rest;
      SpanAppend(IsDigit, e[sign..], rest);
    }
  }

  lemma ScaledAppend(digit: char -> bool, lower: char, upper: char, t: string, rest: string)
    requires Separates(rest) && (rest != "" ==> !digit(rest[0])) && IsIdentChar(lower) && IsIdentChar(upper)
    requires t != "" && ScaledLength(digit, lower, upper, t) == |t|
    ensures ScaledLength(digit, lower, upper, t + rest) == |t|
  {
    var m := MantissaLength(digit, t);
    MantissaAppend(digit, t, rest);
    ExponentAppend(lower, upper, t[m..], rest);
    assert (t + rest)[m..] == t[m..] + rest;
  }

  /** A decimal numeral is at most the zero in front of a hexadecimal sign. */
  lemma DecimalStopsAtX(s: string)
    requires StartsHex(s)
    ensures DecimalLength(s) == 1
  {
    SpanUnique(IsDigit, s, 1);
  }

  lemma HexStaysAway(t: string, rest: string)
    requires t != "" && Separates(rest) && !StartsHex(t)
    ensures !StartsHex(t + rest)
  {
  }

  lemma HexAppend(t: string, rest: string)
    requires t != "" && HexLength(t) == |t| && Separates(rest)
    ensures HexLength(t + rest) == |t|
  {
    assert (t + rest)[2..] == t[2..] + rest;
    ScaledAppend(IsHexDigit, 'p', 'P', t[2..], rest);
  }

  lemma DecimalAppend(t: string, rest: string)
    requires IsNumeral(t) && HexLength(t) == 0 && Separates(rest)
    ensures HexLength(t + rest) == 0 && DecimalLength(t + rest) == |t|
  {
    if StartsHex(t) {
      DecimalStopsAtX(t);
    }
    HexStaysAway(t, rest);
    ScaledAppend(IsDigit, 'e', 'E', t, rest);
  }

  /** What strtod converts does not depend on what follows, once that separates. */
  lemma NumeralAppend(t: string, rest: string)
    requires IsNumeral(t) && Separates(rest)
    ensures StrtodLength(t + rest) == |t|
  {
    if HexLength(t) > 0 {
      HexAppend(t, rest);
    } else {
      DecimalAppend(t, rest);
    }
  }

  lemma MantissaTake(digit: char -> bool, s: string, n: nat)
    requires MantissaLength(digit, s) <= n <= |s| && MantissaLength(digit, s) > 0
    ensures MantissaLength(digit, s[..n]) == MantissaLength(digit, s)
  {
    var whole := Span(digit, s);
    SpanTake(digit, s, n);
    if whole < |s| && s[whole] == '.' {
      assert s[..n][whole + 1..] == s[whole + 1..][..n - whole - 1];
      SpanTake(digit, s[whole + 1..], n - whole - 1);
    }
  }

  lemma ExponentTake(lower: char, upper: char, e: string)
    ensures var n := ExponentLength(lower, upper, e); ExponentLength(lower, upper, e[..n]) == n
  {
    var n := ExponentLength(lower, upper, e);
    if n > 0 {
      var sign := if |e| > 1 && (e[1] == '+' || e[1] == '-') then 2 else 1;
      assert e[..n][sign..] == e[sign..][..n - sign];
      SpanTake(IsDigit, e[sign..], n - sign);
    }
  }

  lemma ScaledTake(digit: char -> bool, lower: char, upper: char, s: string)
    requires ScaledLength(digit, lower, upper, s) > 0
    ensures var n := ScaledLength(digit, lower, upper, s); ScaledLength(digit, lower, upper, s[..n]) == n
  {
    var m, n := MantissaLength(digit, s), ScaledLength(digit, lower, upper, s);
    MantissaTake(digit, s, n);
    ExponentTake(lower, upper, s[m..]);
    assert s[..n][m..] == s[m..][..n - m];
  }

  /** The part strtod converts is itself a numeral. */
  lemma NumeralTake(s: string)
    requires StrtodLength(s) > 0
    ensures IsNumeral(s[..StrtodLength(s)])
  {
    var n := StrtodLength(s);
    if HexLength(s) > 0 {
      ScaledTake(IsHexDigit, 'p', 'P', s[2..]);
      assert s[..n][2..] == s[2..][..n - 2];
    } else {
      ScaledTake(IsDigit, 'e', 'E', s);
      if StartsHex(s) {
        DecimalStopsAtX(s);
      }
    }
  }

  // ----- decimal integers -----

  function DigitChar(d: nat): (c: char)
    requires d < 10
    ensures IsDigit(c) && c as int - '0' as int == d
  {
    ('0' as int + d) as char
  }

  /** `std::to_string` / `operator<<` of an unsigned number. */
  function NatToString(n: nat): string {
    if n < 10 then [DigitChar(n)] else NatToString(n / 10) + [DigitChar(n % 10)]
  }

  function IntToString(n: int): string {
    if n < 0 then "-" + NatToString(-n) else NatToString(n)
  }

  function DigitsValue(s: string): nat
    requires forall i | 0 <= i < |s| :: IsDigit(s[i])
  {
    if s == "" then 0
    else
      assert IsDigit(s[|s| - 1]);
      DigitsValue(s[..|s| - 1]) * 10 + (s[|s| - 1] as int - '0' as int)
  }

  lemma {:induction false} NatToStringValue(n: nat)
    ensures forall i | 0 <= i < |NatToString(n)| :: IsDigit(NatToString(n)[i])
    ensures DigitsValue(NatToString(n)) == n
  {
    if n >= 10 {
      NatToStringValue(n / 10);
      assert NatToString(n)[..|NatToString(n)| - 1] == NatToString(n / 10);
    } else {
      assert NatToString(n)[..0] == "";
    }
  }

  lemma NatToStringInjective(m: nat, n: nat)
    requires NatToString(m) == NatToString(n)
    ensures m == n
  {
    NatToStringValue(m);
    NatToStringValue(n);
  }

  // ----- the order of std::string, and of the keys of a std::map -----

  predicate StrLess(a: string, b: string) {
    b != "" && (a == "" || a[0] < b[0] || (a[0] == b[0] && StrLess(a[1..], b[1..])))
  }

  lemma {:induction false} StrTrichotomy(a: string, b: string)
    ensures StrLess(a, b) || a == b || StrLess(b, a)
    ensures !(StrLess(a, b) && StrLess(b, a))
    ensures !StrLess(a, a)
  {
    if a != "" {
      StrTrichotomy(a[1..], a[1..]);
      if b != "" && a[0] == b[0] {
        StrTrichotomy(a[1..], b[1..]);
        assert a == [a[0]] + a[1..] && b == [b[0]] + b[1..];
      }
    }
  }

  lemma {:induction false} StrTransitive(a: string, b: string, c: string)
    requires StrLess(a, b) && StrLess(b, c)
    ensures StrLess(a, c)
  {
    if a != "" && a[0] == b[0] && b[0] == c[0] {
      StrTransitive(a[1..], b[1..], c[1..]);
    }
  }

  predicate IsLeast(s: set<string>, k: string) {
    k in s && forall x | x in s :: x == k || StrLess(k, x)
  }

  lemma {:induction false} LeastExists(s: set<string>)
    requires s != {}
    ensures exists k :: IsLeast(s, k)
    decreases |s|
  {
    var x :| x in s;
    var others := s - {x};
    if others == {} {
      assert s == {x};
      assert IsLeast(s, x);
    } else {
      LeastExists(others);
      var y :| IsLeast(others, y);
      StrTrichotomy(x, y);
      if StrLess(x, y) {
        forall z | z in s ensures z == x || StrLess(x, z) {
          if z != x && z != y {
            StrTransitive(x, y, z);
          }
        }
        assert IsLeast(s, x);
      } else {
        assert IsLeast(s, y);
      }
    }
  }

  lemma LeastUnique(s: set<string>, j: string, k: string)
    requires IsLeast(s, j) && IsLeast(s, k)
    ensures j == k
  {
    StrTrichotomy(j, k);
  }

  function Least(s: set<string>): (k: string)
    requires s != {}
    ensures IsLeast(s, k)
  {
    LeastExists(s);
    assert forall j, k | IsLeast(s, j) && IsLeast(s, k) :: j == k by {
      forall j, k | IsLeast(s, j) && IsLeast(s, k) ensures j == k {
        LeastUnique(s, j, k);
      }
    }
    var k :| IsLeast(s, k);
    k
  }

  /** What is left of a list behind position `i`. */
  lemma LeftBehind<T>(s: seq<T>, i: nat)
    requires i < |s|
    ensures s[i..] != [] && s[i..][0] == s[i] && s[i..][1..] == s[i + 1..]
  {
  }

  predicate Ascending(keys: seq<string>) {
    forall i, j | 0 <= i < j < |keys| :: StrLess(keys[i], keys[j])
  }

  /** The keys of a `std::map` in iteration order. */
  function SortedKeys(s: set<string>): (keys: seq<string>)
    ensures forall k :: k in keys <==> k in s
    decreases |s|
  {
    if s == {} then []
    else
      var k := Least(s);
      [k] + SortedKeys(s - {k})
  }

  lemma {:induction false} SortedKeysAscending(s: set<string>)
    ensures Ascending(SortedKeys(s))
    decreases |s|
  {
    if s != {} {
      var k := Least(s);
      var others := SortedKeys(s - {k});
      SortedKeysAscending(s - {k});
      assert forall i | 0 <= i < |others| :: others[i] in others && StrLess(k, others[i]);
    }
  }
}
