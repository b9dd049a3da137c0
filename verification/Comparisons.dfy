/** What conditions mean on their text: which side of a comparison is which, and how values of
    different types compare (src/constraint/evaluator.cpp). */
module Comparisons {
  import opened Wrappers
  import opened Text
  import opened Values
  import opened Variables
  import opened Tokens
  import opened TokenPrinting
  import opened Constraints
  import opened ConditionGrammar

  /** Blanks before, between and behind the three words of a comparison. */
  predicate Around(gaps: seq<string>) {
    |gaps| == 4 && (forall k | 0 <= k < 4 :: Blank(gaps[k])) && gaps[1] != "" && gaps[2] != ""
  }

  /** The text on the right of an operator stands for this value: a variable, a number, a quoted
      string, or one of the words for true and false. */
  predicate StandsFor(lib: Library, st: Store, word: string, v: Value) {
    || (IsName(word) && Get(st, word) == Some(v))
    || (IsNumberText(word) && ReadsAs(lib, word, v))
    || (SpellsTrue(word) && ReadsAs(lib, "1", v))
    || (SpellsFalse(word) && ReadsAs(lib, "0", v))
    || (v.Str? && '\'' !in v.s && word == ['\''] + v.s + ['\''])
    || (v.Str? && '\"' !in v.s && word == ['\"'] + v.s + ['\"'])
  }

  /** A number with a point is a DOUBLE, without one an INT, and a text if it cannot be read. */
  predicate ReadsAs(lib: Library, word: string, v: Value) {
    if '.' in word then v == (if lib.stod(word).Some? then Double(Finite(lib.stod(word).value)) else Str(word))
    else v == (if lib.stoi(word).Some? then Int(lib.stoi(word).value.0) else Str(word))
  }

  // ----- the meaning of the operators -----

  predicate NumbersHold(op: string, a: real, b: real) {
    || (op == "<" && a < b) || (op == ">" && a > b) || (op == "<=" && a <= b) || (op == ">=" && a >= b)
    || ((op == "==" || op == "=") && -0.000000001 < a - b < 0.000000001)
    || (op == "!=" && !(-0.000000001 < a - b < 0.000000001))
  }

  /** The place of a double beside the finite ones. */
  function Side(f: Float): int {
    if f.Infinity? then (if f.positive then 1 else -1) else 0
  }

  /** An infinity lies beyond all other numbers and equals none; NaN compares with nothing. */
  predicate FloatsHold(op: string, a: Float, b: Float) {
    if a.NaN? || b.NaN? then false
    else if a.Finite? && b.Finite? then NumbersHold(op, a.r, b.r)
    else
      || (op == "<" && Side(a) < Side(b)) || (op == ">" && Side(a) > Side(b))
      || (op == "<=" && Side(a) <= Side(b)) || (op == ">=" && Side(a) >= Side(b))
      || (op == "!=" && Side(a) != Side(b))
  }

  predicate TextsHold(op: string, a: string, b: string) {
    || (op == "<" && StrLess(a, b)) || (op == ">" && StrLess(b, a))
    || (op == "<=" && (a == b || StrLess(a, b))) || (op == ">=" && (a == b || StrLess(b, a)))
    || ((op == "==" || op == "=") && a == b) || (op == "!=" && a != b)
  }

  /** False comes before true. */
  predicate TruthsHold(op: string, a: bool, b: bool) {
    || (op == "<" && !a && b) || (op == ">" && a && !b) || (op == "<=" && (a ==> b)) || (op == ">=" && (b ==> a))
    || ((op == "==" || op == "=") && a == b) || (op == "!=" && a != b)
  }

  predicate IsFloat(v: Value, f: Float) {
    (v.Int? && f == Finite(v.i as real)) || (v.Double? && f == v.d)
  }

  /** The text of a value beside a string. */
  predicate IsText(lib: Library, v: Value, text: string) {
    match v
    case Str(s) => text == s
    case Int(i) => text == IntToString(i)
    case Double(d) => text == lib.toString(d)
    case Unknown => text == ""
    case Bool(_) => false
  }

  /** The truth of a value beside a boolean. */
  predicate IsTruth(v: Value, b: bool) {
    match v
    case Bool(c) => b == c
    case Int(i) => b <==> i != 0
    case Double(d) => b <==> d.Infinity? || (d.Finite? && (d.r > 0.000000001 || d.r < -0.000000001))
    case Str(s) => b <==> SpellsTrue(s) || (s != "" && !SpellsFalse(s))
    case Unknown => !b
  }

  // ----- comparisons -----

  lemma ComparisonRead(lib: Library, st: Store, x: string, op: string, word: string, t: Token, gaps: seq<string>)
    requires IsName(x) && IsOperator(op) && Spells(word, t) && Around(gaps)
    ensures var text := Joined([x, op, word], gaps);
      Evaluated(lib, st, text) == Verdict(Comparison(lib, st, x, op, t), text)
  {
    var c := Comparing(x, op, t);
    ThreeWords(x, op, word, t, gaps);
    assert Words(c) == [IdentifierToken(x), OperatorToken(op), t];
    EvaluateWritten(lib, st, c, [x, op, word], gaps);
  }

  lemma ThreeWords(x: string, op: string, word: string, t: Token, gaps: seq<string>)
    requires IsName(x) && IsOperator(op) && Spells(word, t) && Around(gaps)
    ensures Write([x, op, word], [IdentifierToken(x), OperatorToken(op), t])
    ensures Spaced([IdentifierToken(x), OperatorToken(op), t], gaps)
  {
  }

  lemma OneWord(word: string, t: Token, gaps: seq<string>)
    requires Spells(word, t) && |gaps| == 2 && Blank(gaps[0]) && Blank(gaps[1])
    ensures Write([word], [t]) && Spaced([t], gaps)
  {
  }

  /** The token a right side is written for, and that it has this value. */
  function TokenOf(word: string, v: Value): Token {
    if IsName(word) then IdentifierToken(word)
    else if IsNumberText(word) then NumberToken(word)
    else if SpellsTrue(word) then NumberToken("1")
    else if SpellsFalse(word) then NumberToken("0")
    else StringToken(if v.Str? then v.s else "")
  }

  lemma SideRead(lib: Library, st: Store, word: string, v: Value)
    requires StandsFor(lib, st, word, v)
    ensures Spells(word, TokenOf(word, v)) && Operand(lib, st, TokenOf(word, v)) == Ok(v)
  {
  }

  lemma ComparisonMeans(lib: Library, st: Store, x: string, op: string, word: string, gaps: seq<string>, l: Value,
                        r: Value)
    requires IsName(x) && Get(st, x) == Some(l) && IsOperator(op) && StandsFor(lib, st, word, r) && Around(gaps)
    ensures Evaluated(lib, st, Joined([x, op, word], gaps)).satisfied <==> Compare(lib, l, op, r)
  {
    SideRead(lib, st, word, r);
    ComparisonRead(lib, st, x, op, word, TokenOf(word, r), gaps);
  }

  lemma FloatsCompared(lib: Library, l: Value, op: string, r: Value, a: Float, b: Float)
    requires IsOperator(op) && IsFloat(l, a) && IsFloat(r, b)
    ensures Compare(lib, l, op, r) <==> FloatsHold(op, a, b)
  {
    var n := CompareNumber(a, op, b);
    assert IsRelational(op) ==> (n <==> FloatsHold(op, a, b));
  }

  lemma TextsCompared(lib: Library, l: Value, op: string, r: Value, a: string, b: string)
    requires IsOperator(op) && (l.Str? || r.Str?) && IsText(lib, l, a) && IsText(lib, r, b)
    ensures Compare(lib, l, op, r) <==> TextsHold(op, a, b)
  {
    StrTrichotomy(a, b);
  }

  lemma TruthsCompared(lib: Library, l: Value, op: string, r: Value, a: bool, b: bool)
    requires IsOperator(op) && (l.Bool? || r.Bool?) && IsTruth(l, a) && IsTruth(r, b)
    ensures Compare(lib, l, op, r) <==> TruthsHold(op, a, b)
  {
    assert a == ToBool(l) && b == ToBool(r);
  }

  /** Numbers: `x op y` is satisfied exactly when the left number stands in this relation to the
      right one. */
  lemma NumbersCompare(lib: Library, st: Store, x: string, op: string, word: string, gaps: seq<string>,
                       l: Value, r: Value, a: Float, b: Float)
    requires IsName(x) && Get(st, x) == Some(l) && IsOperator(op) && StandsFor(lib, st, word, r) && Around(gaps)
    requires IsFloat(l, a) && IsFloat(r, b)
    ensures Evaluated(lib, st, Joined([x, op, word], gaps)).satisfied <==> FloatsHold(op, a, b)
  {
    FloatsCompared(lib, l, op, r, a, b);
    ComparisonMeans(lib, st, x, op, word, gaps, l, r);
  }

  /** Texts, if one side is a text and neither is a boolean. */
  lemma TextsCompare(lib: Library, st: Store, x: string, op: string, word: string, gaps: seq<string>,
                     l: Value, r: Value, a: string, b: string)
    requires IsName(x) && Get(st, x) == Some(l) && IsOperator(op) && StandsFor(lib, st, word, r) && Around(gaps)
    requires (l.Str? || r.Str?) && IsText(lib, l, a) && IsText(lib, r, b)
    ensures Evaluated(lib, st, Joined([x, op, word], gaps)).satisfied <==> TextsHold(op, a, b)
  {
    TextsCompared(lib, l, op, r, a, b);
    ComparisonMeans(lib, st, x, op, word, gaps, l, r);
  }

  /** Truths, if one side is a boolean. */
  lemma TruthsCompare(lib: Library, st: Store, x: string, op: string, word: string, gaps: seq<string>,
                      l: Value, r: Value, a: bool, b: bool)
    requires IsName(x) && Get(st, x) == Some(l) && IsOperator(op) && StandsFor(lib, st, word, r) && Around(gaps)
    requires (l.Bool? || r.Bool?) && IsTruth(l, a) && IsTruth(r, b)
    ensures Evaluated(lib, st, Joined([x, op, word], gaps)).satisfied <==> TruthsHold(op, a, b)
  {
    TruthsCompared(lib, l, op, r, a, b);
    ComparisonMeans(lib, st, x, op, word, gaps, l, r);
  }

  /** UNKNOWN beside a number, or beside another UNKNOWN, satisfies no operator. */
  lemma UnknownComparesWithNothing(lib: Library, st: Store, x: string, op: string, word: string, gaps: seq<string>,
                                   l: Value, r: Value)
    requires IsName(x) && Get(st, x) == Some(l) && IsOperator(op) && StandsFor(lib, st, word, r) && Around(gaps)
    requires (l.Unknown? && !r.Str? && !r.Bool?) || (r.Unknown? && !l.Str? && !l.Bool?)
    ensures !Evaluated(lib, st, Joined([x, op, word], gaps)).satisfied
  {
    ComparisonMeans(lib, st, x, op, word, gaps, l, r);
  }

  /** The case of two variables with finite numbers, operator by operator. */
  lemma VariablesCompare(lib: Library, st: Store, x: string, op: string, y: string, gaps: seq<string>,
                         l: Value, r: Value, a: real, b: real)
    requires IsName(x) && IsName(y) && Get(st, x) == Some(l) && Get(st, y) == Some(r) && Around(gaps)
    requires IsFloat(l, Finite(a)) && IsFloat(r, Finite(b)) && IsOperator(op)
    ensures var satisfied := Evaluated(lib, st, Joined([x, op, y], gaps)).satisfied;
      && (op == "<" ==> (satisfied <==> a < b))
      && (op == ">" ==> (satisfied <==> a > b))
      && (op == "<=" ==> (satisfied <==> a <= b))
      && (op == ">=" ==> (satisfied <==> a >= b))
      && (op == "==" ==> (satisfied <==> -0.000000001 < a - b < 0.000000001))
      && (op == "!=" ==> (satisfied <==> a - b <= -0.000000001 || a - b >= 0.000000001))
  {
    NumbersCompare(lib, st, x, op, y, gaps, l, r, Finite(a), Finite(b));
  }

  /** A variable that does not exist: the right one is looked up first. */
  lemma MissingSide(lib: Library, st: Store, x: string, op: string, y: string, gaps: seq<string>)
    requires IsName(x) && IsName(y) && IsOperator(op) && Around(gaps) && (Get(st, x).None? || Get(st, y).None?)
    ensures var result := Evaluated(lib, st, Joined([x, op, y], gaps));
      && !result.satisfied
      && result.message == EvaluationError(VariableNotFound(if Get(st, y).None? then y else x))
  {
    ComparisonRead(lib, st, x, op, y, IdentifierToken(y), gaps);
  }

  // ----- single words -----

  lemma FlagRead(lib: Library, st: Store, x: string, gaps: seq<string>)
    requires IsName(x) && |gaps| == 2 && Blank(gaps[0]) && Blank(gaps[1])
    ensures Evaluated(lib, st, Joined([x], gaps)) == Verdict(VariableTruth(st, x), Joined([x], gaps))
  {
    OneWord(x, IdentifierToken(x), gaps);
    assert Words(Flag(x)) == [IdentifierToken(x)];
    EvaluateWritten(lib, st, Flag(x), [x], gaps);
  }

  lemma TruthRead(lib: Library, st: Store, word: string, text: string, gaps: seq<string>)
    requires Spells(word, NumberToken(text)) && |gaps| == 2 && Blank(gaps[0]) && Blank(gaps[1])
    ensures Evaluated(lib, st, Joined([word], gaps)) == Verdict(Ok(NumberTruth(text)), Joined([word], gaps))
  {
    OneWord(word, NumberToken(text), gaps);
    assert Words(Truth(text)) == [NumberToken(text)];
    EvaluateWritten(lib, st, Truth(text), [word], gaps);
  }

  /** A variable alone is satisfied when it is true, a number other than zero or a non-empty text. */
  lemma FlagMeans(lib: Library, st: Store, x: string, gaps: seq<string>, v: Value)
    requires IsName(x) && Get(st, x) == Some(v) && |gaps| == 2 && Blank(gaps[0]) && Blank(gaps[1])
    ensures var result := Evaluated(lib, st, Joined([x], gaps));
      && (result.satisfied <==> v == Bool(true) || (v.Int? && v.i != 0) || (v.Str? && v.s != ""))
      && (v.Double? || v.Unknown? ==> result.message == EvaluationError(NotABool(x)))
  {
    FlagRead(lib, st, x, gaps);
  }

  /** A number alone is false when it is written `0` or `0.0`; the words for false mean `0`. */
  lemma NumberMeans(lib: Library, st: Store, word: string, gaps: seq<string>)
    requires IsNumberText(word) || SpellsTrue(word) || SpellsFalse(word)
    requires |gaps| == 2 && Blank(gaps[0]) && Blank(gaps[1])
    ensures Evaluated(lib, st, Joined([word], gaps)).satisfied <==>
            !(word == "0" || word == "0.0" || SpellsFalse(word))
  {
    TruthRead(lib, st, word, if SpellsTrue(word) then "1" else if SpellsFalse(word) then "0" else word, gaps);
  }

  /** The empty condition is not satisfied. */
  lemma NothingWritten(lib: Library, st: Store, blank: string)
    requires Blank(blank)
    ensures !Evaluated(lib, st, blank).satisfied && Evaluated(lib, st, blank).message == EmptyExpression
  {
    TokenizeWords([], [], [blank]);
    assert Joined([], [blank]) == blank;
  }

  /** The order of texts: the first character that differs decides, a proper beginning is less. */
  predicate Decides(a: string, b: string, k: nat) {
    k <= |a| && k < |b| && a[..k] == b[..k] && (k == |a| || a[k] < b[k])
  }

  lemma DecidesLater(a: string, b: string, k: nat)
    requires a != "" && b != "" && a[0] == b[0]
    ensures Decides(a[1..], b[1..], k) <==> Decides(a, b, k + 1)
  {
    if k + 1 <= |a| && k + 1 <= |b| {
      assert a[..k + 1] == [a[0]] + a[1..][..k] && b[..k + 1] == [b[0]] + b[1..][..k];
      assert a[..k + 1][1..] == a[1..][..k] && b[..k + 1][1..] == b[1..][..k];
    }
  }

  lemma {:induction false} StrLessMeans(a: string, b: string)
    ensures StrLess(a, b) <==> exists k: nat :: Decides(a, b, k)
  {
    if StrLess(a, b) {
      if a == "" || a[0] < b[0] {
        assert Decides(a, b, 0);
      } else {
        StrLessMeans(a[1..], b[1..]);
        var k: nat :| Decides(a[1..], b[1..], k);
        DecidesLater(a, b, k);
      }
    }
    if k: nat :| Decides(a, b, k) {
      if k > 0 {
        assert a[..k][0] == b[..k][0];
        DecidesLater(a, b, k - 1);
        StrLessMeans(a[1..], b[1..]);
      }
    }
  }
}
