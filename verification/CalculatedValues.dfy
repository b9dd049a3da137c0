/** What a value expression is worth, by the form of its text: quoted texts, the words for true and
    false, variables, comparisons, literals, arithmetic, and all other texts
    (src/executor/generic_executor.cpp). */
module CalculatedValues {
  import opened Wrappers
  import opened Text
  import opened Values
  import opened Variables
  import opened TokenPrinting
  import opened ValueExpressions
  import opened Comparisons
  import C = Constraints
  import G = NumericGrammar
  import N = NumericExpression

  // ----- the forms -----

  ghost predicate Occurs(part: string, t: string) {
    exists a: string, b: string :: t == a + part + b
  }

  lemma ContainsIsOccurs(t: string, part: string)
    ensures Contains(t, part) <==> Occurs(part, t)
  {
    if Contains(t, part) {
      var k :| 0 <= k <= |t| && part <= t[k..];
      assert t == t[..k] + part + t[k..][|part|..];
    }
    if a: string, b: string :| t == a + part + b {
      assert t[|a|..] == part + b;
      assert part <= t[|a|..];
    }
  }

  predicate Quoted(t: string) {
    |t| >= 2 && ((t[0] == '\'' && t[|t| - 1] == '\'') || (t[0] == '\"' && t[|t| - 1] == '\"'))
  }

  /** It has a sign of a comparison or of a connective. */
  ghost predicate Compares(t: string) {
    '<' in t || '>' in t || Occurs("==", t) || Occurs("!=", t) || Occurs("&&", t) || Occurs("||", t)
  }

  ghost predicate Calculates(t: string) {
    '+' in t || '-' in t || '*' in t || '/' in t || Occurs("sqrt", t)
  }

  /** None of the forms that are tried before comparisons. */
  predicate Unsettled(st: Store, t: string) {
    t != "" && !Quoted(t) && !SpellsTrue(t) && !SpellsFalse(t) && !Exists(st, t)
  }

  lemma SignsFound(t: string)
    ensures HasComparison(t) <==> Compares(t)
    ensures HasArithmetic(t) <==> Calculates(t)
    ensures IsQuoted(t) <==> Quoted(t)
  {
    ContainsIsOccurs(t, "==");
    ContainsIsOccurs(t, "!=");
    ContainsIsOccurs(t, "&&");
    ContainsIsOccurs(t, "||");
    ContainsIsOccurs(t, "sqrt");
    SignOccurs(t, ">=", '>');
    SignOccurs(t, "<=", '<');
  }

  lemma SignOccurs(t: string, part: string, c: char)
    requires part != "" && part[0] == c
    ensures Contains(t, part) ==> c in t
  {
    if Contains(t, part) {
      var k :| 0 <= k <= |t| && part <= t[k..];
      assert t[k] == t[k..][0] == c;
    }
  }

  lemma TrimmedSelf(t: string)
    requires t != "" && !IsSpace(t[0]) && !IsSpace(t[|t| - 1])
    ensures Trimmed(t) == t
  {
    SkipNonBlank(t);
  }

  // ----- what each form is worth -----

  lemma NothingMeans(lib: Library, st: Store, e: string)
    requires Trimmed(e) == ""
    ensures EvalValue(lib, st, e) == Ok(Str(""))
  {
  }

  lemma QuotedMeans(lib: Library, st: Store, e: string, q: char, text: string)
    requires Trimmed(e) == [q] + text + [q] && (q == '\'' || q == '\"')
    ensures EvalValue(lib, st, e) == Ok(Str(text))
  {
    var t := Trimmed(e);
    assert t[1..|t| - 1] == text;
  }

  lemma TruthWordMeans(lib: Library, st: Store, e: string)
    requires SpellsTrue(Trimmed(e)) || SpellsFalse(Trimmed(e))
    ensures EvalValue(lib, st, e) == Ok(Bool(SpellsTrue(Trimmed(e))))
  {
    var t := Trimmed(e);
    assert t[0] == 't' || t[0] == 'T' || t[0] == 'f' || t[0] == 'F';
  }

  lemma VariableMeans(lib: Library, st: Store, e: string)
    requires var t := Trimmed(e); Exists(st, t) && t != "" && !Quoted(t) && !SpellsTrue(t) && !SpellsFalse(t)
    ensures EvalValue(lib, st, e) == Ok(Get(st, Trimmed(e)).value)
  {
    SignsFound(Trimmed(e));
  }

  lemma ConditionMeans(lib: Library, st: Store, e: string)
    requires Unsettled(st, Trimmed(e)) && Compares(Trimmed(e))
    ensures EvalValue(lib, st, e) == Ok(Bool(C.Evaluated(lib, st, Trimmed(e)).satisfied))
  {
    SignsFound(Trimmed(e));
  }

  /** A literal without point and exponent is an INT, any other a DOUBLE. */
  lemma LiteralMeans(lib: Library, st: Store, e: string, v: Float)
    requires Unsettled(st, Trimmed(e)) && !Compares(Trimmed(e)) && lib.strtodWhole(Trimmed(e)) == Some(v)
    ensures var t := Trimmed(e);
      EvalValue(lib, st, e) == Ok(if '.' in t || 'e' in t || 'E' in t then Double(v) else Int(lib.truncate(v)))
  {
    SignsFound(Trimmed(e));
  }

  lemma PlainTextMeans(lib: Library, st: Store, e: string)
    requires var t := Trimmed(e);
      Unsettled(st, t) && !Compares(t) && lib.strtodWhole(t) == None && !Calculates(t)
    ensures EvalValue(lib, st, e) == Ok(Str(Trimmed(e)))
  {
    SignsFound(Trimmed(e));
  }

  // ----- arithmetic -----

  /** The number of a variable. */
  function NumberOf(lib: Library, st: Store, name: string): Result<Float, N.NumericError> {
    match Get(st, name)
    case None => Err(N.VariableNotFound(name))
    case Some(Int(i)) => Ok(Finite(i as real))
    case Some(Double(d)) => Ok(d)
    case Some(Bool(b)) => Ok(if b then Finite(1.0) else Finite(0.0))
    case Some(Str(s)) =>
      if Trimmed(s) != "" && lib.strtodWhole(Trimmed(s)).Some? then Ok(lib.strtodWhole(Trimmed(s)).value)
      else Err(N.VariableNotNumeric(name))
    case Some(Unknown) => Err(N.UnsupportedVariableType(name))
  }

  /** The number of a calculation, in the library's arithmetic. */
  function Worth(lib: Library, st: Store, t: G.Tree): Result<Float, N.NumericError> {
    match t
    case Numeral(text) => Ok(lib.numeral(text))
    case Variable(name) => NumberOf(lib, st, name)
    case Call(f, arg) =>
      var v :- Worth(lib, st, arg);
      if f == "sqrt" then Ok(lib.sqrt(v)) else Err(N.UnsupportedFunction(f))
    case Sign(minus, operand) =>
      var v :- Worth(lib, st, operand);
      Ok(if minus then lib.neg(v) else v)
    case Binary(op, left, right) =>
      var l :- Worth(lib, st, left);
      var r :- Worth(lib, st, right);
      Worked(lib, op, l, r)
  }

  function Worked(lib: Library, op: G.Op, l: Float, r: Float): Result<Float, N.NumericError> {
    match op
    case Add => Ok(lib.add(l, r))
    case Sub => Ok(lib.sub(l, r))
    case Mul => Ok(lib.mul(l, r))
    case Div => if lib.nearZero(r) then Err(N.DivisionByZero) else Ok(lib.div(l, r))
  }

  lemma {:induction false} WorthIsDenoted(lib: Library, st: Store, t: G.Tree)
    ensures G.Denote(NumericContext(lib, st), t) == Worth(lib, st, t)
  {
    match t
    case Numeral(_) =>
    case Variable(_) =>
    case Call(_, arg) => WorthIsDenoted(lib, st, arg);
    case Sign(_, operand) => WorthIsDenoted(lib, st, operand);
    case Binary(_, left, right) =>
      WorthIsDenoted(lib, st, left);
      WorthIsDenoted(lib, st, right);
  }

  /** The value of a calculated number: near an integer it is that INT, otherwise the DOUBLE. */
  predicate IsValueOf(lib: Library, v: Result<Value, N.NumericError>, n: Result<Float, N.NumericError>) {
    match n
    case Err(e) => v == Err(e)
    case Ok(x) => v.Ok? && (if lib.nearInteger(x) then v.value == Int(lib.roundToInt(x)) else v.value == Double(x))
  }

  /** The text of a calculation is worth its tree's number. */
  lemma CalculationMeans(lib: Library, st: Store, e: string, layout: G.Layout)
    requires G.IsExpression(layout) && Trimmed(e) == G.Print(layout)
    requires Unsettled(st, Trimmed(e)) && !Compares(Trimmed(e)) && lib.strtodWhole(Trimmed(e)) == None
    requires Calculates(Trimmed(e))
    ensures IsValueOf(lib, EvalValue(lib, st, e), Worth(lib, st, G.Strip(layout)))
  {
    SignsFound(Trimmed(e));
    G.ParseComplete(NumericContext(lib, st), layout, "");
    assert G.Print(layout) + "" == G.Print(layout);
    WorthIsDenoted(lib, st, G.Strip(layout));
  }

  // ----- two variables -----

  /** `x op y` with a blank on either side of the operator. */
  function Infix(x: string, op: string, y: string): string {
    x + " " + op + " " + y
  }

  lemma InfixChars(x: string, op: string, y: string, c: char)
    ensures c in Infix(x, op, y) <==> c in x || c in op || c in y || c == ' '
  {
  }

  lemma WordChars(name: string, c: char)
    requires (forall i | 0 <= i < |name| :: IsIdentChar(name[i])) && !IsIdentChar(c)
    ensures c !in name
  {
  }

  lemma PartNeeds(part: string, t: string)
    requires Occurs(part, t) && part != ""
    ensures part[0] in t
  {
    var a: string, b: string :| t == a + part + b;
    assert t[|a|] == part[0];
  }

  /** Names around an operator: a text that is settled by neither its ends nor its words. */
  lemma InfixForm(st: Store, x: string, op: string, y: string)
    requires G.IsIdentifier(x) && G.IsIdentifier(y) && op != "" && !Exists(st, Infix(x, op, y))
    ensures var t := Infix(x, op, y); Trimmed(t) == t && Unsettled(st, t)
  {
    var t := Infix(x, op, y);
    assert t[0] == x[0] && t[|t| - 1] == y[|y| - 1] && IsIdentChar(y[|y| - 1]);
    InfixChars(x, op, y, ' ');
    TrimmedSelf(t);
    assert ' ' in t;
    assert !SpellsTrue(t) && !SpellsFalse(t) by {
      assert SpellsTrue(t) || SpellsFalse(t) ==> ' ' !in t;
    }
  }

  function OpText(op: G.Op): string {
    [G.OpChar(op)]
  }

  lemma InfixCompares(x: string, op: G.Op, y: string)
    requires G.IsIdentifier(x) && G.IsIdentifier(y)
    ensures !Compares(Infix(x, OpText(op), y)) && Calculates(Infix(x, OpText(op), y))
  {
    var t := Infix(x, OpText(op), y);
    forall c | c == '<' || c == '>' || c == '=' || c == '!' || c == '&' || c == '|' ensures c !in t {
      InfixChars(x, OpText(op), y, c);
      WordChars(x, c);
      WordChars(y, c);
    }
    forall part | part in ["==", "!=", "&&", "||"] ensures !Occurs(part, t) {
      if Occurs(part, t) {
        PartNeeds(part, t);
      }
    }
    assert !Occurs("==", t) && !Occurs("!=", t) && !Occurs("&&", t) && !Occurs("||", t) by {
      assert "==" in ["==", "!=", "&&", "||"] && "!=" in ["==", "!=", "&&", "||"];
      assert "&&" in ["==", "!=", "&&", "||"] && "||" in ["==", "!=", "&&", "||"];
    }
    InfixChars(x, OpText(op), y, G.OpChar(op));
  }

  predicate IsNumber(v: Value, n: Float) {
    (v.Int? && n == Finite(v.i as real)) || (v.Double? && n == v.d) ||
      (v.Bool? && n == Finite(if v.b then 1.0 else 0.0))
  }

  function InfixLayout(x: string, op: G.Op, y: string): G.Layout {
    G.BinaryText(op, G.VariableText("", x), " ", G.VariableText(" ", y))
  }

  lemma InfixPrinted(x: string, op: G.Op, y: string)
    requires G.IsIdentifier(x) && G.IsIdentifier(y)
    ensures G.Print(InfixLayout(x, op, y)) == Infix(x, OpText(op), y)
    ensures G.IsExpression(InfixLayout(x, op, y))
    ensures G.Strip(InfixLayout(x, op, y)) == G.Binary(op, G.Variable(x), G.Variable(y))
  {
    var left, right := G.VariableText("", x), G.VariableText(" ", y);
    assert G.Print(left) == x && G.Print(right) == " " + y;
    assert x + " " + OpText(op) + (" " + y) == x + " " + OpText(op) + " " + y;
    assert G.IsFactor(left) && G.IsFactor(right);
    assert G.IsTerm(left) && G.IsTerm(right) && G.IsExpression(left);
  }

  lemma InfixWorth(lib: Library, st: Store, x: string, op: G.Op, y: string, l: Value, r: Value, a: Float, b: Float)
    requires Get(st, x) == Some(l) && Get(st, y) == Some(r) && IsNumber(l, a) && IsNumber(r, b)
    ensures Worth(lib, st, G.Binary(op, G.Variable(x), G.Variable(y))) == Worked(lib, op, a, b)
  {
    assert NumberOf(lib, st, x) == Ok(a) && NumberOf(lib, st, y) == Ok(b);
    assert Worth(lib, st, G.Variable(x)) == Ok(a) && Worth(lib, st, G.Variable(y)) == Ok(b);
  }

  lemma InfixCalculated(lib: Library, st: Store, x: string, op: G.Op, y: string, l: Value, r: Value, a: Float, b: Float)
    requires G.IsIdentifier(x) && G.IsIdentifier(y) && Get(st, x) == Some(l) && Get(st, y) == Some(r)
    requires IsNumber(l, a) && IsNumber(r, b)
    requires !Exists(st, Infix(x, OpText(op), y)) && lib.strtodWhole(Infix(x, OpText(op), y)) == None
    ensures IsValueOf(lib, EvalValue(lib, st, Infix(x, OpText(op), y)), Worked(lib, op, a, b))
  {
    InfixPrinted(x, op, y);
    InfixForm(st, x, OpText(op), y);
    InfixCompares(x, op, y);
    InfixWorth(lib, st, x, op, y, l, r, a, b);
    CalculationMeans(lib, st, Infix(x, OpText(op), y), InfixLayout(x, op, y));
  }

  /** `x - y`, and likewise the other three operators, over variables with numbers: the library's
      result, near an integer an INT, otherwise a DOUBLE. */
  lemma InfixMeans(lib: Library, st: Store, x: string, op: string, y: string, l: Value, r: Value, a: Float, b: Float)
    requires G.IsIdentifier(x) && G.IsIdentifier(y) && Get(st, x) == Some(l) && Get(st, y) == Some(r)
    requires IsNumber(l, a) && IsNumber(r, b) && (op == "+" || op == "-" || op == "*" || op == "/")
    requires !Exists(st, Infix(x, op, y)) && lib.strtodWhole(Infix(x, op, y)) == None
    ensures var v := EvalValue(lib, st, Infix(x, op, y));
      && (op == "+" ==> IsValueOf(lib, v, Ok(lib.add(a, b))))
      && (op == "-" ==> IsValueOf(lib, v, Ok(lib.sub(a, b))))
      && (op == "*" ==> IsValueOf(lib, v, Ok(lib.mul(a, b))))
      && (op == "/" && !lib.nearZero(b) ==> IsValueOf(lib, v, Ok(lib.div(a, b))))
      && (op == "/" && lib.nearZero(b) ==> v == Err(N.DivisionByZero))
  {
    var o := if op == "+" then G.Add else if op == "-" then G.Sub else if op == "*" then G.Mul else G.Div;
    assert OpText(o) == op;
    InfixCalculated(lib, st, x, o, y, l, r, a, b);
  }

  /** A comparison of two variables with finite numbers is worth its truth. */
  lemma ComparisonIsBool(lib: Library, st: Store, x: string, op: string, y: string, l: Value, r: Value, a: real,
                         b: real)
    requires IsName(x) && IsName(y) && Get(st, x) == Some(l) && Get(st, y) == Some(r)
    requires IsFloat(l, Finite(a)) && IsFloat(r, Finite(b)) && IsSigned(op)
    requires !Exists(st, Infix(x, op, y))
    ensures EvalValue(lib, st, Infix(x, op, y)) == Ok(Bool(NumbersHold(op, a, b)))
  {
    InfixForm(st, x, op, y);
    InfixSigned(x, op, y);
    ConditionMeans(lib, st, Infix(x, op, y));
    InfixEvaluated(lib, st, x, op, y, l, r, a, b);
  }

  predicate IsSigned(op: string) {
    op == "<" || op == ">" || op == "<=" || op == ">=" || op == "==" || op == "!="
  }

  lemma InfixEvaluated(lib: Library, st: Store, x: string, op: string, y: string, l: Value, r: Value, a: real, b: real)
    requires IsName(x) && IsName(y) && Get(st, x) == Some(l) && Get(st, y) == Some(r)
    requires IsFloat(l, Finite(a)) && IsFloat(r, Finite(b)) && IsSigned(op)
    ensures C.Evaluated(lib, st, Infix(x, op, y)).satisfied <==> NumbersHold(op, a, b)
  {
    InfixJoined(x, op, y);
    NumbersCompare(lib, st, x, op, y, ["", " ", " ", ""], l, r, Finite(a), Finite(b));
  }

  lemma InfixSigned(x: string, op: string, y: string)
    requires IsSigned(op)
    ensures Compares(Infix(x, op, y))
  {
    var t := Infix(x, op, y);
    assert t == (x + " ") + op + (" " + y);
    InfixChars(x, op, y, '<');
    InfixChars(x, op, y, '>');
  }

  lemma InfixJoined(x: string, op: string, y: string)
    ensures Joined([x, op, y], ["", " ", " ", ""]) == Infix(x, op, y)
  {
    var words, gaps := [x, op, y], ["", " ", " ", ""];
    assert words[1..] == [op, y] && words[1..][1..] == [y] && words[1..][1..][1..] == [];
    assert gaps[1..] == [" ", " ", ""] && gaps[1..][1..] == [" ", ""] && gaps[1..][1..][1..] == [""];
    assert Joined([y], [" ", ""]) == " " + y + "";
    assert Joined([op, y], [" ", " ", ""]) == " " + op + (" " + y + "");
    assert Joined(words, gaps) == "" + x + (" " + op + (" " + y + ""));
  }
}
