/** `NumericExpressionParser` (src/executor/generic_executor.cpp): recursive descent
    with evaluation over a character cursor.

    The carrier `R` of the numbers and every operation on it are parameters, so what is
    proved holds for IEEE doubles with their rounding, infinities and NaNs. */
module NumericExpression {
  import opened Wrappers
  import opened Text

  datatype NumericError =
    | TrailingCharacters(rest: string)
    | MissingParenthesis
    | MissingCallParenthesis(function_: string)
    | UnsupportedFunction(function_: string)
    | UnexpectedEnd
    | UnexpectedToken
    | NumberExpected
    | DivisionByZero
    | VariableNotFound(name: string)
    | VariableNotNumeric(name: string)
    | UnsupportedVariableType(name: string)

  /** The arithmetic of `double`, strtod's values, and the variable store behind
      `variableToDouble`. */
  datatype Context<!R> = Context(
    add: (R, R) -> R,
    sub: (R, R) -> R,
    mul: (R, R) -> R,
    div: (R, R) -> R,
    neg: R -> R,
    sqrt: R -> R,
    nearZero: R -> bool,
    numeral: string -> R,
    variable: string -> Result<R, NumericError>)

  datatype Parsed<R> = Parsed(value: R, rest: string)

  type Outcome<R> = Result<Parsed<R>, NumericError>

  // ----- the text as a function: what each routine returns and where it leaves the cursor -----

  predicate Starts(s: string, c: char) {
    s != "" && s[0] == c
  }

  function Expression<R>(c: Context<R>, s: string): (r: Outcome<R>)
    ensures r.Ok? ==> |r.value.rest| < |s|
    decreases |s|, 3
  {
    var t :- Term(c, s);
    ExpressionLoop(c, t.rest, t.value)
  }

  function ExpressionLoop<R>(c: Context<R>, s: string, value: R): (r: Outcome<R>)
    ensures r.Ok? ==> |r.value.rest| <= |s|
    decreases |s|, 0
  {
    var q := SkipSpaces(s);
    if Starts(q, '+') then
      var t :- Term(c, q[1..]);
      ExpressionLoop(c, t.rest, c.add(value, t.value))
    else if Starts(q, '-') then
      var t :- Term(c, q[1..]);
      ExpressionLoop(c, t.rest, c.sub(value, t.value))
    else Ok(Parsed(value, q))
  }

  function Term<R>(c: Context<R>, s: string): (r: Outcome<R>)
    ensures r.Ok? ==> |r.value.rest| < |s|
    decreases |s|, 2
  {
    var f :- Factor(c, s);
    TermLoop(c, f.rest, f.value)
  }

  function TermLoop<R>(c: Context<R>, s: string, value: R): (r: Outcome<R>)
    ensures r.Ok? ==> |r.value.rest| <= |s|
    decreases |s|, 0
  {
    var q := SkipSpaces(s);
    if Starts(q, '*') then
      var f :- Factor(c, q[1..]);
      TermLoop(c, f.rest, c.mul(value, f.value))
    else if Starts(q, '/') then
      var f :- Factor(c, q[1..]);
      if c.nearZero(f.value) then Err(DivisionByZero)
      else TermLoop(c, f.rest, c.div(value, f.value))
    else Ok(Parsed(value, q))
  }

  function Factor<R>(c: Context<R>, s: string): (r: Outcome<R>)
    ensures r.Ok? ==> |r.value.rest| < |s|
    decreases |s|, 1
  {
    var q := SkipSpaces(s);
    if Starts(q, '+') then Signed(c, false, Factor(c, q[1..]))
    else if Starts(q, '-') then Signed(c, true, Factor(c, q[1..]))
    else if Starts(q, '(') then Closed(Expression(c, q[1..]), MissingParenthesis)
    else if q == "" then Err(UnexpectedEnd)
    else if IsDigit(q[0]) || q[0] == '.' then Number(c, q)
    else if IsIdentStart(q[0]) then
      var n := Span(IsIdentChar, q);
      Named(c, q[..n], SkipSpaces(q[n..]))
    else Err(UnexpectedToken)
  }

  function Signed<R>(c: Context<R>, minus: bool, operand: Outcome<R>): (r: Outcome<R>)
    ensures r.Ok? ==> operand.Ok? && r.value.rest == operand.value.rest
  {
    var p :- operand;
    Ok(Parsed(if minus then c.neg(p.value) else p.value, p.rest))
  }

  /** What `consume(')')` makes of the result of the enclosed expression. */
  function Closed<R>(inner: Outcome<R>, missing: NumericError): (r: Outcome<R>)
    ensures r.Ok? ==> inner.Ok? && |r.value.rest| < |inner.value.rest|
  {
    var p :- inner;
    var close := SkipSpaces(p.rest);
    if Starts(close, ')') then Ok(Parsed(p.value, close[1..])) else Err(missing)
  }

  function Number<R>(c: Context<R>, q: string): (r: Outcome<R>)
    ensures r.Ok? ==> |r.value.rest| < |q|
  {
    var n := StrtodLength(q);
    if n == 0 then Err(NumberExpected) else Ok(Parsed(c.numeral(q[..n]), q[n..]))
  }

  /** A variable, or a call when a parenthesis follows the name. */
  function Named<R>(c: Context<R>, name: string, after: string): (r: Outcome<R>)
    ensures r.Ok? ==> |r.value.rest| <= |after|
    decreases |after|, 4
  {
    if Starts(after, '(') then
      var p :- Closed(Expression(c, after[1..]), MissingCallParenthesis(name));
      if name == "sqrt" then Ok(Parsed(c.sqrt(p.value), p.rest)) else Err(UnsupportedFunction(name))
    else
      var v :- c.variable(name);
      Ok(Parsed(v, after))
  }

  function Parse<R>(c: Context<R>, s: string): Result<R, NumericError> {
    var e :- Expression(c, s);
    var rest := SkipSpaces(e.rest);
    if rest == "" then Ok(e.value) else Err(TrailingCharacters(rest))
  }

  // ----- the object with its moving cursor -----

  class NumericExpressionParser<R> {
    const expression: string
    const context: Context<R>
    var pos: nat

    constructor (expression: string, context: Context<R>)
      ensures this.expression == expression && this.context == context && pos == 0
    {
      this.expression := expression;
      this.context := context;
      pos := 0;
    }

    ghost predicate Valid()
      reads this
    {
      pos <= |expression|
    }

    /** The text the cursor has not passed yet. */
    ghost function Remaining(): string
      requires Valid()
      reads this
    {
      expression[pos..]
    }

    /** Does returning `r` here, with the cursor where it is, agree with `spec`? */
    ghost predicate Agrees(r: Result<R, NumericError>, spec: Outcome<R>)
      requires Valid()
      reads this
    {
      match spec
      case Ok(p) => r == Ok(p.value) && Remaining() == p.rest
      case Err(e) => r == Err(e)
    }

    method Run() returns (r: Result<R, NumericError>)
      requires pos == 0
      modifies this
      ensures r == Parse(context, expression)
    {
      assert Remaining() == expression;
      var value :- ParseExpression();
      SkipBlanks();
      if pos != |expression| {
        return Err(TrailingCharacters(expression[pos..]));
      }
      return Ok(value);
    }

    method SkipBlanks()
      requires Valid()
      modifies this
      ensures Valid() && pos >= old(pos)
      ensures Remaining() == SkipSpaces(old(Remaining()))
    {
      while pos < |expression| && IsSpace(expression[pos])
        invariant old(pos) <= pos <= |expression|
        invariant SkipSpaces(Remaining()) == SkipSpaces(old(Remaining()))
      {
        assert Remaining()[1..] == expression[pos + 1..];
        pos := pos + 1;
      }
    }

    method Consume(expected: char) returns (found: bool)
      requires Valid()
      modifies this
      ensures Valid() && pos >= old(pos)
      ensures var q := SkipSpaces(old(Remaining()));
        && found == Starts(q, expected)
        && Remaining() == (if found then q[1..] else q)
        && (found ==> pos > old(pos))
    {
      SkipBlanks();
      if pos < |expression| && expression[pos] == expected {
        assert Remaining()[1..] == expression[pos + 1..];
        pos := pos + 1;
        return true;
      }
      return false;
    }

    method ParseIdentifier() returns (name: string)
      requires Valid() && Remaining() != "" && IsIdentStart(Remaining()[0])
      modifies this
      ensures Valid() && pos > old(pos)
      ensures var n := Span(IsIdentChar, old(Remaining()));
        name == old(Remaining())[..n] && Remaining() == old(Remaining())[n..]
    {
      var start := pos;
      pos := pos + 1;
      while pos < |expression| && IsIdentChar(expression[pos])
        invariant start < pos <= |expression|
        invariant forall i | start <= i < pos :: IsIdentChar(expression[i])
      {
        pos := pos + 1;
      }
      SpanUnique(IsIdentChar, old(Remaining()), pos - start);
      assert old(Remaining())[..pos - start] == expression[start..pos];
      return expression[start..pos];
    }

    method ParseNumber() returns (r: Result<R, NumericError>)
      requires Valid() && Remaining() != "" && !IsSpace(Remaining()[0])
      modifies this
      ensures Valid() && pos >= old(pos)
      ensures var q := old(Remaining()); var n := StrtodLength(q);
        if n == 0 then r == Err(NumberExpected)
        else r == Ok(context.numeral(q[..n])) && Remaining() == q[n..]
    {
      var q := expression[pos..];
      var n := StrtodLength(q);
      if n == 0 {
        return Err(NumberExpected);
      }
      pos := pos + n;
      return Ok(context.numeral(q[..n]));
    }

    method ParseFactor() returns (r: Result<R, NumericError>)
      requires Valid()
      modifies this
      ensures Valid() && pos >= old(pos)
      ensures Agrees(r, Factor(context, old(Remaining())))
      decreases |expression| - pos, 1
    {
      var found := Consume('+');
      if found {
        r := ParseFactor();
        return;
      }
      found := Consume('-');
      if found {
        var operand :- ParseFactor();
        return Ok(context.neg(operand));
      }
      found := Consume('(');
      if found {
        var value :- ParseExpression();
        var closed := Consume(')');
        return if closed then Ok(value) else Err(MissingParenthesis);
      }
      if pos >= |expression| {
        return Err(UnexpectedEnd);
      }
      var ch := expression[pos];
      if IsDigit(ch) || ch == '.' {
        r := ParseNumber();
        return;
      }
      if IsIdentStart(ch) {
        var identifier := ParseIdentifier();
        r := ParseNamed(identifier);
        return;
      }
      return Err(UnexpectedToken);
    }

    /** The part of `parseFactor` behind an identifier: a call or a variable. */
    method ParseNamed(identifier: string) returns (r: Result<R, NumericError>)
      requires Valid()
      modifies this
      ensures Valid() && pos >= old(pos)
      ensures Agrees(r, Named(context, identifier, SkipSpaces(old(Remaining()))))
      decreases |expression| - pos, 4
    {
      var found := Consume('(');
      if found {
        var arg :- ParseExpression();
        var closed := Consume(')');
        if !closed {
          return Err(MissingCallParenthesis(identifier));
        }
        if identifier == "sqrt" {
          return Ok(context.sqrt(arg));
        }
        return Err(UnsupportedFunction(identifier));
      }
      r := context.variable(identifier);
    }

    method ParseTerm() returns (r: Result<R, NumericError>)
      requires Valid()
      modifies this
      ensures Valid() && pos >= old(pos)
      ensures Agrees(r, Term(context, old(Remaining())))
      decreases |expression| - pos, 2
    {
      var value :- ParseFactor();
      while true
        invariant Valid() && pos >= old(pos)
        invariant Term(context, old(Remaining())) == TermLoop(context, Remaining(), value)
        decreases |expression| - pos
      {
        var times := Consume('*');
        if times {
          var rhs :- ParseFactor();
          value := context.mul(value, rhs);
        } else {
          var over := Consume('/');
          if over {
            var rhs :- ParseFactor();
            if context.nearZero(rhs) {
              return Err(DivisionByZero);
            }
            value := context.div(value, rhs);
          } else {
            break;
          }
        }
      }
      return Ok(value);
    }

    method ParseExpression() returns (r: Result<R, NumericError>)
      requires Valid()
      modifies this
      ensures Valid() && pos >= old(pos)
      ensures Agrees(r, Expression(context, old(Remaining())))
      decreases |expression| - pos, 3
    {
      var value :- ParseTerm();
      while true
        invariant Valid() && pos >= old(pos)
        invariant Expression(context, old(Remaining())) == ExpressionLoop(context, Remaining(), value)
        decreases |expression| - pos
      {
        var plus := Consume('+');
        if plus {
          var rhs :- ParseTerm();
          value := context.add(value, rhs);
        } else {
          var minus := Consume('-');
          if minus {
            var rhs :- ParseTerm();
            value := context.sub(value, rhs);
          } else {
            break;
          }
        }
      }
      return Ok(value);
    }
  }
}
