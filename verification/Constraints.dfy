/** `ConstraintEvaluator` (src/constraint/evaluator.cpp): recursive descent with evaluation
    over a token vector, and no short-circuiting. */
module Constraints {
  import opened Wrappers
  import opened Values
  import opened Variables
  import opened Tokens

  datatype EvalError =
    | VariableNotFound(name: string)
    | NotABool(name: string)
    | ExpectedValue
    | MissingParenthesis
    | UnexpectedEnd
    | UnexpectedToken

  datatype Parsed = Parsed(value: bool, rest: seq<Token>)

  type Outcome = Result<Parsed, EvalError>

  datatype Message =
    | EmptyExpression
    | AllSatisfied
    | NotSatisfied(expression: string)
    | EvaluationError(error: EvalError)

  datatype ConstraintResult = ConstraintResult(satisfied: bool, message: Message, failedConditions: seq<string>)

  // ----- the token vector as a function of its unread suffix -----

  /** The right-hand side of a comparison: any token is consumed, but only numbers, strings and
      variables have a value. */
  function Operand(lib: Library, st: Store, t: Token): Result<Value, EvalError> {
    match t
    case NumberToken(text) =>
      if '.' in text then
        var d := lib.stod(text);
        Ok(if d.Some? then Double(Finite(d.value)) else Str(text))
      else
        var i := lib.stoi(text);
        Ok(if i.Some? then Int(i.value.0) else Str(text))
    case StringToken(text) => Ok(Str(text))
    case IdentifierToken(name) =>
      var v := Get(st, name);
      if v.Some? then Ok(v.value) else Err(VariableNotFound(name))
    case _ => Ok(Unknown)
  }

  function NumberTruth(text: string): bool {
    text != "0" && text != "0.0"
  }

  function Comparison(lib: Library, st: Store, name: string, op: string, operand: Token): Result<bool, EvalError> {
    var right :- Operand(lib, st, operand);
    var left := Get(st, name);
    if left.None? then Err(VariableNotFound(name)) else Ok(Compare(lib, left.value, op, right))
  }

  function VariableTruth(st: Store, name: string): Result<bool, EvalError> {
    var v := Get(st, name);
    if v.None? then Err(VariableNotFound(name))
    else
      var b := AsBool(v.value);
      if b.None? then Err(NotABool(name)) else Ok(b.value)
  }

  function OrExpression(lib: Library, st: Store, ts: seq<Token>): (r: Outcome)
    ensures r.Ok? ==> |r.value.rest| < |ts|
    decreases |ts|, 4
  {
    var p :- AndExpression(lib, st, ts);
    OrLoop(lib, st, p.rest, p.value)
  }

  function OrLoop(lib: Library, st: Store, ts: seq<Token>, value: bool): (r: Outcome)
    ensures r.Ok? ==> |r.value.rest| <= |ts|
    decreases |ts|, 0
  {
    if ts != [] && ts[0].Or? then
      var p :- AndExpression(lib, st, ts[1..]);
      OrLoop(lib, st, p.rest, value || p.value)
    else Ok(Parsed(value, ts))
  }

  function AndExpression(lib: Library, st: Store, ts: seq<Token>): (r: Outcome)
    ensures r.Ok? ==> |r.value.rest| < |ts|
    decreases |ts|, 3
  {
    var p :- NotExpression(lib, st, ts);
    AndLoop(lib, st, p.rest, p.value)
  }

  function AndLoop(lib: Library, st: Store, ts: seq<Token>, value: bool): (r: Outcome)
    ensures r.Ok? ==> |r.value.rest| <= |ts|
    decreases |ts|, 0
  {
    if ts != [] && ts[0].And? then
      var p :- NotExpression(lib, st, ts[1..]);
      AndLoop(lib, st, p.rest, value && p.value)
    else Ok(Parsed(value, ts))
  }

  function NotExpression(lib: Library, st: Store, ts: seq<Token>): (r: Outcome)
    ensures r.Ok? ==> |r.value.rest| < |ts|
    decreases |ts|, 2
  {
    if ts != [] && ts[0].Not? then
      var p :- NotExpression(lib, st, ts[1..]);
      Ok(Parsed(!p.value, p.rest))
    else Primary(lib, st, ts)
  }

  function Primary(lib: Library, st: Store, ts: seq<Token>): (r: Outcome)
    ensures r.Ok? ==> |r.value.rest| < |ts|
    decreases |ts|, 1
  {
    if ts == [] then Err(UnexpectedEnd)
    else
      match ts[0]
      case LeftParen => Closed(OrExpression(lib, st, ts[1..]))
      case NumberToken(text) => Ok(Parsed(NumberTruth(text), ts[1..]))
      case IdentifierToken(name) => Named(lib, st, name, ts[1..])
      case _ => Err(UnexpectedToken)
  }

  function Closed(inner: Outcome): (r: Outcome)
    ensures r.Ok? ==> inner.Ok? && |r.value.rest| < |inner.value.rest|
  {
    var p :- inner;
    if p.rest != [] && p.rest[0].RightParen? then Ok(Parsed(p.value, p.rest[1..])) else Err(MissingParenthesis)
  }

  /** Behind an identifier: a comparison when an operator follows, else a truth value. */
  function Named(lib: Library, st: Store, name: string, ts: seq<Token>): (r: Outcome)
    ensures r.Ok? ==> |r.value.rest| <= |ts|
  {
    if ts != [] && ts[0].OperatorToken? then
      if |ts| == 1 then Err(ExpectedValue)
      else
        var b :- Comparison(lib, st, name, ts[0].op, ts[1]);
        Ok(Parsed(b, ts[2..]))
    else
      var b :- VariableTruth(st, name);
      Ok(Parsed(b, ts))
  }

  function Failing(message: Message, expression: string): ConstraintResult {
    ConstraintResult(false, message, [expression])
  }

  /** `evaluateDetailed`: tokens behind the parsed prefix are ignored, exceptions are caught. */
  function Evaluated(lib: Library, st: Store, expression: string): ConstraintResult {
    var tokens := Tokenized(expression);
    if tokens == [End] then Failing(EmptyExpression, expression)
    else
      match OrExpression(lib, st, tokens)
      case Ok(p) =>
        if p.value then ConstraintResult(true, AllSatisfied, [])
        else Failing(NotSatisfied(expression), expression)
      case Err(e) => Failing(EvaluationError(e), expression)
  }

  // ----- the object -----

  class ConstraintEvaluator {
    const lib: Library
    const vars: VariableManager

    constructor (lib: Library, vars: VariableManager)
      ensures this.lib == lib && this.vars == vars
    {
      this.lib := lib;
      this.vars := vars;
    }

    /** Does returning `r` with the cursor at `next` agree with `spec`? */
    static ghost predicate Agrees(tokens: seq<Token>, r: Result<bool, EvalError>, next: nat, spec: Outcome) {
      match spec
      case Ok(p) => r == Ok(p.value) && next <= |tokens| && tokens[next..] == p.rest
      case Err(e) => r == Err(e)
    }

    method Evaluate(expression: string) returns (satisfied: bool)
      ensures satisfied == Evaluated(lib, vars.Scopes(), expression).satisfied
    {
      var result := EvaluateDetailed(expression);
      return result.satisfied;
    }

    method EvaluateDetailed(expression: string) returns (result: ConstraintResult)
      ensures result == Evaluated(lib, vars.Scopes(), expression)
    {
      var tokens := Tokenize(expression);
      if |tokens| == 1 && tokens[0] == End {
        return ConstraintResult(false, EmptyExpression, [expression]);
      }
      var parsed, next := ParseExpression(tokens, 0);
      assert tokens[0..] == tokens;
      match parsed
      case Ok(satisfied) =>
        if satisfied {
          return ConstraintResult(true, AllSatisfied, []);
        }
        return ConstraintResult(false, NotSatisfied(expression), [expression]);
      case Err(e) =>
        return ConstraintResult(false, EvaluationError(e), [expression]);
    }

    method ParseExpression(tokens: seq<Token>, pos: nat) returns (r: Result<bool, EvalError>, next: nat)
      requires pos <= |tokens|
      ensures Agrees(tokens, r, next, OrExpression(lib, vars.Scopes(), tokens[pos..]))
      decreases |tokens| - pos, 4
    {
      var value;
      r, next := ParseAndExpression(tokens, pos);
      if r.Err? {
        return;
      }
      value := r.value;
      while next < |tokens| && tokens[next].Or?
        invariant next <= |tokens|
        invariant OrExpression(lib, vars.Scopes(), tokens[pos..]) == OrLoop(lib, vars.Scopes(), tokens[next..], value)
        decreases |tokens| - next
      {
        ghost var here := next;
        var right;
        right, next := ParseAndExpression(tokens, next + 1);
        assert tokens[here..][1..] == tokens[here + 1..];
        if right.Err? {
          return right, next;
        }
        value := value || right.value;
      }
      r := Ok(value);
    }

    method ParseAndExpression(tokens: seq<Token>, pos: nat) returns (r: Result<bool, EvalError>, next: nat)
      requires pos <= |tokens|
      ensures Agrees(tokens, r, next, AndExpression(lib, vars.Scopes(), tokens[pos..]))
      decreases |tokens| - pos, 3
    {
      var value;
      r, next := ParseNotExpression(tokens, pos);
      if r.Err? {
        return;
      }
      value := r.value;
      while next < |tokens| && tokens[next].And?
        invariant next <= |tokens|
        invariant AndExpression(lib, vars.Scopes(), tokens[pos..]) == AndLoop(lib, vars.Scopes(), tokens[next..], value)
        decreases |tokens| - next
      {
        ghost var here := next;
        var right;
        right, next := ParseNotExpression(tokens, next + 1);
        assert tokens[here..][1..] == tokens[here + 1..];
        if right.Err? {
          return right, next;
        }
        value := value && right.value;
      }
      r := Ok(value);
    }

    method ParseNotExpression(tokens: seq<Token>, pos: nat) returns (r: Result<bool, EvalError>, next: nat)
      requires pos <= |tokens|
      ensures Agrees(tokens, r, next, NotExpression(lib, vars.Scopes(), tokens[pos..]))
      decreases |tokens| - pos, 2
    {
      if pos < |tokens| && tokens[pos].Not? {
        assert tokens[pos..][1..] == tokens[pos + 1..];
        r, next := ParseNotExpression(tokens, pos + 1);
        if r.Ok? {
          r := Ok(!r.value);
        }
      } else {
        r, next := ParsePrimary(tokens, pos);
      }
    }

    method ParsePrimary(tokens: seq<Token>, pos: nat) returns (r: Result<bool, EvalError>, next: nat)
      requires pos <= |tokens|
      ensures Agrees(tokens, r, next, Primary(lib, vars.Scopes(), tokens[pos..]))
      decreases |tokens| - pos, 1
    {
      if pos >= |tokens| {
        return Err(UnexpectedEnd), pos;
      }
      next := pos + 1;
      assert tokens[pos..][1..] == tokens[next..];
      match tokens[pos]
      case LeftParen =>
        r, next := ParseExpression(tokens, next);
        if r.Ok? {
          if next >= |tokens| || !tokens[next].RightParen? {
            return Err(MissingParenthesis), next;
          }
          assert tokens[next..][1..] == tokens[next + 1..];
          next := next + 1;
        }
      case NumberToken(text) =>
        r := Ok(text != "0" && text != "0.0");
      case IdentifierToken(name) =>
        r, next := ParseNamed(tokens, next, name);
      case _ =>
        r := Err(UnexpectedToken);
    }

    /** The identifier branch of `parsePrimary`. */
    method ParseNamed(tokens: seq<Token>, pos: nat, name: string) returns (r: Result<bool, EvalError>, next: nat)
      requires pos <= |tokens|
      ensures Agrees(tokens, r, next, Named(lib, vars.Scopes(), name, tokens[pos..]))
    {
      next := pos;
      if pos < |tokens| && tokens[pos].OperatorToken? {
        var op := tokens[pos].op;
        next := next + 1;
        if next >= |tokens| {
          return Err(ExpectedValue), next;
        }
        var right := Operand(lib, vars.Scopes(), tokens[next]);
        if right.Err? {
          return Err(right.error), next;
        }
        next := next + 1;
        var left := Get(vars.Scopes(), name);
        if left.None? {
          return Err(VariableNotFound(name)), next;
        }
        assert tokens[pos..][2..] == tokens[next..];
        return Ok(Compare(lib, left.value, op, right.value)), next;
      }
      r := VariableTruth(vars.Scopes(), name);
    }
  }
}
