/** `GenericExecutor::evaluateValueExpression` (src/executor/generic_executor.cpp): the
    right-hand side of a command parameter, through either parser. */
module ValueExpressions {
  import opened Wrappers
  import opened Text
  import opened Values
  import opened Variables
  import C = Constraints
  import N = NumericExpression

  predicate HasComparison(t: string) {
    Contains(t, "==") || Contains(t, "!=") || Contains(t, ">=") || Contains(t, "<=") ||
    '>' in t || '<' in t || Contains(t, "&&") || Contains(t, "||")
  }

  predicate HasArithmetic(t: string) {
    '+' in t || '-' in t || '*' in t || '/' in t || Contains(t, "sqrt")
  }

  /** `tryParseNumberLiteral`. */
  function NumberLiteral(lib: Library, t: string): Option<Float> {
    if t == "" then None else lib.strtodWhole(t)
  }

  /** `variableToDouble`. */
  function VariableToDouble(lib: Library, st: Store, name: string): Result<Float, N.NumericError> {
    var v := Get(st, name);
    if v.None? then Err(N.VariableNotFound(name))
    else
      match v.value
      case Int(i) => Ok(Finite(i as real))
      case Double(d) => Ok(d)
      case Bool(b) => Ok(Finite(if b then 1.0 else 0.0))
      case Str(s) =>
        var parsed := NumberLiteral(lib, Trimmed(s));
        if parsed.Some? then Ok(parsed.value) else Err(N.VariableNotNumeric(name))
      case Unknown => Err(N.UnsupportedVariableType(name))
  }

  function NumericContext(lib: Library, st: Store): N.Context<Float> {
    N.Context(lib.add, lib.sub, lib.mul, lib.div, lib.neg, lib.sqrt, lib.nearZero, lib.numeral,
              name => VariableToDouble(lib, st, name))
  }

  predicate IsQuoted(t: string) {
    |t| >= 2 && t[0] == t[|t| - 1] && (t[0] == '\"' || t[0] == '\'')
  }

  function Number(lib: Library, v: Float): Value {
    if lib.nearInteger(v) then Int(lib.roundToInt(v)) else Double(v)
  }

  function Literal(lib: Library, t: string, v: Float): Value {
    if '.' !in t && 'e' !in t && 'E' !in t then Int(lib.truncate(v)) else Double(v)
  }

  /** The interpretations of a non-empty trimmed text, in the order they are tried. */
  function Interpreted(lib: Library, st: Store, t: string): Result<Value, N.NumericError>
    requires t != ""
  {
    if IsQuoted(t) then Ok(Str(t[1..|t| - 1]))
    else if IsTrueWord(t) then Ok(Bool(true))
    else if IsFalseWord(t) then Ok(Bool(false))
    else if Exists(st, t) then Ok(Get(st, t).value)
    else if HasComparison(t) then Ok(Bool(C.Evaluated(lib, st, t).satisfied))
    else if NumberLiteral(lib, t).Some? then Ok(Literal(lib, t, NumberLiteral(lib, t).value))
    else if HasArithmetic(t) then
      var v :- N.Parse(NumericContext(lib, st), t);
      Ok(Number(lib, v))
    else Ok(Str(t))
  }

  function EvalValue(lib: Library, st: Store, expression: string): Result<Value, N.NumericError> {
    var t := Trimmed(expression);
    if t == "" then Ok(Str("")) else Interpreted(lib, st, t)
  }
}
