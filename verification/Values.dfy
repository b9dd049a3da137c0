/** `VariableValue` (src/executor/variable_manager.h) and the typed comparison of
    `ConstraintEvaluator::compare` (src/constraint/evaluator.cpp). */
module Values {
  import opened Wrappers
  import opened Text

  /** A `double`. Finite values are compared exactly; rounding is left to the library calls. */
  datatype Float = Finite(r: real) | Infinity(positive: bool) | NaN

  /** A default-constructed value has type UNKNOWN. */
  datatype Value =
    | Int(i: int)
    | Double(d: Float)
    | Str(s: string)
    | Bool(b: bool)
    | Unknown

  /** The C++ library calls: every theorem holds for any behaviour of them. `None` stands for
      a conversion that fails or throws. `stoi` also returns how many characters it used; `stod`
      converts the longest prefix of a text of digits and points, and overflow makes it throw;
      `stodWhole` and `strtodWhole` succeed on whole texts only. */
  datatype Library = Library(
    toString: Float -> string,
    stoi: string -> Option<(int, nat)>,
    stod: string -> Option<real>,
    stodWhole: string -> Option<Float>,
    strtodWhole: string -> Option<Float>,
    truncate: Float -> int,
    nearInteger: Float -> bool,
    roundToInt: Float -> int,
    numeral: string -> Float,
    add: (Float, Float) -> Float,
    sub: (Float, Float) -> Float,
    mul: (Float, Float) -> Float,
    div: (Float, Float) -> Float,
    neg: Float -> Float,
    sqrt: Float -> Float,
    nearZero: Float -> bool)

  const EPSILON := 0.000000001

  predicate IsTrueWord(t: string) {
    t == "true" || t == "TRUE" || t == "True"
  }

  predicate IsFalseWord(t: string) {
    t == "false" || t == "FALSE" || t == "False"
  }

  /** The conversion of one parameter in `VariableManager::setFromParams`. */
  function ConvertParam(lib: Library, text: string): (v: Value)
    ensures v != Unknown
  {
    var asInt := lib.stoi(text);
    if asInt.Some? && asInt.value.1 == |text| then Int(asInt.value.0)
    else
      var asDouble := lib.stodWhole(text);
      if asDouble.Some? then Double(asDouble.value)
      else if IsTrueWord(text) then Bool(true)
      else if IsFalseWord(text) then Bool(false)
      else Str(text)
  }

  /** A parameter is an INT exactly when `stoi` used all of its text, a DOUBLE when only `stod`
      did, a BOOL when it is one of the words for true and false, and a text otherwise. */
  lemma ConvertParamMeans(lib: Library, text: string)
    ensures var v, i, d := ConvertParam(lib, text), lib.stoi(text), lib.stodWhole(text);
      var whole := i.Some? && i.value.1 == |text|;
      && (v.Int? <==> whole) && (v.Int? ==> v.i == i.value.0)
      && (v.Double? <==> !whole && d.Some?) && (v.Double? ==> v.d == d.value)
      && (v == Bool(true) <==> !whole && d.None? && (text == "true" || text == "TRUE" || text == "True"))
      && (v == Bool(false) <==> !whole && d.None? && (text == "false" || text == "FALSE" || text == "False"))
      && (v.Str? ==> v.s == text) && v != Unknown
  {
  }

  /** `stoi` reads the 12 of 12.75 and leaves the rest, so this is a DOUBLE. */
  lemma FractionIsDouble(lib: Library)
    requires lib.stoi("12.75") == Some((12, 2)) && lib.stodWhole("12.75") == Some(Finite(12.75))
    ensures ConvertParam(lib, "12.75") == Double(Finite(12.75))
  {
    ConvertParamMeans(lib, "12.75");
  }

  // ----- conversions -----

  function AsDouble(v: Value): Option<Float> {
    match v
    case Double(d) => Some(d)
    case Int(i) => Some(Finite(i as real))
    case _ => None
  }

  function AsString(lib: Library, v: Value): string {
    match v
    case Str(s) => s
    case Int(i) => IntToString(i)
    case Double(d) => lib.toString(d)
    case Bool(b) => if b then "true" else "false"
    case Unknown => ""
  }

  function AsBool(v: Value): Option<bool> {
    match v
    case Bool(b) => Some(b)
    case Int(i) => Some(i != 0)
    case Str(s) => Some(s != "")
    case _ => None
  }

  // ----- compare -----

  function Abs(x: real): real {
    if x < 0.0 then -x else x
  }

  /** The lambda `toBool` of `compare`; unlike `asBool` it is total. */
  function ToBool(v: Value): bool {
    match v
    case Bool(b) => b
    case Int(i) => i != 0
    case Double(d) => d.Infinity? || (d.Finite? && Abs(d.r) > EPSILON)
    case Str(s) => IsTrueWord(s) || (!IsFalseWord(s) && s != "")
    case Unknown => false
  }

  predicate IsRelational(op: string) {
    op == "==" || op == "=" || op == "!=" || op == "<" || op == ">" || op == "<=" || op == ">="
  }

  function CompareBool(l: bool, op: string, r: bool): bool {
    if op == "==" || op == "=" then l == r
    else if op == "!=" then l != r
    else if op == "<" then !l && r
    else if op == ">" then l && !r
    else if op == "<=" then !l || r
    else l || !r
  }

  function CompareString(l: string, op: string, r: string): bool {
    if op == "==" || op == "=" then l == r
    else if op == "!=" then l != r
    else if op == "<" then StrLess(l, r)
    else if op == ">" then StrLess(r, l)
    else if op == "<=" then !StrLess(r, l)
    else !StrLess(l, r)
  }

  /** `l < r` of IEEE 754: false as soon as a NaN is involved. */
  predicate Less(l: Float, r: Float) {
    if l.Finite? && r.Finite? then l.r < r.r
    else !l.NaN? && !r.NaN? && l != r && (l == Infinity(false) || r == Infinity(true))
  }

  /** `abs(l - r) < epsilon`: the difference of equal infinities is NaN. */
  predicate Near(l: Float, r: Float) {
    l.Finite? && r.Finite? && Abs(l.r - r.r) < EPSILON
  }

  /** `abs(l - r) >= epsilon`. */
  predicate Apart(l: Float, r: Float) {
    if l.Finite? && r.Finite? then Abs(l.r - r.r) >= EPSILON else !l.NaN? && !r.NaN? && l != r
  }

  function CompareNumber(l: Float, op: string, r: Float): bool {
    if op == "==" || op == "=" then Near(l, r)
    else if op == "!=" then Apart(l, r)
    else if op == "<" then Less(l, r)
    else if op == ">" then Less(r, l)
    else if op == "<=" then !l.NaN? && !r.NaN? && !Less(r, l)
    else !l.NaN? && !r.NaN? && !Less(l, r)
  }

  /** `compare`: BOOL coerces first, then STRING, then numbers; anything else is false. */
  function Compare(lib: Library, l: Value, op: string, r: Value): bool {
    if !IsRelational(op) then false
    else if l.Bool? || r.Bool? then CompareBool(ToBool(l), op, ToBool(r))
    else if l.Str? || r.Str? then CompareString(AsString(lib, l), op, AsString(lib, r))
    else if AsDouble(l).Some? && AsDouble(r).Some? then CompareNumber(AsDouble(l).value, op, AsDouble(r).value)
    else false
  }

  /** The operator of the opposite comparison. */
  function Complement(op: string): string
    requires IsRelational(op)
  {
    if op == "==" || op == "=" then "!="
    else if op == "!=" then "=="
    else if op == "<" then ">="
    else if op == ">" then "<="
    else if op == "<=" then ">"
    else "<"
  }

  predicate IsEquality(op: string) {
    op == "==" || op == "=" || op == "!="
  }

  /** Numbers between which `op` or its opposite holds: no NaN, and for the tests of equality
      not twice the same infinity. */
  predicate Ordered(l: Float, op: string, r: Float) {
    !l.NaN? && !r.NaN? && (IsEquality(op) ==> l.Finite? || l != r)
  }

  /** Operands between which `op` or its opposite holds. */
  predicate Comparable(l: Value, op: string, r: Value) {
    || l.Bool? || r.Bool? || l.Str? || r.Str?
    || (AsDouble(l).Some? && AsDouble(r).Some? && Ordered(AsDouble(l).value, op, AsDouble(r).value))
  }

  /** Negating a comparison is comparing with the complementary operator, exactly when the
      operands are comparable: then one of the two is true, otherwise neither ever is. */
  lemma ComplementNegates(lib: Library, l: Value, op: string, r: Value)
    requires IsRelational(op)
    ensures Compare(lib, l, Complement(op), r) == !Compare(lib, l, op, r) <==> Comparable(l, op, r)
    ensures !Comparable(l, op, r) ==> !Compare(lib, l, op, r) && !Compare(lib, l, Complement(op), r)
  {
    if !(l.Bool? || r.Bool?) && (l.Str? || r.Str?) {
      StrTrichotomy(AsString(lib, l), AsString(lib, r));
    }
  }

  /** The tolerance makes `==` overlap `<`: numbers have no trichotomy here. */
  lemma EqualAndLess(lib: Library)
    ensures Compare(lib, Double(Finite(1.0)), "==", Double(Finite(1.0000000001)))
    ensures Compare(lib, Double(Finite(1.0)), "<", Double(Finite(1.0000000001)))
  {
  }

  /** When it does hold: exactly when the numbers are the same finite one or at least the
      tolerance apart. */
  lemma NumericTrichotomy(l: Float, r: Float)
    ensures (Apart(l, r) || (l.Finite? && l == r)) <==>
            ((CompareNumber(l, "==", r) && !CompareNumber(l, "<", r) && !CompareNumber(l, ">", r)) ||
             (!CompareNumber(l, "==", r) && CompareNumber(l, "<", r) != CompareNumber(l, ">", r)))
  {
  }
}
