/** Rewritings of conditions that preserve evaluation, even when a leaf fails. */
module ConditionRewriting {
  import opened Wrappers
  import opened Values
  import opened Variables
  import opened Tokens
  import opened TokenPrinting
  import opened Constraints
  import opened ConditionGrammar

  /** Negation normal form of `c`, or of its negation. */
  function Nnf(c: Condition, negate: bool): Condition {
    match c
    case Truth(_) => if negate then Negation(c) else c
    case Flag(_) => if negate then Negation(c) else c
    case Comparing(name, op, operand) =>
      if !negate then c
      else if IsRelational(op) then Comparing(name, Complement(op), operand)
      else Negation(c)
    case Group(inner) => Nnf(inner, negate)
    case Negation(d) => Nnf(d, !negate)
    case Conjunction(l, r) =>
      if negate then Disjunction(Nnf(l, true), Nnf(r, true)) else Conjunction(Nnf(l, false), Nnf(r, false))
    case Disjunction(l, r) =>
      if negate then Conjunction(Nnf(l, true), Nnf(r, true)) else Disjunction(Nnf(l, false), Nnf(r, false))
  }

  predicate NegationsAtLeaves(c: Condition) {
    match c
    case Group(inner) => NegationsAtLeaves(inner)
    case Negation(d) => d.Truth? || d.Flag? || (d.Comparing? && !IsRelational(d.op))
    case Conjunction(l, r) => NegationsAtLeaves(l) && NegationsAtLeaves(r)
    case Disjunction(l, r) => NegationsAtLeaves(l) && NegationsAtLeaves(r)
    case _ => true
  }

  function Negated(v: Result<bool, EvalError>, negate: bool): Result<bool, EvalError> {
    var b :- v;
    Ok(b != negate)
  }

  /** If both sides of a comparison have values, the operator or its opposite holds of them. */
  predicate Complements(lib: Library, st: Store, name: string, op: string, t: Token) {
    var right, left := Operand(lib, st, t), Get(st, name);
    right.Ok? && left.Some? ==> Comparable(left.value, op, right.value)
  }

  /** A comparison may be replaced by its opposite exactly then. */
  lemma ComparingComplement(lib: Library, st: Store, name: string, op: string, t: Token)
    requires IsRelational(op)
    ensures Comparison(lib, st, name, Complement(op), t) == Negated(Comparison(lib, st, name, op, t), true) <==>
            Complements(lib, st, name, op, t)
  {
    var right, left := Operand(lib, st, t), Get(st, name);
    if right.Ok? && left.Some? {
      ComplementNegates(lib, left.value, op, right.value);
    }
  }

  /** Every comparison that normal form turns round complements. */
  predicate Turnable(lib: Library, st: Store, c: Condition, negate: bool) {
    match c
    case Comparing(name, op, t) => negate && IsRelational(op) ==> Complements(lib, st, name, op, t)
    case Group(inner) => Turnable(lib, st, inner, negate)
    case Negation(d) => Turnable(lib, st, d, !negate)
    case Conjunction(l, r) => Turnable(lib, st, l, negate) && Turnable(lib, st, r, negate)
    case Disjunction(l, r) => Turnable(lib, st, l, negate) && Turnable(lib, st, r, negate)
    case _ => true
  }

  /** A store of INT, finite DOUBLE, BOOL and STRING values. */
  ghost predicate Plain(st: Store) {
    forall k | Exists(st, k) :: PlainValue(Get(st, k).value)
  }

  predicate PlainValue(v: Value) {
    v != Unknown && (v.Double? ==> v.d.Finite?)
  }

  /** Every comparison has a number, a string or a variable on its right. */
  predicate HasOperands(c: Condition) {
    match c
    case Comparing(_, _, t) => t.NumberToken? || t.StringToken? || t.IdentifierToken?
    case Group(inner) => HasOperands(inner)
    case Negation(d) => HasOperands(d)
    case Conjunction(l, r) => HasOperands(l) && HasOperands(r)
    case Disjunction(l, r) => HasOperands(l) && HasOperands(r)
    case _ => true
  }

  /** The variables that comparisons read. */
  function Compared(c: Condition): set<string> {
    match c
    case Comparing(name, _, t) => if t.IdentifierToken? then {name, t.name} else {name}
    case Group(inner) => Compared(inner)
    case Negation(d) => Compared(d)
    case Conjunction(l, r) => Compared(l) + Compared(r)
    case Disjunction(l, r) => Compared(l) + Compared(r)
    case _ => {}
  }

  ghost predicate PlainOn(st: Store, names: set<string>) {
    forall k | k in names && Exists(st, k) :: PlainValue(Get(st, k).value)
  }

  /** If the variables compared are plain, all comparisons complement. */
  lemma {:induction false} ComparedTurnable(lib: Library, st: Store, c: Condition, negate: bool)
    requires PlainOn(st, Compared(c)) && HasOperands(c)
    ensures Turnable(lib, st, c, negate)
  {
    match c
    case Comparing(name, op, t) =>
      assert name in Compared(c) && (t.IdentifierToken? ==> t.name in Compared(c));
    case Group(inner) => ComparedTurnable(lib, st, inner, negate);
    case Negation(d) => ComparedTurnable(lib, st, d, !negate);
    case Conjunction(l, r) =>
      assert Compared(l) <= Compared(c) && Compared(r) <= Compared(c);
      ComparedTurnable(lib, st, l, negate);
      ComparedTurnable(lib, st, r, negate);
    case Disjunction(l, r) =>
      assert Compared(l) <= Compared(c) && Compared(r) <= Compared(c);
      ComparedTurnable(lib, st, l, negate);
      ComparedTurnable(lib, st, r, negate);
    case _ =>
  }

  /** In a plain store they always do. */
  lemma PlainIsTurnable(lib: Library, st: Store, c: Condition, negate: bool)
    requires Plain(st) && HasOperands(c)
    ensures Turnable(lib, st, c, negate)
  {
    ComparedTurnable(lib, st, c, negate);
  }

  /** Negation normal form keeps the denotation, including which error is reported. */
  lemma {:induction false} NnfDenotes(lib: Library, st: Store, c: Condition, negate: bool)
    requires Turnable(lib, st, c, negate)
    ensures Denote(lib, st, Nnf(c, negate)) == Negated(Denote(lib, st, c), negate)
    ensures NegationsAtLeaves(Nnf(c, negate))
  {
    match c
    case Truth(_) =>
    case Flag(_) =>
    case Comparing(name, op, operand) =>
      if negate && IsRelational(op) {
        ComparingComplement(lib, st, name, op, operand);
      }
    case Group(inner) => NnfDenotes(lib, st, inner, negate);
    case Negation(d) => NnfDenotes(lib, st, d, !negate);
    case Conjunction(l, r) =>
      NnfDenotes(lib, st, l, negate);
      NnfDenotes(lib, st, r, negate);
    case Disjunction(l, r) =>
      NnfDenotes(lib, st, l, negate);
      NnfDenotes(lib, st, r, negate);
  }

  /** The condition that tells plain variables from others. */
  function Self(x: string): Condition {
    Negation(Comparing(x, "==", IdentifierToken(x)))
  }

  /** An infinite, NaN or UNKNOWN variable: `not (x == x)` holds, and so does not its normal form
      `x != x`. */
  lemma UnplainDefeatsNnf(lib: Library, st: Store, x: string)
    requires Exists(st, x) && !PlainValue(Get(st, x).value)
    ensures Nnf(Self(x), false) == Comparing(x, "!=", IdentifierToken(x))
    ensures Denote(lib, st, Self(x)) == Ok(true) && Denote(lib, st, Nnf(Self(x), false)) == Ok(false)
  {
  }

  /** Negation normal form keeps the value, and the error, of all conditions exactly in the plain
      stores. */
  lemma PlainIsExact(lib: Library, st: Store)
    ensures Plain(st) <==>
            forall c | HasOperands(c) :: Denote(lib, st, Nnf(c, false)) == Denote(lib, st, c)
  {
    if Plain(st) {
      forall c | HasOperands(c) ensures Denote(lib, st, Nnf(c, false)) == Denote(lib, st, c) {
        PlainIsTurnable(lib, st, c, false);
        NnfDenotes(lib, st, c, false);
      }
    } else {
      var x :| Exists(st, x) && !PlainValue(Get(st, x).value);
      UnplainDefeatsNnf(lib, st, x);
      assert HasOperands(Self(x));
    }
  }

  predicate SpelledTokens(ts: seq<Token>) {
    forall t | t in ts :: Printable(t)
  }

  lemma SpelledConcat(a: seq<Token>, b: seq<Token>)
    ensures SpelledTokens(a + b) <==> SpelledTokens(a) && SpelledTokens(b)
  {
    assert forall t :: t in a + b <==> t in a || t in b;
  }

  lemma {:induction false} SpelledParts(c: Condition)
    ensures match c
      case Truth(text) => Spelled(c) <==> Printable(NumberToken(text))
      case Flag(name) => Spelled(c) <==> Printable(IdentifierToken(name))
      case Comparing(name, op, t) =>
        Spelled(c) <==> Printable(IdentifierToken(name)) && Printable(OperatorToken(op)) && Printable(t)
      case Group(d) => Spelled(c) <==> Spelled(d)
      case Negation(d) => Spelled(c) <==> Spelled(d)
      case Conjunction(l, r) => Spelled(c) <==> Spelled(l) && Spelled(r)
      case Disjunction(l, r) => Spelled(c) <==> Spelled(l) && Spelled(r)
  {
    match c
    case Truth(text) => assert Words(c)[0] == NumberToken(text);
    case Flag(name) => assert Words(c)[0] == IdentifierToken(name);
    case Comparing(name, op, t) =>
      assert Words(c)[0] == IdentifierToken(name) && Words(c)[1] == OperatorToken(op) && Words(c)[2] == t;
    case Group(d) =>
      SpelledConcat([LeftParen] + Words(d), [RightParen]);
      SpelledConcat([LeftParen], Words(d));
    case Negation(d) => SpelledConcat([Not], Words(d));
    case Conjunction(l, r) =>
      SpelledConcat(Words(l) + [And], Words(r));
      SpelledConcat(Words(l), [And]);
    case Disjunction(l, r) =>
      SpelledConcat(Words(l) + [Or], Words(r));
      SpelledConcat(Words(l), [Or]);
  }

  /** Parentheses need no spelling of their own. */
  lemma {:induction false} MinimalSpelled(c: Condition)
    ensures Spelled(Minimal(c)) <==> Spelled(c)
  {
    SpelledParts(c);
    SpelledParts(Minimal(c));
    match c
    case Group(d) => MinimalSpelled(d);
    case Negation(d) =>
      MinimalSpelled(d);
      SpelledParts(Group(Minimal(d)));
    case Conjunction(l, r) =>
      MinimalSpelled(l);
      MinimalSpelled(r);
      SpelledParts(Group(Minimal(l)));
      SpelledParts(Group(Minimal(r)));
    case Disjunction(l, r) =>
      MinimalSpelled(l);
      MinimalSpelled(r);
      SpelledParts(Group(Minimal(r)));
    case _ =>
  }

  lemma {:induction false} NnfSpelled(c: Condition, negate: bool)
    requires Spelled(c)
    ensures Spelled(Nnf(c, negate))
  {
    SpelledParts(c);
    SpelledParts(Nnf(c, negate));
    match c
    case Group(d) => NnfSpelled(d, negate);
    case Negation(d) => NnfSpelled(d, !negate);
    case Conjunction(l, r) =>
      NnfSpelled(l, negate);
      NnfSpelled(r, negate);
    case Disjunction(l, r) =>
      NnfSpelled(l, negate);
      NnfSpelled(r, negate);
    case _ =>
  }

  /** The same on texts: `evaluate` cannot tell a condition from its negation normal form. */
  lemma NnfEvaluates(lib: Library, st: Store, c: Condition, gaps: seq<string>, nnfGaps: seq<string>)
    requires Turnable(lib, st, c, false)
    requires Spelled(Minimal(c)) && Spaced(Words(Minimal(c)), gaps)
    requires Spaced(Words(Minimal(Nnf(c, false))), nnfGaps)
    ensures Evaluated(lib, st, Render(Words(Minimal(Nnf(c, false))), nnfGaps)).satisfied ==
            Evaluated(lib, st, Render(Words(Minimal(c)), gaps)).satisfied
  {
    NnfDenotes(lib, st, c, false);
    MinimalSpelled(c);
    NnfSpelled(c, false);
    MinimalSpelled(Nnf(c, false));
    EvaluateMinimal(lib, st, c, gaps);
    EvaluateMinimal(lib, st, Nnf(c, false), nnfGaps);
  }

  /** The variables that a condition's text can name are plain. */
  ghost predicate PlainNames(st: Store) {
    forall k | Exists(st, k) && IsName(k) :: PlainValue(Get(st, k).value)
  }

  lemma {:induction false} ComparedAreNames(c: Condition)
    requires Spelled(c)
    ensures forall k | k in Compared(c) :: IsName(k)
  {
    SpelledParts(c);
    match c
    case Group(d) => ComparedAreNames(d);
    case Negation(d) => ComparedAreNames(d);
    case Conjunction(l, r) =>
      ComparedAreNames(l);
      ComparedAreNames(r);
    case Disjunction(l, r) =>
      ComparedAreNames(l);
      ComparedAreNames(r);
    case _ =>
  }

  /** `gaps` and `nnfGaps` are blanks with which a condition and its normal form are written. */
  predicate Written(c: Condition, gaps: seq<string>, nnfGaps: seq<string>) {
    && HasOperands(c) && Spelled(Minimal(c)) && Spaced(Words(Minimal(c)), gaps)
    && Spaced(Words(Minimal(Nnf(c, false))), nnfGaps)
  }

  ghost predicate SameVerdict(lib: Library, st: Store, c: Condition, gaps: seq<string>, nnfGaps: seq<string>)
    requires Written(c, gaps, nnfGaps)
  {
    Evaluated(lib, st, Render(Words(Minimal(Nnf(c, false))), nnfGaps)).satisfied ==
    Evaluated(lib, st, Render(Words(Minimal(c)), gaps)).satisfied
  }

  lemma SelfWritten(x: string)
    requires IsName(x)
    ensures Written(Self(x), [" ", " ", " ", " ", " "], [" ", " ", " ", " "])
  {
    var c := Self(x);
    assert Words(Minimal(c)) == [Not, IdentifierToken(x), OperatorToken("=="), IdentifierToken(x)];
    assert Words(Minimal(Nnf(c, false))) == [IdentifierToken(x), OperatorToken("!="), IdentifierToken(x)];
  }

  /** On texts: `evaluate` cannot tell any condition from its negation normal form exactly in the
      stores whose nameable variables are plain. */
  lemma PlainNamesIsExact(lib: Library, st: Store)
    ensures PlainNames(st) <==>
            forall c, gaps, nnfGaps | Written(c, gaps, nnfGaps) :: SameVerdict(lib, st, c, gaps, nnfGaps)
  {
    if PlainNames(st) {
      forall c, gaps, nnfGaps | Written(c, gaps, nnfGaps) ensures SameVerdict(lib, st, c, gaps, nnfGaps) {
        MinimalSpelled(c);
        ComparedAreNames(c);
        ComparedTurnable(lib, st, c, false);
        NnfEvaluates(lib, st, c, gaps, nnfGaps);
      }
    } else {
      var x :| Exists(st, x) && IsName(x) && !PlainValue(Get(st, x).value);
      SelfDiffers(lib, st, x);
    }
  }

  lemma SelfDiffers(lib: Library, st: Store, x: string)
    requires Exists(st, x) && IsName(x) && !PlainValue(Get(st, x).value)
    ensures exists c, gaps, nnfGaps :: Written(c, gaps, nnfGaps) && !SameVerdict(lib, st, c, gaps, nnfGaps)
  {
    var c, gaps, nnfGaps := Self(x), [" ", " ", " ", " ", " "], [" ", " ", " ", " "];
    SelfWritten(x);
    UnplainDefeatsNnf(lib, st, x);
    MinimalSpelled(c);
    NnfSpelled(c, false);
    MinimalSpelled(Nnf(c, false));
    EvaluateMinimal(lib, st, c, gaps);
    EvaluateMinimal(lib, st, Nnf(c, false), nnfGaps);
    assert !SameVerdict(lib, st, c, gaps, nnfGaps);
  }

  /** `d` is `c` with the operands of any connectives exchanged. */
  predicate Rearranged(c: Condition, d: Condition) {
    match c
    case Group(inner) => d.Group? && Rearranged(inner, d.inner)
    case Negation(e) => d.Negation? && Rearranged(e, d.negated)
    case Conjunction(l, r) =>
      d.Conjunction? &&
      ((Rearranged(l, d.left) && Rearranged(r, d.right)) || (Rearranged(l, d.right) && Rearranged(r, d.left)))
    case Disjunction(l, r) =>
      d.Disjunction? &&
      ((Rearranged(l, d.left) && Rearranged(r, d.right)) || (Rearranged(l, d.right) && Rearranged(r, d.left)))
    case _ => c == d
  }

  /** Equal values, or errors on both sides (possibly of different leaves). */
  predicate SameTruth(a: Result<bool, EvalError>, b: Result<bool, EvalError>) {
    a == b || (a.Err? && b.Err?)
  }

  lemma {:induction false} RearrangedDenotes(lib: Library, st: Store, c: Condition, d: Condition)
    requires Rearranged(c, d)
    ensures SameTruth(Denote(lib, st, c), Denote(lib, st, d))
  {
    match c
    case Group(inner) => RearrangedDenotes(lib, st, inner, d.inner);
    case Negation(e) => RearrangedDenotes(lib, st, e, d.negated);
    case Conjunction(l, r) =>
      if Rearranged(l, d.left) && Rearranged(r, d.right) {
        RearrangedDenotes(lib, st, l, d.left);
        RearrangedDenotes(lib, st, r, d.right);
      } else {
        RearrangedDenotes(lib, st, l, d.right);
        RearrangedDenotes(lib, st, r, d.left);
      }
    case Disjunction(l, r) =>
      if Rearranged(l, d.left) && Rearranged(r, d.right) {
        RearrangedDenotes(lib, st, l, d.left);
        RearrangedDenotes(lib, st, r, d.right);
      } else {
        RearrangedDenotes(lib, st, l, d.right);
        RearrangedDenotes(lib, st, r, d.left);
      }
    case _ =>
  }

  /** Exchanging operands anywhere is invisible to `evaluate`: nothing short-circuits. */
  lemma RearrangedEvaluates(lib: Library, st: Store, c: Condition, d: Condition, gaps: seq<string>,
                            otherGaps: seq<string>)
    requires Rearranged(c, d)
    requires Spelled(Minimal(c)) && Spaced(Words(Minimal(c)), gaps)
    requires Spelled(Minimal(d)) && Spaced(Words(Minimal(d)), otherGaps)
    ensures Evaluated(lib, st, Render(Words(Minimal(c)), gaps)).satisfied ==
            Evaluated(lib, st, Render(Words(Minimal(d)), otherGaps)).satisfied
  {
    RearrangedDenotes(lib, st, c, d);
    EvaluateMinimal(lib, st, c, gaps);
    EvaluateMinimal(lib, st, d, otherGaps);
  }
}
