/** The grammar of constraint expressions: the parser evaluates every printed condition to
    its strict denotation, and whatever it accepts begins with a printed condition. */
module ConditionGrammar {
  import opened Wrappers
  import opened Values
  import opened Variables
  import opened Tokens
  import opened TokenPrinting
  import opened Constraints

  datatype Condition =
    | Truth(text: string)
    | Flag(name: string)
    | Comparing(name: string, op: string, operand: Token)
    | Group(inner: Condition)
    | Negation(negated: Condition)
    | Conjunction(left: Condition, right: Condition)
    | Disjunction(left: Condition, right: Condition)

  /** Strict three-valued meaning: every leaf is evaluated, the leftmost failing one decides. */
  function Denote(lib: Library, st: Store, c: Condition): Result<bool, EvalError> {
    match c
    case Truth(text) => Ok(NumberTruth(text))
    case Flag(name) => VariableTruth(st, name)
    case Comparing(name, op, operand) => Comparison(lib, st, name, op, operand)
    case Group(inner) => Denote(lib, st, inner)
    case Negation(negated) =>
      var b :- Denote(lib, st, negated);
      Ok(!b)
    case Conjunction(left, right) =>
      var l :- Denote(lib, st, left);
      var r :- Denote(lib, st, right);
      Ok(l && r)
    case Disjunction(left, right) =>
      var l :- Denote(lib, st, left);
      var r :- Denote(lib, st, right);
      Ok(l || r)
  }

  function Words(c: Condition): seq<Token> {
    match c
    case Truth(text) => [NumberToken(text)]
    case Flag(name) => [IdentifierToken(name)]
    case Comparing(name, op, operand) => [IdentifierToken(name), OperatorToken(op), operand]
    case Group(inner) => [LeftParen] + Words(inner) + [RightParen]
    case Negation(negated) => [Not] + Words(negated)
    case Conjunction(left, right) => Words(left) + [And] + Words(right)
    case Disjunction(left, right) => Words(left) + [Or] + Words(right)
  }

  // Precedence: OR weaker than AND weaker than NOT; both connectives left-nested.

  predicate IsOr(c: Condition)
    decreases c, 2
  {
    if c.Disjunction? then IsOr(c.left) && IsAnd(c.right) else IsAnd(c)
  }

  predicate IsAnd(c: Condition)
    decreases c, 1
  {
    if c.Conjunction? then IsAnd(c.left) && IsNot(c.right) else IsNot(c)
  }

  predicate IsNot(c: Condition)
    decreases c, 0
  {
    match c
    case Negation(negated) => IsNot(negated)
    case Group(inner) => IsOr(inner)
    case Conjunction(_, _) => false
    case Disjunction(_, _) => false
    case _ => true
  }

  // ----- completeness -----

  /** Only a bare variable can be changed by the next token: an operator makes it a comparison. */
  predicate EndsInFlag(c: Condition) {
    match c
    case Flag(_) => true
    case Negation(negated) => EndsInFlag(negated)
    case Conjunction(_, right) => EndsInFlag(right)
    case Disjunction(_, right) => EndsInFlag(right)
    case _ => false
  }

  predicate Follows(c: Condition, rest: seq<Token>) {
    EndsInFlag(c) ==> rest == [] || !rest[0].OperatorToken?
  }

  predicate NoAnd(rest: seq<Token>) {
    rest == [] || !rest[0].And?
  }

  predicate NoOr(rest: seq<Token>) {
    rest == [] || !rest[0].Or?
  }

  function Before(v: Result<bool, EvalError>, rest: seq<Token>): Outcome {
    var b :- v;
    Ok(Parsed(b, rest))
  }

  function AndAfter(lib: Library, st: Store, v: Result<bool, EvalError>, rest: seq<Token>): Outcome {
    var b :- v;
    AndLoop(lib, st, rest, b)
  }

  function OrAfter(lib: Library, st: Store, v: Result<bool, EvalError>, rest: seq<Token>): Outcome {
    var b :- v;
    OrLoop(lib, st, rest, b)
  }

  lemma {:induction false} NotComplete(lib: Library, st: Store, c: Condition, rest: seq<Token>)
    requires IsNot(c) && Follows(c, rest)
    ensures NotExpression(lib, st, Words(c) + rest) == Before(Denote(lib, st, c), rest)
    decreases c, 0
  {
    var ts := Words(c) + rest;
    match c
    case Truth(_) => assert ts[1..] == rest;
    case Flag(_) => assert ts[1..] == rest;
    case Comparing(_, op, operand) => assert ts[1..] == [OperatorToken(op), operand] + rest;
    case Group(inner) =>
      assert ts[1..] == Words(inner) + ([RightParen] + rest);
      OrComplete(lib, st, inner, [RightParen] + rest);
    case Negation(negated) =>
      assert ts[1..] == Words(negated) + rest;
      NotComplete(lib, st, negated, rest);
  }

  lemma {:induction false} AndComplete(lib: Library, st: Store, c: Condition, rest: seq<Token>)
    requires IsAnd(c) && Follows(c, rest)
    ensures AndExpression(lib, st, Words(c) + rest) == AndAfter(lib, st, Denote(lib, st, c), rest)
    decreases c, 1
  {
    if c.Conjunction? {
      var tail := [And] + (Words(c.right) + rest);
      assert Words(c) + rest == Words(c.left) + tail;
      AndComplete(lib, st, c.left, tail);
      assert tail[1..] == Words(c.right) + rest;
      NotComplete(lib, st, c.right, rest);
    } else {
      NotComplete(lib, st, c, rest);
    }
  }

  lemma {:induction false} OrTail(lib: Library, st: Store, c: Condition, rest: seq<Token>)
    requires IsOr(c) && Follows(c, rest) && NoAnd(rest)
    ensures OrExpression(lib, st, Words(c) + rest) == OrAfter(lib, st, Denote(lib, st, c), rest)
    decreases c, 2
  {
    if c.Disjunction? {
      var tail := [Or] + (Words(c.right) + rest);
      assert Words(c) + rest == Words(c.left) + tail;
      OrTail(lib, st, c.left, tail);
      assert tail[1..] == Words(c.right) + rest;
      AndComplete(lib, st, c.right, rest);
    } else {
      AndComplete(lib, st, c, rest);
    }
  }

  lemma OrComplete(lib: Library, st: Store, c: Condition, rest: seq<Token>)
    requires IsOr(c) && Follows(c, rest) && NoAnd(rest) && NoOr(rest)
    ensures OrExpression(lib, st, Words(c) + rest) == Before(Denote(lib, st, c), rest)
    decreases c, 3
  {
    OrTail(lib, st, c, rest);
  }

  // ----- soundness -----

  /** `c` is what the parser read of `ts` to get `p`. */
  ghost predicate Reads(lib: Library, st: Store, c: Condition, ts: seq<Token>, p: Parsed) {
    Denote(lib, st, c) == Ok(p.value) && ts == Words(c) + p.rest && Follows(c, p.rest)
  }

  lemma {:induction false} NotSound(lib: Library, st: Store, ts: seq<Token>) returns (c: Condition)
    requires NotExpression(lib, st, ts).Ok?
    ensures IsNot(c) && Reads(lib, st, c, ts, NotExpression(lib, st, ts).value)
    decreases |ts|, 2
  {
    if ts != [] && ts[0].Not? {
      var d := NotSound(lib, st, ts[1..]);
      c := Negation(d);
      assert ts == [Not] + ts[1..];
    } else {
      c := PrimarySound(lib, st, ts);
    }
  }

  lemma {:induction false} PrimarySound(lib: Library, st: Store, ts: seq<Token>) returns (c: Condition)
    requires Primary(lib, st, ts).Ok?
    ensures IsNot(c) && Reads(lib, st, c, ts, Primary(lib, st, ts).value)
    decreases |ts|, 1
  {
    var rest := Primary(lib, st, ts).value.rest;
    assert ts == [ts[0]] + ts[1..];
    if ts[0].LeftParen? {
      var d := OrSound(lib, st, ts[1..]);
      c := Group(d);
      var mid := OrExpression(lib, st, ts[1..]).value.rest;
      assert mid == [RightParen] + rest;
      assert ts == [LeftParen] + (Words(d) + ([RightParen] + rest));
    } else if ts[0].NumberToken? {
      c := Truth(ts[0].text);
    } else if |ts| > 1 && ts[1].OperatorToken? {
      c := Comparing(ts[0].name, ts[1].op, ts[2]);
      assert ts[1..][2..] == ts[3..];
      assert ts == ts[..3] + ts[3..];
    } else {
      c := Flag(ts[0].name);
    }
  }

  lemma Regroup(a: seq<Token>, op: seq<Token>, b: seq<Token>, rest: seq<Token>)
    ensures a + (op + (b + rest)) == a + op + b + rest
  {
  }

  lemma {:induction false} AndLoopSound(lib: Library, st: Store, c0: Condition, ts: seq<Token>, v: bool)
    returns (c: Condition)
    requires IsAnd(c0) && Denote(lib, st, c0) == Ok(v) && Follows(c0, ts) && AndLoop(lib, st, ts, v).Ok?
    ensures var p := AndLoop(lib, st, ts, v).value;
      IsAnd(c) && Reads(lib, st, c, Words(c0) + ts, p) && NoAnd(p.rest)
    decreases |ts|, 0
  {
    c := c0;
    if ts != [] && ts[0].And? {
      var d := NotSound(lib, st, ts[1..]);
      var p := NotExpression(lib, st, ts[1..]).value;
      var c1 := Conjunction(c0, d);
      assert ts == [And] + (Words(d) + p.rest);
      Regroup(Words(c0), [And], Words(d), p.rest);
      c := AndLoopSound(lib, st, c1, p.rest, v && p.value);
    }
  }

  lemma AndSound(lib: Library, st: Store, ts: seq<Token>) returns (c: Condition)
    requires AndExpression(lib, st, ts).Ok?
    ensures var p := AndExpression(lib, st, ts).value;
      IsAnd(c) && Reads(lib, st, c, ts, p) && NoAnd(p.rest)
    decreases |ts|, 3
  {
    var d := NotSound(lib, st, ts);
    var p := NotExpression(lib, st, ts).value;
    c := AndLoopSound(lib, st, d, p.rest, p.value);
  }

  lemma {:induction false} OrLoopSound(lib: Library, st: Store, c0: Condition, ts: seq<Token>, v: bool)
    returns (c: Condition)
    requires IsOr(c0) && Denote(lib, st, c0) == Ok(v) && Follows(c0, ts) && NoAnd(ts) && OrLoop(lib, st, ts, v).Ok?
    ensures var p := OrLoop(lib, st, ts, v).value;
      IsOr(c) && Reads(lib, st, c, Words(c0) + ts, p) && NoAnd(p.rest) && NoOr(p.rest)
    decreases |ts|, 0
  {
    c := c0;
    if ts != [] && ts[0].Or? {
      var d := AndSound(lib, st, ts[1..]);
      var p := AndExpression(lib, st, ts[1..]).value;
      var c1 := Disjunction(c0, d);
      assert ts == [Or] + (Words(d) + p.rest);
      Regroup(Words(c0), [Or], Words(d), p.rest);
      c := OrLoopSound(lib, st, c1, p.rest, v || p.value);
    }
  }

  /** Soundness: a successful parse read a condition of the grammar and returned its denotation. */
  lemma OrSound(lib: Library, st: Store, ts: seq<Token>) returns (c: Condition)
    requires OrExpression(lib, st, ts).Ok?
    ensures var p := OrExpression(lib, st, ts).value;
      IsOr(c) && Reads(lib, st, c, ts, p) && NoAnd(p.rest) && NoOr(p.rest)
    decreases |ts|, 4
  {
    var d := AndSound(lib, st, ts);
    var p := AndExpression(lib, st, ts).value;
    c := OrLoopSound(lib, st, d, p.rest, p.value);
  }

  /** All the parser looks at behind what it consumes: nothing, or one token's kind. */
  predicate SameLookahead(a: seq<Token>, b: seq<Token>) {
    && (a == [] <==> b == [])
    && (a != [] ==> a[0].And? == b[0].And? && a[0].Or? == b[0].Or? && a[0].OperatorToken? == b[0].OperatorToken?)
  }

  /** The result depends only on the tokens consumed and one token of lookahead. */
  lemma OneTokenLookahead(lib: Library, st: Store, ts: seq<Token>, other: seq<Token>)
    requires OrExpression(lib, st, ts).Ok?
    requires SameLookahead(OrExpression(lib, st, ts).value.rest, other)
    ensures var p := OrExpression(lib, st, ts).value;
      OrExpression(lib, st, ts[..|ts| - |p.rest|] + other) == Ok(Parsed(p.value, other))
  {
    var p := OrExpression(lib, st, ts).value;
    var c := OrSound(lib, st, ts);
    assert ts[..|ts| - |p.rest|] == Words(c);
    OrComplete(lib, st, c, other);
  }

  // ----- evaluating texts -----

  predicate Spelled(c: Condition) {
    forall t | t in Words(c) :: Printable(t)
  }

  /** What `evaluateDetailed` reports for a text whose condition means `v`. */
  function Verdict(v: Result<bool, EvalError>, expression: string): ConstraintResult {
    match v
    case Ok(b) => if b then ConstraintResult(true, AllSatisfied, []) else Failing(NotSatisfied(expression), expression)
    case Err(e) => Failing(EvaluationError(e), expression)
  }

  /** `evaluate` of a condition, however its tokens are written and whatever the blanks, is its
      strict denotation. */
  lemma EvaluateWritten(lib: Library, st: Store, c: Condition, words: seq<string>, gaps: seq<string>)
    requires IsOr(c) && Write(words, Words(c)) && Spaced(Words(c), gaps)
    ensures var text := Joined(words, gaps);
      Evaluated(lib, st, text) == Verdict(Denote(lib, st, c), text)
  {
    TokenizeWords(words, Words(c), gaps);
    OrComplete(lib, st, c, [End]);
    assert Words(c) + [End] != [End] by {
      WordsNonempty(c);
    }
  }

  lemma EvaluatePrinted(lib: Library, st: Store, c: Condition, gaps: seq<string>)
    requires IsOr(c) && Spelled(c) && Spaced(Words(c), gaps)
    ensures var text := Render(Words(c), gaps);
      Evaluated(lib, st, text) == Verdict(Denote(lib, st, c), text)
  {
    RenderIsJoined(Words(c), gaps);
    EvaluateWritten(lib, st, c, Spellings(Words(c)), gaps);
  }

  lemma WordsNonempty(c: Condition)
    ensures |Words(c)| > 0
  {
  }

  /** Conversely a text evaluates to true exactly when its tokens begin with a condition of the
      grammar that means true and that the remaining tokens do not extend. */
  lemma EvaluateDecides(lib: Library, st: Store, text: string)
    ensures Evaluated(lib, st, text).satisfied <==>
            exists c, rest ::
              IsOr(c) && Tokenized(text) == Words(c) + rest && Denote(lib, st, c) == Ok(true) &&
              Follows(c, rest) && NoAnd(rest) && NoOr(rest)
  {
    var ts := Tokenized(text);
    if Evaluated(lib, st, text).satisfied {
      var c := OrSound(lib, st, ts);
    }
    forall c, rest | IsOr(c) && ts == Words(c) + rest && Denote(lib, st, c) == Ok(true) &&
                     Follows(c, rest) && NoAnd(rest) && NoOr(rest)
      ensures Evaluated(lib, st, text).satisfied
    {
      OrComplete(lib, st, c, rest);
      EndIsNoCondition(lib, st);
    }
  }

  lemma EndIsNoCondition(lib: Library, st: Store)
    ensures OrExpression(lib, st, [End]).Err?
  {
    assert NotExpression(lib, st, [End]) == Primary(lib, st, [End]);
  }

  lemma OperatorFirst(lib: Library, st: Store, ts: seq<Token>)
    requires ts != [] && ts[0].OperatorToken?
    ensures OrExpression(lib, st, ts) == Err(UnexpectedToken)
  {
    assert NotExpression(lib, st, ts) == Err(UnexpectedToken);
    assert AndExpression(lib, st, ts) == Err(UnexpectedToken);
  }

  /** `!` negates nothing: a condition that starts with it fails, whatever follows. */
  lemma BangIsRejected(lib: Library, st: Store, s: string)
    ensures Evaluated(lib, st, ['!'] + s) == Failing(EvaluationError(UnexpectedToken), ['!'] + s)
  {
    var text := ['!'] + s;
    ScanIgnoresTrimming(text);
    assert Scan(text) == Emitted(Lex(text).token) + Scan(text[Lex(text).length..]);
    assert Tokenized(text)[0].OperatorToken?;
    OperatorFirst(lib, st, Tokenized(text));
  }

  // ----- trees without grouping, printed with the fewest parentheses -----

  function Grouped(c: Condition, needed: bool): Condition {
    if needed then Group(c) else c
  }

  function Minimal(c: Condition): Condition {
    match c
    case Negation(d) => Negation(Grouped(Minimal(d), d.Conjunction? || d.Disjunction?))
    case Conjunction(l, r) =>
      Conjunction(Grouped(Minimal(l), l.Disjunction?), Grouped(Minimal(r), r.Conjunction? || r.Disjunction?))
    case Disjunction(l, r) => Disjunction(Minimal(l), Grouped(Minimal(r), r.Disjunction?))
    case Group(d) => Group(Minimal(d))
    case _ => c
  }

  lemma {:induction false} MinimalInGrammar(lib: Library, st: Store, c: Condition)
    ensures IsOr(Minimal(c)) && Denote(lib, st, Minimal(c)) == Denote(lib, st, c)
    ensures !c.Disjunction? ==> IsAnd(Minimal(c))
    ensures !c.Disjunction? && !c.Conjunction? ==> IsNot(Minimal(c))
  {
    match c
    case Group(d) => MinimalInGrammar(lib, st, d);
    case Negation(d) =>
      MinimalInGrammar(lib, st, d);
      assert IsNot(Minimal(c));
      assert IsAnd(Minimal(c));
    case Conjunction(l, r) =>
      MinimalInGrammar(lib, st, l);
      MinimalInGrammar(lib, st, r);
      assert IsNot(Group(Minimal(l))) && IsNot(Group(Minimal(r)));
    case Disjunction(l, r) =>
      MinimalInGrammar(lib, st, l);
      MinimalInGrammar(lib, st, r);
      assert IsNot(Group(Minimal(r)));
      assert IsAnd(Group(Minimal(r)));
    case _ =>
  }

  /** For every condition tree, the text printed with the fewest parentheses evaluates to the
      tree's strict denotation. */
  lemma EvaluateMinimal(lib: Library, st: Store, c: Condition, gaps: seq<string>)
    requires Spelled(Minimal(c)) && Spaced(Words(Minimal(c)), gaps)
    ensures var text := Render(Words(Minimal(c)), gaps);
      Evaluated(lib, st, text) == Verdict(Denote(lib, st, c), text)
  {
    MinimalInGrammar(lib, st, c);
    EvaluatePrinted(lib, st, Minimal(c), gaps);
  }
}
