/** Which variables a value expression can read: only those named in its text, through either
    interpreter. */
module ReadSets {
  import opened Wrappers
  import opened Text
  import opened Values
  import opened Variables
  import opened Tokens
  import opened ValueExpressions
  import C = Constraints
  import N = NumericExpression

  // ----- the names in a text -----

  function TokenNames(ts: seq<Token>): set<string> {
    set k | 0 <= k < |ts| && ts[k].IdentifierToken? :: ts[k].name
  }

  /** The identifiers of a numeric expression: words outside numerals. */
  function NumericNames(s: string): set<string>
    decreases |s|
  {
    if s == "" then {}
    else if StrtodLength(s) > 0 then NumericNames(s[StrtodLength(s)..])
    else if IsIdentStart(s[0]) then
      var n := Span(IsIdentChar, s);
      {s[..n]} + NumericNames(s[n..])
    else NumericNames(s[1..])
  }

  /** The names looked up by the interpreter that a text goes to. */
  function WordsRead(lib: Library, t: string): set<string> {
    if HasComparison(t) then TokenNames(Tokenized(t))
    else if NumberLiteral(lib, t).Some? || !HasArithmetic(t) then {}
    else NumericNames(t)
  }

  /** Everything a value expression can look up: nothing for a quoted text or a truth value,
      else the whole text as a name, and what its interpreter reads. */
  function NamesIn(lib: Library, expression: string): set<string> {
    var t := Trimmed(expression);
    if t == "" || IsQuoted(t) || IsTrueWord(t) || IsFalseWord(t) then {} else {t} + WordsRead(lib, t)
  }

  ghost predicate Agree(a: Store, b: Store, names: set<string>) {
    forall x | x in names :: Get(a, x) == Get(b, x)
  }

  // ----- the constraint parser -----

  ghost predicate AgreeOn(a: Store, b: Store, ts: seq<Token>) {
    forall t | t in ts && t.IdentifierToken? :: Get(a, t.name) == Get(b, t.name)
  }

  /** Same outcome on both stores, with a rest that mentions nothing new. */
  ghost predicate Alike(r: C.Outcome, s: C.Outcome, ts: seq<Token>) {
    r == s && (r.Ok? ==> forall t | t in r.value.rest :: t in ts)
  }

  lemma {:induction false} OrReads(lib: Library, a: Store, b: Store, ts: seq<Token>)
    requires AgreeOn(a, b, ts)
    ensures Alike(C.OrExpression(lib, a, ts), C.OrExpression(lib, b, ts), ts)
    decreases |ts|, 4
  {
    AndReads(lib, a, b, ts);
    var p := C.AndExpression(lib, a, ts);
    if p.Ok? {
      OrLoopReads(lib, a, b, p.value.rest, p.value.value);
    }
  }

  lemma {:induction false} OrLoopReads(lib: Library, a: Store, b: Store, ts: seq<Token>, v: bool)
    requires AgreeOn(a, b, ts)
    ensures Alike(C.OrLoop(lib, a, ts, v), C.OrLoop(lib, b, ts, v), ts)
    decreases |ts|, 0
  {
    if ts != [] && ts[0].Or? {
      AndReads(lib, a, b, ts[1..]);
      var p := C.AndExpression(lib, a, ts[1..]);
      if p.Ok? {
        OrLoopReads(lib, a, b, p.value.rest, v || p.value.value);
      }
    }
  }

  lemma {:induction false} AndReads(lib: Library, a: Store, b: Store, ts: seq<Token>)
    requires AgreeOn(a, b, ts)
    ensures Alike(C.AndExpression(lib, a, ts), C.AndExpression(lib, b, ts), ts)
    decreases |ts|, 3
  {
    NotReads(lib, a, b, ts);
    var p := C.NotExpression(lib, a, ts);
    if p.Ok? {
      AndLoopReads(lib, a, b, p.value.rest, p.value.value);
    }
  }

  lemma {:induction false} AndLoopReads(lib: Library, a: Store, b: Store, ts: seq<Token>, v: bool)
    requires AgreeOn(a, b, ts)
    ensures Alike(C.AndLoop(lib, a, ts, v), C.AndLoop(lib, b, ts, v), ts)
    decreases |ts|, 0
  {
    if ts != [] && ts[0].And? {
      NotReads(lib, a, b, ts[1..]);
      var p := C.NotExpression(lib, a, ts[1..]);
      if p.Ok? {
        AndLoopReads(lib, a, b, p.value.rest, v && p.value.value);
      }
    }
  }

  lemma {:induction false} NotReads(lib: Library, a: Store, b: Store, ts: seq<Token>)
    requires AgreeOn(a, b, ts)
    ensures Alike(C.NotExpression(lib, a, ts), C.NotExpression(lib, b, ts), ts)
    decreases |ts|, 2
  {
    if ts == [] {
    } else if ts[0].Not? {
      NotReads(lib, a, b, ts[1..]);
    } else if ts[0].LeftParen? {
      OrReads(lib, a, b, ts[1..]);
      var p := C.OrExpression(lib, a, ts[1..]);
      assert p.Ok? && p.value.rest != [] ==> forall t | t in p.value.rest[1..] :: t in p.value.rest;
    } else if ts[0].IdentifierToken? {
      assert ts[0] in ts;
      NamedReads(lib, a, b, ts[0].name, ts[1..]);
    }
  }

  lemma NamedReads(lib: Library, a: Store, b: Store, name: string, ts: seq<Token>)
    requires AgreeOn(a, b, ts) && Get(a, name) == Get(b, name)
    ensures Alike(C.Named(lib, a, name, ts), C.Named(lib, b, name, ts), ts)
  {
    if |ts| > 1 {
      assert ts[1] in ts;
    }
  }

  // ----- the numeric parser -----

  /** Two contexts that differ at most in their variables, and not on `names`. */
  ghost predicate SameOn<R(!new)>(c: N.Context<R>, d: N.Context<R>, names: set<string>) {
    c == d.(variable := c.variable) && forall x | x in names :: c.variable(x) == d.variable(x)
  }

  ghost predicate AlikeNumeric<R(!new)>(r: N.Outcome<R>, s: N.Outcome<R>, t: string) {
    r == s && (r.Ok? ==> NumericNames(r.value.rest) <= NumericNames(t))
  }

  lemma {:induction false} NamesSkipSpaces(s: string)
    ensures NumericNames(SkipSpaces(s)) == NumericNames(s)
  {
    if s != "" && IsSpace(s[0]) {
      NamesSkipSpaces(s[1..]);
    }
  }

  lemma NamesSkip(s: string)
    requires s != "" && !IsDigit(s[0]) && s[0] != '.' && !IsIdentStart(s[0])
    ensures NumericNames(s[1..]) == NumericNames(s)
  {
  }

  lemma {:induction false} ExpressionReads<R(!new)>(c: N.Context<R>, d: N.Context<R>, s: string)
    requires SameOn(c, d, NumericNames(s))
    ensures AlikeNumeric(N.Expression(c, s), N.Expression(d, s), s)
    decreases |s|, 3
  {
    TermReads(c, d, s);
    var t := N.Term(c, s);
    if t.Ok? {
      ExpressionLoopReads(c, d, t.value.rest, t.value.value);
    }
  }

  lemma {:induction false} ExpressionLoopReads<R(!new)>(c: N.Context<R>, d: N.Context<R>, s: string, v: R)
    requires SameOn(c, d, NumericNames(s))
    ensures AlikeNumeric(N.ExpressionLoop(c, s, v), N.ExpressionLoop(d, s, v), s)
    decreases |s|, 0
  {
    var q := SkipSpaces(s);
    NamesSkipSpaces(s);
    if N.Starts(q, '+') || N.Starts(q, '-') {
      NamesSkip(q);
      TermReads(c, d, q[1..]);
      var t := N.Term(c, q[1..]);
      if t.Ok? {
        ExpressionLoopReads(c, d, t.value.rest, if q[0] == '+' then c.add(v, t.value.value)
                            else c.sub(v, t.value.value));
      }
    }
  }

  lemma {:induction false} TermReads<R(!new)>(c: N.Context<R>, d: N.Context<R>, s: string)
    requires SameOn(c, d, NumericNames(s))
    ensures AlikeNumeric(N.Term(c, s), N.Term(d, s), s)
    decreases |s|, 2
  {
    FactorReads(c, d, s);
    var f := N.Factor(c, s);
    if f.Ok? {
      TermLoopReads(c, d, f.value.rest, f.value.value);
    }
  }

  lemma {:induction false} TermLoopReads<R(!new)>(c: N.Context<R>, d: N.Context<R>, s: string, v: R)
    requires SameOn(c, d, NumericNames(s))
    ensures AlikeNumeric(N.TermLoop(c, s, v), N.TermLoop(d, s, v), s)
    decreases |s|, 0
  {
    var q := SkipSpaces(s);
    NamesSkipSpaces(s);
    if N.Starts(q, '*') || N.Starts(q, '/') {
      NamesSkip(q);
      FactorReads(c, d, q[1..]);
      var f := N.Factor(c, q[1..]);
      if f.Ok? {
        TermLoopReads(c, d, f.value.rest, if q[0] == '*' then c.mul(v, f.value.value) else c.div(v, f.value.value));
      }
    }
  }

  lemma {:induction false} EnclosedReads<R(!new)>(c: N.Context<R>, d: N.Context<R>, s: string, missing: N.NumericError)
    requires SameOn(c, d, NumericNames(s))
    ensures AlikeNumeric(N.Closed(N.Expression(c, s), missing), N.Closed(N.Expression(d, s), missing), s)
    decreases |s|, 4
  {
    ExpressionReads(c, d, s);
    var e := N.Expression(c, s);
    if e.Ok? {
      NamesSkipSpaces(e.value.rest);
      var close := SkipSpaces(e.value.rest);
      if N.Starts(close, ')') {
        NamesSkip(close);
      }
    }
  }

  lemma {:induction false} FactorReads<R(!new)>(c: N.Context<R>, d: N.Context<R>, s: string)
    requires SameOn(c, d, NumericNames(s))
    ensures AlikeNumeric(N.Factor(c, s), N.Factor(d, s), s)
    decreases |s|, 1
  {
    var q := SkipSpaces(s);
    NamesSkipSpaces(s);
    if N.Starts(q, '+') || N.Starts(q, '-') {
      NamesSkip(q);
      FactorReads(c, d, q[1..]);
    } else if N.Starts(q, '(') {
      NamesSkip(q);
      EnclosedReads(c, d, q[1..], N.MissingParenthesis);
    } else if q == "" || IsDigit(q[0]) || q[0] == '.' {
    } else if IsIdentStart(q[0]) {
      NameReads(c, d, q);
    }
  }

  lemma {:induction false} NameReads<R(!new)>(c: N.Context<R>, d: N.Context<R>, q: string)
    requires SameOn(c, d, NumericNames(q)) && q != "" && IsIdentStart(q[0])
    ensures var n := Span(IsIdentChar, q);
      var after := SkipSpaces(q[n..]);
      AlikeNumeric(N.Named(c, q[..n], after), N.Named(d, q[..n], after), q)
    decreases |q|, 0
  {
    var n := Span(IsIdentChar, q);
    var after := SkipSpaces(q[n..]);
    NamesSkipSpaces(q[n..]);
    assert NumericNames(q) == {q[..n]} + NumericNames(q[n..]);
    if N.Starts(after, '(') {
      NamesSkip(after);
      EnclosedReads(c, d, after[1..], N.MissingCallParenthesis(q[..n]));
    }
  }

  // ----- value expressions -----

  lemma ConditionReads(lib: Library, a: Store, b: Store, t: string)
    requires Agree(a, b, TokenNames(Tokenized(t)))
    ensures C.Evaluated(lib, a, t) == C.Evaluated(lib, b, t)
  {
    var ts := Tokenized(t);
    forall u | u in ts && u.IdentifierToken? ensures Get(a, u.name) == Get(b, u.name) {
      assert u.name in TokenNames(ts);
    }
    OrReads(lib, a, b, ts);
  }

  lemma NumericReads(lib: Library, a: Store, b: Store, t: string)
    requires Agree(a, b, NumericNames(t))
    ensures N.Parse(NumericContext(lib, a), t) == N.Parse(NumericContext(lib, b), t)
  {
    ExpressionReads(NumericContext(lib, a), NumericContext(lib, b), t);
  }

  /** The value of an expression depends only on the variables named in its text, through
      either parser, and so does the exception it throws. */
  lemma ValueReadsItsNames(lib: Library, a: Store, b: Store, expression: string)
    requires Agree(a, b, NamesIn(lib, expression))
    ensures EvalValue(lib, a, expression) == EvalValue(lib, b, expression)
  {
    var t := Trimmed(expression);
    if !(t == "" || IsQuoted(t) || IsTrueWord(t) || IsFalseWord(t)) {
      assert Get(a, t) == Get(b, t);
      if HasComparison(t) {
        ConditionReads(lib, a, b, t);
      } else if NumberLiteral(lib, t).None? && HasArithmetic(t) {
        NumericReads(lib, a, b, t);
      }
      InterpretedAlike(lib, a, b, t);
    }
  }

  lemma InterpretedAlike(lib: Library, a: Store, b: Store, t: string)
    requires t != "" && Get(a, t) == Get(b, t)
    requires HasComparison(t) ==> C.Evaluated(lib, a, t) == C.Evaluated(lib, b, t)
    requires !HasComparison(t) && NumberLiteral(lib, t).None? && HasArithmetic(t) ==>
               N.Parse(NumericContext(lib, a), t) == N.Parse(NumericContext(lib, b), t)
    ensures Interpreted(lib, a, t) == Interpreted(lib, b, t)
  {
  }
}
