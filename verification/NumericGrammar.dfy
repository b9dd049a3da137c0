/** The grammar of numeric expressions, and the proof that the parser decides exactly it:
    a printed tree parses to the value (or the error) of its syntax tree, and every
    accepted text is a printed tree. */
module NumericGrammar {
  import opened Wrappers
  import opened Text
  import opened NumericExpression

  datatype Op = Add | Sub | Mul | Div

  /** Syntax trees: no parentheses, no spacing. */
  datatype Tree =
    | Numeral(text: string)
    | Variable(name: string)
    | Call(function_: string, arg: Tree)
    | Sign(minus: bool, operand: Tree)
    | Binary(op: Op, left: Tree, right: Tree)

  /** The value of a tree: operands from left to right, the first error wins. */
  function Denote<R>(c: Context<R>, t: Tree): Result<R, NumericError> {
    match t
    case Numeral(text) => Ok(c.numeral(text))
    case Variable(name) => c.variable(name)
    case Call(f, arg) =>
      var v :- Denote(c, arg);
      if f == "sqrt" then Ok(c.sqrt(v)) else Err(UnsupportedFunction(f))
    case Sign(minus, operand) =>
      var v :- Denote(c, operand);
      Ok(if minus then c.neg(v) else v)
    case Binary(op, left, right) =>
      var l :- Denote(c, left);
      var r :- Denote(c, right);
      Apply(c, op, l, r)
  }

  function Apply<R>(c: Context<R>, op: Op, l: R, r: R): Result<R, NumericError> {
    match op
    case Add => Ok(c.add(l, r))
    case Sub => Ok(c.sub(l, r))
    case Mul => Ok(c.mul(l, r))
    case Div => if c.nearZero(r) then Err(DivisionByZero) else Ok(c.div(l, r))
  }

  /** Texts: a syntax tree together with the parentheses and blanks it is written with.
      Each blank stands before the token named after it. */
  datatype Layout =
    | NumeralText(gap: string, text: string)
    | VariableText(gap: string, name: string)
    | CallText(gap: string, function_: string, gapOpen: string, arg: Layout, gapClose: string)
    | SignText(gap: string, minus: bool, operand: Layout)
    | ParenText(gap: string, inner: Layout, gapClose: string)
    | BinaryText(op: Op, left: Layout, gap: string, right: Layout)

  function Strip(e: Layout): Tree {
    match e
    case NumeralText(_, text) => Numeral(text)
    case VariableText(_, name) => Variable(name)
    case CallText(_, f, _, arg, _) => Call(f, Strip(arg))
    case SignText(_, minus, operand) => Sign(minus, Strip(operand))
    case ParenText(_, inner, _) => Strip(inner)
    case BinaryText(op, left, _, right) => Binary(op, Strip(left), Strip(right))
  }

  function OpChar(op: Op): char {
    match op
    case Add => '+'
    case Sub => '-'
    case Mul => '*'
    case Div => '/'
  }

  function Print(e: Layout): string {
    match e
    case NumeralText(gap, text) => gap + text
    case VariableText(gap, name) => gap + name
    case CallText(gap, f, gapOpen, arg, gapClose) => gap + f + gapOpen + "(" + Print(arg) + gapClose + ")"
    case SignText(gap, minus, operand) => gap + [if minus then '-' else '+'] + Print(operand)
    case ParenText(gap, inner, gapClose) => gap + "(" + Print(inner) + gapClose + ")"
    case BinaryText(op, left, gap, right) => Print(left) + gap + [OpChar(op)] + Print(right)
  }

  predicate IsIdentifier(name: string) {
    name != "" && IsIdentStart(name[0]) && forall i | 0 <= i < |name| :: IsIdentChar(name[i])
  }

  // The three levels of the grammar: expression > term > factor, both operators left-nested.

  predicate IsExpression(e: Layout)
    decreases e, 2
  {
    if e.BinaryText? && (e.op.Add? || e.op.Sub?) then
      Blank(e.gap) && IsExpression(e.left) && IsTerm(e.right)
    else IsTerm(e)
  }

  predicate IsTerm(e: Layout)
    decreases e, 1
  {
    if e.BinaryText? && (e.op.Mul? || e.op.Div?) then
      Blank(e.gap) && IsTerm(e.left) && IsFactor(e.right)
    else IsFactor(e)
  }

  predicate IsFactor(e: Layout)
    decreases e, 0
  {
    match e
    case NumeralText(gap, text) => Blank(gap) && IsNumeral(text)
    case VariableText(gap, name) => Blank(gap) && IsIdentifier(name)
    case CallText(gap, f, gapOpen, arg, gapClose) =>
      Blank(gap) && IsIdentifier(f) && Blank(gapOpen) && IsExpression(arg) && Blank(gapClose)
    case SignText(gap, _, operand) => Blank(gap) && IsFactor(operand)
    case ParenText(gap, inner, gapClose) => Blank(gap) && IsExpression(inner) && Blank(gapClose)
    case BinaryText(_, _, _, _) => false
  }

  // ----- completeness: printed trees parse to their denotation -----

  /** A continuation that neither lengthens the last token nor turns it into a call. */
  predicate Stops(rest: string) {
    Separates(rest) && !Starts(SkipSpaces(rest), '(')
  }

  predicate NoProduct(rest: string) {
    !Starts(SkipSpaces(rest), '*') && !Starts(SkipSpaces(rest), '/')
  }

  predicate NoSum(rest: string) {
    !Starts(SkipSpaces(rest), '+') && !Starts(SkipSpaces(rest), '-')
  }

  /** The parse yields `v` and leaves the cursor before `rest`, up to blanks. */
  ghost predicate Yields<R>(r: Outcome<R>, v: Result<R, NumericError>, rest: string) {
    match v
    case Ok(w) => r.Ok? && r.value.value == w && SkipSpaces(r.value.rest) == SkipSpaces(rest)
    case Err(x) => r == Err(x)
  }

  lemma GapThen(gap: string, c: char, rest: string)
    requires Blank(gap) && !IsSpace(c)
    ensures SkipSpaces(gap + [c] + rest) == [c] + rest
    ensures (c == '+' || c == '-' || c == '*' || c == '/' || c == ')') ==> Stops(gap + [c] + rest)
  {
    assert gap + [c] + rest == gap + ([c] + rest);
    SkipBlank(gap, [c] + rest);
    if gap != "" {
      assert IsSpace((gap + [c] + rest)[0]);
    }
  }

  lemma IdentifierAppend(name: string, rest: string)
    requires IsIdentifier(name) && (rest == "" || !IsIdentChar(rest[0]))
    ensures Span(IsIdentChar, name + rest) == |name|
  {
    SpanUnique(IsIdentChar, name + rest, |name|);
  }

  // One unfolding of a parse routine on a text whose next token is known.

  lemma SignStep<R>(c: Context<R>, gap: string, minus: bool, tail: string)
    requires Blank(gap)
    ensures Factor(c, gap + [if minus then '-' else '+'] + tail) == Signed(c, minus, Factor(c, tail))
  {
    GapThen(gap, if minus then '-' else '+', tail);
  }

  lemma ParenStep<R>(c: Context<R>, gap: string, inside: string)
    requires Blank(gap)
    ensures Factor(c, gap + "(" + inside) == Closed(Expression(c, inside), MissingParenthesis)
  {
    GapThen(gap, '(', inside);
  }

  lemma NameStep<R>(c: Context<R>, gap: string, name: string, tail: string)
    requires Blank(gap) && IsIdentifier(name) && (tail == "" || !IsIdentChar(tail[0]))
    ensures Factor(c, gap + (name + tail)) == Named(c, name, SkipSpaces(tail))
  {
    var q := name + tail;
    SkipBlank(gap, q);
    SkipNonBlank(q);
    IdentifierAppend(name, tail);
    FactorOfName(c, gap + q, q);
    assert q[..|name|] == name && q[|name|..] == tail;
  }

  lemma FactorOfName<R>(c: Context<R>, s: string, q: string)
    requires SkipSpaces(s) == q && q != "" && IsIdentStart(q[0])
    ensures var n := Span(IsIdentChar, q);
      Factor(c, s) == Named(c, q[..n], SkipSpaces(q[n..]))
  {
  }

  lemma NumberAt<R>(c: Context<R>, text: string, rest: string)
    requires IsNumeral(text) && Separates(rest)
    ensures Number(c, text + rest) == Ok(Parsed(c.numeral(text), rest))
  {
    NumeralAppend(text, rest);
    assert (text + rest)[..|text|] == text && (text + rest)[|text|..] == rest;
  }

  lemma NumeralStep<R>(c: Context<R>, gap: string, q: string)
    requires Blank(gap) && q != "" && (IsDigit(q[0]) || q[0] == '.')
    ensures Factor(c, gap + q) == Number(c, q)
  {
    SkipBlank(gap, q);
    SkipNonBlank(q);
  }

  function TermGoesOn<R>(c: Context<R>, op: Op, v: R, operand: Outcome<R>): Outcome<R> {
    var p :- operand;
    var w :- Apply(c, op, v, p.value);
    TermLoop(c, p.rest, w)
  }

  function ExpressionGoesOn<R>(c: Context<R>, op: Op, v: R, operand: Outcome<R>): Outcome<R> {
    var p :- operand;
    var w :- Apply(c, op, v, p.value);
    ExpressionLoop(c, p.rest, w)
  }

  lemma ProductStep<R>(c: Context<R>, gap: string, op: Op, tail: string, v: R)
    requires Blank(gap) && (op.Mul? || op.Div?)
    ensures TermLoop(c, gap + [OpChar(op)] + tail, v) ==
            TermGoesOn(c, op, v, Factor(c, tail))
  {
    GapThen(gap, OpChar(op), tail);
  }

  lemma SumStep<R>(c: Context<R>, gap: string, op: Op, tail: string, v: R)
    requires Blank(gap) && (op.Add? || op.Sub?)
    ensures ExpressionLoop(c, gap + [OpChar(op)] + tail, v) ==
            ExpressionGoesOn(c, op, v, Term(c, tail))
  {
    GapThen(gap, OpChar(op), tail);
  }

  lemma LoopsSkipBlanks<R>(c: Context<R>, s: string, t: string, v: R)
    requires SkipSpaces(s) == SkipSpaces(t)
    ensures TermLoop(c, s, v) == TermLoop(c, t, v)
    ensures ExpressionLoop(c, s, v) == ExpressionLoop(c, t, v)
  {
  }

  lemma Cat(a: string, b: string, c: string)
    ensures a + b + c == a + (b + c)
  {
  }

  lemma ParenShape(gap: string, inner: string, gapClose: string, rest: string)
    ensures gap + "(" + inner + gapClose + ")" + rest == gap + "(" + (inner + (gapClose + ")" + rest))
  {
  }

  lemma CallShape(gap: string, f: string, gapOpen: string, arg: string, gapClose: string, rest: string)
    ensures gap + f + gapOpen + "(" + arg + gapClose + ")" + rest ==
            gap + (f + (gapOpen + "(" + (arg + (gapClose + ")" + rest))))
  {
    ParenShape(gap + f + gapOpen, arg, gapClose, rest);
    var tail := arg + (gapClose + ")" + rest);
    Cat(gap + f + gapOpen, "(", tail);
    Cat(gap + f, gapOpen, "(" + tail);
    Cat(gap, f, gapOpen + ("(" + tail));
    Cat(gapOpen, "(", tail);
  }

  lemma {:induction false} FactorComplete<R>(c: Context<R>, e: Layout, rest: string)
    requires IsFactor(e) && Stops(rest)
    ensures Yields(Factor(c, Print(e) + rest), Denote(c, Strip(e)), rest)
    decreases e, 0
  {
    match e
    case NumeralText(gap, text) =>
      Cat(gap, text, rest);
      NumeralStep(c, gap, text + rest);
      NumberAt(c, text, rest);
    case VariableText(gap, name) =>
      Cat(gap, name, rest);
      NameStep(c, gap, name, rest);
    case CallText(gap, f, gapOpen, arg, gapClose) =>
      CallComplete(c, gap, f, gapOpen, arg, gapClose, rest);
    case SignText(gap, minus, operand) =>
      Cat(gap + [if minus then '-' else '+'], Print(operand), rest);
      SignStep(c, gap, minus, Print(operand) + rest);
      FactorComplete(c, operand, rest);
    case ParenText(gap, inner, gapClose) =>
      var inside := Print(inner) + (gapClose + ")" + rest);
      ParenShape(gap, Print(inner), gapClose, rest);
      ParenStep(c, gap, inside);
      EnclosedComplete(c, inner, gapClose, rest, MissingParenthesis);
    case BinaryText(_, _, _, _) =>
  }

  lemma {:induction false} CallComplete<R>(c: Context<R>, gap: string, f: string, gapOpen: string, arg: Layout,
                                           gapClose: string, rest: string)
    requires Blank(gap) && IsIdentifier(f) && Blank(gapOpen) && IsExpression(arg) && Blank(gapClose)
    ensures var e := CallText(gap, f, gapOpen, arg, gapClose);
      Yields(Factor(c, Print(e) + rest), Denote(c, Strip(e)), rest)
    decreases arg, 5
  {
    var inside := Print(arg) + (gapClose + ")" + rest);
    CallShape(gap, f, gapOpen, Print(arg), gapClose, rest);
    GapThen(gapOpen, '(', inside);
    NameStep(c, gap, f, gapOpen + "(" + inside);
    EnclosedComplete(c, arg, gapClose, rest, MissingCallParenthesis(f));
  }

  lemma {:induction false} EnclosedComplete<R>(c: Context<R>, e: Layout, gapClose: string, rest: string,
                                               missing: NumericError)
    requires IsExpression(e) && Blank(gapClose)
    ensures Closed(Expression(c, Print(e) + (gapClose + ")" + rest)), missing) ==
            match Denote(c, Strip(e))
            case Ok(v) => Ok(Parsed(v, rest))
            case Err(x) => Err(x)
    decreases e, 4
  {
    GapThen(gapClose, ')', rest);
    ExpressionComplete(c, e, gapClose + ")" + rest);
  }

  /** The product loop resumed with the value read so far. */
  function TermAfter<R>(c: Context<R>, v: Result<R, NumericError>, rest: string): Outcome<R> {
    var w :- v;
    TermLoop(c, rest, w)
  }

  function ExpressionAfter<R>(c: Context<R>, v: Result<R, NumericError>, rest: string): Outcome<R> {
    var w :- v;
    ExpressionLoop(c, rest, w)
  }

  lemma ProductOperand<R>(c: Context<R>, gap: string, op: Op, after: string, v: R, r: Result<R, NumericError>,
                          rest: string)
    requires Blank(gap) && (op.Mul? || op.Div?) && Yields(Factor(c, after), r, rest)
    ensures TermLoop(c, gap + [OpChar(op)] + after, v) ==
            TermAfter(c, if r.Ok? then Apply(c, op, v, r.value) else Err(r.error), rest)
  {
    ProductStep(c, gap, op, after, v);
    if r.Ok? && Apply(c, op, v, r.value).Ok? {
      LoopsSkipBlanks(c, Factor(c, after).value.rest, rest, Apply(c, op, v, r.value).value);
    }
  }

  lemma SumOperand<R>(c: Context<R>, gap: string, op: Op, after: string, v: R, r: Result<R, NumericError>, rest: string)
    requires Blank(gap) && (op.Add? || op.Sub?) && Term(c, after) == TermAfter(c, r, rest) && NoProduct(rest)
    ensures ExpressionLoop(c, gap + [OpChar(op)] + after, v) ==
            ExpressionAfter(c, if r.Ok? then Apply(c, op, v, r.value) else Err(r.error), rest)
  {
    SumStep(c, gap, op, after, v);
    if r.Ok? {
      LoopsSkipBlanks(c, SkipSpaces(rest), rest, Apply(c, op, v, r.value).value);
    }
  }

  /** After a printed term the loop of `parseTerm` stands before the rest. */
  lemma {:induction false} TermComplete<R>(c: Context<R>, e: Layout, rest: string)
    requires IsTerm(e) && Stops(rest)
    ensures Term(c, Print(e) + rest) == TermAfter(c, Denote(c, Strip(e)), rest)
    decreases e, 1
  {
    if e.BinaryText? && (e.op.Mul? || e.op.Div?) {
      var after := Print(e.right) + rest;
      var tail := e.gap + [OpChar(e.op)] + after;
      BinaryShape(Print(e.left), e.gap, OpChar(e.op), Print(e.right), rest);
      GapThen(e.gap, OpChar(e.op), after);
      TermComplete(c, e.left, tail);
      FactorComplete(c, e.right, rest);
      var l := Denote(c, Strip(e.left));
      if l.Ok? {
        ProductOperand(c, e.gap, e.op, after, l.value, Denote(c, Strip(e.right)), rest);
      }
    } else {
      FactorComplete(c, e, rest);
      var v := Denote(c, Strip(e));
      if v.Ok? {
        LoopsSkipBlanks(c, Factor(c, Print(e) + rest).value.rest, rest, v.value);
      }
    }
  }

  lemma BinaryShape(left: string, gap: string, op: char, right: string, rest: string)
    ensures left + gap + [op] + right + rest == left + (gap + [op] + (right + rest))
  {
    Cat(left + gap + [op], right, rest);
    Cat(left + gap, [op], right + rest);
    Cat(left, gap, [op] + (right + rest));
    Cat(gap, [op], right + rest);
  }

  lemma {:induction false} ExpressionTail<R>(c: Context<R>, e: Layout, rest: string)
    requires IsExpression(e) && Stops(rest) && NoProduct(rest)
    ensures Expression(c, Print(e) + rest) == ExpressionAfter(c, Denote(c, Strip(e)), rest)
    decreases e, 2
  {
    if e.BinaryText? && (e.op.Add? || e.op.Sub?) {
      var after := Print(e.right) + rest;
      var tail := e.gap + [OpChar(e.op)] + after;
      BinaryShape(Print(e.left), e.gap, OpChar(e.op), Print(e.right), rest);
      GapThen(e.gap, OpChar(e.op), after);
      ExpressionTail(c, e.left, tail);
      TermComplete(c, e.right, rest);
      var l := Denote(c, Strip(e.left));
      if l.Ok? {
        SumOperand(c, e.gap, e.op, after, l.value, Denote(c, Strip(e.right)), rest);
      }
    } else {
      TermComplete(c, e, rest);
      var v := Denote(c, Strip(e));
      if v.Ok? {
        LoopsSkipBlanks(c, SkipSpaces(rest), rest, v.value);
      }
    }
  }

  lemma ExpressionComplete<R>(c: Context<R>, e: Layout, rest: string)
    requires IsExpression(e) && Stops(rest) && NoProduct(rest) && NoSum(rest)
    ensures Yields(Expression(c, Print(e) + rest), Denote(c, Strip(e)), rest)
    decreases e, 3
  {
    ExpressionTail(c, e, rest);
  }

  /** Completeness: a text of the grammar, with any blanks and any redundant parentheses,
      evaluates to the value of its syntax tree, or throws exactly that tree's error. */
  lemma ParseComplete<R>(c: Context<R>, e: Layout, trailing: string)
    requires IsExpression(e) && Blank(trailing)
    ensures Parse(c, Print(e) + trailing) == Denote(c, Strip(e))
  {
    SkipBlank(trailing, "");
    assert trailing + "" == trailing;
    ExpressionComplete(c, e, trailing);
  }

  // ----- soundness: accepted texts are printed trees -----

  lemma SkipGap(s: string) returns (gap: string)
    ensures Blank(gap) && s == gap + SkipSpaces(s)
  {
    SkipSpacesSplit(s);
    gap := s[..|s| - |SkipSpaces(s)|];
  }

  /** `e` is a tree for the part of `s` before `p.rest`, up to a blank gap. */
  ghost predicate Witness<R>(c: Context<R>, e: Layout, gap: string, s: string, p: Parsed<R>) {
    && Denote(c, Strip(e)) == Ok(p.value)
    && Blank(gap)
    && s == Print(e) + gap + p.rest
  }

  lemma BlankAppend(a: string, b: string)
    requires Blank(a) && Blank(b)
    ensures Blank(a + b)
  {
  }

  lemma {:induction false} FactorSound<R>(c: Context<R>, s: string) returns (e: Layout, gap: string)
    requires Factor(c, s).Ok?
    ensures IsFactor(e) && Witness(c, e, gap, s, Factor(c, s).value)
    decreases |s|, 2
  {
    var q := SkipSpaces(s);
    var lead := SkipGap(s);
    if q != "" {
      assert q == [q[0]] + q[1..];
    }
    if Starts(q, '+') || Starts(q, '-') {
      e, gap := SignSound(c, s, lead, q[0] == '-', q[1..]);
    } else if Starts(q, '(') {
      e, gap := ParenSound(c, s, lead, q[1..]);
    } else if IsDigit(q[0]) || q[0] == '.' {
      e, gap := NumeralSound(c, s, lead, q);
    } else {
      e, gap := NameSound(c, s, lead, q);
    }
  }

  lemma NumeralSound<R>(c: Context<R>, s: string, lead: string, q: string) returns (e: Layout, gap: string)
    requires Blank(lead) && s == lead + q && Factor(c, s).Ok?
    requires q != "" && (IsDigit(q[0]) || q[0] == '.')
    ensures IsFactor(e) && Witness(c, e, gap, s, Factor(c, s).value)
  {
    NumeralStep(c, lead, q);
    var n := StrtodLength(q);
    NumeralTake(q);
    e, gap := NumeralText(lead, q[..n]), "";
    Cat(lead, q[..n], q[n..]);
    assert lead + q[..n] + "" == lead + q[..n];
  }

  lemma {:induction false} SignSound<R>(c: Context<R>, s: string, lead: string, minus: bool, tail: string)
    returns (e: Layout, gap: string)
    requires Blank(lead) && s == lead + ([if minus then '-' else '+'] + tail) && Factor(c, s).Ok?
    ensures IsFactor(e) && Witness(c, e, gap, s, Factor(c, s).value)
    decreases |tail|, 6
  {
    var front := lead + [if minus then '-' else '+'];
    Cat(lead, [if minus then '-' else '+'], tail);
    SignStep(c, lead, minus, tail);
    var operand;
    operand, gap := FactorSound(c, tail);
    e := SignText(lead, minus, operand);
    Cat(front, Print(operand) + gap, Factor(c, tail).value.rest);
    Cat(front, Print(operand), gap);
  }

  lemma {:induction false} ParenSound<R>(c: Context<R>, s: string, lead: string, inside: string)
    returns (e: Layout, gap: string)
    requires Blank(lead) && s == lead + ("(" + inside) && Factor(c, s).Ok?
    ensures IsFactor(e) && Witness(c, e, gap, s, Factor(c, s).value)
    decreases |inside|, 6
  {
    Cat(lead, "(", inside);
    ParenStep(c, lead, inside);
    var inner, g := EnclosedSound(c, inside, MissingParenthesis);
    e, gap := ParenText(lead, inner, g), "";
    var rest := Factor(c, s).value.rest;
    ParenShape(lead, Print(inner), g, rest);
    EnclosedShape(Print(inner), g, rest);
    assert Print(e) + gap == Print(e);
  }

  lemma GapJoins(a: string, g: string, more: string, rest: string)
    ensures a + g + (more + rest) == a + (g + more) + rest
  {
  }

  lemma EnclosedShape(inner: string, gap: string, rest: string)
    ensures inner + gap + ")" + rest == inner + (gap + ")" + rest)
  {
  }

  /** The part between an opening parenthesis and the cursor after the closing one. */
  lemma {:induction false} EnclosedSound<R>(c: Context<R>, s: string, missing: NumericError)
    returns (e: Layout, gap: string)
    requires Closed(Expression(c, s), missing).Ok?
    ensures var p := Closed(Expression(c, s), missing).value;
      && IsExpression(e) && Blank(gap) && Denote(c, Strip(e)) == Ok(p.value)
      && s == Print(e) + gap + ")" + p.rest
    decreases |s|, 5
  {
    var g;
    e, g := ExpressionSound(c, s);
    var mid := Expression(c, s).value.rest;
    var more := SkipGap(mid);
    BlankAppend(g, more);
    gap := g + more;
    var close := SkipSpaces(mid);
    assert close == ")" + close[1..];
    GapJoins(Print(e), g, more, close);
    Cat(Print(e) + gap, ")", close[1..]);
  }

  lemma {:induction false} NameSound<R>(c: Context<R>, s: string, lead: string, q: string)
    returns (e: Layout, gap: string)
    requires Blank(lead) && s == lead + q && Factor(c, s).Ok?
    requires q != "" && IsIdentStart(q[0])
    ensures IsFactor(e) && Witness(c, e, gap, s, Factor(c, s).value)
    decreases |q|, 1
  {
    var name, tail := LongestName(q);
    NameStep(c, lead, name, tail);
    e, gap := NamedSound(c, lead, name, tail);
  }

  lemma LongestName(q: string) returns (name: string, tail: string)
    requires q != "" && IsIdentStart(q[0])
    ensures q == name + tail && IsIdentifier(name) && (tail == "" || !IsIdentChar(tail[0]))
  {
    var n := Span(IsIdentChar, q);
    name, tail := q[..n], q[n..];
  }

  lemma {:induction false} NamedSound<R>(c: Context<R>, lead: string, name: string, tail: string)
    returns (e: Layout, gap: string)
    requires Blank(lead) && IsIdentifier(name) && Named(c, name, SkipSpaces(tail)).Ok?
    ensures IsFactor(e)
    ensures Witness(c, e, gap, lead + (name + tail), Named(c, name, SkipSpaces(tail)).value)
    decreases |tail|, 0
  {
    var after := SkipSpaces(tail);
    var gapOpen := SkipGap(tail);
    if Starts(after, '(') {
      e, gap := CallSound(c, lead, name, gapOpen, after[1..]);
      assert after == "(" + after[1..];
      Cat(gapOpen, "(", after[1..]);
    } else {
      e, gap := VariableText(lead, name), gapOpen;
      Cat(lead, name, gapOpen + after);
      Cat(lead + name, gapOpen, after);
    }
  }

  lemma {:induction false} CallSound<R>(c: Context<R>, lead: string, name: string, gapOpen: string, inside: string)
    returns (e: Layout, gap: string)
    requires Blank(lead) && IsIdentifier(name) && Blank(gapOpen)
    requires Named(c, name, "(" + inside).Ok?
    ensures IsFactor(e)
    ensures Witness(c, e, gap, lead + (name + (gapOpen + "(" + inside)), Named(c, name, "(" + inside).value)
    decreases |inside|, 6
  {
    assert ("(" + inside)[1..] == inside;
    var arg, g := EnclosedSound(c, inside, MissingCallParenthesis(name));
    var p := Closed(Expression(c, inside), MissingCallParenthesis(name)).value;
    e, gap := CallText(lead, name, gapOpen, arg, g), "";
    EnclosedShape(Print(arg), g, p.rest);
    CallShape(lead, name, gapOpen, Print(arg), g, p.rest);
    assert Print(e) + gap == Print(e);
  }

  /** The text of a longer left operand regrouped. */
  lemma Regroup(left: string, gap0: string, more: string, op: char, right: string, gap: string, rest: string)
    ensures left + (gap0 + more) + [op] + right + gap + rest == left + gap0 + (more + [op] + (right + gap + rest))
  {
    Cat(left + (gap0 + more) + [op], right, gap);
    Cat(left + (gap0 + more) + [op], right + gap, rest);
    var tail := right + gap + rest;
    Cat(left, gap0, more);
    Cat(left + gap0 + more, [op], tail);
    Cat(left + gap0, more, [op] + tail);
    Cat(more, [op], tail);
  }

  lemma TokenAfterGap(gap: string, token: char, q: string)
    requires q != "" && q[0] == token
    ensures gap + q == gap + [token] + q[1..]
  {
    assert q == [token] + q[1..];
  }

  /** One more operand: the tree for the longer text, and the loop that goes on behind it. */
  lemma Longer<R>(c: Context<R>, op: Op, e0: Layout, gap0: string, more: string, v: R,
                  f: Layout, g: string, tail: string, p: Parsed<R>)
    requires Denote(c, Strip(e0)) == Ok(v) && Witness(c, f, g, tail, p)
    ensures var e1 := BinaryText(op, e0, gap0 + more, f);
      && Denote(c, Strip(e1)) == Apply(c, op, v, p.value)
      && Print(e1) + g + p.rest == Print(e0) + gap0 + (more + [OpChar(op)] + tail)
  {
    Regroup(Print(e0), gap0, more, OpChar(op), Print(f), g, p.rest);
  }

  lemma {:induction false} TermLoopSound<R>(c: Context<R>, e0: Layout, gap0: string, s: string, v: R)
    returns (e: Layout, gap: string)
    requires IsTerm(e0) && Blank(gap0) && Denote(c, Strip(e0)) == Ok(v)
    requires TermLoop(c, s, v).Ok?
    ensures IsTerm(e) && Witness(c, e, gap, Print(e0) + gap0 + s, TermLoop(c, s, v).value)
    decreases |s|, 0
  {
    var q := SkipSpaces(s);
    var more := SkipGap(s);
    BlankAppend(gap0, more);
    if Starts(q, '*') || Starts(q, '/') {
      var op := if q[0] == '*' then Mul else Div;
      TokenAfterGap(more, OpChar(op), q);
      e, gap := ProductSound(c, e0, gap0, more, op, q[1..], v);
    } else {
      e, gap := e0, gap0 + more;
      GapJoins(Print(e0), gap0, more, q);
    }
  }

  /** A round of the product loop, and the rounds behind it. */
  lemma {:induction false} ProductSound<R>(c: Context<R>, e0: Layout, gap0: string, more: string, op: Op, tail: string,
                                           v: R)
    returns (e: Layout, gap: string)
    requires IsTerm(e0) && Blank(gap0) && Blank(more) && Blank(gap0 + more) && Denote(c, Strip(e0)) == Ok(v)
    requires (op.Mul? || op.Div?) && TermLoop(c, more + [OpChar(op)] + tail, v).Ok?
    ensures IsTerm(e)
    ensures Witness(c, e, gap, Print(e0) + gap0 + (more + [OpChar(op)] + tail),
                    TermLoop(c, more + [OpChar(op)] + tail, v).value)
    decreases |tail|, 4
  {
    ProductStep(c, more, op, tail, v);
    var f, g := FactorSound(c, tail);
    var p := Factor(c, tail).value;
    Longer(c, op, e0, gap0, more, v, f, g, tail, p);
    e, gap := TermLoopSound(c, BinaryText(op, e0, gap0 + more, f), g, p.rest, Apply(c, op, v, p.value).value);
  }

  lemma TermSound<R>(c: Context<R>, s: string) returns (e: Layout, gap: string)
    requires Term(c, s).Ok?
    ensures IsTerm(e) && Witness(c, e, gap, s, Term(c, s).value)
    decreases |s|, 3
  {
    var f, g := FactorSound(c, s);
    var p := Factor(c, s).value;
    e, gap := TermLoopSound(c, f, g, p.rest, p.value);
  }

  lemma {:induction false} ExpressionLoopSound<R>(c: Context<R>, e0: Layout, gap0: string, s: string, v: R)
    returns (e: Layout, gap: string)
    requires IsExpression(e0) && Blank(gap0) && Denote(c, Strip(e0)) == Ok(v)
    requires ExpressionLoop(c, s, v).Ok?
    ensures IsExpression(e) && Witness(c, e, gap, Print(e0) + gap0 + s, ExpressionLoop(c, s, v).value)
    decreases |s|, 0
  {
    var q := SkipSpaces(s);
    var more := SkipGap(s);
    BlankAppend(gap0, more);
    if Starts(q, '+') || Starts(q, '-') {
      var op := if q[0] == '+' then Add else Sub;
      TokenAfterGap(more, OpChar(op), q);
      e, gap := SumSound(c, e0, gap0, more, op, q[1..], v);
    } else {
      e, gap := e0, gap0 + more;
      GapJoins(Print(e0), gap0, more, q);
    }
  }

  /** A round of the sum loop, and the rounds behind it. */
  lemma {:induction false} SumSound<R>(c: Context<R>, e0: Layout, gap0: string, more: string, op: Op, tail: string,
                                       v: R)
    returns (e: Layout, gap: string)
    requires IsExpression(e0) && Blank(gap0) && Blank(more) && Blank(gap0 + more) && Denote(c, Strip(e0)) == Ok(v)
    requires (op.Add? || op.Sub?) && ExpressionLoop(c, more + [OpChar(op)] + tail, v).Ok?
    ensures IsExpression(e)
    ensures Witness(c, e, gap, Print(e0) + gap0 + (more + [OpChar(op)] + tail),
                    ExpressionLoop(c, more + [OpChar(op)] + tail, v).value)
    decreases |tail|, 4
  {
    SumStep(c, more, op, tail, v);
    var t, g := TermSound(c, tail);
    var p := Term(c, tail).value;
    Longer(c, op, e0, gap0, more, v, t, g, tail, p);
    e, gap := ExpressionLoopSound(c, BinaryText(op, e0, gap0 + more, t), g, p.rest, Apply(c, op, v, p.value).value);
  }

  lemma ExpressionSound<R>(c: Context<R>, s: string) returns (e: Layout, gap: string)
    requires Expression(c, s).Ok?
    ensures IsExpression(e) && Witness(c, e, gap, s, Expression(c, s).value)
    decreases |s|, 4
  {
    var t, g := TermSound(c, s);
    var p := Term(c, s).value;
    e, gap := ExpressionLoopSound(c, t, g, p.rest, p.value);
  }

  /** Soundness: whatever `parse` accepts is a text of the grammar with that value. */
  lemma ParseSound<R>(c: Context<R>, s: string) returns (e: Layout, trailing: string)
    requires Parse(c, s).Ok?
    ensures IsExpression(e) && Blank(trailing) && s == Print(e) + trailing
    ensures Denote(c, Strip(e)) == Parse(c, s)
  {
    var gap;
    e, gap := ExpressionSound(c, s);
    var rest := Expression(c, s).value.rest;
    var more := SkipGap(rest);
    BlankAppend(gap, more);
    trailing := gap + more;
    assert rest == more;
  }

  /** Both directions at once: `parse` returns `v` exactly on the texts of trees worth `v`. */
  lemma ParseDecidesTheGrammar<R>(c: Context<R>, s: string, v: R)
    ensures Parse(c, s) == Ok(v) <==>
            exists e: Layout, trailing ::
              IsExpression(e) && Blank(trailing) && s == Print(e) + trailing && Denote(c, Strip(e)) == Ok(v)
  {
    if Parse(c, s) == Ok(v) {
      var e, trailing := ParseSound(c, s);
    }
    forall e: Layout, trailing | IsExpression(e) && Blank(trailing) && s == Print(e) + trailing {
      ParseComplete(c, e, trailing);
    }
  }

  // ----- every syntax tree has a text with parentheses only where precedence needs them -----

  function Parenthesized(e: Layout): Layout {
    ParenText("", e, "")
  }

  function Minimal(t: Tree): Layout {
    match t
    case Numeral(text) => NumeralText("", text)
    case Variable(name) => VariableText("", name)
    case Call(f, arg) => CallText("", f, "", Minimal(arg), "")
    case Sign(minus, operand) =>
      var e := Minimal(operand);
      SignText("", minus, if operand.Binary? then Parenthesized(e) else e)
    case Binary(op, left, right) =>
      var l, r := Minimal(left), Minimal(right);
      if op.Add? || op.Sub? then
        BinaryText(op, l, "", if right.Binary? && (right.op.Add? || right.op.Sub?) then Parenthesized(r) else r)
      else
        BinaryText(op, if left.Binary? && (left.op.Add? || left.op.Sub?) then Parenthesized(l) else l, "",
                   if right.Binary? then Parenthesized(r) else r)
  }

  predicate WellFormed(t: Tree) {
    match t
    case Numeral(text) => IsNumeral(text)
    case Variable(name) => IsIdentifier(name)
    case Call(f, arg) => IsIdentifier(f) && WellFormed(arg)
    case Sign(_, operand) => WellFormed(operand)
    case Binary(_, left, right) => WellFormed(left) && WellFormed(right)
  }

  lemma {:induction false} MinimalInGrammar(t: Tree)
    requires WellFormed(t)
    ensures IsExpression(Minimal(t)) && Strip(Minimal(t)) == t
    ensures !(t.Binary? && (t.op.Add? || t.op.Sub?)) ==> IsTerm(Minimal(t))
    ensures !t.Binary? ==> IsFactor(Minimal(t))
  {
    match t
    case Numeral(_) =>
    case Variable(_) =>
    case Call(_, arg) => MinimalInGrammar(arg);
    case Sign(_, operand) =>
      MinimalInGrammar(operand);
      assert IsFactor(Minimal(t));
      assert IsTerm(Minimal(t));
    case Binary(_, left, right) =>
      MinimalInGrammar(left);
      MinimalInGrammar(right);
      var l, r := Minimal(left), Minimal(right);
      assert IsFactor(l) || IsFactor(Parenthesized(l));
      assert IsExpression(l) && IsExpression(r);
      assert IsFactor(Parenthesized(l)) && IsFactor(Parenthesized(r));
      assert IsTerm(Parenthesized(l)) && IsTerm(Parenthesized(r));
  }

  /** Precedence and left association: the text printed with the fewest parentheses
      evaluates as the tree it was printed from. */
  lemma MinimalTextEvaluates<R>(c: Context<R>, t: Tree)
    requires WellFormed(t)
    ensures Parse(c, Print(Minimal(t))) == Denote(c, t)
  {
    MinimalInGrammar(t);
    assert Print(Minimal(t)) + "" == Print(Minimal(t));
    ParseComplete(c, Minimal(t), "");
  }
}
