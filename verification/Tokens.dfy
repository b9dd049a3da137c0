/** The tokenizer of `ConstraintEvaluator` (src/constraint/evaluator.cpp). */
module Tokens {
  import opened Wrappers
  import opened Text

  datatype Token =
    | NumberToken(text: string)
    | StringToken(text: string)
    | IdentifierToken(name: string)
    | OperatorToken(op: string)
    | LeftParen
    | RightParen
    | And
    | Or
    | Not
    | End

  /** A token at the head of a text (`None`: a character to skip), and its length. */
  datatype Lexed = Lexed(token: Option<Token>, length: nat)

  // ----- the token at the head of a text -----

  predicate IsQuote(c: char) {
    c == '\'' || c == '\"'
  }

  predicate IsNumberChar(c: char) {
    IsDigit(c) || c == '.'
  }

  /** `==`, `!=`, `<=`, `>=`, `<<` and `>>`. */
  predicate IsTwoCharOperator(c: char, d: char) {
    (IsOneCharOperator(c) && d == '=') || (c == '<' && d == '<') || (c == '>' && d == '>')
  }

  predicate IsOneCharOperator(c: char) {
    c == '<' || c == '>' || c == '=' || c == '!'
  }

  predicate StartsNumber(s: string) {
    s != "" && (IsDigit(s[0]) || (s[0] == '-' && |s| > 1 && IsDigit(s[1])))
  }

  /** The token for a word: keywords in three spellings, otherwise an identifier. */
  function WordToken(word: string): Token {
    if word == "and" || word == "AND" then And
    else if word == "or" || word == "OR" then Or
    else if word == "not" || word == "NOT" then Not
    else if word == "true" || word == "TRUE" || word == "True" then NumberToken("1")
    else if word == "false" || word == "FALSE" || word == "False" then NumberToken("0")
    else IdentifierToken(word)
  }

  /** Operators, words, and the characters that are skipped. */
  function LexSymbol(s: string): (l: Lexed)
    requires s != ""
    ensures 1 <= l.length <= |s|
  {
    if |s| > 1 && s[0] == '&' && s[1] == '&' then Lexed(Some(And), 2)
    else if |s| > 1 && s[0] == '|' && s[1] == '|' then Lexed(Some(Or), 2)
    else if |s| > 1 && IsTwoCharOperator(s[0], s[1]) then Lexed(Some(OperatorToken([s[0], s[1]])), 2)
    else if IsOneCharOperator(s[0]) then Lexed(Some(OperatorToken([s[0]])), 1)
    else if IsIdentStart(s[0]) then
      var n := Span(IsIdentChar, s);
      Lexed(Some(WordToken(s[..n])), n)
    else Lexed(None, 1)
  }

  function LexNumber(s: string): (l: Lexed)
    requires StartsNumber(s)
    ensures 1 <= l.length <= |s|
  {
    var start := if s[0] == '-' then 1 else 0;
    var n := start + Span(IsNumberChar, s[start..]);
    Lexed(Some(NumberToken(s[..n])), n)
  }

  function Lex(s: string): (l: Lexed)
    requires s != ""
    ensures 1 <= l.length <= |s|
  {
    if IsSpace(s[0]) then Lexed(None, 1)
    else if s[0] == '(' then Lexed(Some(LeftParen), 1)
    else if s[0] == ')' then Lexed(Some(RightParen), 1)
    else if IsQuote(s[0]) && IndexOf(s[1..], s[0]) < |s| - 1 then
      var n := IndexOf(s[1..], s[0]);
      Lexed(Some(StringToken(s[1..][..n])), n + 2)
    else if StartsNumber(s) then LexNumber(s)
    else LexSymbol(s)
  }

  function Emitted(t: Option<Token>): seq<Token> {
    if t.Some? then [t.value] else []
  }

  function Scan(s: string): seq<Token>
    decreases |s|
  {
    if s == "" then []
    else var l := Lex(s); Emitted(l.token) + Scan(s[l.length..])
  }

  function Tokenized(expression: string): seq<Token> {
    Scan(Trimmed(expression)) + [End]
  }

  // ----- the index loop -----

  method LexNumberAt(s: string, i: nat) returns (token: Token, next: nat)
    requires i < |s| && StartsNumber(s[i..])
    ensures i < next <= |s| && Lexed(Some(token), next - i) == LexNumber(s[i..])
  {
    next := i;
    if s[i] == '-' {
      next := next + 1;
    }
    ghost var start := next;
    while next < |s| && IsNumberChar(s[next])
      invariant start <= next <= |s|
      invariant forall k | start <= k < next :: IsNumberChar(s[k])
    {
      next := next + 1;
    }
    SpanUnique(IsNumberChar, s[start..], next - start);
    assert s[i..][start - i..] == s[start..];
    assert s[i..][..next - i] == s[i..next];
    token := NumberToken(s[i..next]);
  }

  method LexWordAt(s: string, i: nat) returns (token: Token, next: nat)
    requires i < |s| && IsIdentStart(s[i])
    ensures i < next <= |s| && next - i == Span(IsIdentChar, s[i..]) && token == WordToken(s[i..next])
  {
    next := i;
    while next < |s| && IsIdentChar(s[next])
      invariant i <= next <= |s|
      invariant forall k | i <= k < next :: IsIdentChar(s[k])
    {
      next := next + 1;
    }
    SpanUnique(IsIdentChar, s[i..], next - i);
    token := WordToken(s[i..next]);
  }

  method LexSymbolAt(s: string, i: nat) returns (token: Option<Token>, next: nat)
    requires i < |s|
    ensures i < next <= |s| && Lexed(token, next - i) == LexSymbol(s[i..])
  {
    if i + 1 < |s| {
      var c, d := s[i], s[i + 1];
      if c == '&' && d == '&' {
        return Some(And), i + 2;
      }
      if c == '|' && d == '|' {
        return Some(Or), i + 2;
      }
      if IsTwoCharOperator(c, d) {
        return Some(OperatorToken([c, d])), i + 2;
      }
    }
    var c := s[i];
    if IsOneCharOperator(c) {
      return Some(OperatorToken([c])), i + 1;
    }
    if IsIdentStart(c) {
      var word, after := LexWordAt(s, i);
      assert s[i..][..after - i] == s[i..after];
      return Some(word), after;
    }
    return None, i + 1;
  }

  method Tokenize(expression: string) returns (tokens: seq<Token>)
    ensures tokens == Tokenized(expression)
  {
    tokens := [];
    var trimmed := Trim(expression);
    var i := 0;
    while i < |trimmed|
      invariant 0 <= i <= |trimmed|
      invariant tokens + Scan(trimmed[i..]) == Scan(trimmed)
      decreases |trimmed| - i
    {
      ghost var before, here := tokens, i;
      var c := trimmed[i];
      if IsSpace(c) {
        i := i + 1;
      } else if c == '(' {
        tokens, i := tokens + [LeftParen], i + 1;
      } else if c == ')' {
        tokens, i := tokens + [RightParen], i + 1;
      } else {
        var n := if IsQuote(c) then IndexOf(trimmed[i + 1..], c) else 0;
        if IsQuote(c) && i + 1 + n < |trimmed| {
          tokens, i := tokens + [StringToken(trimmed[i + 1..][..n])], i + n + 2;
        } else if IsDigit(c) || (c == '-' && i + 1 < |trimmed| && IsDigit(trimmed[i + 1])) {
          var t, next := LexNumberAt(trimmed, i);
          tokens, i := tokens + [t], next;
        } else {
          var t, next := LexSymbolAt(trimmed, i);
          tokens, i := tokens + Emitted(t), next;
        }
      }
      TokenStep(trimmed, here, i, before, tokens);
    }
    tokens := tokens + [End];
  }

  lemma ScanStep(s: string)
    requires s != ""
    ensures Scan(s) == Emitted(Lex(s).token) + Scan(s[Lex(s).length..])
  {
  }

  /** One round of the loop emits what `Lex` says and passes over as much. */
  lemma TokenStep(s: string, i: nat, next: nat, before: seq<Token>, tokens: seq<Token>)
    requires i < |s| && next == i + Lex(s[i..]).length
    requires tokens == before + Emitted(Lex(s[i..]).token)
    ensures next <= |s|
    ensures before + Scan(s[i..]) == tokens + Scan(s[next..])
  {
    ScanStep(s[i..]);
    assert s[i..][next - i..] == s[next..];
    Associate(before, Emitted(Lex(s[i..]).token), Scan(s[next..]));
  }

  lemma Associate(a: seq<Token>, b: seq<Token>, c: seq<Token>)
    ensures a + b + c == a + (b + c)
  {
  }
}
