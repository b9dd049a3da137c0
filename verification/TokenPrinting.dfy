/** Tokenizing undoes printing, and trimming is invisible to the tokenizer. */
module TokenPrinting {
  import opened Wrappers
  import opened Text
  import opened Tokens

  // ----- how tokens are written -----

  predicate IsKeyword(word: string) {
    SpellsAnd(word) || SpellsOr(word) || SpellsNot(word) || SpellsTrue(word) || SpellsFalse(word)
  }

  predicate SpellsAnd(word: string) {
    word == "and" || word == "AND"
  }

  predicate SpellsOr(word: string) {
    word == "or" || word == "OR"
  }

  predicate SpellsNot(word: string) {
    word == "not" || word == "NOT"
  }

  predicate SpellsTrue(word: string) {
    word == "true" || word == "TRUE" || word == "True"
  }

  predicate SpellsFalse(word: string) {
    word == "false" || word == "FALSE" || word == "False"
  }

  predicate IsName(name: string) {
    name != "" && IsIdentStart(name[0]) && (forall i | 0 <= i < |name| :: IsIdentChar(name[i])) && !IsKeyword(name)
  }

  /** `-?` digit, then digits and dots. */
  predicate IsNumberText(t: string) {
    && t != "" && (IsDigit(t[0]) || (t[0] == '-' && |t| > 1 && IsDigit(t[1])))
    && forall i | 1 <= i < |t| :: IsDigit(t[i]) || t[i] == '.'
  }

  predicate IsOperator(op: string) {
    || op == "==" || op == "!=" || op == "<=" || op == ">=" || op == "<<" || op == ">>"
    || op == "<" || op == ">" || op == "=" || op == "!"
  }

  /** Tokens that have a spelling: every one but END and the malformed ones. */
  predicate Printable(t: Token) {
    match t
    case NumberToken(text) => IsNumberText(text)
    case StringToken(text) => '\'' !in text || '\"' !in text
    case IdentifierToken(name) => IsName(name)
    case OperatorToken(op) => IsOperator(op)
    case End => false
    case _ => true
  }

  function Spelling(t: Token): string {
    match t
    case NumberToken(text) => text
    case StringToken(text) => if '\'' !in text then ['\''] + text + ['\''] else ['\"'] + text + ['\"']
    case IdentifierToken(name) => name
    case OperatorToken(op) => op
    case LeftParen => "("
    case RightParen => ")"
    case And => "&&"
    case Or => "||"
    case Not => "not"
    case End => ""
  }

  /** Every way to write a token. */
  predicate Spells(word: string, t: Token) {
    match t
    case NumberToken(text) =>
      || (word == text && IsNumberText(text))
      || (text == "1" && SpellsTrue(word)) || (text == "0" && SpellsFalse(word))
    case StringToken(text) =>
      || (word == ['\''] + text + ['\''] && '\'' !in text)
      || (word == ['\"'] + text + ['\"'] && '\"' !in text)
    case IdentifierToken(name) => word == name && IsName(name)
    case OperatorToken(op) => word == op && IsOperator(op)
    case LeftParen => word == "("
    case RightParen => word == ")"
    case And => word == "&&" || SpellsAnd(word)
    case Or => word == "||" || SpellsOr(word)
    case Not => SpellsNot(word)
    case End => false
  }

  predicate IsParen(t: Token) {
    t.LeftParen? || t.RightParen?
  }

  /** The tokens of `ts` with `gaps[k]` before the k-th and the last gap behind them all. */
  function Render(ts: seq<Token>, gaps: seq<string>): string
    requires |gaps| == |ts| + 1
  {
    if ts == [] then gaps[0] else gaps[0] + Spelling(ts[0]) + Render(ts[1..], gaps[1..])
  }

  /** The words with `gaps[k]` before the k-th and the last gap behind them all. */
  function Joined(words: seq<string>, gaps: seq<string>): string
    requires |gaps| == |words| + 1
  {
    if words == [] then gaps[0] else gaps[0] + words[0] + Joined(words[1..], gaps[1..])
  }

  /** `words` write the tokens, one by one. */
  predicate Write(words: seq<string>, ts: seq<Token>) {
    |words| == |ts| && forall k | 0 <= k < |ts| :: Spells(words[k], ts[k])
  }

  function Spellings(ts: seq<Token>): seq<string> {
    if ts == [] then [] else [Spelling(ts[0])] + Spellings(ts[1..])
  }

  /** Gaps are blank; between two tokens they may be empty only next to a parenthesis. */
  predicate Spaced(ts: seq<Token>, gaps: seq<string>) {
    && |gaps| == |ts| + 1
    && (forall k | 0 <= k < |gaps| :: Blank(gaps[k]))
    && forall k | 0 < k < |ts| :: gaps[k] != "" || IsParen(ts[k - 1]) || IsParen(ts[k])
  }

  // ----- lexing one spelled token -----

  predicate Delimits(rest: string) {
    rest == "" || IsSpace(rest[0]) || rest[0] == '(' || rest[0] == ')'
  }

  lemma LexNumberSpelled(text: string, rest: string)
    requires IsNumberText(text) && Delimits(rest)
    ensures LexNumber(text + rest) == Lexed(Some(NumberToken(text)), |text|)
  {
    var start := if text[0] == '-' then 1 else 0;
    var s := text + rest;
    assert s[start..] == text[start..] + rest;
    forall i | 0 <= i < |text| - start ensures IsNumberChar(s[start..][i]) {
      assert s[start..][i] == text[start + i];
    }
    SpanUnique(IsNumberChar, s[start..], |text| - start);
    assert s[..|text|] == text;
  }

  lemma LexStringSpelled(q: char, text: string, rest: string)
    requires IsQuote(q) && q !in text
    ensures Lex([q] + text + [q] + rest) == Lexed(Some(StringToken(text)), |text| + 2)
  {
    var s := [q] + text + [q] + rest;
    assert s[1..] == text + [q] + rest;
    IndexOfUnique(s[1..], q, |text|);
    assert s[1..][..|text|] == text;
  }

  lemma LexWordSpelled(word: string, rest: string)
    requires word != "" && IsIdentStart(word[0]) && (forall i | 0 <= i < |word| :: IsIdentChar(word[i]))
    requires Delimits(rest)
    ensures Lex(word + rest) == Lexed(Some(WordToken(word)), |word|)
  {
    var s := word + rest;
    SpanUnique(IsIdentChar, s, |word|);
    assert s[..|word|] == word;
  }

  lemma LexOperatorSpelled(op: string, rest: string)
    requires IsOperator(op) && Delimits(rest)
    ensures Lex(op + rest) == Lexed(Some(OperatorToken(op)), |op|)
  {
    var s := op + rest;
    assert |op| == 2 ==> op == [s[0], s[1]];
    assert |op| == 1 ==> op == [s[0]];
  }

  lemma LexConnectiveSpelled(op: string, rest: string)
    requires op == "&&" || op == "||"
    ensures Lex(op + rest) == Lexed(Some(if op == "&&" then And else Or), 2)
  {
  }

  lemma LexSpelled(word: string, t: Token, rest: string)
    requires Spells(word, t) && (Delimits(rest) || IsParen(t))
    ensures word != "" && Lex(word + rest) == Lexed(Some(t), |word|)
  {
    match t
    case NumberToken(text) =>
      if word == text && IsNumberText(text) {
        LexNumberSpelled(text, rest);
      } else {
        LexWordSpelled(word, rest);
      }
    case StringToken(text) => LexStringSpelled(word[0], text, rest);
    case IdentifierToken(name) => LexWordSpelled(name, rest);
    case OperatorToken(op) => LexOperatorSpelled(op, rest);
    case LeftParen =>
    case RightParen =>
    case And =>
      if word == "&&" {
        LexConnectiveSpelled(word, rest);
      } else {
        LexWordSpelled(word, rest);
      }
    case Or =>
      if word == "||" {
        LexConnectiveSpelled(word, rest);
      } else {
        LexWordSpelled(word, rest);
      }
    case Not => LexWordSpelled(word, rest);
  }

  // ----- whole texts -----

  lemma {:induction false} ScanBlank(ws: string, s: string)
    requires Blank(ws)
    ensures Scan(ws + s) == Scan(s)
  {
    if ws == "" {
      assert ws + s == s;
    } else {
      assert (ws + s)[1..] == ws[1..] + s;
      ScanBlank(ws[1..], s);
    }
  }

  lemma ScanToken(word: string, t: Token, rest: string)
    requires Spells(word, t) && (Delimits(rest) || IsParen(t))
    ensures Scan(word + rest) == [t] + Scan(rest)
  {
    LexSpelled(word, t, rest);
    assert (word + rest)[|word|..] == rest;
  }

  lemma JoinedDelimits(words: seq<string>, ts: seq<Token>, gaps: seq<string>)
    requires Write(words, ts) && Spaced(ts, gaps) && (gaps[0] != "" || ts == [] || IsParen(ts[0]))
    ensures Delimits(Joined(words, gaps))
  {
    if gaps[0] != "" {
      assert IsSpace(gaps[0][0]);
      assert Joined(words, gaps)[0] == gaps[0][0];
    } else if ts != [] {
      assert Joined(words, gaps)[0] == words[0][0];
    }
  }

  lemma SpacedTail(ts: seq<Token>, gaps: seq<string>)
    requires Spaced(ts, gaps) && ts != []
    ensures Spaced(ts[1..], gaps[1..])
  {
    forall k | 0 < k < |ts[1..]| ensures gaps[1..][k] != "" || IsParen(ts[1..][k - 1]) || IsParen(ts[1..][k]) {
      assert gaps[k + 1] != "" || IsParen(ts[k]) || IsParen(ts[k + 1]);
    }
  }

  lemma {:induction false} ScanJoined(words: seq<string>, ts: seq<Token>, gaps: seq<string>)
    requires Write(words, ts) && Spaced(ts, gaps)
    ensures Scan(Joined(words, gaps)) == ts
    decreases |ts|
  {
    if ts == [] {
      assert gaps[0] == gaps[0] + "";
      ScanBlank(gaps[0], "");
    } else {
      var rest := Joined(words[1..], gaps[1..]);
      SpacedTail(ts, gaps);
      if !IsParen(ts[0]) {
        assert |ts| > 1 ==> gaps[1] != "" || IsParen(ts[1]);
        JoinedDelimits(words[1..], ts[1..], gaps[1..]);
      }
      assert Joined(words, gaps) == gaps[0] + (words[0] + rest);
      ScanBlank(gaps[0], words[0] + rest);
      ScanToken(words[0], ts[0], rest);
      ScanJoined(words[1..], ts[1..], gaps[1..]);
    }
  }

  lemma {:induction false} RenderIsJoined(ts: seq<Token>, gaps: seq<string>)
    requires |gaps| == |ts| + 1 && forall t | t in ts :: Printable(t)
    ensures Write(Spellings(ts), ts) && Render(ts, gaps) == Joined(Spellings(ts), gaps)
    decreases |ts|
  {
    if ts != [] {
      assert ts[0] in ts;
      RenderIsJoined(ts[1..], gaps[1..]);
      assert Spellings(ts)[1..] == Spellings(ts[1..]);
    }
  }

  // ----- trimming -----

  lemma LexNumberPadded(s: string, ws: string)
    requires StartsNumber(s) && Blank(ws)
    ensures LexNumber(s + ws) == LexNumber(s)
  {
    var start := if s[0] == '-' then 1 else 0;
    assert (s + ws)[start..] == s[start..] + ws;
    SpanAppend(IsNumberChar, s[start..], ws);
    var n := LexNumber(s).length;
    assert (s + ws)[..n] == s[..n];
  }

  lemma LexSymbolPadded(s: string, ws: string)
    requires s != "" && Blank(ws)
    ensures LexSymbol(s + ws) == LexSymbol(s)
  {
    if IsIdentStart(s[0]) {
      SpanAppend(IsIdentChar, s, ws);
      var n := Span(IsIdentChar, s);
      assert (s + ws)[..n] == s[..n];
    }
  }

  lemma LexQuotePadded(s: string, ws: string)
    requires s != "" && IsQuote(s[0]) && Blank(ws)
    ensures IndexOf(s[1..], s[0]) < |s| - 1 ==> Lex(s + ws) == Lex(s)
    ensures IndexOf(s[1..], s[0]) == |s| - 1 ==> IndexOf((s + ws)[1..], s[0]) == |s + ws| - 1
  {
    var q, body := s[0], s[1..];
    assert (s + ws)[1..] == body + ws;
    var n := IndexOf(body, q);
    IndexOfFirst(body, q);
    if n < |body| {
      IndexOfUnique(body + ws, q, n);
      assert (body + ws)[..n] == body[..n];
    } else {
      IndexOfUnique(body + ws, q, |body + ws|);
    }
  }

  lemma LexPadded(s: string, ws: string)
    requires s != "" && Blank(ws)
    ensures Lex(s + ws) == Lex(s)
  {
    if IsQuote(s[0]) {
      LexQuotePadded(s, ws);
    }
    assert StartsNumber(s + ws) == StartsNumber(s) by {
      assert |s| == 1 && ws != "" ==> (s + ws)[1] == ws[0];
    }
    if StartsNumber(s) {
      LexNumberPadded(s, ws);
    }
    LexSymbolPadded(s, ws);
  }

  lemma {:induction false} ScanPadded(s: string, ws: string)
    requires Blank(ws)
    ensures Scan(s + ws) == Scan(s)
    decreases |s|
  {
    if s == "" {
      assert s + ws == ws + "";
      ScanBlank(ws, "");
    } else {
      LexPadded(s, ws);
      var n := Lex(s).length;
      assert (s + ws)[n..] == s[n..] + ws;
      ScanPadded(s[n..], ws);
    }
  }

  lemma ScanIgnoresTrimming(s: string)
    ensures Scan(Trimmed(s)) == Scan(s)
  {
    var left, right := TrimmedSplit(s);
    assert s == left + (Trimmed(s) + right);
    ScanBlank(left, Trimmed(s) + right);
    ScanPadded(Trimmed(s), right);
  }

  /** Tokenizing undoes printing: any well-spelled token list, with any blanks in between,
      comes back unchanged, followed by exactly one END. */
  lemma TokenizeUndoesPrint(ts: seq<Token>, gaps: seq<string>)
    requires Spaced(ts, gaps) && forall t | t in ts :: Printable(t)
    ensures Tokenized(Render(ts, gaps)) == ts + [End]
  {
    RenderIsJoined(ts, gaps);
    TokenizeWords(Spellings(ts), ts, gaps);
  }

  /** The same however each token is written: keywords in all their spellings, strings in either
      quotes. */
  lemma TokenizeWords(words: seq<string>, ts: seq<Token>, gaps: seq<string>)
    requires Write(words, ts) && Spaced(ts, gaps)
    ensures Tokenized(Joined(words, gaps)) == ts + [End]
  {
    ScanIgnoresTrimming(Joined(words, gaps));
    ScanJoined(words, ts, gaps);
  }

  /** Every token of every text has a spelling, so END stands only at the end: the
      tokenizer's output is exactly the printable lists. */
  lemma {:induction false} ScanPrintable(s: string)
    ensures forall t | t in Scan(s) :: Printable(t)
    decreases |s|
  {
    if s != "" {
      var l := Lex(s);
      ScanPrintable(s[l.length..]);
      LexPrintable(s);
    }
  }

  lemma LexPrintable(s: string)
    requires s != ""
    ensures Lex(s).token.Some? ==> Printable(Lex(s).token.value)
  {
    if IsQuote(s[0]) && IndexOf(s[1..], s[0]) < |s| - 1 {
      var n := IndexOf(s[1..], s[0]);
      IndexOfFirst(s[1..], s[0]);
      assert forall k | 0 <= k < n :: s[1..][..n][k] == s[1..][k];
    } else if StartsNumber(s) {
      var start := if s[0] == '-' then 1 else 0;
      var n := Span(IsNumberChar, s[start..]);
      var t := s[..start + n];
      forall i | 1 <= i < |t| ensures IsNumberChar(t[i]) {
        assert t[i] == s[start..][i - start];
      }
    }
  }
}
