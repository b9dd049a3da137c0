/** When instantiating an instantiated tree changes nothing (src/parser/behavior_parser.cpp):
    the exact condition on the values of the parameters. */
module Idempotence {
  import opened Text
  import opened Behavior
  import opened Templates

  /** A template of this name is changed by substitution. No template has a name with a closing
      brace. */
  predicate Active(params: Params, k: string) {
    k in params && '}' !in k && params[k] != Template(k)
  }

  /** Read from the left, the text holds no closed template that is changed. */
  predicate Clean(s: string, params: Params)
    decreases |s|
  {
    if s == "" then true
    else if StartsTemplate(s) then
      var close := IndexOf(s, '}');
      close == |s| || (!Active(params, s[2..close]) && Clean(s[close + 1..], params))
    else Clean(s[1..], params)
  }

  /** The same whatever text follows: an opening left unclosed starts the name of no active
      parameter, and no lone dollar stands at the end. */
  predicate Closed(v: string, params: Params)
    decreases |v|
  {
    if v == "" then true
    else if StartsTemplate(v) then
      var close := IndexOf(v, '}');
      if close == |v| then forall k <- params :: Active(params, k) ==> !(v[2..] <= k)
      else !Active(params, v[2..close]) && Closed(v[close + 1..], params)
    else v != "$" && Closed(v[1..], params)
  }

  /** A value that neither vanishes nor takes part in a template, on its own, behind a dollar,
      or in front of any text. */
  predicate Safe(v: string, params: Params) {
    v != "" && Closed(v, params) && Closed(['$'] + v, params)
  }

  /** The value of every name that a template can have is safe. */
  predicate AllSafe(params: Params) {
    forall k <- params :: '}' in k || Safe(params[k], params)
  }

  /** Nothing is ever changed, or all values are safe. */
  predicate Stable(params: Params) {
    (forall k <- params :: !Active(params, k)) || AllSafe(params)
  }

  ghost predicate Idempotent(params: Params) {
    forall s :: Substitute(Substitute(s, params), params) == Substitute(s, params)
  }

  // ----- stable parameters -----

  lemma {:induction false} CleanStays(s: string, params: Params)
    requires Clean(s, params)
    ensures Substitute(s, params) == s
    decreases |s|
  {
    if s == "" {
    } else if StartsTemplate(s) {
      var close := IndexOf(s, '}');
      if close < |s| {
        CleanStays(s[close + 1..], params);
        TemplateAt(s, close);
      }
    } else {
      CleanStays(s[1..], params);
    }
  }

  lemma TemplateAt(s: string, close: nat)
    requires StartsTemplate(s) && close == IndexOf(s, '}') < |s|
    ensures s[..close + 1] == Template(s[2..close]) && '}' !in s[2..close]
    ensures s == s[..close + 1] + s[close + 1..]
  {
    NoBraceBefore(s, close);
    assert close >= 2;
    Framed(s[..close + 1]);
    Slices(s, close);
  }

  lemma NoBraceBefore(s: string, close: nat)
    requires close == IndexOf(s, '}') < |s|
    ensures close >= 2 ==> '}' !in s[2..close]
  {
    IndexOfFirst(s, '}');
  }

  lemma Slices(s: string, close: nat)
    requires 2 <= close < |s|
    ensures s[..close + 1][2..close] == s[2..close] && s == s[..close + 1] + s[close + 1..]
  {
  }

  lemma Framed(t: string)
    requires |t| >= 3 && t[0] == '$' && t[1] == '{' && t[|t| - 1] == '}'
    ensures t == Template(t[2..|t| - 1])
  {
    assert t == t[..2] + t[2..|t| - 1] + t[|t| - 1..];
    assert t[..2] == ['$', '{'] && t[|t| - 1..] == ['}'];
  }

  /** Behind the first closing brace of a clean text reading starts afresh. */
  lemma {:induction false} CleanBehindBrace(t: string, params: Params)
    requires Clean(t, params) && IndexOf(t, '}') < |t|
    ensures Clean(t[IndexOf(t, '}') + 1..], params)
    decreases |t|
  {
    if !StartsTemplate(t) && t[0] != '}' {
      CleanBehindBrace(t[1..], params);
      assert t[1..][IndexOf(t[1..], '}') + 1..] == t[IndexOf(t, '}') + 1..];
    }
  }

  lemma ClosesLater(v: string, t: string)
    requires IndexOf(v, '}') == |v|
    ensures IndexOf(v + t, '}') == |v| + IndexOf(t, '}')
  {
    IndexOfFirst(v, '}');
    IndexOfFirst(t, '}');
    forall i | 0 <= i < |v| + IndexOf(t, '}') ensures (v + t)[i] != '}' {
      assert i >= |v| ==> (v + t)[i] == t[i - |v|];
    }
    IndexOfUnique(v + t, '}', |v| + IndexOf(t, '}'));
  }

  lemma ClosesInside(v: string, t: string)
    requires IndexOf(v, '}') < |v|
    ensures IndexOf(v + t, '}') == IndexOf(v, '}')
  {
    IndexOfFirst(v, '}');
    IndexOfUnique(v + t, '}', IndexOf(v, '}'));
  }

  lemma PlainStep(c: char, s: string, params: Params)
    requires !StartsTemplate([c] + s) && Clean(s, params)
    ensures Clean([c] + s, params)
  {
    assert ([c] + s)[1..] == s;
  }

  lemma UnclosedThenClean(v: string, t: string, params: Params)
    requires StartsTemplate(v) && IndexOf(v, '}') == |v| && Closed(v, params) && Clean(t, params)
    ensures Clean(v + t, params)
  {
    var c := IndexOf(t, '}');
    ClosesLater(v, t);
    if c < |t| {
      CleanBehindBrace(t, params);
      Pieces(v, t, c);
    }
  }

  lemma Pieces(v: string, t: string, c: nat)
    requires |v| >= 2 && c < |t|
    ensures (v + t)[2..|v| + c] == v[2..] + t[..c] && (v + t)[|v| + c + 1..] == t[c + 1..]
    ensures v[2..] <= (v + t)[2..|v| + c]
  {
  }

  lemma TemplateThenClean(v: string, t: string, params: Params)
    requires StartsTemplate(v) && IndexOf(v, '}') < |v| && Closed(v, params)
    requires Clean(v[IndexOf(v, '}') + 1..] + t, params)
    ensures Clean(v + t, params)
  {
    var close := IndexOf(v, '}');
    ClosesInside(v, t);
    assert (v + t)[2..close] == v[2..close] && (v + t)[close + 1..] == v[close + 1..] + t;
  }

  /** A closed text in front of a clean one. */
  lemma {:induction false} ClosedThenClean(v: string, t: string, params: Params)
    requires Closed(v, params) && Clean(t, params)
    ensures Clean(v + t, params)
    decreases |v|
  {
    if v == "" {
      assert v + t == t;
    } else if !StartsTemplate(v) {
      ClosedThenClean(v[1..], t, params);
      assert v + t == [v[0]] + (v[1..] + t);
      PlainStep(v[0], v[1..] + t, params);
    } else if IndexOf(v, '}') < |v| {
      ClosedThenClean(v[IndexOf(v, '}') + 1..], t, params);
      TemplateThenClean(v, t, params);
    } else {
      UnclosedThenClean(v, t, params);
    }
  }

  /** One step of the pass over a template with a known name. */
  predicate Known(s: string, params: Params) {
    StartsTemplate(s) && IndexOf(s, '}') < |s| && s[2..IndexOf(s, '}')] in params
  }

  function Behind(s: string): string
    requires StartsTemplate(s) && IndexOf(s, '}') < |s|
  {
    s[IndexOf(s, '}') + 1..]
  }

  /** A dollar in front of what substitution makes of a text. */
  lemma DollarThenKnown(s: string, params: Params)
    requires AllSafe(params) && Known(s, params) && Clean(Substitute(Behind(s), params), params)
    ensures Clean(['$'] + Substitute(s, params), params)
  {
    var v, t := params[s[2..IndexOf(s, '}')]], Substitute(Behind(s), params);
    TemplateAt(s, IndexOf(s, '}'));
    ClosedThenClean(['$'] + v, t, params);
    Cat(['$'], v, t);
  }

  lemma HeadStays(s: string, params: Params)
    requires s != "" && !Known(s, params)
    ensures Substitute(s, params) != "" && Substitute(s, params)[0] == s[0]
  {
  }

  lemma DollarThenOther(s: string, params: Params)
    requires !Known(s, params) && (s != "" ==> s[0] != '{') && Clean(Substitute(s, params), params)
    ensures Clean(['$'] + Substitute(s, params), params)
  {
    if s != "" {
      HeadStays(s, params);
    }
    PlainStep('$', Substitute(s, params), params);
  }

  lemma {:induction false} SafeMakesClean(s: string, params: Params)
    requires AllSafe(params)
    ensures Clean(Substitute(s, params), params)
    decreases |s|
  {
    if s == "" {
    } else if StartsTemplate(s) {
      var close := IndexOf(s, '}');
      if close < |s| {
        var name, t := s[2..close], Substitute(s[close + 1..], params);
        SafeMakesClean(s[close + 1..], params);
        TemplateAt(s, close);
        if name in params {
          ClosedThenClean(params[name], t, params);
        } else {
          UnknownThenClean(name, t, params);
        }
      }
    } else {
      SafeMakesClean(s[1..], params);
      if s[0] != '$' {
        PlainStep(s[0], Substitute(s[1..], params), params);
      } else if Known(s[1..], params) {
        SafeMakesClean(Behind(s[1..]), params);
        DollarThenKnown(s[1..], params);
      } else {
        DollarThenOther(s[1..], params);
      }
    }
  }

  lemma UnknownThenClean(name: string, t: string, params: Params)
    requires '}' !in name && !Active(params, name) && Clean(t, params)
    ensures Clean(Template(name) + t, params)
  {
    var s := Template(name) + t;
    IndexOfUnique(s, '}', |name| + 2);
    assert s[2..|name| + 2] == name && s[|name| + 3..] == t;
  }

  lemma {:induction false} NothingActive(s: string, params: Params)
    requires forall k <- params :: !Active(params, k)
    ensures Clean(s, params)
    decreases |s|
  {
    if s != "" {
      if StartsTemplate(s) && IndexOf(s, '}') < |s| {
        NothingActive(s[IndexOf(s, '}') + 1..], params);
      } else {
        NothingActive(s[1..], params);
      }
    }
  }

  /** Substituting with stable parameters a second time changes nothing. */
  lemma SubstituteTwice(s: string, params: Params)
    requires Stable(params)
    ensures Substitute(Substitute(s, params), params) == Substitute(s, params)
  {
    if forall k <- params :: !Active(params, k) {
      NothingActive(Substitute(s, params), params);
    } else {
      SafeMakesClean(s, params);
    }
    CleanStays(Substitute(s, params), params);
  }

  /** Values that are not empty and free of `$`, `{` and `}` are safe. */
  lemma {:induction false} InertIsClosed(v: string, params: Params)
    requires '$' !in v
    ensures Closed(v, params)
  {
    if v != "" {
      assert v[0] in v && forall c :: c in v[1..] ==> c in v;
      InertIsClosed(v[1..], params);
    }
  }

  lemma InertIsStable(params: Params)
    requires forall k <- params :: params[k] != "" && '$' !in params[k] && '{' !in params[k] && '}' !in params[k]
    ensures Stable(params)
  {
    forall k | k in params ensures Safe(params[k], params) {
      var v := params[k];
      InertIsClosed(v, params);
      assert v[0] in v;
      assert (['$'] + v)[1..] == v;
    }
  }

  // ----- unstable parameters -----

  /** No changed name nests a changed template: its ends, closed by a brace, are kept. */
  predicate Names(params: Params) {
    forall k <- params :: Active(params, k) ==> ClosesClean(k, params)
  }

  predicate ClosesClean(k: string, params: Params) {
    forall i | 0 <= i <= |k| :: Clean(k[i..] + ['}'], params)
  }

  /** All names without `${` are like that. */
  lemma {:induction false} NoOpeningClosesClean(k: string, params: Params)
    requires forall i | 0 <= i < |k| :: !OpensAt(k, i)
    ensures ClosesClean(k, params)
  {
    if k == "" {
      assert ("" + ['}'])[1..] == "";
    } else {
      forall i | 0 <= i < |k[1..]| ensures !OpensAt(k[1..], i) {
        assert !OpensAt(k, i + 1);
      }
      NoOpeningClosesClean(k[1..], params);
      assert !OpensAt(k, 0);
      assert (k + ['}'])[1..] == k[1..][0..] + ['}'];
      forall i | 0 <= i <= |k| ensures Clean(k[i..] + ['}'], params) {
        assert i > 0 ==> k[i..] == k[1..][i - 1..];
        assert k[0..] == k;
      }
    }
  }

  lemma BracedClean(b: string, params: Params)
    requires ClosesClean(b, params)
    ensures Clean(['{'] + b + ['}'], params)
  {
    assert b[0..] == b;
    assert (['{'] + b + ['}'])[1..] == b + ['}'];
  }

  lemma EmptyValueCloses(a: string, rest: string, params: Params)
    requires a in params && params[a] == "" && '}' !in a && Clean(rest, params)
    ensures Substitute(['$'] + (Template(a) + rest), params) == ['$'] + rest
  {
    assert (['$'] + (Template(a) + rest))[1..] == Template(a) + rest;
    SubstituteKnown(a, rest, params);
    CleanStays(rest, params);
    assert "" + rest == rest;
  }

  lemma TemplateAlone(name: string, params: Params)
    requires name in params && '}' !in name
    ensures Substitute(Template(name), params) == params[name]
  {
    SubstituteKnown(name, "", params);
    assert Template(name) + "" == Template(name) && params[name] + "" == params[name];
  }

  lemma DollarBrace(b: string)
    ensures ['$'] + (['{'] + b + ['}']) == Template(b)
  {
  }

  /** An empty value: what closes up around the gap reads as a new template. */
  lemma EmptyValueReopens(a: string, b: string, params: Params)
    requires a in params && b in params && params[a] == ""
    requires '}' !in a && '}' !in b && ClosesClean(b, params)
    ensures var once := Substitute(['$'] + (Template(a) + (['{'] + b + ['}'])), params);
      once == Template(b) && Substitute(once, params) == params[b]
  {
    BracedClean(b, params);
    EmptyValueCloses(a, ['{'] + b + ['}'], params);
    DollarBrace(b);
    TemplateAlone(b, params);
  }

  /** What substitution makes of the template of `a` in front of a clean text, and of the same
      behind a dollar. */
  lemma OnePass(a: string, u: string, params: Params)
    requires a in params && '}' !in a && Clean(u, params)
    ensures Substitute(Template(a) + u, params) == params[a] + u
    ensures Substitute(['$'] + (Template(a) + u), params) == ['$'] + (params[a] + u)
  {
    SubstituteKnown(a, u, params);
    CleanStays(u, params);
    assert (['$'] + (Template(a) + u))[1..] == Template(a) + u;
  }

  lemma NoEmptyValue(params: Params, a: string, b: string)
    requires Names(params) && Idempotent(params) && a in params && '}' !in a && Active(params, b)
    ensures params[a] != ""
  {
    var s := ['$'] + (Template(a) + (['{'] + b + ['}']));
    assert Substitute(Substitute(s, params), params) == Substitute(s, params);
    if params[a] == "" {
      EmptyValueReopens(a, b, params);
    }
  }

  lemma VanishesOnly(s: string, params: Params)
    requires forall k <- params :: '}' in k || params[k] != ""
    ensures Substitute(s, params) == "" ==> s == ""
  {
    if StartsTemplate(s) && IndexOf(s, '}') < |s| {
      TemplateAt(s, IndexOf(s, '}'));
    }
  }

  lemma Cat(a: string, b: string, c: string)
    ensures a + b + c == a + (b + c)
  {
  }

  lemma LongerPrefix(a: string, b: string, x: string, y: string)
    requires a + x == b + y && |a| >= |b|
    ensures a == b + a[|b|..] && y == a[|b|..] + x
  {
    assert (a + x)[..|b|] == (b + y)[..|b|];
    assert (a + x)[|b|..] == (b + y)[|b|..];
    assert a[..|b|] == b;
  }

  /** The value of an active name neither begins with its template nor is the beginning of it. */
  lemma NotLonger(n: string, x: string, params: Params)
    requires Names(params) && Idempotent(params) && Active(params, n)
    ensures params[n] != Template(n) + x
  {
    forall k | k in params && '}' !in k ensures params[k] != "" {
      NoEmptyValue(params, k, n);
    }
    var t := Template(n);
    assert Substitute(Substitute(t, params), params) == Substitute(t, params);
    TemplateAlone(n, params);
    SubstituteKnown(n, x, params);
    VanishesOnly(x, params);
    NothingBehind(params[n], Substitute(x, params));
    assert t + "" == t;
  }

  lemma NothingBehind(a: string, b: string)
    ensures a + b == a ==> b == ""
  {
    assert |a + b| == |a| + |b|;
  }

  lemma NotShorter(n: string, y: string, params: Params)
    requires Names(params) && Idempotent(params) && Active(params, n) && Clean(y, params)
    ensures params[n] + y != Template(n)
  {
    var t := Template(n);
    assert Substitute(Substitute(t + y, params), params) == Substitute(t + y, params);
    TemplateAlone(n, params);
    OnePass(n, y, params);
  }

  lemma CleanBehindDollar(n: string, i: nat, params: Params)
    requires ClosesClean(n, params) && 0 < i <= |Template(n)|
    ensures Clean(Template(n)[i..], params)
  {
    var t := Template(n);
    if i == 1 {
      BracedClean(n, params);
      assert t[1..] == ['{'] + n + ['}'];
    } else if i < |t| {
      assert t[i..] == n[i - 2..] + ['}'];
    }
  }

  /** No text that substitution keeps starts with an active template. */
  lemma KeptStartsInactive(n: string, rest: string, params: Params)
    requires Names(params) && Idempotent(params) && Active(params, n)
    ensures Substitute(Template(n) + rest, params) != Template(n) + rest
  {
    var t, v, after := Template(n), params[n], Substitute(rest, params);
    SubstituteKnown(n, rest, params);
    NoEmptyValue(params, n, n);
    if v + after == t + rest {
      if |v| >= |t| {
        LongerPrefix(v, t, after, rest);
        NotLonger(n, v[|t|..], params);
      } else {
        LongerPrefix(t, v, rest, after);
        CleanBehindDollar(n, |v|, params);
        NotShorter(n, t[|v|..], params);
      }
    }
  }

  /** So the texts that substitution keeps are the clean ones. */
  lemma {:induction false} KeptIsClean(s: string, params: Params)
    requires Names(params) && Idempotent(params) && Substitute(s, params) == s
    ensures Clean(s, params)
    decreases |s|
  {
    if s == "" {
    } else if StartsTemplate(s) {
      var close := IndexOf(s, '}');
      if close < |s| {
        TemplateAt(s, close);
        var name, rest := s[2..close], s[close + 1..];
        if Active(params, name) {
          KeptStartsInactive(name, rest, params);
        }
        assert Substitute(s, params) == s[..close + 1] + Substitute(rest, params);
        assert Substitute(s, params)[close + 1..] == Substitute(rest, params);
        KeptIsClean(rest, params);
      }
    } else {
      assert Substitute(s, params)[1..] == Substitute(s[1..], params);
      KeptIsClean(s[1..], params);
    }
  }

  /** A text that is not closed is made unclean by some clean text behind it. */
  lemma {:induction false} UnclosedMadeUnclean(v: string, b: string, params: Params) returns (u: string)
    requires Names(params) && Active(params, b) && !Closed(v, params)
    ensures Clean(u, params) && !Clean(v + u, params)
    decreases |v|
  {
    if StartsTemplate(v) {
      var close := IndexOf(v, '}');
      if close == |v| {
        var k :| k in params && Active(params, k) && v[2..] <= k;
        u := k[|v| - 2..] + ['}'];
        assert v + u == Template(k) + "";
        ActiveIsUnclean(k, "", params);
      } else if Active(params, v[2..close]) {
        u := "";
        TemplateAt(v, close);
        assert v + u == Template(v[2..close]) + v[close + 1..];
        ActiveIsUnclean(v[2..close], v[close + 1..], params);
      } else {
        u := UnclosedMadeUnclean(v[close + 1..], b, params);
        UncleanBehind(v, u, params);
      }
    } else if v == "$" {
      u := ['{'] + b + ['}'];
      BracedClean(b, params);
      assert v + u == Template(b) + "";
      ActiveIsUnclean(b, "", params);
    } else {
      u := UnclosedMadeUnclean(v[1..], b, params);
      assert (v + u)[1..] == v[1..] + u;
      assert !StartsTemplate(v + u);
    }
  }

  lemma UncleanBehind(v: string, u: string, params: Params)
    requires StartsTemplate(v) && IndexOf(v, '}') < |v| && !Clean(v[IndexOf(v, '}') + 1..] + u, params)
    ensures !Clean(v + u, params)
  {
    var close := IndexOf(v, '}');
    ClosesInside(v, u);
    assert (v + u)[close + 1..] == v[close + 1..] + u;
  }

  lemma ActiveIsUnclean(k: string, rest: string, params: Params)
    requires Active(params, k)
    ensures !Clean(Template(k) + rest, params)
  {
    var s := Template(k) + rest;
    IndexOfUnique(s, '}', |k| + 2);
    assert s[2..|k| + 2] == k;
  }

  lemma IdempotentIsSafe(params: Params, a: string, b: string)
    requires Names(params) && Idempotent(params) && a in params && '}' !in a && Active(params, b)
    ensures Safe(params[a], params)
  {
    var v := params[a];
    NoEmptyValue(params, a, b);
    if !Closed(v, params) {
      var u := UnclosedMadeUnclean(v, b, params);
      OnePass(a, u, params);
      var s := Template(a) + u;
      assert Substitute(Substitute(s, params), params) == Substitute(s, params);
      KeptIsClean(v + u, params);
    }
    if !Closed(['$'] + v, params) {
      var u := UnclosedMadeUnclean(['$'] + v, b, params);
      OnePass(a, u, params);
      var s := ['$'] + (Template(a) + u);
      Cat(['$'], v, u);
      assert Substitute(Substitute(s, params), params) == Substitute(s, params);
      KeptIsClean(['$'] + (v + u), params);
    }
  }

  /** Substitution is idempotent on all texts exactly with stable parameters. */
  lemma IdempotentIffStable(params: Params)
    requires Names(params)
    ensures Idempotent(params) <==> Stable(params)
  {
    if Stable(params) {
      forall s ensures Substitute(Substitute(s, params), params) == Substitute(s, params) {
        SubstituteTwice(s, params);
      }
    }
    if Idempotent(params) {
      if b :| b in params && Active(params, b) {
        forall a | a in params && '}' !in a ensures Safe(params[a], params) {
          IdempotentIsSafe(params, a, b);
        }
      }
    }
  }

  // ----- a changed name that nests a changed template -----

  /** `${y}` is replaced, and so is `${x${y}`, whose beginning is the value of `y`. */
  function Nested(): Params {
    map["y" := "${x", "x${y" := "v"]
  }

  lemma NestedValues(name: string)
    ensures name in Nested() <==> name == "y" || name == "x${y"
    ensures name == "y" ==> Nested()[name] == ['$', '{'] + "x"
    ensures name == "x${y" ==> Nested()[name] == "v"
    ensures Active(Nested(), name) ==> name == "y" || name == "x" + (['$', '{'] + "y")
  {
  }

  lemma NestedBrace(t: string)
    ensures Substitute(t, Nested()) != "" && Substitute(t, Nested())[0] == '{' ==> t != "" && t[0] == '{'
  {
    if Known(t, Nested()) {
      NestedValues(t[2..IndexOf(t, '}')]);
    } else if t != "" {
      HeadStays(t, Nested());
    }
  }

  predicate BeginsY(t: string) {
    |t| >= 4 && t[0] == '$' && t[1] == '{' && t[2] == 'y' && t[3] == '}'
  }

  lemma OtherBegins(t: string, close: nat, rest: string)
    requires StartsTemplate(t) && close == IndexOf(t, '}') < |t| && t[2..close] != "y"
    ensures !BeginsY(t[..close + 1] + rest)
  {
    var r := t[..close + 1] + rest;
    IndexOfFirst(t, '}');
    assert close >= 2;
    assert close > 3 ==> r[3] == t[3] && t[3] != '}';
    assert close == 3 ==> r[2] == t[2] && t[2..close] == [t[2]];
    assert close == 2 ==> r[2] == '}';
  }

  /** No output begins with `${y}`: only a dollar in front of a brace could make one. */
  lemma NestedBegins(t: string)
    ensures !BeginsY(Substitute(t, Nested()))
  {
    var r := Substitute(t, Nested());
    if t == "" {
    } else if StartsTemplate(t) {
      var close := IndexOf(t, '}');
      if close == |t| {
        IndexOfFirst(t, '}');
      } else {
        TemplateAt(t, close);
        NestedValues(t[2..close]);
        if t[2..close] in Nested() {
          assert t[2..close] == "y" ==> r[2] == 'x';
          assert t[2..close] == "x${y" ==> r[0] == 'v';
        } else {
          OtherBegins(t, close, Substitute(t[close + 1..], Nested()));
        }
      }
    } else if t[0] == '$' {
      NestedBrace(t[1..]);
      assert |r| > 1 ==> r[1] == Substitute(t[1..], Nested())[0];
    }
  }

  /** Behind the value of `y` no template of a changed name begins. */
  lemma ValueThenClean(t: string)
    requires Clean(t, Nested()) && !BeginsY(t)
    ensures Clean(['$', '{'] + "x" + t, Nested())
  {
    var v, c := ['$', '{'] + "x", IndexOf(t, '}');
    ClosesLater(v, t);
    if c < |t| {
      CleanBehindBrace(t, Nested());
      Pieces(v, t, c);
      assert (v + t)[2..|v| + c] == "x" + t[..c];
      NoNestedBehind(t, c);
    }
  }

  lemma NoNestedBehind(t: string, c: nat)
    requires c == IndexOf(t, '}') < |t| && !BeginsY(t)
    ensures !Active(Nested(), "x" + t[..c])
  {
    var name := "x" + t[..c];
    NestedValues(name);
    IndexOfFirst(t, '}');
    assert name[0] == 'x' && name[1..] == t[..c];
    assert ("x" + (['$', '{'] + "y"))[1..] == ['$', '{'] + "y";
    assert c == 3 ==> t[..c] == [t[0], t[1], t[2]];
  }

  lemma {:induction false} NestedIsClean(s: string)
    ensures Clean(Substitute(s, Nested()), Nested())
    decreases |s|
  {
    var p := Nested();
    if s == "" {
    } else if StartsTemplate(s) {
      var close := IndexOf(s, '}');
      if close < |s| {
        var name, t := s[2..close], Substitute(s[close + 1..], p);
        NestedIsClean(s[close + 1..]);
        TemplateAt(s, close);
        NestedValues(name);
        if name == "y" {
          NestedBegins(s[close + 1..]);
          ValueThenClean(t);
        } else if name in p {
          PlainStep('v', t, p);
        } else {
          UnknownThenClean(name, t, p);
        }
      }
    } else {
      NestedIsClean(s[1..]);
      NestedBrace(s[1..]);
      PlainStep(s[0], Substitute(s[1..], p), p);
    }
  }

  /** With such names stability is not necessary: an opening left in a value may never be closed. */
  lemma NestedNameSpares()
    ensures Idempotent(Nested()) && !Stable(Nested()) && !Names(Nested())
  {
    forall s ensures Substitute(Substitute(s, Nested()), Nested()) == Substitute(s, Nested()) {
      NestedIsClean(s);
      CleanStays(Substitute(s, Nested()), Nested());
    }
    NestedUnstable();
    if Names(Nested()) {
      IdempotentIffStable(Nested());
    }
  }

  lemma NestedUnstable()
    ensures !Stable(Nested())
  {
    var p, v, k := Nested(), ['$', '{'] + "x", "x${y";
    assert k in p && p[k] == "v" && Active(p, k);
    assert v[2..] == "x" && "x" <= k;
    assert p["y"] == v && !Closed(v, p);
  }

  // ----- trees -----

  lemma {:induction false} ExpandTwice(node: Node, params: Params)
    requires Stable(params)
    ensures Expand(Expand(node, params), params) == Expand(node, params)
  {
    var once := Expand(node, params);
    forall k | k in node.params ensures Substitute(once.params[k], params) == once.params[k] {
      SubstituteTwice(node.params[k], params);
    }
    assert SubstituteAll(once.params, params) == once.params;
    SubstituteTwice(node.command, params);
    SubstituteTwice(node.expression, params);
    SubstitutePlain("true", params);
    ExpandAllTwice(node.children, params);
  }

  lemma {:induction false} ExpandAllTwice(nodes: seq<Node>, params: Params)
    requires Stable(params)
    ensures ExpandAll(ExpandAll(nodes, params), params) == ExpandAll(nodes, params)
  {
    if nodes != [] {
      ExpandTwice(nodes[0], params);
      ExpandAllTwice(nodes[1..], params);
      assert ExpandAll(nodes, params)[1..] == ExpandAll(nodes[1..], params);
    }
  }

  /** Instantiating instantiated definitions with the same parameters changes none of them
      exactly when the merged parameters are stable. */
  lemma InstantiateTwice(inits: Params, constants: Params, runtime: Params)
    requires Names(inits + constants + runtime)
    ensures Stable(inits + constants + runtime) <==>
            forall d: Node | d.inits == inits && d.constants == constants ::
              Instantiated(Instantiated(d, runtime), runtime) == Instantiated(d, runtime)
  {
    var params := inits + constants + runtime;
    if Stable(params) {
      forall d: Node | d.inits == inits && d.constants == constants
        ensures Instantiated(Instantiated(d, runtime), runtime) == Instantiated(d, runtime)
      {
        ExpandTwice(d, params);
      }
    } else {
      IdempotentIffStable(params);
      var s :| Substitute(Substitute(s, params), params) != Substitute(s, params);
      var d := Node("", ACTION, map[], [], "", s, constants, inits, map[]);
      assert Instantiated(Instantiated(d, runtime), runtime).command != Instantiated(d, runtime).command;
    }
  }
}
