/** How far the condition parser looks: its result, value or error, depends only on the tokens
    up to the one where it throws, or on those it consumes and one more. */
module Lookahead {
  import opened Wrappers
  import opened Values
  import opened Variables
  import opened Tokens
  import opened Constraints

  // ----- the number of places looked at; the place behind the last token counts -----

  function Used(r: Outcome, ts: seq<Token>): nat
    requires r.Ok? && |r.value.rest| <= |ts|
  {
    |ts| - |r.value.rest|
  }

  function OrLooks(lib: Library, st: Store, ts: seq<Token>): nat
    decreases |ts|, 4
  {
    var l := AndExpression(lib, st, ts);
    if l.Err? then AndLooks(lib, st, ts) else Used(l, ts) + OrLoopLooks(lib, st, l.value.rest)
  }

  function OrLoopLooks(lib: Library, st: Store, ts: seq<Token>): nat
    decreases |ts|, 0
  {
    if ts == [] || !ts[0].Or? then 1
    else
      var r := AndExpression(lib, st, ts[1..]);
      if r.Err? then 1 + AndLooks(lib, st, ts[1..]) else 1 + Used(r, ts[1..]) + OrLoopLooks(lib, st, r.value.rest)
  }

  function AndLooks(lib: Library, st: Store, ts: seq<Token>): nat
    decreases |ts|, 3
  {
    var l := NotExpression(lib, st, ts);
    if l.Err? then NotLooks(lib, st, ts) else Used(l, ts) + AndLoopLooks(lib, st, l.value.rest)
  }

  function AndLoopLooks(lib: Library, st: Store, ts: seq<Token>): nat
    decreases |ts|, 0
  {
    if ts == [] || !ts[0].And? then 1
    else
      var r := NotExpression(lib, st, ts[1..]);
      if r.Err? then 1 + NotLooks(lib, st, ts[1..]) else 1 + Used(r, ts[1..]) + AndLoopLooks(lib, st, r.value.rest)
  }

  function NotLooks(lib: Library, st: Store, ts: seq<Token>): nat
    decreases |ts|, 2
  {
    if ts != [] && ts[0].Not? then 1 + NotLooks(lib, st, ts[1..])
    else if ts != [] && ts[0].LeftParen? then 1 + ClosedLooks(lib, st, ts[1..])
    else if ts == [] || !ts[0].IdentifierToken? then 1
    else if |ts| > 1 && ts[1].OperatorToken? then 3
    else 2
  }

  /** Behind an opening parenthesis. */
  function ClosedLooks(lib: Library, st: Store, ts: seq<Token>): nat
    decreases |ts|, 5
  {
    var r := OrExpression(lib, st, ts);
    if r.Err? then OrLooks(lib, st, ts) else Used(r, ts) + 1
  }

  // ----- nothing else matters -----

  /** The same tokens in the first `n` places; the same vector if that goes beyond its end. */
  predicate SameUpTo(a: seq<Token>, b: seq<Token>, n: nat) {
    if n <= |a| then a[..n] <= b else a == b
  }

  lemma Shift(a: seq<Token>, b: seq<Token>, k: nat, n: nat)
    requires SameUpTo(a, b, k + n) && k <= |a|
    ensures k <= |b| && SameUpTo(a[k..], b[k..], n)
  {
    if k + n <= |a| {
      assert b[k..][..n] == b[..k + n][k..] && a[k..][..n] == a[..k + n][k..];
    }
  }

  lemma Fewer(a: seq<Token>, b: seq<Token>, m: nat, n: nat)
    requires SameUpTo(a, b, n) && m <= n
    ensures SameUpTo(a, b, m)
  {
    if n <= |a| {
      assert a[..m] == a[..n][..m] && b[..m] == b[..n][..m];
    }
  }

  lemma Place(a: seq<Token>, b: seq<Token>, n: nat, i: nat)
    requires SameUpTo(a, b, n) && i < n
    ensures (i < |a| <==> i < |b|) && (i < |a| ==> a[i] == b[i])
  {
    if n <= |a| {
      assert a[i] == a[..n][i] && b[i] == b[..n][i];
    }
  }

  /** The same error, or the same value with the same number of tokens used, at most one fewer
      than were looked at. */
  ghost predicate Alike(r: Outcome, s: Outcome, ts: seq<Token>, other: seq<Token>, looks: nat) {
    match r
    case Err(_) => s == r
    case Ok(p) =>
      && |p.rest| <= |ts| && looks <= Used(r, ts) + 1 && p.rest == ts[Used(r, ts)..]
      && Used(r, ts) <= |other| && s == Ok(Parsed(p.value, other[Used(r, ts)..]))
  }

  lemma Drop(ts: seq<Token>, j: nat, k: nat)
    requires j + k <= |ts|
    ensures ts[j..][k..] == ts[j + k..]
  {
  }

  lemma {:induction false} OrDepends(lib: Library, st: Store, ts: seq<Token>, other: seq<Token>)
    requires SameUpTo(ts, other, OrLooks(lib, st, ts))
    ensures Alike(OrExpression(lib, st, ts), OrExpression(lib, st, other), ts, other, OrLooks(lib, st, ts))
    decreases |ts|, 4
  {
    var l := AndExpression(lib, st, ts);
    if l.Err? {
      AndDepends(lib, st, ts, other);
    } else {
      AndLooksAhead(lib, st, ts);
      OrLoopLooksSome(lib, st, l.value.rest);
      Fewer(ts, other, AndLooks(lib, st, ts), OrLooks(lib, st, ts));
      AndDepends(lib, st, ts, other);
      var k := Used(l, ts);
      Shift(ts, other, k, OrLoopLooks(lib, st, l.value.rest));
      OrLoopDepends(lib, st, ts[k..], other[k..], l.value.value);
      Lifted(OrLoop(lib, st, ts[k..], l.value.value), OrLoop(lib, st, other[k..], l.value.value), ts, other, k,
             OrLoopLooks(lib, st, ts[k..]));
    }
  }

  /** What holds behind the first `k` tokens. */
  lemma Lifted(r: Outcome, s: Outcome, ts: seq<Token>, other: seq<Token>, k: nat, looks: nat)
    requires k <= |ts| && k <= |other| && Alike(r, s, ts[k..], other[k..], looks)
    ensures Alike(r, s, ts, other, k + looks)
  {
    if r.Ok? {
      Drop(ts, k, Used(r, ts[k..]));
      Drop(other, k, Used(r, ts[k..]));
    }
  }

  /** One round of the loop: the operand and where it leaves both vectors. */
  lemma {:induction false} OrRound(lib: Library, st: Store, ts: seq<Token>, other: seq<Token>, k: nat)
    requires ts != [] && AndExpression(lib, st, ts[1..]).Ok? && SameUpTo(ts, other, 1 + AndLooks(lib, st, ts[1..]))
    requires 0 < k <= |ts| && AndExpression(lib, st, ts[1..]).value.rest == ts[k..]
    ensures k <= |other| && other != []
    ensures AndExpression(lib, st, other[1..]) == Ok(Parsed(AndExpression(lib, st, ts[1..]).value.value, other[k..]))
    decreases |ts|, 0, 0
  {
    Shift(ts, other, 1, AndLooks(lib, st, ts[1..]));
    AndDepends(lib, st, ts[1..], other[1..]);
    Drop(other, 1, k - 1);
  }

  lemma OrUnfolds(lib: Library, st: Store, ts: seq<Token>, value: bool, p: Parsed)
    requires ts != [] && ts[0].Or? && AndExpression(lib, st, ts[1..]) == Ok(p)
    ensures OrLoop(lib, st, ts, value) == OrLoop(lib, st, p.rest, value || p.value)
    ensures |p.rest| < |ts| && OrLoopLooks(lib, st, ts) == |ts| - |p.rest| + OrLoopLooks(lib, st, p.rest)
  {
  }

  lemma {:induction false} OrLoopDepends(lib: Library, st: Store, ts: seq<Token>, other: seq<Token>, value: bool)
    requires SameUpTo(ts, other, OrLoopLooks(lib, st, ts))
    ensures Alike(OrLoop(lib, st, ts, value), OrLoop(lib, st, other, value), ts, other, OrLoopLooks(lib, st, ts))
    decreases |ts|, 0, 3
  {
    OrLoopLooksSome(lib, st, ts);
    Place(ts, other, OrLoopLooks(lib, st, ts), 0);
    if ts != [] && ts[0].Or? {
      if AndExpression(lib, st, ts[1..]).Err? {
        Shift(ts, other, 1, AndLooks(lib, st, ts[1..]));
        AndDepends(lib, st, ts[1..], other[1..]);
      } else {
        OrLoopGoesOn(lib, st, ts, other, value);
      }
    }
  }

  /** How far one round gets. */
  lemma {:induction false} OrReach(lib: Library, st: Store, ts: seq<Token>, value: bool) returns (k: nat)
    requires ts != [] && ts[0].Or? && AndExpression(lib, st, ts[1..]).Ok?
    ensures 0 < k <= |ts| && AndExpression(lib, st, ts[1..]).value.rest == ts[k..]
    ensures 1 + AndLooks(lib, st, ts[1..]) <= OrLoopLooks(lib, st, ts) == k + OrLoopLooks(lib, st, ts[k..])
    ensures OrLoop(lib, st, ts, value) ==
            OrLoop(lib, st, ts[k..], value || AndExpression(lib, st, ts[1..]).value.value)
    decreases |ts|, 0, 0
  {
    var r := AndExpression(lib, st, ts[1..]);
    AndDepends(lib, st, ts[1..], ts[1..]);
    k := 1 + Used(r, ts[1..]);
    Drop(ts, 1, k - 1);
    OrUnfolds(lib, st, ts, value, r.value);
    OrLoopLooksSome(lib, st, ts[k..]);
  }

  /** What is left behind one round, on both sides. */
  lemma {:induction false} OrRoundAlike(lib: Library, st: Store, ts: seq<Token>, other: seq<Token>, value: bool)
    returns (k: nat, v: bool)
    requires SameUpTo(ts, other, OrLoopLooks(lib, st, ts))
    requires ts != [] && ts[0].Or? && other != [] && other[0] == ts[0] && AndExpression(lib, st, ts[1..]).Ok?
    ensures 0 < k <= |ts| && k <= |other| && SameUpTo(ts[k..], other[k..], OrLoopLooks(lib, st, ts[k..]))
    ensures OrLoop(lib, st, ts, value) == OrLoop(lib, st, ts[k..], v)
    ensures OrLoop(lib, st, other, value) == OrLoop(lib, st, other[k..], v)
    ensures OrLoopLooks(lib, st, ts) == k + OrLoopLooks(lib, st, ts[k..])
    decreases |ts|, 0, 1
  {
    var w := AndExpression(lib, st, ts[1..]).value.value;
    k := OrReach(lib, st, ts, value);
    v := value || w;
    Fewer(ts, other, 1 + AndLooks(lib, st, ts[1..]), OrLoopLooks(lib, st, ts));
    OrRound(lib, st, ts, other, k);
    OrUnfolds(lib, st, other, value, Parsed(w, other[k..]));
    Shift(ts, other, k, OrLoopLooks(lib, st, ts[k..]));
  }

  lemma {:induction false} OrLoopGoesOn(lib: Library, st: Store, ts: seq<Token>, other: seq<Token>, value: bool)
    requires SameUpTo(ts, other, OrLoopLooks(lib, st, ts))
    requires ts != [] && ts[0].Or? && other != [] && other[0] == ts[0] && AndExpression(lib, st, ts[1..]).Ok?
    ensures Alike(OrLoop(lib, st, ts, value), OrLoop(lib, st, other, value), ts, other, OrLoopLooks(lib, st, ts))
    decreases |ts|, 0, 2
  {
    var k, v := OrRoundAlike(lib, st, ts, other, value);
    OrLoopDepends(lib, st, ts[k..], other[k..], v);
    Lifted(OrLoop(lib, st, ts[k..], v), OrLoop(lib, st, other[k..], v), ts, other, k, OrLoopLooks(lib, st, ts[k..]));
  }

  lemma NotLooksSome(lib: Library, st: Store, ts: seq<Token>)
    ensures NotLooks(lib, st, ts) >= 1
  {
  }

  lemma OrLoopLooksSome(lib: Library, st: Store, ts: seq<Token>)
    ensures OrLoopLooks(lib, st, ts) >= 1
  {
  }

  /** A success looks at most one place ahead, and leaves a suffix. */
  lemma AndLooksAhead(lib: Library, st: Store, ts: seq<Token>)
    requires AndExpression(lib, st, ts).Ok?
    ensures AndLooks(lib, st, ts) <= Used(AndExpression(lib, st, ts), ts) + 1
    decreases |ts|, 3
  {
    AndDepends(lib, st, ts, ts);
  }

  lemma NotLooksAhead(lib: Library, st: Store, ts: seq<Token>)
    requires NotExpression(lib, st, ts).Ok?
    ensures NotLooks(lib, st, ts) <= Used(NotExpression(lib, st, ts), ts) + 1
    decreases |ts|, 2
  {
    NotDepends(lib, st, ts, ts);
  }

  lemma {:induction false} AndDepends(lib: Library, st: Store, ts: seq<Token>, other: seq<Token>)
    requires SameUpTo(ts, other, AndLooks(lib, st, ts))
    ensures Alike(AndExpression(lib, st, ts), AndExpression(lib, st, other), ts, other, AndLooks(lib, st, ts))
    decreases |ts|, 3, 0
  {
    var l := NotExpression(lib, st, ts);
    if l.Err? {
      NotDepends(lib, st, ts, other);
    } else {
      NotLooksAhead(lib, st, ts);
      AndLoopLooksSome(lib, st, l.value.rest);
      Fewer(ts, other, NotLooks(lib, st, ts), AndLooks(lib, st, ts));
      NotDepends(lib, st, ts, other);
      var k := Used(l, ts);
      Shift(ts, other, k, AndLoopLooks(lib, st, l.value.rest));
      AndLoopDepends(lib, st, ts[k..], other[k..], l.value.value);
      Lifted(AndLoop(lib, st, ts[k..], l.value.value), AndLoop(lib, st, other[k..], l.value.value), ts, other, k,
             AndLoopLooks(lib, st, ts[k..]));
    }
  }

  lemma AndLoopLooksSome(lib: Library, st: Store, ts: seq<Token>)
    ensures AndLoopLooks(lib, st, ts) >= 1
  {
  }

  /** One round of the loop: the operand and where it leaves both vectors. */
  lemma {:induction false} AndRound(lib: Library, st: Store, ts: seq<Token>, other: seq<Token>, k: nat)
    requires ts != [] && NotExpression(lib, st, ts[1..]).Ok? && SameUpTo(ts, other, 1 + NotLooks(lib, st, ts[1..]))
    requires 0 < k <= |ts| && NotExpression(lib, st, ts[1..]).value.rest == ts[k..]
    ensures k <= |other| && other != []
    ensures NotExpression(lib, st, other[1..]) == Ok(Parsed(NotExpression(lib, st, ts[1..]).value.value, other[k..]))
    decreases |ts|, 0, 0
  {
    Shift(ts, other, 1, NotLooks(lib, st, ts[1..]));
    NotDepends(lib, st, ts[1..], other[1..]);
    Drop(other, 1, k - 1);
  }

  lemma AndUnfolds(lib: Library, st: Store, ts: seq<Token>, value: bool, p: Parsed)
    requires ts != [] && ts[0].And? && NotExpression(lib, st, ts[1..]) == Ok(p)
    ensures AndLoop(lib, st, ts, value) == AndLoop(lib, st, p.rest, value && p.value)
    ensures |p.rest| < |ts| && AndLoopLooks(lib, st, ts) == |ts| - |p.rest| + AndLoopLooks(lib, st, p.rest)
  {
  }

  lemma {:induction false} AndLoopDepends(lib: Library, st: Store, ts: seq<Token>, other: seq<Token>, value: bool)
    requires SameUpTo(ts, other, AndLoopLooks(lib, st, ts))
    ensures Alike(AndLoop(lib, st, ts, value), AndLoop(lib, st, other, value), ts, other, AndLoopLooks(lib, st, ts))
    decreases |ts|, 0, 3
  {
    AndLoopLooksSome(lib, st, ts);
    Place(ts, other, AndLoopLooks(lib, st, ts), 0);
    if ts != [] && ts[0].And? {
      if NotExpression(lib, st, ts[1..]).Err? {
        Shift(ts, other, 1, NotLooks(lib, st, ts[1..]));
        NotDepends(lib, st, ts[1..], other[1..]);
      } else {
        AndLoopGoesOn(lib, st, ts, other, value);
      }
    }
  }

  /** How far one round gets. */
  lemma {:induction false} AndReach(lib: Library, st: Store, ts: seq<Token>, value: bool) returns (k: nat)
    requires ts != [] && ts[0].And? && NotExpression(lib, st, ts[1..]).Ok?
    ensures 0 < k <= |ts| && NotExpression(lib, st, ts[1..]).value.rest == ts[k..]
    ensures 1 + NotLooks(lib, st, ts[1..]) <= AndLoopLooks(lib, st, ts) == k + AndLoopLooks(lib, st, ts[k..])
    ensures AndLoop(lib, st, ts, value) ==
            AndLoop(lib, st, ts[k..], value && NotExpression(lib, st, ts[1..]).value.value)
    decreases |ts|, 0, 0
  {
    var r := NotExpression(lib, st, ts[1..]);
    NotDepends(lib, st, ts[1..], ts[1..]);
    k := 1 + Used(r, ts[1..]);
    Drop(ts, 1, k - 1);
    AndUnfolds(lib, st, ts, value, r.value);
    AndLoopLooksSome(lib, st, ts[k..]);
  }

  /** What is left behind one round, on both sides. */
  lemma {:induction false} AndRoundAlike(lib: Library, st: Store, ts: seq<Token>, other: seq<Token>, value: bool)
    returns (k: nat, v: bool)
    requires SameUpTo(ts, other, AndLoopLooks(lib, st, ts))
    requires ts != [] && ts[0].And? && other != [] && other[0] == ts[0] && NotExpression(lib, st, ts[1..]).Ok?
    ensures 0 < k <= |ts| && k <= |other| && SameUpTo(ts[k..], other[k..], AndLoopLooks(lib, st, ts[k..]))
    ensures AndLoop(lib, st, ts, value) == AndLoop(lib, st, ts[k..], v)
    ensures AndLoop(lib, st, other, value) == AndLoop(lib, st, other[k..], v)
    ensures AndLoopLooks(lib, st, ts) == k + AndLoopLooks(lib, st, ts[k..])
    decreases |ts|, 0, 1
  {
    var w := NotExpression(lib, st, ts[1..]).value.value;
    k := AndReach(lib, st, ts, value);
    v := value && w;
    Fewer(ts, other, 1 + NotLooks(lib, st, ts[1..]), AndLoopLooks(lib, st, ts));
    AndRound(lib, st, ts, other, k);
    AndUnfolds(lib, st, other, value, Parsed(w, other[k..]));
    Shift(ts, other, k, AndLoopLooks(lib, st, ts[k..]));
  }

  lemma {:induction false} AndLoopGoesOn(lib: Library, st: Store, ts: seq<Token>, other: seq<Token>, value: bool)
    requires SameUpTo(ts, other, AndLoopLooks(lib, st, ts))
    requires ts != [] && ts[0].And? && other != [] && other[0] == ts[0] && NotExpression(lib, st, ts[1..]).Ok?
    ensures Alike(AndLoop(lib, st, ts, value), AndLoop(lib, st, other, value), ts, other, AndLoopLooks(lib, st, ts))
    decreases |ts|, 0, 2
  {
    var k, v := AndRoundAlike(lib, st, ts, other, value);
    AndLoopDepends(lib, st, ts[k..], other[k..], v);
    Lifted(AndLoop(lib, st, ts[k..], v), AndLoop(lib, st, other[k..], v), ts, other, k, AndLoopLooks(lib, st, ts[k..]));
  }

  lemma {:induction false} NotDepends(lib: Library, st: Store, ts: seq<Token>, other: seq<Token>)
    requires SameUpTo(ts, other, NotLooks(lib, st, ts))
    ensures Alike(NotExpression(lib, st, ts), NotExpression(lib, st, other), ts, other, NotLooks(lib, st, ts))
    decreases |ts|, 1
  {
    NotLooksSome(lib, st, ts);
    Place(ts, other, NotLooks(lib, st, ts), 0);
    if ts != [] && ts[0].Not? {
      Shift(ts, other, 1, NotLooks(lib, st, ts[1..]));
      NotDepends(lib, st, ts[1..], other[1..]);
      Lifted(NotExpression(lib, st, ts[1..]), NotExpression(lib, st, other[1..]), ts, other, 1,
             NotLooks(lib, st, ts[1..]));
    } else if ts != [] && ts[0].LeftParen? {
      Shift(ts, other, 1, ClosedLooks(lib, st, ts[1..]));
      ClosedDepends(lib, st, ts[1..], other[1..]);
      Lifted(Closed(OrExpression(lib, st, ts[1..])), Closed(OrExpression(lib, st, other[1..])), ts, other, 1,
             ClosedLooks(lib, st, ts[1..]));
    } else if ts != [] && ts[0].IdentifierToken? {
      NamedDepends(lib, st, ts, other);
    }
  }

  lemma NamedDepends(lib: Library, st: Store, ts: seq<Token>, other: seq<Token>)
    requires ts != [] && ts[0].IdentifierToken? && SameUpTo(ts, other, NotLooks(lib, st, ts))
    ensures Alike(NotExpression(lib, st, ts), NotExpression(lib, st, other), ts, other, NotLooks(lib, st, ts))
  {
    Place(ts, other, NotLooks(lib, st, ts), 0);
    Place(ts, other, NotLooks(lib, st, ts), 1);
    if |ts| > 1 && ts[1].OperatorToken? {
      Place(ts, other, 3, 2);
      if |ts| > 2 {
        Drop(ts, 1, 2);
        Drop(other, 1, 2);
      }
    }
  }

  lemma {:induction false} ClosedDepends(lib: Library, st: Store, ts: seq<Token>, other: seq<Token>)
    requires SameUpTo(ts, other, ClosedLooks(lib, st, ts))
    ensures Alike(Closed(OrExpression(lib, st, ts)), Closed(OrExpression(lib, st, other)), ts, other,
                  ClosedLooks(lib, st, ts))
    decreases |ts|, 5
  {
    var r := OrExpression(lib, st, ts);
    if r.Ok? {
      OrDepends(lib, st, ts, ts);
      Fewer(ts, other, OrLooks(lib, st, ts), ClosedLooks(lib, st, ts));
    }
    OrDepends(lib, st, ts, other);
    if r.Ok? {
      var k := Used(r, ts);
      Place(ts, other, k + 1, k);
      if k < |ts| {
        Drop(ts, k, 1);
        Drop(other, k, 1);
      }
    }
  }
}
