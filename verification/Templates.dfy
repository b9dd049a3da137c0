/** Template instantiation (src/parser/behavior_parser.cpp): the in-place `${...}` loop and
    its lifting over a tree. */
module Templates {
  import opened Text
  import opened Behavior

  type Params = map<string, string>

  // ----- one text -----

  predicate StartsTemplate(s: string) {
    |s| >= 2 && s[0] == '$' && s[1] == '{'
  }

  /** One pass from the left: a closed `${name}` becomes its value, which is not scanned again,
      or stays as it is when the name is unknown; an unclosed one ends the pass. */
  function Substitute(s: string, params: Params): string
    decreases |s|
  {
    if s == "" then ""
    else if StartsTemplate(s) then
      var close := IndexOf(s, '}');
      if close == |s| then s
      else
        var name := s[2..close];
        (if name in params then params[name] else s[..close + 1]) + Substitute(s[close + 1..], params)
    else [s[0]] + Substitute(s[1..], params)
  }

  predicate OpensAt(s: string, pos: nat) {
    pos + 1 < |s| && s[pos] == '$' && s[pos + 1] == '{'
  }

  /** `find("${", from)`: the first opening at or behind `from`, or the length of the text. */
  function FindTemplate(s: string, from: nat): (pos: nat)
    requires from <= |s|
    ensures from <= pos <= |s|
    ensures pos < |s| ==> OpensAt(s, pos)
    decreases |s| - from
  {
    if from == |s| || OpensAt(s, from) then from else FindTemplate(s, from + 1)
  }

  /** `find("}", from)`. */
  function FindClose(s: string, from: nat): (pos: nat)
    requires from <= |s|
    ensures from <= pos <= |s|
    ensures pos < |s| ==> s[pos] == '}'
    decreases |s| - from
  {
    if from == |s| || s[from] == '}' then from else FindClose(s, from + 1)
  }

  lemma {:induction false} FindCloseIsIndexOf(s: string, from: nat)
    requires from <= |s|
    ensures FindClose(s, from) == from + IndexOf(s[from..], '}')
    decreases |s| - from
  {
    if from < |s| && s[from] != '}' {
      FindCloseIsIndexOf(s, from + 1);
      assert s[from..][1..] == s[from + 1..];
    }
  }

  lemma {:induction false} SubstituteSkips(s: string, from: nat, params: Params)
    requires from <= |s|
    ensures var pos := FindTemplate(s, from);
      s[..from] + Substitute(s[from..], params) == s[..pos] + Substitute(s[pos..], params)
    decreases |s| - from
  {
    if from < |s| && !OpensAt(s, from) {
      SubstituteSkips(s, from + 1, params);
      assert s[from..][1..] == s[from + 1..];
      MoveHead(s, from, Substitute(s[from + 1..], params));
    }
  }

  lemma MoveHead(s: string, from: nat, tail: string)
    requires from < |s|
    ensures s[..from] + ([s[from]] + tail) == s[..from + 1] + tail
  {
  }

  /** `std::string::replace` of the characters from `from` up to and including `last`. */
  function Spliced(s: string, from: nat, last: nat, value: string): (r: string)
    requires from <= last < |s|
    ensures |r| == |s| - (last + 1 - from) + |value|
  {
    s[..from] + value + s[last + 1..]
  }

  /** One round of the loop at the opening found at `start`, whose brace closes at `close`. */
  function Edited(s: string, start: nat, close: nat, params: Params): (r: (string, nat))
    requires start + 2 <= close < |s|
    ensures r.1 <= |r.0| && |r.0| - r.1 < |s| - start
  {
    var name := s[start + 2..close];
    if name in params then (Spliced(s, start, close, params[name]), start + |params[name]|)
    else (s, close + 1)
  }

  lemma SubstituteClosed(q: string, close: nat, params: Params)
    requires StartsTemplate(q) && close == IndexOf(q, '}') < |q| && close >= 2
    ensures Substitute(q, params) == Kept(q, 0, close, params) + Substitute(q[close + 1..], params)
  {
    assert q[0..close + 1] == q[..close + 1];
  }

  /** What stands for the template at `start` after the edit. */
  function Kept(s: string, start: nat, close: nat, params: Params): string
    requires start + 2 <= close < |s|
  {
    var name := s[start + 2..close];
    if name in params then params[name] else s[start..close + 1]
  }

  lemma KeptSuffix(s: string, start: nat, close: nat, params: Params)
    requires start + 2 <= close < |s|
    ensures Kept(s[start..], 0, close - start, params) == Kept(s, start, close, params)
    ensures s[start..][close - start + 1..] == s[close + 1..]
  {
    assert s[start..][2..close - start] == s[start + 2..close];
    assert s[start..][0..close - start + 1] == s[start..close + 1];
  }

  lemma EditedParts(s: string, start: nat, close: nat, params: Params)
    requires start + 2 <= close < |s|
    ensures var (r, pos) := Edited(s, start, close, params);
      r[..pos] == s[..start] + Kept(s, start, close, params) && r[pos..] == s[close + 1..]
  {
  }

  lemma Cat(a: string, b: string, c: string)
    ensures a + b + c == a + (b + c)
  {
  }

  lemma SubstituteOpened(s: string, start: nat, params: Params)
    requires start <= |s| && OpensAt(s, start) && FindClose(s, start) < |s|
    ensures start + 2 <= FindClose(s, start)
    ensures var close := FindClose(s, start);
      Substitute(s[start..], params) == Kept(s, start, close, params) + Substitute(s[close + 1..], params)
  {
    var close := FindClose(s, start);
    CloseBehindOpen(s, start);
    FindCloseIsIndexOf(s, start);
    SubstituteClosed(s[start..], close - start, params);
    KeptSuffix(s, start, close, params);
  }

  lemma EditedStep(s: string, start: nat, params: Params)
    requires start <= |s| && OpensAt(s, start) && FindClose(s, start) < |s|
    ensures start + 2 <= FindClose(s, start)
    ensures var (r, pos) := Edited(s, start, FindClose(s, start), params);
      r[..pos] + Substitute(r[pos..], params) == s[..start] + Substitute(s[start..], params)
  {
    SubstituteOpened(s, start, params);
    EditedJoined(s, start, FindClose(s, start), params, Substitute(s[FindClose(s, start) + 1..], params));
  }

  lemma EditedJoined(s: string, start: nat, close: nat, params: Params, after: string)
    requires start + 2 <= close < |s|
    ensures var (r, pos) := Edited(s, start, close, params);
      r[pos..] == s[close + 1..] && r[..pos] + after == s[..start] + (Kept(s, start, close, params) + after)
  {
    EditedParts(s, start, close, params);
    Cat(s[..start], Kept(s, start, close, params), after);
  }

  /** The loop of `replaceVariables` as it stands: text and cursor before each round. */
  function Rewritten(s: string, pos: nat, params: Params): string
    requires pos <= |s|
    decreases |s| - pos
  {
    var start := FindTemplate(s, pos);
    if start == |s| then s
    else
      var close := FindClose(s, start);
      if close == |s| then s
      else
        CloseBehindOpen(s, start);
        var (r, next) := Edited(s, start, close, params);
        Rewritten(r, next, params)
  }

  lemma CloseBehindOpen(s: string, start: nat)
    requires start <= |s| && OpensAt(s, start)
    ensures start + 2 <= FindClose(s, start)
  {
  }

  /** Editing in place refines the one-pass substitution. */
  lemma {:induction false} RewrittenIsSubstitute(s: string, pos: nat, params: Params)
    requires pos <= |s|
    ensures Rewritten(s, pos, params) == s[..pos] + Substitute(s[pos..], params)
    decreases |s| - pos
  {
    var start := FindTemplate(s, pos);
    SubstituteSkips(s, pos, params);
    if start == |s| {
      assert s[..start] + "" == s;
    } else if FindClose(s, start) == |s| {
      SubstituteUnclosed(s, start, params);
    } else {
      EditedStep(s, start, params);
      var (r, next) := Edited(s, start, FindClose(s, start), params);
      RewrittenIsSubstitute(r, next, params);
    }
  }

  lemma SubstituteUnclosed(s: string, start: nat, params: Params)
    requires start <= |s| && OpensAt(s, start) && FindClose(s, start) == |s|
    ensures s[..start] + Substitute(s[start..], params) == s
  {
    FindCloseIsIndexOf(s, start);
    assert Substitute(s[start..], params) == s[start..];
  }

  /** `replaceVariables`: the text is edited in place while `pos` moves behind what was
      inserted. Values may lengthen the text, so the measure is what lies behind `pos`. */
  method ReplaceVariables(text: string, params: Params) returns (result: string)
    ensures result == Substitute(text, params)
  {
    result := text;
    var pos := 0;
    while true
      invariant 0 <= pos <= |result|
      invariant Rewritten(result, pos, params) == Rewritten(text, 0, params)
      decreases |result| - pos
    {
      var start := FindTemplate(result, pos);
      if start == |result| {
        break;
      }
      CloseBehindOpen(result, start);
      var endPos := FindClose(result, start);
      if endPos == |result| {
        break;
      }
      ghost var edited := Edited(result, start, endPos, params);
      var name := result[start + 2..endPos];
      if name in params {
        result := Spliced(result, start, endPos, params[name]);
        pos := start + |params[name]|;
      } else {
        pos := endPos + 1;
      }
      assert (result, pos) == edited;
    }
    RewrittenIsSubstitute(text, 0, params);
    assert text[0..] == text && text[..0] == "";
  }

  // ----- idempotence -----

  lemma {:induction false} SubstituteKeepsPlain(v: string, t: string, params: Params)
    requires '$' !in v
    ensures Substitute(v + t, params) == v + Substitute(t, params)
  {
    if v == "" {
      assert v + t == t;
    } else {
      assert v[0] in v;
      assert (v + t)[1..] == v[1..] + t;
      SubstituteKeepsPlain(v[1..], t, params);
    }
  }

  lemma SubstituteUnknown(s: string, close: nat, t: string, params: Params)
    requires StartsTemplate(s) && close == IndexOf(s, '}') < |s| && s[2..close] !in params
    ensures Substitute(s[..close + 1] + t, params) == s[..close + 1] + Substitute(t, params)
  {
    var q := s[..close + 1] + t;
    IndexOfFirst(s, '}');
    IndexOfUnique(q, '}', close);
    assert q[2..close] == s[2..close];
    assert q[..close + 1] == s[..close + 1] && q[close + 1..] == t;
  }

  function Template(name: string): string {
    ['$', '{'] + name + ['}']
  }

  lemma SubstituteKnown(name: string, rest: string, params: Params)
    requires name in params && '}' !in name
    ensures Substitute(Template(name) + rest, params) == params[name] + Substitute(rest, params)
  {
    var s := Template(name) + rest;
    IndexOfUnique(s, '}', |name| + 2);
    assert s[2..|name| + 2] == name && s[|name| + 3..] == rest;
  }

  lemma SubstitutePlain(v: string, params: Params)
    requires '$' !in v
    ensures Substitute(v, params) == v
  {
    SubstituteKeepsPlain(v, "", params);
    assert v + "" == v;
  }

  // ----- trees -----

  function SubstituteAll(texts: Params, params: Params): Params {
    map k | k in texts :: Substitute(texts[k], params)
  }

  function DefaultExpression(kind: Kind, expression: string, observation: map<string, string>): string {
    if kind == CONDITION && expression == "" && observation != map[] then "true" else expression
  }

  function Expand(node: Node, params: Params): Node {
    node.(params := SubstituteAll(node.params, params),
          command := Substitute(node.command, params),
          expression := DefaultExpression(node.kind, Substitute(node.expression, params), node.observation),
          children := ExpandAll(node.children, params))
  }

  function ExpandAll(nodes: seq<Node>, params: Params): (r: seq<Node>)
    ensures |r| == |nodes|
  {
    if nodes == [] then [] else [Expand(nodes[0], params)] + ExpandAll(nodes[1..], params)
  }

  /** `buildTemplateParams`: initial values < constants < task parameters. */
  function TemplateParams(definition: Node, runtime: Params): Params {
    definition.inits + definition.constants + runtime
  }

  function Instantiated(definition: Node, runtime: Params): Node {
    Expand(definition, TemplateParams(definition, runtime))
  }

  function Copied(merged: Params, source: Params, keys: seq<string>): Params
    requires forall k | k in keys :: k in source
    decreases |keys|
  {
    if keys == [] then merged else Copied(merged[keys[0] := source[keys[0]]], source, keys[1..])
  }

  lemma {:induction false} CopiedIsUnion(merged: Params, source: Params, keys: seq<string>)
    requires forall k | k in keys :: k in source
    ensures Copied(merged, source, keys) == merged + (map k | k in source && k in keys :: source[k])
    decreases |keys|
  {
    if keys != [] {
      CopiedIsUnion(merged[keys[0] := source[keys[0]]], source, keys[1..]);
    }
  }

  lemma CopiedSorted(merged: Params, source: Params)
    ensures Copied(merged, source, SortedKeys(source.Keys)) == merged + source
  {
    var keys := SortedKeys(source.Keys);
    CopiedIsUnion(merged, source, keys);
    assert (map k | k in source && k in keys :: source[k]) == source;
  }

  method MergeInto(merged: Params, source: Params) returns (r: Params)
    ensures r == merged + source
  {
    r := merged;
    var keys := SortedKeys(source.Keys);
    var i := 0;
    while i < |keys|
      invariant 0 <= i <= |keys|
      invariant Copied(r, source, keys[i..]) == Copied(merged, source, keys)
    {
      assert keys[i] in source;
      LeftBehind(keys, i);
      r := r[keys[i] := source[keys[i]]];
      i := i + 1;
    }
    CopiedSorted(merged, source);
  }

  method BuildTemplateParams(definition: Node, runtime: Params) returns (merged: Params)
    ensures merged == TemplateParams(definition, runtime)
  {
    merged := MergeInto(map[], definition.inits);
    merged := MergeInto(merged, definition.constants);
    merged := MergeInto(merged, runtime);
  }

  method ReplaceInValues(texts: Params, params: Params) returns (r: Params)
    ensures r == SubstituteAll(texts, params)
  {
    r := texts;
    var keys := SortedKeys(texts.Keys);
    ghost var all := SubstituteAll(texts, params);
    assert all.Keys == texts.Keys;
    var i := 0;
    while i < |keys|
      invariant 0 <= i <= |keys|
      invariant Copied(r, all, keys[i..]) == Copied(texts, all, keys)
    {
      assert keys[i] in all;
      LeftBehind(keys, i);
      ghost var stored := r[keys[i] := all[keys[i]]];
      var v := ReplaceVariables(texts[keys[i]], params);
      r := r[keys[i] := v];
      assert r == stored;
      i := i + 1;
    }
    CopiedSorted(texts, all);
    assert texts + all == all;
  }

  /** The loop over the children vector of `expandNode`. */
  method ExpandChildren(nodes: seq<Node>, params: Params) returns (children: seq<Node>)
    ensures children == ExpandAll(nodes, params)
    decreases nodes, 0
  {
    children := [];
    var i := 0;
    while i < |nodes|
      invariant 0 <= i <= |nodes|
      invariant children + ExpandAll(nodes[i..], params) == ExpandAll(nodes, params)
    {
      var child := ExpandNode(nodes[i], params);
      LeftBehind(nodes, i);
      children := children + [child];
      i := i + 1;
    }
  }

  method ExpandNode(node: Node, params: Params) returns (expanded: Node)
    ensures expanded == Expand(node, params)
    decreases node, 1
  {
    expanded := node;
    var texts := ReplaceInValues(node.params, params);
    var command := ReplaceVariables(node.command, params);
    var expression := ReplaceVariables(node.expression, params);
    expanded := expanded.(params := texts, command := command, expression := expression);
    if expanded.kind == CONDITION && expanded.expression == "" && expanded.observation != map[] {
      expanded := expanded.(expression := "true");
    }
    var children := ExpandChildren(node.children, params);
    expanded := expanded.(children := children);
  }

  method Instantiate(definition: Node, runtime: Params) returns (nodes: seq<Node>)
    ensures nodes == [Instantiated(definition, runtime)]
  {
    var merged := BuildTemplateParams(definition, runtime);
    var node := ExpandNode(definition, merged);
    nodes := [node];
  }
}
