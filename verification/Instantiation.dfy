/** What instantiation makes of the node at every path of a behaviour tree
    (src/parser/behavior_parser.cpp). */
module Instantiation {
  import opened Wrappers
  import opened Text
  import opened Behavior
  import opened Templates

  /** The node that the child indices in `path` lead to. */
  function At(n: Node, path: seq<nat>): Option<Node>
    decreases |path|
  {
    if path == [] then Some(n)
    else if path[0] < |n.children| then At(n.children[path[0]], path[1..])
    else None
  }

  /** `e` is `d` with its texts replaced in one pass, and nothing else; an observing Condition that
      is left without an expression gets `true`. */
  ghost predicate Replaced(e: Node, d: Node, params: Params) {
    && e.name == d.name && e.kind == d.kind && e.constants == d.constants && e.inits == d.inits
    && e.observation == d.observation && |e.children| == |d.children|
    && e.params.Keys == d.params.Keys && (forall k | k in d.params :: e.params[k] == Substitute(d.params[k], params))
    && e.command == Substitute(d.command, params)
    && var text := Substitute(d.expression, params);
       if d.kind == CONDITION && d.observation != map[] && text == "" then e.expression == "true"
         else e.expression == text
  }

  lemma {:induction false} ExpandedChild(nodes: seq<Node>, params: Params, i: nat)
    requires i < |nodes|
    ensures ExpandAll(nodes, params)[i] == Expand(nodes[i], params)
  {
    if i > 0 {
      ExpandedChild(nodes[1..], params, i - 1);
    }
  }

  lemma {:induction false} ExpandedAt(d: Node, params: Params, path: seq<nat>)
    ensures At(Expand(d, params), path).Some? <==> At(d, path).Some?
    ensures At(d, path).Some? ==> Replaced(At(Expand(d, params), path).value, At(d, path).value, params)
    decreases |path|
  {
    if path != [] && path[0] < |d.children| {
      ExpandedChild(d.children, params, path[0]);
      ExpandedAt(d.children[path[0]], params, path[1..]);
    }
  }

  /** `merged` holds what is declared for a tree: the task's parameter, else the root's constant,
      else the root's initial value. */
  ghost predicate Declared(merged: Params, d: Node, runtime: Params) {
    && merged.Keys == d.inits.Keys + d.constants.Keys + runtime.Keys
    && (forall k | k in runtime :: merged[k] == runtime[k])
    && (forall k | k in d.constants && k !in runtime :: merged[k] == d.constants[k])
    && (forall k | k in d.inits && k !in d.constants && k !in runtime :: merged[k] == d.inits[k])
  }

  /** The instantiated tree has the definition's shape, and at every path the definition's node with
      its parameters, its command and its expression replaced. */
  lemma InstantiatedAt(d: Node, runtime: Params, path: seq<nat>) returns (merged: Params)
    ensures Declared(merged, d, runtime)
    ensures At(Instantiated(d, runtime), path).Some? <==> At(d, path).Some?
    ensures At(d, path).Some? ==> Replaced(At(Instantiated(d, runtime), path).value, At(d, path).value, merged)
  {
    merged := TemplateParams(d, runtime);
    ExpandedAt(d, merged, path);
  }

  /** A parameter that is `${k}` becomes what is declared for k, or stays as it is. */
  lemma ParameterTakesValue(d: Node, runtime: Params, path: seq<nat>, name: string, k: string)
    requires At(d, path).Some? && name in At(d, path).value.params && '}' !in k
    requires At(d, path).value.params[name] == ['$', '{'] + k + ['}']
    ensures At(Instantiated(d, runtime), path).Some?
    ensures var params := At(Instantiated(d, runtime), path).value.params;
      && name in params
      && params[name] ==
         if k in runtime then runtime[k]
         else if k in d.constants then d.constants[k]
         else if k in d.inits then d.inits[k]
         else ['$', '{'] + k + ['}']
  {
    var merged := InstantiatedAt(d, runtime, path);
    if k in merged {
      SubstituteKnown(k, "", merged);
      assert Template(k) + "" == Template(k) && merged[k] + "" == merged[k];
    } else {
      UnknownStays(k, merged);
    }
  }

  lemma UnknownStays(k: string, params: Params)
    requires '}' !in k && k !in params
    ensures Substitute(Template(k), params) == Template(k)
  {
    var s := Template(k);
    IndexOfUnique(s, '}', |k| + 2);
    assert s[2..|k| + 2] == k && s[..|k| + 3] == s && s[|k| + 3..] == "";
  }
}
