/** Runs that stay among INT, finite DOUBLE, BOOL and STRING values, where conditions may be
    replaced by their normal forms. */
module PlainRuns {
  import opened Wrappers
  import opened Text
  import opened Values
  import opened Variables
  import opened Behavior
  import opened ConditionGrammar
  import opened ConditionRewriting
  import opened ValueExpressions
  import opened Execution
  import opened ValueInvariants
  import opened ExpressionRewriting
  import C = Constraints
  import G = NumericGrammar
  import N = NumericExpression
  import T = Templates

  // ----- what keeps values plain -----

  /** The library's arithmetic never leaves the finite numbers. */
  ghost predicate FiniteArithmetic(lib: Library) {
    && (forall t :: lib.numeral(t).Finite?)
    && (forall t :: lib.strtodWhole(t).Some? ==> lib.strtodWhole(t).value.Finite?)
    && (forall x: Float :: x.Finite? ==> lib.neg(x).Finite? && lib.sqrt(x).Finite?)
    && (forall x: Float, y: Float :: x.Finite? && y.Finite? ==>
          && lib.add(x, y).Finite? && lib.sub(x, y).Finite? && lib.mul(x, y).Finite?
          && (lib.nearZero(y) || lib.div(x, y).Finite?))
  }

  /** The text is no infinite literal, and is calculated only if that stays finite. */
  ghost predicate FiniteText(lib: Library, e: string) {
    var t := Trimmed(e);
    IsQuoted(t) || HasComparison(t) ||
    match NumberLiteral(lib, t)
    case Some(v) => PlainValue(Literal(lib, t, v))
    case None => HasArithmetic(t) ==> FiniteArithmetic(lib)
  }

  /** All value expressions of the tree's commands are like that. */
  ghost predicate FiniteTree(lib: Library, n: Node)
    decreases n, 1
  {
    && (IsControl(n.kind) ||
        ((forall k | k in n.params :: FiniteText(lib, n.params[k])) &&
         (SetvarParts(n.command).Some? ==> FiniteText(lib, SetvarParts(n.command).value.1))))
    && FiniteTrees(lib, n.children)
  }

  ghost predicate FiniteTrees(lib: Library, nodes: seq<Node>)
    decreases nodes, 0
  {
    nodes == [] || (FiniteTree(lib, nodes[0]) && FiniteTrees(lib, nodes[1..]))
  }

  lemma {:induction false} TreeValueFinite(lib: Library, st: Store, t: G.Tree)
    requires FiniteArithmetic(lib) && HoldsIn(PlainValue, st)
    ensures var v := G.Denote(NumericContext(lib, st), t); v.Ok? ==> v.value.Finite?
  {
    match t
    case Numeral(_) =>
    case Variable(name) =>
    case Call(_, arg) => TreeValueFinite(lib, st, arg);
    case Sign(_, operand) => TreeValueFinite(lib, st, operand);
    case Binary(_, left, right) =>
      TreeValueFinite(lib, st, left);
      TreeValueFinite(lib, st, right);
  }

  lemma ArithmeticIsFinite(lib: Library, st: Store, t: string)
    requires FiniteArithmetic(lib) && HoldsIn(PlainValue, st)
    ensures var v := N.Parse(NumericContext(lib, st), t); v.Ok? ==> v.value.Finite?
  {
    if N.Parse(NumericContext(lib, st), t).Ok? {
      var e, _ := G.ParseSound(NumericContext(lib, st), t);
      TreeValueFinite(lib, st, G.Strip(e));
    }
  }

  lemma FiniteTextKeeps(lib: Library, e: string)
    requires FiniteText(lib, e)
    ensures Keeps(lib, PlainValue, e)
  {
    forall st | HoldsIn(PlainValue, st) && EvalValue(lib, st, e).Ok? ensures PlainValue(EvalValue(lib, st, e).value) {
      if FiniteArithmetic(lib) {
        ArithmeticIsFinite(lib, st, Trimmed(e));
      }
    }
  }

  lemma {:induction false} FiniteTreeKeeps(lib: Library, n: Node)
    requires FiniteTree(lib, n)
    ensures KeptBy(lib, PlainValue, n)
    decreases n, 1
  {
    forall e | FiniteText(lib, e) ensures Keeps(lib, PlainValue, e) {
      FiniteTextKeeps(lib, e);
    }
    FiniteTreesKeep(lib, n.children);
  }

  lemma {:induction false} FiniteTreesKeep(lib: Library, nodes: seq<Node>)
    requires FiniteTrees(lib, nodes)
    ensures KeptBelow(lib, PlainValue, nodes)
    decreases nodes, 0
  {
    if nodes != [] {
      FiniteTreeKeeps(lib, nodes[0]);
      FiniteTreesKeep(lib, nodes[1..]);
    }
  }

  // ----- every store that a run meets -----

  lemma {:induction false} KeptIsMet(lib: Library, p: Property, fine: (string, Store) -> bool, n: Node, w: World)
    requires Basic(p) && KeptBy(lib, p, n) && HoldsAround(p, w)
    requires forall e, st | HoldsIn(p, st) :: fine(e, st)
    ensures Met(lib, fine, n, w)
    decreases n, 1
  {
    var w1 := Observing(n, w);
    ObserveHolds(p, w.store, n.observation, SortedKeys(n.observation.Keys));
    KeptBelowIsMet(lib, p, fine, n.kind, n.children, w1);
  }

  lemma {:induction false} KeptBelowIsMet(lib: Library, p: Property, fine: (string, Store) -> bool, kind: Kind,
                                          nodes: seq<Node>, w: World)
    requires Basic(p) && KeptBelow(lib, p, nodes) && HoldsAround(p, w)
    requires forall e, st | HoldsIn(p, st) :: fine(e, st)
    ensures MetBelow(lib, fine, kind, nodes, w)
    decreases nodes, 0
  {
    if nodes != [] {
      KeptIsMet(lib, p, fine, nodes[0], w);
      NodeKeeps(lib, p, nodes[0], w);
      KeptBelowIsMet(lib, p, fine, kind, nodes[1..], ExecNode(lib, nodes[0], w).world);
    }
  }

  // ----- normal forms, from what is known before the run -----

  /** `f` prints the normal form of the condition that `e` prints, which has operands throughout. */
  ghost predicate OperandNormalForm(e: string, f: string) {
    exists c :: HasOperands(c) && Prints(e, c) && Prints(f, Nnf(c, false))
  }

  lemma PlainNormalFormAgrees(lib: Library, st: Store, e: string, f: string)
    requires OperandNormalForm(e, f) && HoldsIn(PlainValue, st)
    ensures C.Evaluated(lib, st, e).satisfied == C.Evaluated(lib, st, f).satisfied
  {
    var c :| HasOperands(c) && Prints(e, c) && Prints(f, Nnf(c, false));
    PlainIsTurnable(lib, st, c, false);
    PrintedNormalFormAgrees(lib, st, e, f, c);
  }

  /** A task may be run over the normal forms of its expressions if the machine it starts in, the
      packets to come and what it declares are plain, and none of its value expressions is an
      infinite literal or calculates beyond the finite numbers. */
  lemma PlainTaskRunsAlike(lib: Library, rollback: bool, task: Task, n: Node, d: Node, m: Machine)
    requires var root := T.Instantiated(n, task.params);
      && Reworded(OperandNormalForm, root, T.Instantiated(d, task.params))
      && FiniteTree(lib, root) && DeclaredBy(lib, PlainValue, root) && Converts(lib, PlainValue, task.params)
    requires HoldsAround(PlainValue, m.world)
    ensures var a, b := ExecTask(lib, rollback, task, n, m), ExecTask(lib, rollback, task, d, m);
      SameUpToReason(a.result, b.result) && a.machine == b.machine
  {
    var root := T.Instantiated(n, task.params);
    var fine := (e: string, st: Store) => HoldsIn(PlainValue, st);
    FiniteTreeKeeps(lib, root);
    TaskKeeps(lib, PlainValue, rollback, task, n, m);
    KeptIsMet(lib, PlainValue, fine, root, RootWorld(lib, task, n, m));
    forall e, f, st | OperandNormalForm(e, f) && fine(e, st)
      ensures C.Evaluated(lib, st, e).satisfied == C.Evaluated(lib, st, f).satisfied
    {
      PlainNormalFormAgrees(lib, st, e, f);
    }
    RewordedTaskRunsAlike(lib, OperandNormalForm, fine, rollback, task, n, d, m);
  }
}
