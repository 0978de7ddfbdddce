/** What `evaluate` in crypto_solver.py computes: the expression a tree
    shape, an operator tuple and an ordering of the numbers stand for, and
    the proof that value mode and render mode agree with it. */
module CryptoBinding {
  import opened Wrappers
  import opened Seqs
  import opened Infix
  import opened Shapes
  import opened CryptoSolver

  /** A shape has a slot for each operator and each literal of the
      expression it is taken from. */
  lemma {:induction false} StackSizes(e: Expr)
    ensures Internal(ShapeOf(e)) == |OpsStack(e)| && Leaves(ShapeOf(e)) == |ValsStack(e)|
  {
    match e
    case Lit(_) =>
    case Bin(_, l, r) =>
      StackSizes(l);
      StackSizes(r);
  }

  /** The value list holds the literals of the expression. */
  lemma {:induction false} ValsStackLeaves(e: Expr)
    ensures multiset(ValsStack(e)) == multiset(LeafList(e))
  {
    match e
    case Lit(_) =>
    case Bin(_, l, r) =>
      ValsStackLeaves(l);
      ValsStackLeaves(r);
  }

  /** The displayed result prints as the expression's text. */
  lemma FormatDisplayed(e: Expr)
    ensures Format(Displayed(e)) == Show(e)
  {
  }

  /** Different expressions are displayed differently. */
  lemma DisplayedInjective(e1: Expr, e2: Expr)
    requires Displayed(e1) == Displayed(e2)
    ensures e1 == e2
  {
    FormatDisplayed(e1);
    FormatDisplayed(e2);
    ShowInjective(e1, e2);
  }

  /** One step of `Bound` at a node whose operator slot exists. */
  lemma BoundNode(l: Shape, r: Shape, ops: seq<Op>, vals: seq<int>, oc: int, vc: int)
    requires 1 <= oc <= |ops|
    ensures Bound(Node(l, r), ops, vals, oc, vc)
         == Bin(ops[oc - 1], Bound(l, ops, vals, oc - 1, vc), Bound(r, ops, vals, oc - 1 - Internal(l), vc - Leaves(l)))
  {
  }

  /** The bound expression has the shape `t`. */
  lemma {:induction false} BoundShape(t: Shape, ops: seq<Op>, vals: seq<int>, oc: int, vc: int)
    ensures ShapeOf(Bound(t, ops, vals, oc, vc)) == t
  {
    match t
    case Leaf =>
    case Node(l, r) =>
      BoundShape(l, ops, vals, oc - 1, vc);
      BoundShape(r, ops, vals, oc - 1 - Internal(l), vc - Leaves(l));
  }

  /** The operators the bound expression pops are the top `Internal(t)`
      operators of the list. */
  lemma {:induction false} BoundOps(t: Shape, ops: seq<Op>, vals: seq<int>, oc: int, vc: int)
    requires Internal(t) <= oc <= |ops|
    ensures OpsStack(Bound(t, ops, vals, oc, vc)) == ops[oc - Internal(t)..oc]
  {
    match t
    case Leaf =>
    case Node(l, r) =>
      var lo, mid := oc - Internal(t), oc - 1 - Internal(l);
      var bl, br := Bound(l, ops, vals, oc - 1, vc), Bound(r, ops, vals, mid, vc - Leaves(l));
      assert Bound(t, ops, vals, oc, vc) == Bin(ops[oc - 1], bl, br);
      BoundOps(l, ops, vals, oc - 1, vc);
      BoundOps(r, ops, vals, mid, vc - Leaves(l));
      StackJoin(ops, lo, mid, oc, OpsStack(br), OpsStack(bl));
  }

  /** The values the bound expression pops are the top `Leaves(t)` values
      of the list. */
  lemma {:induction false} BoundVals(t: Shape, ops: seq<Op>, vals: seq<int>, oc: int, vc: int)
    requires Leaves(t) <= vc <= |vals|
    ensures ValsStack(Bound(t, ops, vals, oc, vc)) == vals[vc - Leaves(t)..vc]
  {
    match t
    case Leaf =>
    case Node(l, r) =>
      var lo, mid := vc - Leaves(t), vc - Leaves(l);
      BoundVals(l, ops, vals, oc - 1, vc);
      BoundVals(r, ops, vals, oc - 1 - Internal(l), mid);
      var bl, br := Bound(l, ops, vals, oc - 1, vc), Bound(r, ops, vals, oc - 1 - Internal(l), mid);
      WindowJoin(vals, lo, mid, vc, ValsStack(br), ValsStack(bl));
  }

  /** An expression is determined by its shape and the two lists it is
      popped from. */
  lemma {:induction false} PartsDetermine(e1: Expr, e2: Expr)
    requires ShapeOf(e1) == ShapeOf(e2)
    requires OpsStack(e1) == OpsStack(e2) && ValsStack(e1) == ValsStack(e2)
    ensures e1 == e2
  {
    match e1
    case Lit(_) =>
    case Bin(op1, l1, r1) =>
      var Bin(op2, l2, r2) := e2;
      StackSizes(r1);
      StackSizes(r2);
      StackSizes(l1);
      StackSizes(l2);
      AppendCancel(OpsStack(r1) + OpsStack(l1), [op1], OpsStack(r2) + OpsStack(l2), [op2]);
      AppendCancel(OpsStack(r1), OpsStack(l1), OpsStack(r2), OpsStack(l2));
      AppendCancel(ValsStack(r1), ValsStack(l1), ValsStack(r2), ValsStack(l2));
      PartsDetermine(l1, l2);
      PartsDetermine(r1, r2);
  }

  /** `evaluate` reads exactly the slots the shape binds: on lists with
      room for the whole shape it computes the value of the bound
      expression, and it fails only by dividing by zero, exactly when that
      expression does. */
  lemma {:induction false} EvaluateBinds(t: Shape, ops: seq<Op>, vals: seq<int>, oc: int, vc: int)
    requires Internal(t) <= oc <= |ops| && Leaves(t) <= vc <= |vals|
    ensures EvaluateAt(t, ops, vals, oc, vc) == Outcome(Value(Bound(t, ops, vals, oc, vc)))
  {
    if t.Node? {
      EvaluateBinds(t.left, ops, vals, oc - 1, vc);
      EvaluateBinds(t.right, ops, vals, oc - 1 - Internal(t.left), vc - Leaves(t.left));
    }
  }

  /** On lists without room for the shape, `evaluate` raises. */
  lemma {:induction false} EvaluateShort(t: Shape, ops: seq<Op>, vals: seq<int>, oc: int, vc: int)
    requires 0 <= oc <= |ops| && 0 <= vc <= |vals|
    requires oc < Internal(t) || vc < Leaves(t)
    ensures EvaluateAt(t, ops, vals, oc, vc).Failure?
  {
    if t.Node? && oc > 0 {
      if oc - 1 < Internal(t.left) || vc < Leaves(t.left) {
        EvaluateShort(t.left, ops, vals, oc - 1, vc);
      } else {
        EvaluateShort(t.right, ops, vals, oc - 1 - Internal(t.left), vc - Leaves(t.left));
      }
    }
  }

  /** Render mode prints the bound expression on lists with room for the
      shape. */
  lemma {:induction false} RenderBinds(t: Shape, ops: seq<Op>, vals: seq<int>, oc: int, vc: int)
    requires Internal(t) <= oc <= |ops| && Leaves(t) <= vc <= |vals|
    ensures RenderAt(t, ops, vals, oc, vc) == Success(Show(Bound(t, ops, vals, oc, vc)))
  {
    match t
    case Leaf =>
    case Node(l, r) =>
      RenderBinds(l, ops, vals, oc - 1, vc);
      RenderBinds(r, ops, vals, oc - 1 - Internal(l), vc - Leaves(l));
      BoundNode(l, r, ops, vals, oc, vc);
  }

  /** Render mode never divides, so it fails exactly when a list runs out. */
  lemma {:induction false} RenderShort(t: Shape, ops: seq<Op>, vals: seq<int>, oc: int, vc: int)
    requires 0 <= oc <= |ops| && 0 <= vc <= |vals|
    requires oc < Internal(t) || vc < Leaves(t)
    ensures RenderAt(t, ops, vals, oc, vc) == Failure(PopFromEmpty)
  {
    if t.Node? && oc > 0 {
      if oc - 1 < Internal(t.left) || vc < Leaves(t.left) {
        RenderShort(t.left, ops, vals, oc - 1, vc);
      } else {
        RenderBinds(t.left, ops, vals, oc - 1, vc);
        RenderShort(t.right, ops, vals, oc - 1 - Internal(t.left), vc - Leaves(t.left));
      }
    }
  }

  /** On a fitting candidate both modes use up both lists, value mode fails
      only by dividing by zero, and the printed text reads back as the
      bound expression, whose value is the computed one. */
  lemma CandidateOutcome(t: Shape, os: seq<Op>, ns: seq<int>)
    requires Fits(t, os, ns)
    ensures Evaluate(t, os, ns) == Outcome(Value(Candidate(t, os, ns)))
    ensures Render(t, os, ns) == Success(Displayed(Candidate(t, os, ns)))
    ensures Parse(Format(Displayed(Candidate(t, os, ns)))) == Some(Candidate(t, os, ns))
    ensures OpsStack(Candidate(t, os, ns)) == os && ValsStack(Candidate(t, os, ns)) == ns
  {
    CandidateParts(t, os, ns);
    EvaluateBinds(t, os, ns, |os|, |ns|);
    RenderBinds(t, os, ns, |os|, |ns|);
    FormatDisplayed(Candidate(t, os, ns));
    ParseShowWhole(Candidate(t, os, ns));
  }

  /** A candidate is recovered from its expression: its shape and the two
      lists it pops. */
  lemma CandidateParts(t: Shape, os: seq<Op>, ns: seq<int>)
    requires Fits(t, os, ns)
    ensures ShapeOf(Candidate(t, os, ns)) == t
    ensures OpsStack(Candidate(t, os, ns)) == os
    ensures ValsStack(Candidate(t, os, ns)) == ns
  {
    BoundShape(t, os, ns, |os|, |ns|);
    BoundOps(t, os, ns, |os|, |ns|);
    BoundVals(t, os, ns, |os|, |ns|);
    assert os[0..|os|] == os && ns[0..|ns|] == ns;
  }

  /** Every expression is the candidate of its shape and the two lists it
      is popped from. */
  lemma CandidateOfExpr(e: Expr)
    ensures Fits(ShapeOf(e), OpsStack(e), ValsStack(e))
    ensures Candidate(ShapeOf(e), OpsStack(e), ValsStack(e)) == e
  {
    StackSizes(e);
    CandidateParts(ShapeOf(e), OpsStack(e), ValsStack(e));
    PartsDetermine(Candidate(ShapeOf(e), OpsStack(e), ValsStack(e)), e);
  }
}
