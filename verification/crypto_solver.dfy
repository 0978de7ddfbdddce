/** The exhaustive search of crypto_solver.py: every tree shape with every
    operator tuple and every distinct ordering of the numbers, evaluated by
    popping operators and numbers off the ends of two lists. */
module CryptoSolver {
  import opened Wrappers
  import opened Seqs
  import opened Decimal
  import opened Infix
  import opened Shapes
  import opened Enumerate

  /** The exceptions the search can meet: ZeroDivisionError from `truediv`,
      IndexError from popping an empty list, and the ValueError that
      `product(..., repeat=-1)` raises for an empty list of numbers. */
  datatype Fault = DivisionByZero | PopFromEmpty | NegativeRepeat

  /** What render mode returns: at a leaf the popped number itself, at a node
      the formatted string. */
  datatype Shown = Bare(n: int) | Text(s: string)

  /** `"{}".format(x)` of a rendered part. */
  function Format(x: Shown): string
  {
    match x
    case Bare(n) => IntToString(n)
    case Text(s) => s
  }

  /** `evaluate(tree, operators, values)` when the first `oc` operators and
      the first `vc` values are still on the lists: pop an operator at a
      node, then evaluate the left subtree, then the right one, and apply
      the operator with the left value first; pop a value at a leaf. The
      lists are represented by how many of their entries are left; a
      subtree that returns has popped one operator per internal node and
      one value per leaf, so the right subtree starts that much further
      down (a subtree that raises ends the whole call). */
  function EvaluateAt(t: Shape, ops: seq<Op>, vals: seq<int>, oc: int, vc: int): Result<real, Fault>
    requires oc <= |ops| && vc <= |vals|
  {
    match t
    case Leaf =>
      if vc <= 0 then Failure(PopFromEmpty) else Success(vals[vc - 1] as real)
    case Node(l, r) =>
      if oc <= 0 then Failure(PopFromEmpty)
      else
        match EvaluateAt(l, ops, vals, oc - 1, vc)
        case Failure(f) => Failure(f)
        case Success(a) =>
          match EvaluateAt(r, ops, vals, oc - 1 - Internal(l), vc - Leaves(l))
          case Failure(f) => Failure(f)
          case Success(b) =>
            match Apply(ops[oc - 1], a, b)
            case None => Failure(DivisionByZero)
            case Some(v) => Success(v)
  }

  /** `evaluate(tree, list(os), list(ns))` on fresh copies of the lists. */
  function Evaluate(t: Shape, ops: seq<Op>, vals: seq<int>): Result<real, Fault>
  {
    EvaluateAt(t, ops, vals, |ops|, |vals|)
  }

  /** `evaluate(..., return_expression=True)` on a subtree, as the text
      `"{}".format` makes of its result when the parent node builds
      `(<left> <symbol> <right>)`: the decimal numeral of the popped number
      at a leaf, the built string at a node. The pops are those of value
      mode. */
  function RenderAt(t: Shape, ops: seq<Op>, vals: seq<int>, oc: int, vc: int): Result<string, Fault>
    requires oc <= |ops| && vc <= |vals|
  {
    match t
    case Leaf =>
      if vc <= 0 then Failure(PopFromEmpty) else Success(IntToString(vals[vc - 1]))
    case Node(l, r) =>
      if oc <= 0 then Failure(PopFromEmpty)
      else
        match RenderAt(l, ops, vals, oc - 1, vc)
        case Failure(f) => Failure(f)
        case Success(a) =>
          match RenderAt(r, ops, vals, oc - 1 - Internal(l), vc - Leaves(l))
          case Failure(f) => Failure(f)
          case Success(b) => Success(Paren(a, ops[oc - 1], b))
  }

  /** `evaluate(tree, list(os), list(ns), return_expression=True)`: the
      popped number itself for a lone leaf, the built string otherwise. */
  function Render(t: Shape, ops: seq<Op>, vals: seq<int>): Result<Shown, Fault>
  {
    match t
    case Leaf =>
      if |vals| == 0 then Failure(PopFromEmpty) else Success(Bare(vals[|vals| - 1]))
    case Node(_, _) =>
      match RenderAt(t, ops, vals, |ops|, |vals|)
      case Failure(f) => Failure(f)
      case Success(s) => Success(Text(s))
  }

  /** A shape fits a candidate when it has a slot for every operator and
      every number. */
  predicate Fits(t: Shape, os: seq<Op>, ns: seq<int>)
  {
    |os| == Internal(t) && |ns| == Leaves(t)
  }

  /** The shape of an expression. */
  function ShapeOf(e: Expr): Shape
  {
    match e
    case Lit(_) => Leaf
    case Bin(_, l, r) => Node(ShapeOf(l), ShapeOf(r))
  }

  /** The operator list from which `evaluate` pops the operators of `e`:
      the last element belongs to the root, and above the right subtree's
      operators lie the left subtree's. */
  function OpsStack(e: Expr): seq<Op>
  {
    match e
    case Lit(_) => []
    case Bin(op, l, r) => OpsStack(r) + OpsStack(l) + [op]
  }

  /** The value list from which `evaluate` pops the literals of `e`: the
      left subtree's literals lie above the right subtree's. */
  function ValsStack(e: Expr): seq<int>
  {
    match e
    case Lit(n) => [n]
    case Bin(_, l, r) => ValsStack(r) + ValsStack(l)
  }

  /** The expression `evaluate` reads: the operator slots of `t` in
      pre-order take `ops[oc - 1]`, `ops[oc - 2]`, ... and its leaves, from
      left to right, take `vals[vc - 1]`, `vals[vc - 2]`, ..., as popping
      from the ends of the lists does. A slot outside the lists (which a
      fitting candidate never has) reads `+` or `0`. */
  function Bound(t: Shape, ops: seq<Op>, vals: seq<int>, oc: int, vc: int): Expr
  {
    match t
    case Leaf => Lit(if 1 <= vc <= |vals| then vals[vc - 1] else 0)
    case Node(l, r) =>
      Bin(if 1 <= oc <= |ops| then ops[oc - 1] else Add,
          Bound(l, ops, vals, oc - 1, vc),
          Bound(r, ops, vals, oc - 1 - Internal(l), vc - Leaves(l)))
  }

  /** The expression bound to a whole candidate. */
  function Candidate(t: Shape, os: seq<Op>, ns: seq<int>): Expr
  {
    Bound(t, os, ns, |os|, |ns|)
  }

  /** What render mode returns for an expression: the number itself for a
      literal, and the expression's text for a node. */
  function Displayed(e: Expr): Shown
  {
    match e
    case Lit(n) => Bare(n)
    case Bin(_, _, _) => Text(Show(e))
  }

  /** What value mode returns for an expression that computes to `v`
      (`None` when it divides by zero). */
  function Outcome(v: Option<real>): Result<real, Fault>
  {
    if v.Some? then Success(v.value) else Failure(DivisionByZero)
  }

  /** One candidate: evaluate it, skip it on ZeroDivisionError, and render it
      when its value is the goal. */
  function Check(goal: int, ns: seq<int>, os: seq<Op>, t: Shape): (r: seq<Shown>)
    requires Fits(t, os, ns)
    ensures |r| <= 1
    ensures |r| == 1 ==> Evaluate(t, os, ns) == Success(goal as real)
  {
    match Evaluate(t, os, ns)
    case Failure(_) => []
    case Success(v) =>
      if v == goal as real then
        match Render(t, os, ns)
        case Failure(_) => []
        case Success(x) => [x]
      else []
  }

  /** The innermost loop: every tree shape for one operator tuple. */
  function SolveTrees(goal: int, ns: seq<int>, os: seq<Op>, ts: seq<Shape>): seq<Shown>
    requires forall t :: t in ts ==> Fits(t, os, ns)
  {
    if |ts| == 0 then []
    else
      assert ts[0] in ts;
      Check(goal, ns, os, ts[0]) + SolveTrees(goal, ns, os, ts[1..])
  }

  /** The middle loop: every operator tuple for one ordering of the numbers. */
  function SolveOps(goal: int, ns: seq<int>, oss: seq<seq<Op>>, ts: seq<Shape>): seq<Shown>
    requires forall os, t :: os in oss && t in ts ==> Fits(t, os, ns)
  {
    if |oss| == 0 then [] else SolveTrees(goal, ns, oss[0], ts) + SolveOps(goal, ns, oss[1..], ts)
  }

  /** Every ordering, operator tuple and shape drawn from the three lists
      fit together. */
  predicate AllFit(nss: seq<seq<int>>, oss: seq<seq<Op>>, ts: seq<Shape>)
  {
    forall ns, os, t :: ns in nss && os in oss && t in ts ==> Fits(t, os, ns)
  }

  /** The outer loop: every distinct ordering of the numbers. */
  function SolvePerms(goal: int, nss: seq<seq<int>>, oss: seq<seq<Op>>, ts: seq<Shape>): seq<Shown>
    requires AllFit(nss, oss, ts)
  {
    if |nss| == 0 then [] else SolveOps(goal, nss[0], oss, ts) + SolvePerms(goal, nss[1..], oss, ts)
  }

  /** `solve(goal, numbers)`. */
  function Solve(goal: int, numbers: seq<int>): (r: Result<seq<Shown>, Fault>)
    ensures r.Failure? <==> |numbers| == 0
    ensures r.Failure? ==> r.error == NegativeRepeat
  {
    if |numbers| == 0 then Failure(NegativeRepeat)
    else
      var k := |numbers| - 1;
      var nss := Dedup(Permutations(numbers));
      var oss := Tuples(Operators, k);
      var ts := Trees(k);
      SearchSpaceFits(Operators, numbers);
      Success(SolvePerms(goal, nss, oss, ts))
  }

  /** Every distinct ordering has as many numbers as the input. */
  lemma OrderingLength(numbers: seq<int>, ns: seq<int>)
    requires ns in Dedup(Permutations(numbers))
    ensures |ns| == |numbers|
  {
    DistinctPermutations(numbers);
    assert |multiset(ns)| == |multiset(numbers)|;
  }

  /** Every shape of the k-th generation has k + 1 leaves. */
  lemma TreeSize(k: nat, t: Shape)
    requires t in Trees(k)
    ensures Internal(t) == k && Leaves(t) == k + 1
  {
    TreesSized(k);
    LeavesIsInternalPlusOne(t);
  }

  /** Every ordering, operator tuple and shape the search combines fit
      together. */
  lemma SearchSpaceFits(alphabet: seq<Op>, numbers: seq<int>)
    requires |numbers| > 0
    ensures AllFit(Dedup(Permutations(numbers)), Tuples(alphabet, |numbers| - 1), Trees(|numbers| - 1))
  {
    OrderingsLength(numbers);
    TuplesLength(alphabet, |numbers| - 1);
    TreesShape(|numbers| - 1);
    SizesFit(Dedup(Permutations(numbers)), Tuples(alphabet, |numbers| - 1), Trees(|numbers| - 1), |numbers| - 1);
  }

  /** Orderings of k + 1 numbers, k-tuples of operators and shapes with k
      nodes all fit together. */
  lemma SizesFit(nss: seq<seq<int>>, oss: seq<seq<Op>>, ts: seq<Shape>, k: nat)
    requires forall ns :: ns in nss ==> |ns| == k + 1
    requires forall os :: os in oss ==> |os| == k
    requires forall t :: t in ts ==> Internal(t) == k && Leaves(t) == k + 1
    ensures AllFit(nss, oss, ts)
  {
  }

  lemma OrderingsLength(numbers: seq<int>)
    ensures forall ns :: ns in Dedup(Permutations(numbers)) ==> |ns| == |numbers|
  {
    forall ns | ns in Dedup(Permutations(numbers)) {
      OrderingLength(numbers, ns);
    }
  }

  lemma TuplesLength(alphabet: seq<Op>, k: nat)
    ensures forall os :: os in Tuples(alphabet, k) ==> |os| == k
  {
    forall os | os in Tuples(alphabet, k) {
      TupleSound(alphabet, k, os);
    }
  }

  lemma TreesShape(k: nat)
    ensures forall t :: t in Trees(k) ==> Internal(t) == k && Leaves(t) == k + 1
  {
    forall t | t in Trees(k) {
      TreeSize(k, t);
    }
  }
}
