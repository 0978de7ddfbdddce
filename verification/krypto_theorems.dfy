/** What `solve` in krypto_solver_2.py returns, stated over the expression
    trees its `(value, text)` pairs stand for; and the zero-divisor
    sentinel that lets it report expressions that divide by zero. */
module KryptoTheorems {
  import opened Wrappers
  import opened Seqs
  import opened Infix
  import opened Extended
  import opened Krypto
  import opened KryptoResults

  /** The expression a closure builds from its two arguments: a swapped
      closure puts its second argument on the left. */
  function Build(c: Closure, a: Expr, b: Expr): Expr
  {
    if c.swapped then Bin(c.op, b, a) else Bin(c.op, a, b)
  }

  function LitOf(n: int): Expr
  {
    Lit(n)
  }

  /** The expressions `results` enumerates for `numbers`, in its order. */
  function Exprs(numbers: seq<int>): seq<Expr>
  {
    Results(Map(LitOf, numbers), Build)
  }

  /** The value of an expression in the solver's float arithmetic, a zero
      divisor giving `sentinel`. */
  function Eval(sentinel: Ext, e: Expr): Ext
  {
    match e
    case Lit(n) => Fin(n as real)
    case Bin(op, l, r) => Arith(op, Eval(sentinel, l), Eval(sentinel, r), sentinel)
  }

  /** The pair an expression stands for: its value and its text. */
  function Denote(sentinel: Ext, e: Expr): Item
  {
    Item(Eval(sentinel, e), Show(e))
  }

  function Denoter(sentinel: Ext): Expr -> Item
  {
    e => Denote(sentinel, e)
  }

  /** Each closure builds its text from the two operands its value uses,
      in the same order. */
  lemma StepBuild(sentinel: Ext, c: Closure, a: Expr, b: Expr)
    ensures Step(sentinel, c, Denote(sentinel, a), Denote(sentinel, b)) == Denote(sentinel, Build(c, a, b))
  {
  }

  /** A swapped closure is its plain twin with the arguments exchanged. */
  lemma SwappedOperands(sentinel: Ext, op: Op, a: Item, b: Item)
    ensures Step(sentinel, Closure(op, true), a, b) == Step(sentinel, Closure(op, false), b, a)
  {
  }

  /** A zero divisor gives the sentinel, whichever of the two division
      closures applies it. */
  lemma ZeroDivisor(sentinel: Ext, a: Item, b: Item)
    requires b.value == Fin(0.0)
    ensures Step(sentinel, Closure(Div, false), a, b).value == sentinel
    ensures Step(sentinel, Closure(Div, true), b, a).value == sentinel
  {
  }

  /** The pairs `results` yields for `numbers` are the values and texts of
      the enumerated expressions, in the same order. */
  lemma ResultsDenote(sentinel: Ext, numbers: seq<int>)
    ensures Results(Map(LeafItem, numbers), Steps(sentinel)) == Map(Denoter(sentinel), Exprs(numbers))
  {
    var f := Denoter(sentinel);
    forall c, x, y
      ensures f(Build(c, x, y)) == Steps(sentinel)(c, f(x), f(y))
    {
      StepBuild(sentinel, c, x, y);
    }
    ResultsMap(f, Build, Steps(sentinel), Map(LitOf, numbers));
    assert Map(f, Map(LitOf, numbers)) == Map(LeafItem, numbers);
  }

  /** `solve` returns the texts of the enumerated expressions whose float
      value equals the goal. */
  lemma SolveMembers(sentinel: Ext, goal: int, numbers: seq<int>, t: string)
    ensures t in SolveWith(sentinel, goal, numbers)
        <==> exists e :: e in Exprs(numbers) && Equals(Eval(sentinel, e), goal) && Show(e) == t
  {
    var es := Exprs(numbers);
    ResultsDenote(sentinel, numbers);
    var items := Map(Denoter(sentinel), es);
    if t in SolveWith(sentinel, goal, numbers) {
      var i :| 0 <= i < |items| && Equals(items[i].value, goal) && items[i].text == t;
      assert es[i] in es;
    }
    if exists e :: e in es && Equals(Eval(sentinel, e), goal) && Show(e) == t {
      var e :| e in es && Equals(Eval(sentinel, e), goal) && Show(e) == t;
      var i :| 0 <= i < |es| && es[i] == e;
      assert items[i] == Denote(sentinel, e);
    }
  }

  lemma BuildLeaves(c: Closure, a: Expr, b: Expr)
    ensures multiset(LeafList(Build(c, a, b))) == multiset(LeafList(a)) + multiset(LeafList(b))
  {
  }

  /** Every enumerated expression uses each given number exactly once. */
  lemma {:induction false} ExprLeaves(numbers: seq<int>, e: Expr)
    requires e in Exprs(numbers)
    ensures multiset(LeafList(e)) == multiset(numbers)
    decreases |numbers|
  {
    var xs := Map(LitOf, numbers);
    ResultsMembers(xs, Build, e);
    if |numbers| == 2 {
      var c :| c in Closures && e == Build(c, xs[0], xs[1]);
      BuildLeaves(c, xs[0], xs[1]);
      PairMultiset(numbers);
    } else {
      var j, c, r :| 0 <= j < |xs| && c in Closures && r in Results(RemoveAt(xs, j), Build) && e == Build(c, xs[j], r);
      MapRemoveAt(LitOf, numbers, j);
      ExprLeaves(RemoveAt(numbers, j), r);
      LeavesOfStep(numbers, j, c, r);
    }
  }

  /** Combining the `j`-th number with an expression over the others uses
      every number once. */
  lemma LeavesOfStep(numbers: seq<int>, j: nat, c: Closure, r: Expr)
    requires j < |numbers|
    requires multiset(LeafList(r)) == multiset(RemoveAt(numbers, j))
    ensures multiset(LeafList(Build(c, Lit(numbers[j]), r))) == multiset(numbers)
  {
    BuildLeaves(c, Lit(numbers[j]), r);
    RemoveAtMultiset(numbers, j);
  }

  /** Where exact arithmetic has a value, the float arithmetic computes
      that value, whatever the sentinel. */
  lemma {:induction false} EvalExact(sentinel: Ext, e: Expr)
    requires Value(e).Some?
    ensures Eval(sentinel, e) == Fin(Value(e).value)
  {
    if e.Bin? {
      EvalExact(sentinel, e.left);
      EvalExact(sentinel, e.right);
    }
  }

  /** With NaN as the sentinel the float arithmetic is exact arithmetic:
      an expression that divides by zero anywhere evaluates to NaN. */
  lemma {:induction false} EvalNaN(e: Expr)
    ensures Eval(NaN, e) == if Value(e).Some? then Fin(Value(e).value) else NaN
  {
    if e.Bin? {
      EvalNaN(e.left);
      EvalNaN(e.right);
    }
  }

  /** `solve` as written finds every enumerated expression whose exact
      value is the goal. */
  lemma SolveComplete(goal: int, numbers: seq<int>, e: Expr)
    requires e in Exprs(numbers) && Value(e) == Some(goal as real)
    ensures Show(e) in Solve(goal, numbers)
  {
    EvalExact(PosInf, e);
    SolveMembers(PosInf, goal, numbers, Show(e));
  }

  /** With the NaN sentinel, `solve` returns exactly the texts of the
      enumerated expressions whose exact value is the goal. */
  lemma SolveFixedExact(goal: int, numbers: seq<int>, t: string)
    ensures t in SolveFixed(goal, numbers)
        <==> exists e :: e in Exprs(numbers) && Value(e) == Some(goal as real) && Show(e) == t
  {
    SolveMembers(NaN, goal, numbers, t);
    forall e | e in Exprs(numbers)
      ensures Equals(Eval(NaN, e), goal) <==> Value(e) == Some(goal as real)
    {
      EvalNaN(e);
    }
  }

  /** With the NaN sentinel, every returned text reads back as an
      expression that uses each number once and computes the goal. */
  lemma SolveFixedSound(goal: int, numbers: seq<int>, t: string)
    requires t in SolveFixed(goal, numbers)
    ensures exists e :: Parse(t) == Some(e) && Value(e) == Some(goal as real)
                     && multiset(LeafList(e)) == multiset(numbers)
  {
    SolveFixedExact(goal, numbers, t);
    var e :| e in Exprs(numbers) && Value(e) == Some(goal as real) && Show(e) == t;
    ParseShowWhole(e);
    ExprLeaves(numbers, e);
  }

  /** `solve` yields nothing for fewer than two numbers. */
  lemma SolveFew(sentinel: Ext, goal: int, numbers: seq<int>)
    requires |numbers| < 2
    ensures SolveWith(sentinel, goal, numbers) == []
  {
    ResultsLength(Map(LeafItem, numbers), Steps(sentinel));
  }

  /** `(5 / (1 / 0))` is among the expressions enumerated for `[5, 1, 0]`:
      the first pick is 5, and `1 / 0` is a round on the other two. */
  lemma AbsorbedEnumerated(numbers: seq<int>)
    requires numbers == [5, 1, 0]
    ensures Bin(Div, Lit(5), Bin(Div, Lit(1), Lit(0))) in Exprs(numbers)
  {
    var inner := Bin(Div, Lit(1), Lit(0));
    var e := Bin(Div, Lit(5), inner);
    var xs := Map(LitOf, numbers);
    var div := Closure(Div, false);
    assert Closures[4] == div;
    var others := RemoveAt(xs, 0);
    assert |others| == 2 && others[0] == Lit(1) && others[1] == Lit(0);
    assert inner == Build(div, others[0], others[1]);
    ResultsMembers(others, Build, inner);
    assert xs[0] == Lit(5) && e == Build(div, xs[0], inner);
    ResultsMembers(xs, Build, e);
  }

  /** The as-written `solve(0, [5, 1, 0])` reports `(5 / (1 / 0))`: the
      inner division yields the infinity sentinel and 5 divided by infinity
      is 0. The expression has no exact value, and the NaN variant does not
      report it. */
  lemma InfinityAbsorbed(numbers: seq<int>)
    requires numbers == [5, 1, 0]
    ensures var e := Bin(Div, Lit(5), Bin(Div, Lit(1), Lit(0)));
            e in Exprs(numbers) && Value(e) == None
            && Show(e) in Solve(0, numbers) && Show(e) !in SolveFixed(0, numbers)
  {
    var inner := Bin(Div, Lit(1), Lit(0));
    var e := Bin(Div, Lit(5), inner);
    AbsorbedEnumerated(numbers);
    assert Eval(PosInf, inner) == PosInf;
    assert Eval(PosInf, e) == Fin(0.0);
    SolveMembers(PosInf, 0, numbers, Show(e));
    if Show(e) in SolveFixed(0, numbers) {
      SolveFixedExact(0, numbers, Show(e));
      var e' :| e' in Exprs(numbers) && Value(e') == Some(0.0) && Show(e') == Show(e);
      ShowInjective(e', e);
    }
  }
}
