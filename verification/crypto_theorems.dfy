/** What `solve` in crypto_solver.py returns: the renderings of exactly the
    expressions over the given numbers whose value is the goal. */
module CryptoTheorems {
  import opened Wrappers
  import opened Seqs
  import opened Decimal
  import opened Infix
  import opened Shapes
  import opened Enumerate
  import opened CryptoSolver
  import opened CryptoBinding

  /** The candidate (t, os, ns) has the goal as its value and renders as x. */
  predicate Hit(goal: int, ns: seq<int>, os: seq<Op>, t: Shape, x: Shown)
  {
    Value(Candidate(t, os, ns)) == Some(goal as real) && x == Displayed(Candidate(t, os, ns))
  }

  /** A fitting candidate contributes its rendering exactly when its value
      is the goal; one that divides by zero contributes nothing. */
  lemma CheckHit(goal: int, ns: seq<int>, os: seq<Op>, t: Shape)
    requires Fits(t, os, ns)
    ensures forall x :: x in Check(goal, ns, os, t) <==> Hit(goal, ns, os, t, x)
  {
    CandidateOutcome(t, os, ns);
  }

  /** The innermost loop reports the hits among its shapes. */
  lemma {:induction false} SolveTreesMembers(goal: int, ns: seq<int>, os: seq<Op>, ts: seq<Shape>, x: Shown)
    requires forall t :: t in ts ==> Fits(t, os, ns)
    ensures x in SolveTrees(goal, ns, os, ts) <==> exists t :: t in ts && Hit(goal, ns, os, t, x)
  {
    if |ts| > 0 {
      assert ts[0] in ts;
      CheckHit(goal, ns, os, ts[0]);
      SolveTreesMembers(goal, ns, os, ts[1..], x);
      assert forall t :: t in ts <==> t == ts[0] || t in ts[1..];
    }
  }

  /** The middle loop reports the hits among its operator tuples and shapes. */
  lemma {:induction false} SolveOpsMembers(goal: int, ns: seq<int>, oss: seq<seq<Op>>, ts: seq<Shape>, x: Shown)
    requires forall os, t :: os in oss && t in ts ==> Fits(t, os, ns)
    ensures x in SolveOps(goal, ns, oss, ts) <==> exists os, t :: os in oss && t in ts && Hit(goal, ns, os, t, x)
  {
    if |oss| > 0 {
      assert oss[0] in oss;
      SolveTreesMembers(goal, ns, oss[0], ts, x);
      SolveOpsMembers(goal, ns, oss[1..], ts, x);
      assert forall os :: os in oss <==> os == oss[0] || os in oss[1..];
    }
  }

  /** The outer loop reports the hits among all its candidates. */
  lemma {:induction false} SolvePermsMembers(goal: int, nss: seq<seq<int>>, oss: seq<seq<Op>>, ts: seq<Shape>, x: Shown)
    requires AllFit(nss, oss, ts)
    ensures x in SolvePerms(goal, nss, oss, ts)
        <==> exists ns, os, t :: ns in nss && os in oss && t in ts && Hit(goal, ns, os, t, x)
  {
    if |nss| > 0 {
      assert nss[0] in nss;
      SolveOpsMembers(goal, nss[0], oss, ts, x);
      SolvePermsMembers(goal, nss[1..], oss, ts, x);
      assert forall ns :: ns in nss <==> ns == nss[0] || ns in nss[1..];
    }
  }

  /** Soundness of the search over any operator alphabet. */
  lemma SoundFor(goal: int, numbers: seq<int>, alphabet: seq<Op>, k: nat, x: Shown)
    requires |numbers| == k + 1
    requires AllFit(Dedup(Permutations(numbers)), Tuples(alphabet, k), Trees(k))
    requires x in SolvePerms(goal, Dedup(Permutations(numbers)), Tuples(alphabet, k), Trees(k))
    ensures exists e :: x == Displayed(e) && Value(e) == Some(goal as real)
                     && multiset(LeafList(e)) == multiset(numbers) && Parse(Format(x)) == Some(e)
  {
    var nss, oss, ts := Dedup(Permutations(numbers)), Tuples(alphabet, k), Trees(k);
    SolvePermsMembers(goal, nss, oss, ts, x);
    var ns, os, t :| ns in nss && os in oss && t in ts && Hit(goal, ns, os, t, x);
    var e := Candidate(t, os, ns);
    CandidateOutcome(t, os, ns);
    CandidateParts(t, os, ns);
    ValsStackLeaves(e);
    DistinctPermutations(numbers);
  }

  /** Completeness of the search over an alphabet holding every operator. */
  lemma CompleteFor(goal: int, numbers: seq<int>, alphabet: seq<Op>, k: nat, e: Expr)
    requires |numbers| == k + 1
    requires AllFit(Dedup(Permutations(numbers)), Tuples(alphabet, k), Trees(k))
    requires forall op: Op :: op in alphabet
    requires multiset(LeafList(e)) == multiset(numbers) && Value(e) == Some(goal as real)
    ensures Displayed(e) in SolvePerms(goal, Dedup(Permutations(numbers)), Tuples(alphabet, k), Trees(k))
  {
    var nss, oss, ts := Dedup(Permutations(numbers)), Tuples(alphabet, k), Trees(k);
    var t, os, ns := ShapeOf(e), OpsStack(e), ValsStack(e);
    CandidateOfExpr(e);
    ValsStackLeaves(e);
    DistinctPermutations(numbers);
    assert ns in nss;
    LeavesIsInternalPlusOne(t);
    TupleComplete(alphabet, k, os);
    TreesComplete(t);
    assert Hit(goal, ns, os, t, Displayed(e));
    SolvePermsMembers(goal, nss, oss, ts, Displayed(e));
  }

  /** Every operator is in the `operators` list. */
  lemma AllOperators()
    ensures forall op: Op :: op in Operators
  {
    forall op: Op
      ensures op in Operators
    {
      match op
      case Add => assert Operators[0] == Add;
      case Mul => assert Operators[1] == Mul;
      case Sub => assert Operators[2] == Sub;
      case Div => assert Operators[3] == Div;
    }
  }

  /** Every solution `solve` returns is the rendering of an expression that
      uses each given number once, computes exactly the goal, and reads
      back from its text. */
  lemma SolveSound(goal: int, numbers: seq<int>, x: Shown)
    requires Solve(goal, numbers).Success? && x in Solve(goal, numbers).value
    ensures exists e :: x == Displayed(e) && Value(e) == Some(goal as real)
                     && multiset(LeafList(e)) == multiset(numbers) && Parse(Format(x)) == Some(e)
  {
    SearchSpaceFits(Operators, numbers);
    SoundFor(goal, numbers, Operators, |numbers| - 1, x);
  }

  /** Every expression that uses each given number once and computes the
      goal is among the solutions `solve` returns. */
  lemma SolveComplete(goal: int, numbers: seq<int>, e: Expr)
    requires multiset(LeafList(e)) == multiset(numbers) && Value(e) == Some(goal as real)
    ensures Solve(goal, numbers).Success? && Displayed(e) in Solve(goal, numbers).value
  {
    assert |LeafList(e)| == |multiset(numbers)| == |numbers|;
    SearchSpaceFits(Operators, numbers);
    AllOperators();
    CompleteFor(goal, numbers, Operators, |numbers| - 1, e);
  }

  /** For a single number the only candidate is the lone leaf, which render
      mode returns as the number itself: `solve(goal, [n])` is `[n]` when
      `n` is the goal and `[]` otherwise. */
  lemma SolveSingle(goal: int, n: int)
    ensures Solve(goal, [n]) == Success(if n == goal then [Bare(n)] else [])
  {
    var ns := [n];
    assert RemoveAt(ns, 0) == [];
    var none: seq<int> := [];
    assert Permutations(none) == [none];
    var p := PrependAll(n, [none]);
    assert |p| == 1 && p[0] == [n] + none == ns;
    assert p == [ns];
    assert PermutationsFrom(ns, 1) == [];
    assert PermutationsFrom(ns, 0) == p + PermutationsFrom(ns, 1);
    assert Permutations(ns) == [ns];
    assert DedupFrom([ns], {}) == [ns] + DedupFrom([], {ns});
    assert Dedup([ns]) == [ns];
    assert Tuples(Operators, 0) == [[]];
    assert Trees(0) == [Leaf];
    assert Evaluate(Leaf, [], ns) == Success(n as real);
    assert Render(Leaf, [], ns) == Success(Bare(n));
    assert Check(goal, ns, [], Leaf) == if n == goal then [Bare(n)] else [];
    assert SolveTrees(goal, ns, [], [Leaf]) == Check(goal, ns, [], Leaf) + SolveTrees(goal, ns, [], []);
    assert SolveOps(goal, ns, [[]], [Leaf]) == SolveTrees(goal, ns, [], [Leaf]) + SolveOps(goal, ns, [], [Leaf]);
    assert SolvePerms(goal, [ns], [[]], [Leaf]) == SolveOps(goal, ns, [[]], [Leaf]) + SolvePerms(goal, [], [[]], [Leaf]);
    var found := Check(goal, ns, [], Leaf);
    assert found + [] == found;
    assert SolvePerms(goal, [ns], [[]], [Leaf]) == found;
    assert |ns| - 1 == 0;
    assert Solve(goal, ns) == Success(SolvePerms(goal, Dedup(Permutations(ns)), Tuples(Operators, 0), Trees(0)));
  }

  /** The text of one operation on two one-character operands. */
  lemma ParenOfDigits(a: char, op: Op, b: char)
    ensures Paren([a], op, [b]) == ['(', a, ' ', Symbol(op), ' ', b, ')']
  {
  }

  /** The left subtree takes the first operand: with operators [-] and
      numbers [1, 5], the root pops `-`, the left leaf pops 5 and the right
      leaf pops 1, so the value is 5 - 1 and the text is "(5 - 1)". */
  lemma LeftOperandFirst(ops: seq<Op>, vals: seq<int>)
    requires ops == [Sub] && vals == [1, 5]
    ensures Evaluate(Node(Leaf, Leaf), ops, vals) == Success(4.0)
    ensures Render(Node(Leaf, Leaf), ops, vals) == Success(Text("(5 - 1)"))
  {
    var t := Node(Leaf, Leaf);
    assert Fits(t, ops, vals);
    CandidateOutcome(t, ops, vals);
    BoundNode(Leaf, Leaf, ops, vals, 1, 2);
    var e := Bin(Sub, Lit(5), Lit(1));
    assert Candidate(t, ops, vals) == e;
    assert Value(e) == Some(4.0);
    assert DigitChar(5) == '5' && DigitChar(1) == '1';
    assert IntToString(5) == "5" && IntToString(1) == "1";
    ParenOfDigits('5', Sub, '1');
    assert Show(e) == Paren("5", Sub, "1");
  }

  /** 4 * 6 makes 24 from [4, 6]. */
  lemma Example24(numbers: seq<int>)
    requires numbers == [4, 6]
    ensures Solve(24, numbers).Success? && Text("(4 * 6)") in Solve(24, numbers).value
  {
    var e := Bin(Mul, Lit(4), Lit(6));
    assert LeafList(e) == numbers;
    assert Value(e) == Some(24.0);
    assert DigitChar(4) == '4' && DigitChar(6) == '6';
    assert IntToString(4) == "4" && IntToString(6) == "6";
    ParenOfDigits('4', Mul, '6');
    assert Displayed(e) == Text(Paren("4", Mul, "6"));
    SolveComplete(24, numbers, e);
  }

  /** 5 / 5 makes 1 from [5, 5]: dividing equal numbers is found even though
      the two orderings of [5, 5] are one. */
  lemma Example1(numbers: seq<int>)
    requires numbers == [5, 5]
    ensures Solve(1, numbers).Success? && Text("(5 / 5)") in Solve(1, numbers).value
  {
    var e := Bin(Div, Lit(5), Lit(5));
    assert LeafList(e) == numbers;
    assert Value(e) == Some(1.0);
    assert DigitChar(5) == '5';
    assert IntToString(5) == "5";
    ParenOfDigits('5', Div, '5');
    assert Displayed(e) == Text(Paren("5", Div, "5"));
    SolveComplete(1, numbers, e);
  }
}
