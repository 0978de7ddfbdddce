/** Binary tree shapes: the `trees` generator of crypto_solver.py.
    A shape carries no values; its internal nodes are operator slots and its
    leaves are number slots. */
module Shapes {
  import opened Seqs

  /** Python's `None` (a leaf) and `('o', left, right)` (an internal node). */
  datatype Shape = Leaf | Node(left: Shape, right: Shape)

  /** Number of internal (operator) nodes. */
  function Internal(t: Shape): nat
  {
    match t
    case Leaf => 0
    case Node(l, r) => 1 + Internal(l) + Internal(r)
  }

  /** Number of leaves (number slots). */
  function Leaves(t: Shape): nat
  {
    match t
    case Leaf => 1
    case Node(l, r) => Leaves(l) + Leaves(r)
  }

  /** A shape with k operator slots has k + 1 number slots. */
  lemma {:induction false} LeavesIsInternalPlusOne(t: Shape)
    ensures Leaves(t) == Internal(t) + 1
  {
    match t
    case Leaf =>
    case Node(l, r) =>
      LeavesIsInternalPlusOne(l);
      LeavesIsInternalPlusOne(r);
  }

  /** `Node(l, r)` for each `r` of `rs`, in order. */
  function PairWith(l: Shape, rs: seq<Shape>): (r: seq<Shape>)
    ensures |r| == |rs|
    ensures forall j :: 0 <= j < |rs| ==> r[j] == Node(l, rs[j])
  {
    seq(|rs|, j requires 0 <= j < |rs| => Node(l, rs[j]))
  }

  /** `itertools.product(ls, rs)` turned into nodes: the first component
      varies slowest. */
  function Pairs(ls: seq<Shape>, rs: seq<Shape>): seq<Shape>
  {
    if |ls| == 0 then [] else PairWith(ls[0], rs) + Pairs(ls[1..], rs)
  }

  /** `trees(k)`: for k = 0 a single leaf; otherwise, for n = 0 .. k - 1,
      every left shape of size k - 1 - n paired with every right shape of
      size n. */
  function Trees(k: nat): seq<Shape>
    decreases k, 1, 0
  {
    if k == 0 then [Leaf] else Splits(k, 0)
  }

  /** The shapes contributed by the splits n, n + 1, .., k - 1. */
  function Splits(k: nat, n: nat): seq<Shape>
    requires n <= k
    decreases k, 0, k - n
  {
    if n == k then [] else Pairs(Trees(k - 1 - n), Trees(n)) + Splits(k, n + 1)
  }

  lemma {:induction false} PairsMembers(ls: seq<Shape>, rs: seq<Shape>)
    ensures |Pairs(ls, rs)| == |ls| * |rs|
    ensures forall t: Shape :: t in Pairs(ls, rs) <==> t.Node? && t.left in ls && t.right in rs
  {
    if |ls| > 0 {
      PairsMembers(ls[1..], rs);
      assert ls == [ls[0]] + ls[1..];
      forall t: Shape | t.Node? && t.left in ls && t.right in rs
        ensures t in Pairs(ls, rs)
      {
        if t.left == ls[0] {
          var j :| 0 <= j < |rs| && rs[j] == t.right;
          assert PairWith(ls[0], rs)[j] == t;
        } else {
          assert t.left in ls[1..];
        }
      }
    }
  }

  lemma PairsMember(ls: seq<Shape>, rs: seq<Shape>, t: Shape)
    requires t.Node? && t.left in ls && t.right in rs
    ensures t in Pairs(ls, rs)
  {
    PairsMembers(ls, rs);
  }

  lemma {:induction false} PairsNoDup(ls: seq<Shape>, rs: seq<Shape>)
    requires NoDup(ls) && NoDup(rs)
    ensures NoDup(Pairs(ls, rs))
  {
    if |ls| > 0 {
      var head := PairWith(ls[0], rs);
      assert NoDup(ls[1..]);
      PairsNoDup(ls[1..], rs);
      PairsMembers(ls[1..], rs);
      forall t | t in head
        ensures t !in Pairs(ls[1..], rs)
      {
        assert t.left == ls[0];
      }
      NoDupAppend(head, Pairs(ls[1..], rs));
    }
  }

  /** Every shape `trees(k)` yields has exactly k operator slots. */
  lemma {:induction false} TreesSized(k: nat)
    ensures forall t :: t in Trees(k) ==> Internal(t) == k
    decreases k, 1, 0
  {
    if k > 0 {
      SplitsSized(k, 0);
    }
  }

  /** The split n contributes the shapes whose right subtree has n slots. */
  lemma {:induction false} SplitsSized(k: nat, n: nat)
    requires n <= k
    ensures forall t :: t in Splits(k, n) ==>
      t.Node? && Internal(t) == k && n <= Internal(t.right) < k
      && Internal(t.left) == k - 1 - Internal(t.right)
    decreases k, 0, k - n
  {
    if n < k {
      var here := Pairs(Trees(k - 1 - n), Trees(n));
      TreesSized(k - 1 - n);
      TreesSized(n);
      SplitsSized(k, n + 1);
      PairsMembers(Trees(k - 1 - n), Trees(n));
      forall t | t in here
        ensures t.Node? && Internal(t.right) == n && Internal(t.left) == k - 1 - n
      {
      }
    }
  }

  /** `trees(k)` yields no shape twice. */
  lemma {:induction false} TreesNoDup(k: nat)
    ensures NoDup(Trees(k))
    decreases k, 1, 0
  {
    if k > 0 {
      SplitsNoDup(k, 0);
    }
  }

  lemma {:induction false} SplitsNoDup(k: nat, n: nat)
    requires n <= k
    ensures NoDup(Splits(k, n))
    decreases k, 0, k - n
  {
    if n < k {
      var here := Pairs(Trees(k - 1 - n), Trees(n));
      TreesNoDup(k - 1 - n);
      TreesNoDup(n);
      PairsNoDup(Trees(k - 1 - n), Trees(n));
      SplitsNoDup(k, n + 1);
      TreesSized(n);
      PairsMembers(Trees(k - 1 - n), Trees(n));
      SplitsSized(k, n + 1);
      forall t | t in here
        ensures t !in Splits(k, n + 1)
      {
        assert Internal(t.right) == n;
      }
      NoDupAppend(here, Splits(k, n + 1));
    }
  }

  /** A node whose right subtree has n slots comes from the split n. */
  lemma {:induction false} InSplits(k: nat, m: nat, t: Shape)
    requires t.Node? && m <= Internal(t.right) < k
    requires t.left in Trees(k - 1 - Internal(t.right)) && t.right in Trees(Internal(t.right))
    ensures t in Splits(k, m)
    decreases k - m
  {
    var n := Internal(t.right);
    var here := Pairs(Trees(k - 1 - m), Trees(m));
    assert Splits(k, m) == here + Splits(k, m + 1);
    if m == n {
      PairsMember(Trees(k - 1 - m), Trees(m), t);
    } else {
      InSplits(k, m + 1, t);
    }
  }

  /** Every shape appears in `trees` of its own size. */
  lemma {:induction false} TreesComplete(t: Shape)
    ensures t in Trees(Internal(t))
  {
    match t
    case Leaf =>
    case Node(l, r) =>
      TreesComplete(l);
      TreesComplete(r);
      InSplits(Internal(t), 0, t);
  }

  /** `trees(k)` lists exactly the shapes with k operator slots, each once. */
  lemma TreesExactly(k: nat)
    ensures NoDup(Trees(k))
    ensures forall t :: t in Trees(k) <==> Internal(t) == k
  {
    TreesNoDup(k);
    TreesSized(k);
    forall t: Shape | Internal(t) == k
      ensures t in Trees(k)
    {
      TreesComplete(t);
    }
  }

  /** The Catalan numbers by the textbook recurrence
      C(0) = 1, C(k) = C(0) C(k-1) + C(1) C(k-2) + .. + C(k-1) C(0). */
  function Catalan(k: nat): nat
    decreases k, 1
  {
    if k == 0 then 1 else CatalanSum(k, k)
  }

  /** C(0) C(k-1) + .. + C(i-1) C(k-i). */
  function CatalanSum(k: nat, i: nat): nat
    requires 1 <= k && i <= k
    decreases k, 0, i
  {
    if i == 0 then 0 else CatalanSum(k, i - 1) + Catalan(i - 1) * Catalan(k - i)
  }

  /** The splits from n on count C(0) C(k-1) + .. + C(k-1-n) C(n): the
      generator walks the textbook sum from its last term backwards. */
  lemma {:induction false} SplitsCount(k: nat, n: nat)
    requires 1 <= k && n <= k
    requires forall j :: 0 <= j < k ==> |Trees(j)| == Catalan(j)
    ensures |Splits(k, n)| == CatalanSum(k, k - n)
    decreases k - n
  {
    if n < k {
      SplitsCount(k, n + 1);
      PairsMembers(Trees(k - 1 - n), Trees(n));
    }
  }

  /** `trees(k)` yields C(k) shapes. */
  lemma {:induction false} TreesCount(k: nat)
    ensures |Trees(k)| == Catalan(k)
  {
    if k > 0 {
      forall j | 0 <= j < k
        ensures |Trees(j)| == Catalan(j)
      {
        TreesCount(j);
      }
      SplitsCount(k, 0);
    }
  }

  /** The first Catalan numbers: 1, 1, 2, 5, 14, 42. */
  lemma CatalanValues()
    ensures Catalan(0) == 1 && Catalan(1) == 1 && Catalan(2) == 2
    ensures Catalan(3) == 5 && Catalan(4) == 14 && Catalan(5) == 42
  {
    assert CatalanSum(2, 2) == 2;
    assert CatalanSum(3, 3) == 5;
    assert CatalanSum(4, 4) == 14;
    assert CatalanSum(5, 5) == 42;
  }
}
