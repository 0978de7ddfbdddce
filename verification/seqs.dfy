/** Sequence helpers: removal by index, duplicate handling, and the
    splitting facts the stack proofs use. */
module Seqs {

  /** `s` without the element at index `i` (Python's `s[:i] + s[i+1:]`). */
  function RemoveAt<T>(s: seq<T>, i: nat): (r: seq<T>)
    requires i < |s|
    ensures |r| == |s| - 1
    ensures forall j :: 0 <= j < i ==> r[j] == s[j]
    ensures forall j :: i <= j < |r| ==> r[j] == s[j + 1]
  {
    s[..i] + s[i + 1..]
  }

  lemma RemoveAtMultiset<T>(s: seq<T>, i: nat)
    requires i < |s|
    ensures multiset(RemoveAt(s, i)) == multiset(s) - multiset{s[i]}
    ensures multiset(s) == multiset(RemoveAt(s, i)) + multiset{s[i]}
  {
    assert s == s[..i] + [s[i]] + s[i + 1..];
  }

  /** The pairs `(s[i], s minus index i)` for every index, in index order:
      the `one_at_a_time` generator of krypto_solver_2.py and the first step
      of `itertools.permutations`. Each pair holds the picked element and
      the others in their order. */
  function OneAtATime<T>(s: seq<T>): (r: seq<(T, seq<T>)>)
    ensures |r| == |s|
    ensures forall i :: 0 <= i < |s| ==> r[i].0 == s[i]
    ensures forall i :: 0 <= i < |s| ==> |r[i].1| == |s| - 1 && r[i].1[..i] == s[..i] && r[i].1[i..] == s[i + 1..]
  {
    seq(|s|, i requires 0 <= i < |s| => (s[i], RemoveAt(s, i)))
  }

  /** Every pick keeps the elements of `s`: the chosen element plus the rest
      is the multiset `s`. */
  lemma OneAtATimeKeepsMultiset<T>(s: seq<T>, i: nat)
    requires i < |s|
    ensures multiset{OneAtATime(s)[i].0} + multiset(OneAtATime(s)[i].1) == multiset(s)
  {
    RemoveAtMultiset(s, i);
  }

  lemma PairMultiset<T>(s: seq<T>)
    requires |s| == 2
    ensures multiset(s) == multiset([s[0]]) + multiset([s[1]])
  {
    assert s == [s[0]] + [s[1]];
  }

  /** `[f(x) for x in s]`. */
  function Map<A, B>(f: A -> B, s: seq<A>): (r: seq<B>)
    ensures |r| == |s|
    ensures forall i :: 0 <= i < |s| ==> r[i] == f(s[i])
  {
    seq(|s|, i requires 0 <= i < |s| => f(s[i]))
  }

  lemma MapAppend<A, B>(f: A -> B, a: seq<A>, b: seq<A>)
    ensures Map(f, a + b) == Map(f, a) + Map(f, b)
  {
  }

  lemma MapRemoveAt<A, B>(f: A -> B, s: seq<A>, i: nat)
    requires i < |s|
    ensures Map(f, RemoveAt(s, i)) == RemoveAt(Map(f, s), i)
  {
  }

  /** No element occurs twice. */
  predicate NoDup<T(==)>(s: seq<T>)
  {
    forall i, j :: 0 <= i < j < |s| ==> s[i] != s[j]
  }

  /** The elements of `s` not in `seen`, each kept at its first occurrence:
      the `seen_number_sets` filter of crypto_solver.py. */
  function DedupFrom<T(==, !new)>(s: seq<T>, seen: set<T>): (r: seq<T>)
    ensures NoDup(r)
    ensures forall x :: x in r <==> x in s && x !in seen
  {
    if |s| == 0 then []
    else if s[0] in seen then DedupFrom(s[1..], seen)
    else
      var rest := DedupFrom(s[1..], seen + {s[0]});
      assert forall j :: 0 <= j < |rest| ==> rest[j] != s[0];
      [s[0]] + rest
  }

  function Dedup<T(==, !new)>(s: seq<T>): (r: seq<T>)
    ensures NoDup(r)
    ensures forall x :: x in r <==> x in s
  {
    DedupFrom(s, {})
  }

  /** Prefix each sequence of `ss` with `x`. */
  function PrependAll<T>(x: T, ss: seq<seq<T>>): (r: seq<seq<T>>)
    ensures |r| == |ss|
    ensures forall i :: 0 <= i < |ss| ==> r[i] == [x] + ss[i]
  {
    seq(|ss|, i requires 0 <= i < |ss| => [x] + ss[i])
  }

  lemma PrependAllNoDup<T>(x: T, ss: seq<seq<T>>)
    requires NoDup(ss)
    ensures NoDup(PrependAll(x, ss))
  {
    var r := PrependAll(x, ss);
    forall i, j | 0 <= i < j < |r|
      ensures r[i] != r[j]
    {
      assert r[i][1..] == ss[i];
      assert r[j][1..] == ss[j];
    }
  }

  lemma NoDupAppend<T>(a: seq<T>, b: seq<T>)
    requires NoDup(a) && NoDup(b)
    requires forall x :: x in a ==> x !in b
    ensures NoDup(a + b)
  {
    var c := a + b;
    forall i, j | 0 <= i < j < |c|
      ensures c[i] != c[j]
    {
      if j >= |a| && i < |a| {
        assert c[i] in a;
        assert c[j] == b[j - |a|];
      } else if i >= |a| {
        assert c[i] == b[i - |a|] && c[j] == b[j - |a|];
      }
    }
  }

  /** Joining the stacks of two adjacent windows and the element above
      them gives the window spanning all three. */
  lemma StackJoin<T>(s: seq<T>, lo: int, mid: int, hi: int, below: seq<T>, above: seq<T>)
    requires 0 <= lo <= mid < hi <= |s|
    requires below == s[lo..mid] && above == s[mid..hi - 1]
    ensures below + above + [s[hi - 1]] == s[lo..hi]
  {
  }

  /** Joining the stacks of two adjacent windows gives the window spanning
      both. */
  lemma WindowJoin<T>(s: seq<T>, lo: int, mid: int, hi: int, below: seq<T>, above: seq<T>)
    requires 0 <= lo <= mid <= hi <= |s|
    requires below == s[lo..mid] && above == s[mid..hi]
    ensures below + above == s[lo..hi]
  {
  }

  /** Equal concatenations with equally long first parts have equal parts. */
  lemma AppendCancel<T>(a1: seq<T>, b1: seq<T>, a2: seq<T>, b2: seq<T>)
    requires a1 + b1 == a2 + b2 && |a1| == |a2|
    ensures a1 == a2 && b1 == b2
  {
    assert a1 == (a1 + b1)[..|a1|] && a2 == (a2 + b2)[..|a2|];
    assert b1 == (a1 + b1)[|a1|..] && b2 == (a2 + b2)[|a2|..];
  }
}
