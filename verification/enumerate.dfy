/** The two `itertools` enumerations crypto_solver.py relies on:
    `permutations(numbers)` and `product(operators, repeat=k)`. */
module Enumerate {
  import opened Seqs
  import opened PyInt

  /** `itertools.permutations(s)` in its order: lexicographic in the
      positions, so the first element is picked by ascending index and the
      rest of each permutation is a permutation of the remaining elements. */
  function Permutations<T>(s: seq<T>): seq<seq<T>>
    decreases |s|, 1, 0
  {
    if |s| == 0 then [[]] else PermutationsFrom(s, 0)
  }

  /** The permutations whose first element is taken from index i or later. */
  function PermutationsFrom<T>(s: seq<T>, i: nat): seq<seq<T>>
    requires i <= |s|
    decreases |s|, 0, |s| - i
  {
    if i == |s| then []
    else PrependAll(s[i], Permutations(RemoveAt(s, i))) + PermutationsFrom(s, i + 1)
  }

  /** Every listed permutation rearranges `s`. */
  lemma {:induction false} PermutationsRearrange<T>(s: seq<T>)
    ensures forall p :: p in Permutations(s) ==> multiset(p) == multiset(s)
    decreases |s|, 1, 0
  {
    if |s| > 0 {
      PermutationsFromRearrange(s, 0);
    }
  }

  lemma {:induction false} PermutationsFromRearrange<T>(s: seq<T>, i: nat)
    requires i <= |s|
    ensures forall p :: p in PermutationsFrom(s, i) ==> multiset(p) == multiset(s)
    decreases |s|, 0, |s| - i
  {
    if i < |s| {
      var here := PrependAll(s[i], Permutations(RemoveAt(s, i)));
      PermutationsRearrange(RemoveAt(s, i));
      RemoveAtMultiset(s, i);
      PermutationsFromRearrange(s, i + 1);
      PrependAllRearranges(s[i], Permutations(RemoveAt(s, i)), s);
      RearrangeAppend(here, PermutationsFrom(s, i + 1), s);
    }
  }

  /** Two lists of rearrangements of `s` joined are rearrangements of `s`. */
  lemma RearrangeAppend<T>(a: seq<seq<T>>, b: seq<seq<T>>, s: seq<T>)
    requires forall p :: p in a ==> multiset(p) == multiset(s)
    requires forall p :: p in b ==> multiset(p) == multiset(s)
    ensures forall p :: p in a + b ==> multiset(p) == multiset(s)
  {
  }

  lemma PrependAllRearranges<T>(x: T, rest: seq<seq<T>>, s: seq<T>)
    requires forall q :: q in rest ==> multiset{x} + multiset(q) == multiset(s)
    ensures forall p :: p in PrependAll(x, rest) ==> multiset(p) == multiset(s)
  {
    forall p | p in PrependAll(x, rest)
      ensures multiset(p) == multiset(s)
    {
      var j :| 0 <= j < |rest| && PrependAll(x, rest)[j] == p;
      assert rest[j] in rest;
      assert p == [x] + rest[j];
    }
  }

  /** A permutation starting with the element at index j is listed from
      every start index i <= j. */
  lemma {:induction false} InPermutationsFrom<T>(s: seq<T>, i: nat, j: nat, p: seq<T>)
    requires i <= j < |s|
    requires |p| > 0 && p[0] == s[j] && p[1..] in Permutations(RemoveAt(s, j))
    ensures p in PermutationsFrom(s, i)
    decreases j - i
  {
    var here := PrependAll(s[i], Permutations(RemoveAt(s, i)));
    assert PermutationsFrom(s, i) == here + PermutationsFrom(s, i + 1);
    if i == j {
      var k :| 0 <= k < |Permutations(RemoveAt(s, j))| && Permutations(RemoveAt(s, j))[k] == p[1..];
      assert here[k] == p;
    } else {
      InPermutationsFrom(s, i + 1, j, p);
    }
  }

  /** Every rearrangement of `s` is listed. */
  lemma {:induction false} PermutationsComplete<T>(s: seq<T>, p: seq<T>)
    requires multiset(p) == multiset(s)
    ensures p in Permutations(s)
    decreases |s|
  {
    assert |p| == |multiset(p)| == |s|;
    if |s| > 0 {
      assert p[0] in multiset(s);
      var j :| 0 <= j < |s| && s[j] == p[0];
      assert p == [p[0]] + p[1..];
      RemoveAtMultiset(s, j);
      assert multiset(p[1..]) == multiset(RemoveAt(s, j));
      PermutationsComplete(RemoveAt(s, j), p[1..]);
      InPermutationsFrom(s, 0, j, p);
    }
  }

  /** `permutations` of n elements yields n! tuples. */
  lemma {:induction false} PermutationsCount<T>(s: seq<T>)
    ensures |Permutations(s)| == Factorial(|s|)
    decreases |s|, 1, 0
  {
    if |s| > 0 {
      PermutationsFromCount(s, 0);
    }
  }

  lemma {:induction false} PermutationsFromCount<T>(s: seq<T>, i: nat)
    requires 0 < |s| && i <= |s|
    ensures |PermutationsFrom(s, i)| == (|s| - i) * Factorial(|s| - 1)
    decreases |s|, 0, |s| - i
  {
    if i < |s| {
      var f := Factorial(|s| - 1);
      PermutationsCount(RemoveAt(s, i));
      PermutationsFromCount(s, i + 1);
      assert |PermutationsFrom(s, i)| == f + (|s| - (i + 1)) * f;
      assert (|s| - i) * f == f + (|s| - (i + 1)) * f;
    }
  }

  /** After dropping repeats, the permutations of `s` are exactly the
      rearrangements of `s`, each once, even when `s` has equal elements. */
  lemma DistinctPermutations<T(!new)>(s: seq<T>)
    ensures NoDup(Dedup(Permutations(s)))
    ensures forall p :: p in Dedup(Permutations(s)) <==> multiset(p) == multiset(s)
  {
    PermutationsRearrange(s);
    forall p | multiset(p) == multiset(s)
      ensures p in Dedup(Permutations(s))
    {
      PermutationsComplete(s, p);
      var j :| 0 <= j < |Permutations(s)| && Permutations(s)[j] == p;
    }
  }

  /** Prefix each tuple of `rest` with each element of `alphabet` in turn. */
  function PrependEach<T>(alphabet: seq<T>, rest: seq<seq<T>>): seq<seq<T>>
  {
    if |alphabet| == 0 then [] else PrependAll(alphabet[0], rest) + PrependEach(alphabet[1..], rest)
  }

  /** `itertools.product(alphabet, repeat=k)`: all k-tuples, the first
      position varying slowest. */
  function Tuples<T>(alphabet: seq<T>, k: nat): seq<seq<T>>
  {
    if k == 0 then [[]] else PrependEach(alphabet, Tuples(alphabet, k - 1))
  }

  lemma {:induction false} PrependEachCount<T>(alphabet: seq<T>, rest: seq<seq<T>>)
    ensures |PrependEach(alphabet, rest)| == |alphabet| * |rest|
  {
    if |alphabet| > 0 {
      PrependEachCount(alphabet[1..], rest);
      assert |alphabet| * |rest| == |rest| + (|alphabet| - 1) * |rest|;
    }
  }

  lemma {:induction false} PrependEachSound<T>(alphabet: seq<T>, rest: seq<seq<T>>, t: seq<T>)
    requires t in PrependEach(alphabet, rest)
    ensures |t| > 0 && t[0] in alphabet && t[1..] in rest
  {
    var here := PrependAll(alphabet[0], rest);
    if t in here {
      var j :| 0 <= j < |rest| && here[j] == t;
      assert t[1..] == rest[j];
    } else {
      PrependEachSound(alphabet[1..], rest, t);
    }
  }

  lemma {:induction false} PrependEachComplete<T>(alphabet: seq<T>, rest: seq<seq<T>>, t: seq<T>)
    requires |t| > 0 && t[0] in alphabet && t[1..] in rest
    ensures t in PrependEach(alphabet, rest)
  {
    var here := PrependAll(alphabet[0], rest);
    if t[0] == alphabet[0] {
      var j :| 0 <= j < |rest| && rest[j] == t[1..];
      assert here[j] == t;
    } else {
      assert t[0] in alphabet[1..];
      PrependEachComplete(alphabet[1..], rest, t);
    }
  }

  /** `product(alphabet, repeat=k)` lists exactly the k-tuples over the
      alphabet. */
  lemma {:induction false} TuplesMembers<T>(alphabet: seq<T>, k: nat)
    ensures forall t :: t in Tuples(alphabet, k) <==>
      |t| == k && forall i :: 0 <= i < k ==> t[i] in alphabet
  {
    forall t | t in Tuples(alphabet, k)
      ensures |t| == k && forall i :: 0 <= i < k ==> t[i] in alphabet
    {
      TupleSound(alphabet, k, t);
    }
    forall t | |t| == k && (forall i :: 0 <= i < k ==> t[i] in alphabet)
      ensures t in Tuples(alphabet, k)
    {
      TupleComplete(alphabet, k, t);
    }
  }

  lemma {:induction false} TupleSound<T>(alphabet: seq<T>, k: nat, t: seq<T>)
    requires t in Tuples(alphabet, k)
    ensures |t| == k && forall i :: 0 <= i < k ==> t[i] in alphabet
  {
    if k > 0 {
      PrependEachSound(alphabet, Tuples(alphabet, k - 1), t);
      TupleSound(alphabet, k - 1, t[1..]);
      assert forall i :: 1 <= i < k ==> t[i] == t[1..][i - 1];
    }
  }

  lemma {:induction false} TupleComplete<T>(alphabet: seq<T>, k: nat, t: seq<T>)
    requires |t| == k && forall i :: 0 <= i < k ==> t[i] in alphabet
    ensures t in Tuples(alphabet, k)
  {
    if k > 0 {
      assert forall i :: 0 <= i < k - 1 ==> t[1..][i] == t[i + 1];
      TupleComplete(alphabet, k - 1, t[1..]);
      PrependEachComplete(alphabet, Tuples(alphabet, k - 1), t);
    }
  }

  /** `product` over an alphabet of a letters, repeat k, yields a^k tuples. */
  lemma {:induction false} TuplesCount<T>(alphabet: seq<T>, k: nat)
    ensures |Tuples(alphabet, k)| == Pow(|alphabet|, k)
  {
    if k > 0 {
      TuplesCount(alphabet, k - 1);
      PrependEachCount(alphabet, Tuples(alphabet, k - 1));
    }
  }

  lemma {:induction false} PrependEachNoDup<T>(alphabet: seq<T>, rest: seq<seq<T>>)
    requires NoDup(alphabet) && NoDup(rest)
    ensures NoDup(PrependEach(alphabet, rest))
  {
    if |alphabet| > 0 {
      var here := PrependAll(alphabet[0], rest);
      PrependAllNoDup(alphabet[0], rest);
      assert NoDup(alphabet[1..]);
      PrependEachNoDup(alphabet[1..], rest);
      forall t | t in here
        ensures t !in PrependEach(alphabet[1..], rest)
      {
        var j :| 0 <= j < |rest| && here[j] == t;
        assert t[0] == alphabet[0];
        if t in PrependEach(alphabet[1..], rest) {
          PrependEachSound(alphabet[1..], rest, t);
        }
      }
      NoDupAppend(here, PrependEach(alphabet[1..], rest));
    }
  }

  /** Over an alphabet without repeats, no tuple is listed twice. */
  lemma {:induction false} TuplesNoDup<T>(alphabet: seq<T>, k: nat)
    requires NoDup(alphabet)
    ensures NoDup(Tuples(alphabet, k))
  {
    if k > 0 {
      TuplesNoDup(alphabet, k - 1);
      PrependEachNoDup(alphabet, Tuples(alphabet, k - 1));
    }
  }
}
