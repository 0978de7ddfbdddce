/** Facts about `results` of krypto_solver_2.py that hold whatever the
    closures combine: how many results there are, which ones, and that a
    map commuting with the closures commutes with the whole enumeration. */
module KryptoResults {
  import opened Seqs
  import opened PyInt
  import opened Krypto

  /** `len(list(results(xs)))` for `n` elements: nothing below two, six
      for two, and `n * 6` times the count for `n - 1` above. */
  function Count(n: nat): nat
  {
    if n < 2 then 0 else if n == 2 then 6 else n * 6 * Count(n - 1)
  }

  /** The count in closed form: 6^(n-1) * n! / 2 for n >= 2. */
  lemma {:induction false} CountClosed(n: nat)
    requires n >= 2
    ensures 2 * Count(n) == Pow(6, n - 1) * Factorial(n)
  {
    if n > 2 {
      CountClosed(n - 1);
      Regroup(n, Count(n - 1), Pow(6, n - 2), Factorial(n - 1));
    }
  }

  lemma Regroup(n: int, c: int, p: int, f: int)
    requires 2 * c == p * f
    ensures 2 * (n * 6 * c) == (6 * p) * (n * f)
  {
    calc {
      2 * (n * 6 * c);
      (6 * n) * (2 * c);
      (6 * n) * (p * f);
      (6 * p) * (n * f);
    }
  }

  lemma Distribute(k: int, m: int)
    ensures (k + 1) * m == m + k * m
  {
  }

  lemma {:induction false} CombineLength<T>(call: (Closure, T, T) -> T, x: T, rs: seq<T>)
    ensures |Combine(call, x, rs)| == 6 * |rs|
  {
    if |rs| > 0 {
      CombineLength(call, x, rs[1..]);
    }
  }

  /** `results` yields `Count(len(xs))` items. */
  lemma {:induction false} ResultsLength<T>(xs: seq<T>, call: (Closure, T, T) -> T)
    ensures |Results(xs, call)| == Count(|xs|)
    decreases |xs|, 1, 0
  {
    if |xs| != 2 {
      ResultsFromLength(xs, call, 0);
      if |xs| > 2 {
        assert |xs| * (6 * Count(|xs| - 1)) == |xs| * 6 * Count(|xs| - 1);
      }
    }
  }

  lemma {:induction false} ResultsFromLength<T>(xs: seq<T>, call: (Closure, T, T) -> T, i: nat)
    requires i <= |xs|
    ensures |ResultsFrom(xs, call, i)| == (|xs| - i) * (6 * (if |xs| == 0 then 0 else Count(|xs| - 1)))
    decreases |xs|, 0, |xs| - i
  {
    if i < |xs| {
      var m := 6 * Count(|xs| - 1);
      var others := RemoveAt(xs, i);
      assert OneAtATime(xs)[i] == (xs[i], others);
      var head := Combine(call, xs[i], Results(others, call));
      var tail := ResultsFrom(xs, call, i + 1);
      assert ResultsFrom(xs, call, i) == head + tail;
      ResultsLength(others, call);
      CombineLength(call, xs[i], Results(others, call));
      assert |head| == m;
      ResultsFromLength(xs, call, i + 1);
      assert |tail| == (|xs| - i - 1) * m;
      Distribute(|xs| - i - 1, m);
    }
  }

  /** Two elements give the six closures on them, in tuple order. */
  lemma PairResults<T>(xs: seq<T>, call: (Closure, T, T) -> T)
    requires |xs| == 2
    ensures |Results(xs, call)| == 6
    ensures forall i :: 0 <= i < 6 ==> Results(xs, call)[i] == call(Closures[i], xs[0], xs[1])
  {
  }

  lemma RoundMembers<T>(call: (Closure, T, T) -> T, a: T, b: T, y: T)
    ensures y in Round(call, a, b) <==> exists c :: c in Closures && y == call(c, a, b)
  {
    var r := Round(call, a, b);
    if y in r {
      var i :| 0 <= i < |r| && r[i] == y;
      assert Closures[i] in Closures && y == call(Closures[i], a, b);
    }
    if exists c :: c in Closures && y == call(c, a, b) {
      var c :| c in Closures && y == call(c, a, b);
      var i :| 0 <= i < |Closures| && Closures[i] == c;
      assert r[i] == y;
    }
  }

  lemma {:induction false} CombineMembers<T>(call: (Closure, T, T) -> T, x: T, rs: seq<T>, y: T)
    ensures y in Combine(call, x, rs) <==> exists c, r :: c in Closures && r in rs && y == call(c, x, r)
  {
    if |rs| > 0 {
      RoundMembers(call, x, rs[0], y);
      CombineMembers(call, x, rs[1..], y);
      assert forall r :: r in rs <==> r == rs[0] || r in rs[1..];
    }
  }

  lemma {:induction false} ResultsFromMembers<T>(xs: seq<T>, call: (Closure, T, T) -> T, i: nat, y: T)
    requires i <= |xs|
    ensures y in ResultsFrom(xs, call, i)
        <==> exists j, c, r :: i <= j < |xs| && c in Closures && r in Results(RemoveAt(xs, j), call)
                              && y == call(c, xs[j], r)
    decreases |xs| - i
  {
    if i < |xs| {
      CombineMembers(call, xs[i], Results(RemoveAt(xs, i), call), y);
      ResultsFromMembers(xs, call, i + 1, y);
    }
  }

  /** What `results` yields: for two elements, a closure on them in order;
      for any other count, a closure on one picked element and a result
      for the remaining ones. */
  lemma ResultsMembers<T>(xs: seq<T>, call: (Closure, T, T) -> T, y: T)
    ensures y in Results(xs, call)
        <==> if |xs| == 2 then exists c :: c in Closures && y == call(c, xs[0], xs[1])
             else exists j, c, r :: 0 <= j < |xs| && c in Closures && r in Results(RemoveAt(xs, j), call)
                                   && y == call(c, xs[j], r)
  {
    if |xs| == 2 {
      RoundMembers(call, xs[0], xs[1], y);
    } else {
      ResultsFromMembers(xs, call, 0, y);
    }
  }

  /** `f` turns each application of `ca` into the same closure's
      application of `cb` to the images. */
  ghost predicate Commutes<A(!new), B>(f: A -> B, ca: (Closure, A, A) -> A, cb: (Closure, B, B) -> B)
  {
    forall c, x, y :: f(ca(c, x, y)) == cb(c, f(x), f(y))
  }

  lemma RoundMap<A(!new), B>(f: A -> B, ca: (Closure, A, A) -> A, cb: (Closure, B, B) -> B, a: A, b: A)
    requires Commutes(f, ca, cb)
    ensures Round(cb, f(a), f(b)) == Map(f, Round(ca, a, b))
  {
  }

  lemma {:induction false} CombineMap<A(!new), B>(f: A -> B, ca: (Closure, A, A) -> A, cb: (Closure, B, B) -> B, x: A, rs: seq<A>)
    requires Commutes(f, ca, cb)
    ensures Combine(cb, f(x), Map(f, rs)) == Map(f, Combine(ca, x, rs))
  {
    if |rs| > 0 {
      RoundMap(f, ca, cb, x, rs[0]);
      CombineMap(f, ca, cb, x, rs[1..]);
      assert Map(f, rs)[1..] == Map(f, rs[1..]);
      MapAppend(f, Round(ca, x, rs[0]), Combine(ca, x, rs[1..]));
    }
  }

  /** Running `results` on the images is the image of running it on the
      originals, element for element and in the same order. */
  lemma {:induction false} ResultsMap<A(!new), B>(f: A -> B, ca: (Closure, A, A) -> A, cb: (Closure, B, B) -> B, xs: seq<A>)
    requires Commutes(f, ca, cb)
    ensures Results(Map(f, xs), cb) == Map(f, Results(xs, ca))
    decreases |xs|, 1, 0
  {
    if |xs| == 2 {
      RoundMap(f, ca, cb, xs[0], xs[1]);
    } else {
      ResultsFromMap(f, ca, cb, xs, 0);
    }
  }

  lemma {:induction false} ResultsFromMap<A(!new), B>(f: A -> B, ca: (Closure, A, A) -> A, cb: (Closure, B, B) -> B, xs: seq<A>, i: nat)
    requires Commutes(f, ca, cb)
    requires i <= |xs|
    ensures ResultsFrom(Map(f, xs), cb, i) == Map(f, ResultsFrom(xs, ca, i))
    decreases |xs|, 0, |xs| - i
  {
    if i < |xs| {
      var others := RemoveAt(xs, i);
      MapRemoveAt(f, xs, i);
      ResultsMap(f, ca, cb, others);
      CombineMap(f, ca, cb, xs[i], Results(others, ca));
      ResultsFromMap(f, ca, cb, xs, i + 1);
      MapAppend(f, Combine(ca, xs[i], Results(others, ca)), ResultsFrom(xs, ca, i + 1));
    }
  }
}
