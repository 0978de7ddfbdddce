/** The second solver, krypto_solver_2.py: pick one number, combine it with
    every result for the remaining numbers through the six closures of the
    `operators` tuple, and keep the texts whose value is the goal. */
module Krypto {
  import opened Seqs
  import opened Decimal
  import opened Infix
  import opened Extended

  /** One entry of the `operators` tuple: the operator it applies and
      whether it names its parameters `(b, a)`, which makes its second
      argument the left operand of both the value and the text. */
  datatype Closure = Closure(op: Op, swapped: bool)

  /** The `operators` tuple, in order. */
  const Closures: seq<Closure> :=
    [Closure(Add, false), Closure(Mul, false), Closure(Sub, false),
     Closure(Sub, true), Closure(Div, false), Closure(Div, true)]

  /** The six closures applied to `a` and `b`, in tuple order. */
  function Round<T>(call: (Closure, T, T) -> T, a: T, b: T): seq<T>
  {
    seq(|Closures|, i requires 0 <= i < |Closures| => call(Closures[i], a, b))
  }

  /** `results(xs)`, for whatever the closures combine (`call` applies one
      closure): for two elements, the six closures on them; otherwise, for
      each `(x, others)` from `one_at_a_time(xs)` in turn, every closure on
      `x` and each result for `others`. Fewer than two elements give
      nothing, since the recursion bottoms out at the empty list. */
  function Results<T>(xs: seq<T>, call: (Closure, T, T) -> T): seq<T>
    decreases |xs|, 1, 0
  {
    if |xs| == 2 then Round(call, xs[0], xs[1]) else ResultsFrom(xs, call, 0)
  }

  /** The part of `results(xs)` from the `i`-th pick of `one_at_a_time` on. */
  function ResultsFrom<T>(xs: seq<T>, call: (Closure, T, T) -> T, i: nat): seq<T>
    requires i <= |xs|
    decreases |xs|, 0, |xs| - i
  {
    if i == |xs| then []
    else
      var (x, others) := OneAtATime(xs)[i];
      Combine(call, x, Results(others, call)) + ResultsFrom(xs, call, i + 1)
  }

  /** The two inner loops: for each result `r` of the others, every closure
      on `x` and `r`. */
  function Combine<T>(call: (Closure, T, T) -> T, x: T, rs: seq<T>): seq<T>
  {
    if |rs| == 0 then [] else Round(call, x, rs[0]) + Combine(call, x, rs[1..])
  }

  /** A `(value, text)` pair. */
  datatype Item = Item(value: Ext, text: string)

  /** `(n, str(n))`, the pair `solve` starts from for each number. */
  function LeafItem(n: int): Item
  {
    Item(Fin(n as real), IntToString(n))
  }

  /** A closure on two pairs: it orders its arguments, then computes the
      value and builds the text `({} <symbol> {})` from the same two
      operands in that order. A zero divisor gives `sentinel`. */
  function Step(sentinel: Ext, c: Closure, a: Item, b: Item): Item
  {
    var (l, r) := if c.swapped then (b, a) else (a, b);
    Item(Arith(c.op, l.value, r.value, sentinel), Paren(l.text, c.op, r.text))
  }

  /** The closures of the tuple as one function. */
  function Steps(sentinel: Ext): (Closure, Item, Item) -> Item
  {
    (c, a, b) => Step(sentinel, c, a, b)
  }

  /** The texts of the pairs whose value equals the goal, in order. */
  function Matches(goal: int, items: seq<Item>): (r: seq<string>)
    ensures |r| <= |items|
    ensures forall t :: t in r <==> exists i :: 0 <= i < |items| && Equals(items[i].value, goal) && items[i].text == t
  {
    if |items| == 0 then []
    else
      assert forall i :: 0 < i < |items| ==> items[i] == items[1..][i - 1];
      (if Equals(items[0].value, goal) then [items[0].text] else []) + Matches(goal, items[1..])
  }

  /** A single pair contributes its text exactly when its value equals the
      goal. */
  lemma MatchesSingle(goal: int, it: Item)
    ensures Matches(goal, [it]) == if Equals(it.value, goal) then [it.text] else []
  {
  }

  /** The filter keeps the order of the pairs: the matches of a
      concatenation are the matches of the first part followed by those of
      the second. */
  lemma {:induction false} MatchesAppend(goal: int, a: seq<Item>, b: seq<Item>)
    ensures Matches(goal, a + b) == Matches(goal, a) + Matches(goal, b)
  {
    if |a| > 0 {
      assert (a + b)[1..] == a[1..] + b;
      MatchesAppend(goal, a[1..], b);
    } else {
      assert a + b == b;
    }
  }

  /** `solve(goal, numbers)` when a zero divisor yields `sentinel`. */
  function SolveWith(sentinel: Ext, goal: int, numbers: seq<int>): seq<string>
  {
    Matches(goal, Results(Map(LeafItem, numbers), Steps(sentinel)))
  }

  /** `solve(goal, numbers)` as written: a zero divisor yields
      `float('inf')`. */
  function Solve(goal: int, numbers: seq<int>): seq<string>
  {
    SolveWith(PosInf, goal, numbers)
  }

  /** `solve` with NaN as the zero-divisor value: NaN propagates through
      every later operation, so no expression that divides by zero can
      match. */
  function SolveFixed(goal: int, numbers: seq<int>): seq<string>
  {
    SolveWith(NaN, goal, numbers)
  }
}
