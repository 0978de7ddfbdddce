/** What a `FunctionBuilder` computes and prints: each operator method adds
    one step to the left fold of `__call__` and one wrapping to the text of
    `__repr__`, reflected codes swap the operands, and the doctest values. */
module MathsTheorems {
  import opened Wrappers
  import opened PyInt
  import opened Decimal
  import opened Maths

  /** One more operation after a call that may have raised. */
  function AndThen(r: Result<int, Fault>, e: Entry, x: int): Result<int, Fault>
  {
    match r
    case Failure(f) => Failure(f)
    case Success(v) => Apply(e, x, v)
  }

  /** One more wrapping after a print that may have raised. */
  function AndWrap(r: Result<string, Fault>, e: Entry): Result<string, Fault>
  {
    match r
    case Failure(f) => Failure(f)
    case Success(t) => Wrap(e, t)
  }

  /** Running a list with one more operation runs the list, then that
      operation on its result. */
  lemma {:induction false} RunAppend(ops: seq<Entry>, e: Entry, i: nat, x: int, result: int)
    requires i <= |ops|
    ensures Run(ops + [e], i, x, result) == AndThen(Run(ops, i, x, result), e, x)
    decreases |ops| - i
  {
    var all := ops + [e];
    if i == |ops| {
      assert all[i] == e;
    } else {
      assert all[i] == ops[i];
      if Apply(ops[i], x, result).Success? {
        RunAppend(ops, e, i + 1, x, Apply(ops[i], x, result).value);
      }
    }
  }

  /** `__call__` of a derived builder: the original's result, then the new
      operation applied to it (the left fold of `__call__`). */
  lemma CallWith(b: Builder, code: string, other: Operand, x: int)
    ensures Call(With(b, code, other), x) == AndThen(Call(b, x), Entry(code, other), x)
  {
    RunAppend(b.ops, Entry(code, other), 0, x, x);
  }

  /** When the original returns `r` and the operand (a builder operand
      called at the same `x`) is worth `v`, the derived builder returns the
      new operation on `r` and `v`. */
  lemma CallWithValue(b: Builder, code: string, other: Operand, x: int, r: int, v: int)
    requires Call(b, x) == Success(r) && OperandValue(other, x) == Success(v)
    ensures Call(With(b, code, other), x) == Step(code, r, v)
  {
    CallWith(b, code, other, x);
  }

  /** Printing a list with one more operation prints the list, then wraps
      the text once more. */
  lemma {:induction false} PrintAppend(ops: seq<Entry>, e: Entry, i: nat, s: string)
    requires i <= |ops|
    ensures Print(ops + [e], i, s) == AndWrap(Print(ops, i, s), e)
    decreases |ops| - i
  {
    var all := ops + [e];
    if i == |ops| {
      assert all[i] == e;
    } else {
      assert all[i] == ops[i];
      if Wrap(ops[i], s).Success? {
        PrintAppend(ops, e, i + 1, Wrap(ops[i], s).value);
      }
    }
  }

  /** `repr` of a derived builder wraps the text of the original's
      operations once more, starting from the name `"x"`: `__copy__` does
      not carry the name over. */
  lemma ReprWith(b: Builder, code: string, other: Operand)
    ensures Repr(With(b, code, other)) == AndWrap(Repr(Copy(b)), Entry(code, other))
  {
    PrintAppend(b.ops, Entry(code, other), 0, "x");
  }

  /** `repr` nests: a derived builder prints as `(s op other)`, or as
      `(other op s)` without the `r` for a reflected code, where `s` is the
      original's text under the name `"x"` and `other` is the operand's
      text. */
  lemma ReprWithText(b: Builder, code: string, other: Operand, s: string, o: string)
    requires Repr(Copy(b)) == Success(s) && OperandText(other) == Success(o) && |code| > 0
    ensures Repr(With(b, code, other))
         == Success(if code[|code| - 1] == 'r' then Bracket(o, code[..|code| - 1], s) else Bracket(s, code, o))
  {
    ReprWith(b, code, other);
  }

  /** A reflected code is its plain code with the operands exchanged: the
      stored operand goes on the left. */
  lemma ReflectedSwaps(base: string, a: int, b: int)
    requires base in BaseCodes
    ensures Step(base + "r", a, b) == Step(base, b, a)
  {
    if base == "+" {
      assert base + "r" == "+r";
    } else if base == "-" {
      assert base + "r" == "-r";
    } else if base == "*" {
      assert base + "r" == "*r";
    } else if base == "/" {
      assert base + "r" == "/r";
    } else if base == "//" {
      assert base + "r" == "//r";
    } else if base == "%" {
      assert base + "r" == "%r";
    } else {
      assert base + "r" == "**r";
    }
  }

  /** Exactly the codes the operator methods append are understood; any
      other raises `ValueError`. */
  lemma InvalidCode(code: string, a: int, b: int)
    ensures Step(code, a, b) == Failure(InvalidOperation(code)) <==> code !in Codes
  {
  }

  /** `x = FunctionBuilder()`. */
  function X(): Builder
  {
    New("x")
  }

  /** `(x + 5) * (x - 3)`. */
  function Product(): Builder
  {
    With(With(X(), "+", Const(5)), "*", Fn(With(X(), "-", Const(3))))
  }

  /** `x**2 - 4 * x + 4`: `4 * x` is `x.__rmul__(4)`. */
  function Square(): Builder
  {
    With(With(With(X(), "**", Const(2)), "-", Fn(With(X(), "*r", Const(4)))), "+", Const(4))
  }

  /** `5 - (x % 8 + 17 // x)`: `17 // x` is `x.__rfloordiv__(17)` and
      `5 - ...` is `__rsub__`. */
  function Mixed(): Builder
  {
    With(With(With(X(), "%", Const(8)), "+", Fn(With(X(), "//r", Const(17)))), "-r", Const(5))
  }

  lemma CallX(v: int)
    ensures Call(X(), v) == Success(v)
  {
  }

  /** `(x + 5) * (x - 3)` computes that polynomial at every `x`. */
  lemma ProductCall(v: int)
    ensures Call(Product(), v) == Success((v + 5) * (v - 3))
  {
    CallX(v);
    CallWithValue(X(), "+", Const(5), v, v, 5);
    CallWithValue(X(), "-", Const(3), v, v, 3);
    CallWithValue(With(X(), "+", Const(5)), "*", Fn(With(X(), "-", Const(3))), v, v + 5, v - 3);
  }

  /** `x**2 - 4 * x + 4` computes that polynomial at every `x`. */
  lemma SquareCall(v: int)
    ensures Call(Square(), v) == Success(v * v - 4 * v + 4)
  {
    CallX(v);
    CallWithValue(X(), "**", Const(2), v, v, 2);
    assert Pow(v, 2) == v * Pow(v, 1) == v * (v * Pow(v, 0));
    CallWithValue(X(), "*r", Const(4), v, v, 4);
    var sq := With(X(), "**", Const(2));
    CallWithValue(sq, "-", Fn(With(X(), "*r", Const(4))), v, v * v, 4 * v);
    CallWithValue(With(sq, "-", Fn(With(X(), "*r", Const(4)))), "+", Const(4), v, v * v - 4 * v, 4);
  }

  /** `5 - (x % 8 + 17 // x)` computes that expression under floor
      division wherever `x` is not zero, and raises at zero. */
  lemma MixedCall(v: int)
    ensures v != 0 ==> Call(Mixed(), v) == Success(5 - (FloorMod(v, 8) + FloorDiv(17, v)))
    ensures v == 0 ==> Call(Mixed(), v) == Failure(ZeroDivision)
  {
    CallX(v);
    var m := With(X(), "%", Const(8));
    CallWithValue(X(), "%", Const(8), v, v, 8);
    var d := With(X(), "//r", Const(17));
    CallWith(X(), "//r", Const(17), v);
    CallWith(m, "+", Fn(d), v);
    if v != 0 {
      CallWithValue(X(), "//r", Const(17), v, v, 17);
      CallWithValue(m, "+", Fn(d), v, FloorMod(v, 8), FloorDiv(17, v));
      CallWithValue(With(m, "+", Fn(d)), "-r", Const(5), v, FloorMod(v, 8) + FloorDiv(17, v), 5);
    } else {
      CallWith(With(m, "+", Fn(d)), "-r", Const(5), v);
    }
  }

  /** The values the doctests print. */
  lemma DoctestValues()
    ensures Call(Product(), 0) == Success(-15) && Call(Product(), 3) == Success(0)
    ensures Call(Product(), 4) == Success(9) && Call(Product(), 5) == Success(20)
    ensures Call(Square(), 0) == Success(4) && Call(Square(), 2) == Success(0)
    ensures Call(Square(), 6) == Success(16)
    ensures Call(Mixed(), 4) == Success(-3)
  {
    ProductCall(0);
    ProductCall(3);
    ProductCall(4);
    ProductCall(5);
    SquareCall(0);
    SquareCall(2);
    SquareCall(6);
    MixedCall(4);
    assert FloorMod(4, 8) == 4 && FloorDiv(17, 4) == 4;
  }

  lemma ReprX()
    ensures Repr(Copy(X())) == Success("x")
  {
  }

  /** The numerals the doctests print. */
  lemma Numerals()
    ensures IntToString(2) == "2" && IntToString(3) == "3" && IntToString(4) == "4"
    ensures IntToString(5) == "5" && IntToString(8) == "8" && IntToString(17) == "17"
  {
    assert NatToString(17) == NatToString(1) + [DigitChar(7)];
  }

  /** The brackets the text of `(x + 5) * (x - 3)` is built from. */
  lemma ProductTexts()
    ensures Bracket("x", "+", "5") == "(x + 5)" && Bracket("x", "-", "3") == "(x - 3)"
    ensures Bracket("(x + 5)", "*", "(x - 3)") == "((x + 5) * (x - 3))"
  {
  }

  /** The brackets the text of `x**2 - 4 * x + 4` is built from. */
  lemma SquareTexts()
    ensures Bracket("x", "**", "2") == "(x ** 2)" && Bracket("4", "*", "x") == "(4 * x)" && "*r"[..1] == "*"
    ensures Bracket("(x ** 2)", "-", "(4 * x)") == "((x ** 2) - (4 * x))"
    ensures Bracket("((x ** 2) - (4 * x))", "+", "4") == "(((x ** 2) - (4 * x)) + 4)"
  {
    SquareOuter();
  }

  /** Its outermost bracket. */
  lemma SquareOuter()
    ensures Bracket("((x ** 2) - (4 * x))", "+", "4") == "(((x ** 2) - (4 * x)) + 4)"
  {
  }

  /** The brackets the text of `5 - (x % 8 + 17 // x)` is built from. */
  lemma MixedTexts()
    ensures Bracket("x", "%", "8") == "(x % 8)" && Bracket("17", "//", "x") == "(17 // x)" && "//r"[..2] == "//"
    ensures Bracket("(x % 8)", "+", "(17 // x)") == "((x % 8) + (17 // x))"
    ensures "-r"[..1] == "-" && Bracket("5", "-", "((x % 8) + (17 // x))") == "(5 - ((x % 8) + (17 // x)))"
  {
    MixedOuter();
  }

  /** Its outermost bracket. */
  lemma MixedOuter()
    ensures Bracket("5", "-", "((x % 8) + (17 // x))") == "(5 - ((x % 8) + (17 // x)))"
  {
  }

  /** The text of `(x + 5) * (x - 3)`. */
  lemma ProductRepr()
    ensures Repr(Product()) == Success("((x + 5) * (x - 3))")
  {
    var x := X();
    ReprX();
    Numerals();
    ProductTexts();
    ReprWithText(x, "+", Const(5), "x", "5");
    ReprWithText(x, "-", Const(3), "x", "3");
    assert Copy(With(x, "+", Const(5))) == With(x, "+", Const(5));
    ReprWithText(With(x, "+", Const(5)), "*", Fn(With(x, "-", Const(3))), "(x + 5)", "(x - 3)");
  }

  /** The text of `x**2 - 4 * x + 4`. */
  lemma SquareRepr()
    ensures Repr(Square()) == Success("(((x ** 2) - (4 * x)) + 4)")
  {
    var x := X();
    ReprX();
    Numerals();
    SquareTexts();
    ReprWithText(x, "**", Const(2), "x", "2");
    ReprWithText(x, "*r", Const(4), "x", "4");
    var sq := With(x, "**", Const(2));
    var four := With(x, "*r", Const(4));
    assert Copy(sq) == sq;
    ReprWithText(sq, "-", Fn(four), "(x ** 2)", "(4 * x)");
    assert Copy(With(sq, "-", Fn(four))) == With(sq, "-", Fn(four));
    ReprWithText(With(sq, "-", Fn(four)), "+", Const(4), "((x ** 2) - (4 * x))", "4");
  }

  /** The text of `5 - (x % 8 + 17 // x)`. */
  lemma MixedRepr()
    ensures Repr(Mixed()) == Success("(5 - ((x % 8) + (17 // x)))")
  {
    var x := X();
    ReprX();
    Numerals();
    MixedTexts();
    ReprWithText(x, "%", Const(8), "x", "8");
    ReprWithText(x, "//r", Const(17), "x", "17");
    var m := With(x, "%", Const(8));
    var d := With(x, "//r", Const(17));
    assert Copy(m) == m;
    ReprWithText(m, "+", Fn(d), "(x % 8)", "(17 // x)");
    assert Copy(With(m, "+", Fn(d))) == With(m, "+", Fn(d));
    ReprWithText(With(m, "+", Fn(d)), "-r", Const(5), "((x % 8) + (17 // x))", "5");
  }
}
