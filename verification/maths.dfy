/** `FunctionBuilder` of maths.py: a function of one integer `x` recorded as
    a list of `(op, other)` pairs, applied left to right by `__call__` and
    printed by `__repr__`. Only integer results are modelled. */
module Maths {
  import opened Wrappers
  import opened Decimal
  import opened PyInt

  /** The exceptions a builder can raise, plus the results outside the
      integers: `ZeroDivisionError`, a true division or a negative power
      (a float), the `ValueError` for an unknown op code, and the
      `IndexError` of `op[-1]` on an empty code. */
  datatype Fault = ZeroDivision | FloatResult | InvalidOperation(code: string) | EmptyCode

  /** The `other` of an operation: an integer or another builder, which is
      evaluated at the same `x`. */
  datatype Operand = Const(n: int) | Fn(f: Builder)

  datatype Entry = Entry(code: string, other: Operand)

  /** A builder: its `_operations` list and its `name`. */
  datatype Builder = Builder(ops: seq<Entry>, name: string)

  /** The op codes the operator methods append, in the order of the
      dispatch in `__call__`. */
  const Codes: seq<string> := ["+", "+r", "-", "-r", "*", "*r", "/", "/r", "//", "//r", "%", "%r", "**", "**r"]

  /** The codes of the plain (not reflected) operator methods. */
  const BaseCodes: seq<string> := ["+", "-", "*", "/", "//", "%", "**"]

  /** `FunctionBuilder(name)`: no operations yet. */
  function New(name: string): Builder
  {
    Builder([], name)
  }

  /** `__copy__`: the same operations under the default name `"x"`. */
  function Copy(b: Builder): Builder
  {
    Builder(b.ops, "x")
  }

  /** The body shared by `__add__`, `__radd__`, ..., `__rpow__`: a copy with
      one more `(code, other)` pair. The original is a value and is not
      changed. */
  function With(b: Builder, code: string, other: Operand): Builder
  {
    var f := Copy(b);
    Builder(f.ops + [Entry(code, other)], f.name)
  }

  /** One branch of the dispatch in `__call__`: the new `result` from the
      current one and the evaluated operand. A code ending in `r` puts the
      operand on the left. */
  function Step(code: string, result: int, other: int): Result<int, Fault>
  {
    if code == "+" then Success(result + other)
    else if code == "+r" then Success(other + result)
    else if code == "-" then Success(result - other)
    else if code == "-r" then Success(other - result)
    else if code == "*" then Success(result * other)
    else if code == "*r" then Success(other * result)
    else if code == "/" then Quotient(result, other)
    else if code == "/r" then Quotient(other, result)
    else if code == "//" then Floored(result, other, true)
    else if code == "//r" then Floored(other, result, true)
    else if code == "%" then Floored(result, other, false)
    else if code == "%r" then Floored(other, result, false)
    else if code == "**" then Power(result, other)
    else if code == "**r" then Power(other, result)
    else Failure(InvalidOperation(code))
  }

  /** `a / b`: a float whenever it does not raise. */
  function Quotient(a: int, b: int): (r: Result<int, Fault>)
    ensures r.Failure?
  {
    if b == 0 then Failure(ZeroDivision) else Failure(FloatResult)
  }

  /** `a // b` (`quotient`) or `a % b` on integers. */
  function Floored(a: int, b: int, quotient: bool): (r: Result<int, Fault>)
    ensures r.Failure? <==> b == 0
  {
    if b == 0 then Failure(ZeroDivision)
    else if quotient then Success(FloorDiv(a, b))
    else Success(FloorMod(a, b))
  }

  /** `a ** n` on integers: a negative exponent gives a float, or raises
      for a zero base. */
  function Power(a: int, n: int): (r: Result<int, Fault>)
    ensures r.Success? <==> n >= 0
  {
    if n >= 0 then Success(Pow(a, n))
    else if a == 0 then Failure(ZeroDivision)
    else Failure(FloatResult)
  }

  /** `f(x)`: start from `x` and apply the operations in order. */
  function Call(b: Builder, x: int): Result<int, Fault>
    decreases b.ops, 1
  {
    Run(b.ops, 0, x, x)
  }

  /** The loop of `__call__` from the `i`-th operation on, with the current
      `result`; the first exception ends the call. */
  function Run(ops: seq<Entry>, i: nat, x: int, result: int): Result<int, Fault>
    requires i <= |ops|
    decreases ops, 0, |ops| - i
  {
    if i == |ops| then Success(result)
    else
      match Apply(ops[i], x, result)
      case Failure(e) => Failure(e)
      case Success(r) => Run(ops, i + 1, x, r)
  }

  /** One pass of the loop body: evaluate the operand, then dispatch on
      the code. */
  function Apply(e: Entry, x: int, result: int): Result<int, Fault>
    decreases e, 0
  {
    match OperandValue(e.other, x)
    case Failure(f) => Failure(f)
    case Success(v) => Step(e.code, result, v)
  }

  /** A builder operand is called at the same `x`. */
  function OperandValue(o: Operand, x: int): Result<int, Fault>
    decreases o, 0
  {
    match o
    case Const(n) => Success(n)
    case Fn(f) => Call(f, x)
  }

  /** `'({} {} {})'.format(a, mid, b)`. */
  function Bracket(a: string, mid: string, b: string): string
  {
    "(" + a + " " + mid + " " + b + ")"
  }

  /** `repr(f)`: start from the name and wrap it once per operation. */
  function Repr(b: Builder): Result<string, Fault>
    decreases b.ops, 1
  {
    Print(b.ops, 0, b.name)
  }

  /** The loop of `__repr__` from the `i`-th operation on, with the text
      `s` so far. */
  function Print(ops: seq<Entry>, i: nat, s: string): Result<string, Fault>
    requires i <= |ops|
    decreases ops, 0, |ops| - i
  {
    if i == |ops| then Success(s)
    else
      match Wrap(ops[i], s)
      case Failure(e) => Failure(e)
      case Success(t) => Print(ops, i + 1, t)
  }

  /** One pass of the loop body: a code ending in `r` prints the operand
      on the left and the code without its `r`; any other prints the text
      so far on the left. */
  function Wrap(e: Entry, s: string): Result<string, Fault>
    decreases e, 0
  {
    var code := e.code;
    if |code| == 0 then Failure(EmptyCode)
    else
      match OperandText(e.other)
      case Failure(f) => Failure(f)
      case Success(o) =>
        if code[|code| - 1] == 'r' then Success(Bracket(o, code[..|code| - 1], s))
        else Success(Bracket(s, code, o))
  }

  /** `format` prints an integer in decimal and a builder by its `repr`. */
  function OperandText(o: Operand): Result<string, Fault>
    decreases o, 0
  {
    match o
    case Const(n) => Success(IntToString(n))
    case Fn(f) => Repr(f)
  }
}
