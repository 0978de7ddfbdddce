/** The float values krypto_solver_2.py computes with, kept exact: a finite
    real, one of the two infinities, or NaN. Python's `-0.0 == 0` holds and
    every zero divisor is caught before dividing, so the sign of a zero
    never shows and is not represented. */
module Extended {
  import opened Wrappers
  import opened Infix

  datatype Ext = Fin(v: real) | PosInf | NegInf | NaN

  /** An infinity of the sign of `s` (`s != 0`). */
  function Signed(s: real): Ext
  {
    if s > 0.0 then PosInf else NegInf
  }

  /** The sign of a non-NaN value as a real: -1, 0 or 1. */
  function Sign(a: Ext): real
  {
    match a
    case Fin(x) => if x > 0.0 then 1.0 else if x < 0.0 then -1.0 else 0.0
    case PosInf => 1.0
    case NegInf => -1.0
    case NaN => 0.0
  }

  /** IEEE 754 negation. */
  function Neg(a: Ext): Ext
  {
    match a
    case Fin(x) => Fin(-x)
    case PosInf => NegInf
    case NegInf => PosInf
    case NaN => NaN
  }

  /** IEEE 754 addition: infinities of opposite sign cancel to NaN. */
  function Sum(a: Ext, b: Ext): Ext
  {
    if a == NaN || b == NaN then NaN
    else if a.Fin? && b.Fin? then Fin(a.v + b.v)
    else if a.Fin? then b
    else if b.Fin? then a
    else if a == b then a
    else NaN
  }

  /** IEEE 754 multiplication: an infinity times zero is NaN. */
  function Product(a: Ext, b: Ext): Ext
  {
    if a == NaN || b == NaN then NaN
    else if a.Fin? && b.Fin? then Fin(a.v * b.v)
    else if Sign(a) * Sign(b) == 0.0 then NaN
    else Signed(Sign(a) * Sign(b))
  }

  /** `a / b if b != 0 else sentinel`: a zero divisor gives the sentinel
      whatever `a` is; otherwise IEEE 754 division, where a finite value
      over an infinity is zero and an infinity over an infinity is NaN. */
  function Quotient(a: Ext, b: Ext, sentinel: Ext): Ext
  {
    if b == Fin(0.0) then sentinel
    else if a == NaN || b == NaN then NaN
    else if a.Fin? && b.Fin? then Fin(a.v / b.v)
    else if a.Fin? then Fin(0.0)
    else if b.Fin? then Signed(Sign(a) * Sign(b))
    else NaN
  }

  /** One operator of the `operators` tuple on its two values, left
      operand first. */
  function Arith(op: Op, a: Ext, b: Ext, sentinel: Ext): (r: Ext)
    ensures (a.Fin? && b.Fin?) ==> r == (match Apply(op, a.v, b.v) case Some(x) => Fin(x) case None => sentinel)
    ensures op == Div && b == Fin(0.0) ==> r == sentinel
    ensures sentinel == NaN && (a == NaN || b == NaN) ==> r == NaN
  {
    match op
    case Add => Sum(a, b)
    case Mul => Product(a, b)
    case Sub => Sum(a, Neg(b))
    case Div => Quotient(a, b, sentinel)
  }

  /** `result == goal` for an integer goal: only a finite value equal to it
      compares equal; infinities and NaN never do. */
  predicate Equals(a: Ext, goal: int)
  {
    a.Fin? && a.v == goal as real
  }
}
