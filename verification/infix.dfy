/** Fully parenthesised infix expressions over integers with the four
    operators of crypto_solver.py (`+ * - /`): their exact value, the text
    both solvers print for them, and a reader that turns that text back into
    the expression. */
module Infix {
  import opened Wrappers
  import opened Decimal

  /** The four operators, in the order of crypto_solver.py's `operators`
      list (`add, mul, sub, truediv`). */
  datatype Op = Add | Mul | Sub | Div

  const Operators: seq<Op> := [Add, Mul, Sub, Div]

  /** The display symbol of an operator (`operator_symbols`). */
  function Symbol(op: Op): char
  {
    match op
    case Add => '+'
    case Mul => '*'
    case Sub => '-'
    case Div => '/'
  }

  predicate IsSymbol(c: char)
  {
    c == '+' || c == '*' || c == '-' || c == '/'
  }

  function OpOfSymbol(c: char): (op: Op)
    requires IsSymbol(c)
    ensures Symbol(op) == c
  {
    if c == '+' then Add else if c == '*' then Mul else if c == '-' then Sub else Div
  }

  lemma SymbolsDistinct(a: Op, b: Op)
    ensures Symbol(a) == Symbol(b) <==> a == b
  {
  }

  /** Exact arithmetic: the left operand comes first, and dividing by zero
      has no value (Python raises ZeroDivisionError). */
  function Apply(op: Op, a: real, b: real): (r: Option<real>)
    ensures r.None? <==> op == Div && b == 0.0
    ensures r.Some? && op == Add ==> r.value == a + b
    ensures r.Some? && op == Mul ==> r.value == a * b
    ensures r.Some? && op == Div ==> r.value * b == a
    ensures r.Some? && op == Sub ==> r.value + b == a
  {
    match op
    case Add => Some(a + b)
    case Mul => Some(a * b)
    case Sub => Some(a - b)
    case Div => if b == 0.0 then None else Some(a / b)
  }

  /** An expression tree: integer literals at the leaves. */
  datatype Expr = Lit(n: int) | Bin(op: Op, left: Expr, right: Expr)

  /** The exact value, or None when some division has a zero divisor. */
  function Value(e: Expr): Option<real>
  {
    match e
    case Lit(n) => Some(n as real)
    case Bin(op, l, r) =>
      match Value(l)
      case None => None
      case Some(a) =>
        match Value(r)
        case None => None
        case Some(b) => Apply(op, a, b)
  }

  /** The literals from left to right. */
  function LeafList(e: Expr): (s: seq<int>)
    ensures |s| >= 1
  {
    match e
    case Lit(n) => [n]
    case Bin(_, l, r) => LeafList(l) + LeafList(r)
  }

  /** `"({} {} {})".format(a, symbol, b)`: one parenthesised operation. */
  function Paren(a: string, op: Op, b: string): string
  {
    "(" + a + " " + [Symbol(op)] + " " + b + ")"
  }

  /** The text both solvers print: `str(n)` for a literal and
      `(<left> <symbol> <right>)` for a node. */
  function Show(e: Expr): (s: string)
  {
    match e
    case Lit(n) => IntToString(n)
    case Bin(op, l, r) => Paren(Show(l), op, Show(r))
  }

  /** Reads an optionally signed decimal literal from the front of `s`;
      returns it with the unread rest. */
  function ParseLiteral(s: string): (r: Option<(Expr, string)>)
    ensures r.Some? ==> r.value.0.Lit? && |r.value.1| < |s|
  {
    if |s| > 0 && s[0] == '-' then
      var k := DigitRun(s[1..]);
      if k == 0 then None else Some((Lit(-(DigitsValue(s[1..1 + k]) as int)), s[1 + k..]))
    else
      var k := DigitRun(s);
      if k == 0 then None else Some((Lit(DigitsValue(s[..k])), s[k..]))
  }

  /** Reads one fully parenthesised expression from the front of `s`;
      returns it with the unread rest. */
  function ParseExpr(s: string): (r: Option<(Expr, string)>)
    ensures r.Some? ==> |r.value.1| < |s|
    decreases |s|
  {
    if |s| > 0 && s[0] == '(' then
      match ParseExpr(s[1..])
      case None => None
      case Some(lp) =>
        var r1 := lp.1;
        if |r1| >= 3 && r1[0] == ' ' && IsSymbol(r1[1]) && r1[2] == ' ' then
          match ParseExpr(r1[3..])
          case None => None
          case Some(rp) =>
            var r2 := rp.1;
            if |r2| >= 1 && r2[0] == ')' then Some((Bin(OpOfSymbol(r1[1]), lp.0, rp.0), r2[1..]))
            else None
        else None
    else ParseLiteral(s)
  }

  /** Reads a whole text as one expression. */
  function Parse(s: string): Option<Expr>
  {
    match ParseExpr(s)
    case None => None
    case Some(p) => if p.1 == [] then Some(p.0) else None
  }

  lemma NumeralRoundTrip(d: string, rest: string, n: nat)
    requires d == NatToString(n)
    requires rest == [] || rest[0] == ' ' || rest[0] == ')'
    ensures DigitRun(d + rest) == |d|
    ensures (d + rest)[..|d|] == d && (d + rest)[|d|..] == rest
    ensures DigitsValue(d) == n
  {
    DigitRunStops(d, rest);
    NatToStringValue(n);
  }

  /** A minus sign in front of a numeral and the text after it. */
  lemma SignedText(d: string, rest: string)
    ensures var s := "-" + d + rest; |s| > 0 && s[0] == '-' && s[1..] == d + rest
  {
    assert "-" + d + rest == "-" + (d + rest);
  }

  /** Slicing after the first character of `s`. */
  lemma AfterFirst(s: string, k: nat)
    requires 1 + k <= |s|
    ensures s[1..1 + k] == s[1..][..k] && s[1 + k..] == s[1..][k..]
  {
  }

  lemma NegativeLiteralRoundTrip(n: int, rest: string)
    requires n < 0
    requires rest == [] || rest[0] == ' ' || rest[0] == ')'
    ensures ParseLiteral(IntToString(n) + rest) == Some((Lit(n), rest))
  {
    var d := NatToString(-n);
    assert IntToString(n) == "-" + d;
    SignedText(d, rest);
    NumeralRoundTrip(d, rest, -n);
    AfterFirst("-" + d + rest, |d|);
  }

  lemma LiteralRoundTrip(n: int, rest: string)
    requires rest == [] || rest[0] == ' ' || rest[0] == ')'
    ensures ParseLiteral(IntToString(n) + rest) == Some((Lit(n), rest))
  {
    if n < 0 {
      NegativeLiteralRoundTrip(n, rest);
    } else {
      NumeralRoundTrip(NatToString(n), rest, n);
    }
  }

  /** The text after the left operand of `Bin(op, l, r)`. */
  function AfterLeft(op: Op, r: Expr, rest: string): string
  {
    " " + [Symbol(op)] + " " + Show(r) + ")" + rest
  }

  /** How the text of a node splits where the parser looks at it. */
  lemma NodeText(a: string, op: Op, b: string, rest: string)
    ensures var s, t := Paren(a, op, b) + rest, " " + [Symbol(op)] + " " + b + ")" + rest;
      |s| > 0 && s[0] == '(' && s[1..] == a + t &&
      |t| >= 3 && t[0] == ' ' && t[1] == Symbol(op) && t[2] == ' ' && t[3..] == b + (")" + rest)
  {
    var s, t := Paren(a, op, b) + rest, " " + [Symbol(op)] + " " + b + ")" + rest;
    assert s == "(" + (a + t);
  }

  lemma ParseNode(op: Op, l: Expr, r: Expr, rest: string)
    requires ParseExpr(Show(l) + AfterLeft(op, r, rest)) == Some((l, AfterLeft(op, r, rest)))
    requires ParseExpr(Show(r) + (")" + rest)) == Some((r, ")" + rest))
    ensures ParseExpr(Show(Bin(op, l, r)) + rest) == Some((Bin(op, l, r), rest))
  {
    NodeText(Show(l), op, Show(r), rest);
    SymbolsDistinct(OpOfSymbol(Symbol(op)), op);
    assert (")" + rest)[1..] == rest;
  }

  /** Reading the printed text of `e`, followed by a space, a closing
      parenthesis or nothing, gives `e` back and stops at its end. */
  lemma {:induction false} ParseShow(e: Expr, rest: string)
    requires rest == [] || rest[0] == ' ' || rest[0] == ')'
    ensures ParseExpr(Show(e) + rest) == Some((e, rest))
  {
    match e
    case Lit(n) =>
      LiteralRoundTrip(n, rest);
    case Bin(op, l, r) =>
      ParseShow(l, AfterLeft(op, r, rest));
      ParseShow(r, ")" + rest);
      ParseNode(op, l, r, rest);
  }

  /** The printed text of an expression reads back as that expression. */
  lemma ParseShowWhole(e: Expr)
    ensures Parse(Show(e)) == Some(e)
  {
    ParseShow(e, []);
    assert Show(e) + [] == Show(e);
  }

  /** Distinct expressions print differently. */
  lemma ShowInjective(a: Expr, b: Expr)
    requires Show(a) == Show(b)
    ensures a == b
  {
    ParseShowWhole(a);
    ParseShowWhole(b);
  }
}
