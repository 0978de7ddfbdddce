# Number puzzles, a function builder and small text utilities, in Dafny

This project models the pure cores of a small collection of Python
scripts and proves what they compute.

- **crypto_solver.py**: the exhaustive "make the target number" search.
  - `trees(k)` enumerates the binary tree shapes with `k` operator nodes (`Shapes`).
  - `itertools.product` gives the operator tuples and `itertools.permutations` the number orderings; repeated orderings are skipped through `seen_number_sets` (`Enumerate`, `Seqs`).
  - `evaluate` pops an operator at each node and a number at each leaf from the ends of two lists, in pre-order. It either computes the value or renders the fully parenthesised text (`CryptoSolver`).
  - `solve` keeps every candidate whose value equals the goal and skips the ones that divide by zero.
  - Numbers are exact rationals (`real`), so `truediv` is exact division. A raised exception is a `Failure` of a `Result`.
  - `solve(goal, [n])` returns the raw number `n`, not its text, because render mode returns the popped leaf itself (`CryptoTheorems.SolveSingle`).
  - `solve(goal, [])` raises `ValueError`, from `product(operators, repeat=-1)` (`CryptoSolver.Solve`).
  - `trees(k)` pairs a left subtree of size k-1-n with a right subtree of size n, for n ascending: `Shapes.Splits` walks n upward from 0, and `Shapes.SplitsSized` bounds the sizes of its splits.
- **krypto_solver_2.py**: the second strategy.
  - `one_at_a_time` picks one element and leaves the rest.
  - `results` combines it, through the six operator closures, with every result for the rest (`Krypto`).
  - Each closure carries a `(value, text)` pair, and two of the closures take their arguments swapped.
  - A zero divisor yields `float('inf')`. It is modelled by extended values `Ext = Fin | PosInf | NegInf | NaN`, with the IEEE 754 rules for infinities on exact reals (`Extended`).
- **maths.py**: `FunctionBuilder` (`Maths`).
  - It is an immutable list of `(code, operand)` entries.
  - `__call__` is a left fold over the list, and `__repr__` nests brackets. The operator methods append one entry to a `__copy__` of the builder.
  - Only integer results are modelled.
- **language.py**: `in_words`, the English words of a number of at most four digits (`Language`).
- **translation.py**: `rot13`, through the dictionary the code builds (`Translation`).
- **date_picker.py**: the month and year carry of `DatePicker.change_month` (`DatePicker`).

Expressions (`Infix.Expr`) and a parser for the printed text serve as the reference. Through them the model states that a rendered solution reads back as an expression that computes the goal.

## Model

| member | source | states |
|---|---|---|
| Shapes.LeavesIsInternalPlusOne | crypto_solver.py:13-19 | a shape with k operator slots has k + 1 number slots |
| Shapes.TreesSized | crypto_solver.py:13-19 | every shape `trees(k)` yields has exactly k operator nodes |
| Shapes.SplitsSized | crypto_solver.py:17-19 | the splits from n on yield nodes with k operator nodes whose right subtree has between n and k-1 nodes and whose left subtree has the remaining k-1 minus that |
| Shapes.TreesNoDup | crypto_solver.py:17-19 | `trees(k)` yields no shape twice |
| Shapes.TreesComplete | crypto_solver.py:13-19 | every shape appears in `trees` of its own size |
| Shapes.TreesExactly | crypto_solver.py:13-19 | `trees(k)` lists exactly the shapes with k nodes, each once (for k = 0, only the leaf) |
| Shapes.SplitsCount | crypto_solver.py:17-19 | the splits from n on count the Catalan sum walked from its last term backwards |
| Shapes.TreesCount | crypto_solver.py:17-19 | `trees(k)` yields C(k) shapes |
| Shapes.CatalanValues | crypto_solver.py:13-19 | the counts are 1, 1, 2, 5, 14, 42 for k = 0..5 |
| Shapes.PairsMembers | crypto_solver.py:18 | `product` of two shape lists gives exactly the nodes over a left from the first and a right from the second, \|ls\|·\|rs\| of them |
| Enumerate.PermutationsRearrange | crypto_solver.py:35 | every listed permutation is a rearrangement of the input |
| Enumerate.PermutationsComplete | crypto_solver.py:35 | every rearrangement of the input is listed |
| Enumerate.PermutationsCount | crypto_solver.py:35 | `permutations` of n elements yields n! tuples |
| Enumerate.DistinctPermutations | crypto_solver.py:35-39 | after the `seen_number_sets` filter the orderings are exactly the rearrangements, each once, even with repeated numbers |
| Seqs.DedupFrom | crypto_solver.py:36-39 | the filter keeps each element not yet seen, once, and nothing else |
| Enumerate.TuplesMembers | crypto_solver.py:40 | `product(alphabet, repeat=k)` lists exactly the k-tuples over the alphabet |
| Enumerate.TuplesCount | crypto_solver.py:40 | it yields a^k tuples |
| Enumerate.TuplesNoDup | crypto_solver.py:40 | over an alphabet without repeats no tuple is listed twice |
| Infix.Apply | crypto_solver.py:7-10 | exact arithmetic with the left operand first: the sum, the product, the number that added to the right operand gives the left, and the number that times the right operand gives the left; only a zero divisor gives no value |
| Infix.SymbolsDistinct | crypto_solver.py:11 | the four operator symbols are distinct |
| Infix.ParseShowWhole | crypto_solver.py:26-27 | a fully parenthesised text reads back as the expression it was printed from |
| Infix.ShowInjective | crypto_solver.py:26-27 | distinct expressions print differently |
| CryptoBinding.BoundOps | crypto_solver.py:21-25 | the operators a shape binds are the top `Internal(t)` of the list, popped in pre-order |
| CryptoBinding.BoundVals | crypto_solver.py:21-31 | the numbers a shape binds are the top `Leaves(t)` of the list |
| CryptoBinding.BoundShape | crypto_solver.py:21-31 | the bound expression has the shape it was bound to |
| CryptoBinding.EvaluateBinds | crypto_solver.py:21-31 | with room for the shape, `evaluate` computes the bound expression's value, left subtree first, and fails only on a zero divisor |
| CryptoBinding.EvaluateShort | crypto_solver.py:21-31 | without room for the shape, `evaluate` raises |
| CryptoBinding.RenderBinds | crypto_solver.py:21-31 | render mode prints the same bound expression |
| CryptoBinding.RenderShort | crypto_solver.py:21-31 | render mode fails only when a list runs out |
| CryptoBinding.CandidateOutcome | crypto_solver.py:21-31 | on a fitting candidate both modes use both lists completely (the bound expression's operators and numbers, in pop order, are exactly the two lists), value mode fails only by dividing by zero, and the printed text reads back as the expression whose value value mode computed |
| CryptoBinding.CandidateParts | crypto_solver.py:21-31 | a candidate's shape, operator list and number list are recovered from its expression |
| CryptoBinding.CandidateOfExpr | crypto_solver.py:21-31 | every expression is the candidate of its own shape and lists |
| CryptoBinding.PartsDetermine | crypto_solver.py:21-31 | shape and the two lists determine the expression |
| CryptoBinding.StackSizes | crypto_solver.py:21-31 | an expression pops one operator per node and one number per leaf |
| CryptoBinding.ValsStackLeaves | crypto_solver.py:31 | the numbers popped are the expression's literals |
| CryptoBinding.FormatDisplayed | crypto_solver.py:27 | what is appended prints as the expression's text |
| CryptoBinding.DisplayedInjective | crypto_solver.py:26-31 | different expressions are appended differently |
| CryptoSolver.Check | crypto_solver.py:44-52 | one candidate contributes at most one text, and only when its value is the goal |
| CryptoSolver.Solve | crypto_solver.py:33-55 | `solve` fails exactly on an empty list, with the error of `product(repeat=-1)` |
| CryptoSolver.SearchSpaceFits | crypto_solver.py:35-43 | every ordering, operator tuple and shape the loops combine fit together |
| CryptoSolver.TreeSize | crypto_solver.py:42 | every shape searched has one leaf per number |
| CryptoTheorems.CheckHit | crypto_solver.py:44-52 | a candidate contributes its text exactly when its value is the goal; a zero divisor contributes nothing |
| CryptoTheorems.SolveTreesMembers | crypto_solver.py:43-52 | the inner loop reports exactly the hits among its shapes |
| CryptoTheorems.SolveOpsMembers | crypto_solver.py:41-52 | the middle loop reports exactly the hits among its tuples and shapes |
| CryptoTheorems.SolvePermsMembers | crypto_solver.py:37-52 | the outer loop reports exactly the hits among all candidates |
| CryptoTheorems.AllOperators | crypto_solver.py:10 | the `operators` list holds every operator |
| CryptoTheorems.SolveSound | crypto_solver.py:33-55 | each solution is the text of an expression with value exactly the goal |
| CryptoTheorems.SolveComplete | crypto_solver.py:33-55 | every expression using each number once and computing the goal is among the solutions |
| CryptoTheorems.SolveSingle | crypto_solver.py:30-52 | `solve(goal, [n])` is `[n]`, the raw number, when n is the goal, else `[]` |
| CryptoTheorems.LeftOperandFirst | crypto_solver.py:23-29 | with `[-]` and `[1, 5]` the left leaf pops 5: the value is 4 and the text `(5 - 1)` |
| CryptoTheorems.Example24 | crypto_solver.py:33-55 | `(4 * 6)` is a solution for 24 from [4, 6] |
| CryptoTheorems.Example1 | crypto_solver.py:33-55 | `(5 / 5)` is a solution for 1 from [5, 5], whose two orderings are one |
| Seqs.OneAtATime | krypto_solver_2.py:16-18 | `one_at_a_time(s)` yields len(s) pairs; the i-th picks `s[i]` and keeps the elements before index i and those after it, in their order |
| Seqs.OneAtATimeKeepsMultiset | krypto_solver_2.py:16-18 | each pair holds exactly the elements of s |
| Seqs.RemoveAt | krypto_solver_2.py:18 | `s[:i] + s[i+1:]` has the elements before i, then those after it |
| Extended.Arith | krypto_solver_2.py:7-14 | on finite values the closures compute exact arithmetic, left operand first; a zero divisor gives the sentinel |
| Krypto.Matches | krypto_solver_2.py:30-37 | `solve` keeps the texts whose value equals the goal, and only those, no more of them than there are pairs |
| Krypto.MatchesSingle | krypto_solver_2.py:32-34 | one pair contributes its text exactly when its value equals the goal |
| Krypto.MatchesAppend | krypto_solver_2.py:32-34 | the matches keep the order of the pairs: those of a concatenation are those of the first part followed by those of the second |
| KryptoResults.PairResults | krypto_solver_2.py:20-23 | two numbers give six results, one per closure, in tuple order |
| KryptoResults.RoundMembers | krypto_solver_2.py:22-23 | one round yields exactly the six closures applied to its two arguments |
| KryptoResults.CombineLength | krypto_solver_2.py:26-28 | combining one number with r results yields 6r items |
| KryptoResults.CombineMembers | krypto_solver_2.py:26-28 | it yields exactly each closure applied to the number and one of the results |
| KryptoResults.ResultsFromMembers | krypto_solver_2.py:25-28 | the loop over picks from index i yields exactly the closures on a pick at or after i and a result for the rest |
| KryptoResults.ResultsMembers | krypto_solver_2.py:20-28 | what `results` yields for two and for any other number of elements |
| KryptoResults.ResultsLength | krypto_solver_2.py:20-28 | `results` yields 0 items for fewer than 2 numbers, 6 for 2, and n·6·count(n-1) above |
| KryptoResults.ResultsFromLength | krypto_solver_2.py:25-28 | the loop from pick i yields (n - i)·6·count(n-1) items |
| KryptoResults.CountClosed | krypto_solver_2.py:20-28 | that count is 6^(n-1)·n!/2 |
| KryptoResults.ResultsMap | krypto_solver_2.py:20-28 | a map that commutes with the closures commutes with the whole enumeration, item for item |
| KryptoTheorems.StepBuild | krypto_solver_2.py:7-14 | each closure builds its text from the operands its value uses, in the same order |
| KryptoTheorems.SwappedOperands | krypto_solver_2.py:7-14 | a swapped closure is its plain twin with the arguments exchanged |
| KryptoTheorems.ZeroDivisor | krypto_solver_2.py:11-14 | a zero divisor gives the sentinel whichever closure divides |
| KryptoTheorems.ResultsDenote | krypto_solver_2.py:20-32 | the pairs `results` yields are the values and texts of the enumerated expressions, in order |
| KryptoTheorems.SolveMembers | krypto_solver_2.py:30-37 | `solve` returns the texts of the enumerated expressions whose float value equals the goal |
| KryptoTheorems.ExprLeaves | krypto_solver_2.py:20-28 | every enumerated expression uses each input number exactly once |
| KryptoTheorems.EvalExact | krypto_solver_2.py:7-14 | where exact arithmetic has a value, the closures compute it |
| KryptoTheorems.EvalNaN | krypto_solver_2.py:11-14 | with a NaN sentinel an expression that divides by zero anywhere has no finite value |
| KryptoTheorems.SolveComplete | krypto_solver_2.py:30-37 | every enumerated expression with exact value equal to the goal is reported |
| KryptoTheorems.SolveFew | krypto_solver_2.py:20-37 | fewer than two numbers give no solutions |
| KryptoTheorems.AbsorbedEnumerated | krypto_solver_2.py:20-28 | `(5 / (1 / 0))` is among the expressions `results` builds for `[5, 1, 0]` |
| KryptoTheorems.InfinityAbsorbed | krypto_solver_2.py:11-14 | as written, `solve(0, [5, 1, 0])` reports `(5 / (1 / 0))`, which has no exact value |
| KryptoTheorems.SolveFixedExact | krypto_solver_2.py:30-37 | with a NaN sentinel `solve` returns exactly the texts of expressions whose exact value is the goal |
| KryptoTheorems.SolveFixedSound | krypto_solver_2.py:30-37 | with a NaN sentinel each reported text reads back as an expression using each number once and computing the goal |
| Maths.Quotient | maths.py:72-75 | true division never gives an integer: it raises or yields a float |
| Maths.Floored | maths.py:76-83 | `//` and `%` raise exactly on a zero divisor |
| Maths.Power | maths.py:84-87 | `**` stays an integer exactly for a non-negative exponent |
| MathsTheorems.RunAppend | maths.py:55-90 | the loop of `__call__` over one more entry is the loop, then that entry |
| MathsTheorems.CallWith | maths.py:92-95 | calling a derived builder calls the original, then applies the new entry to its result |
| MathsTheorems.CallWithValue | maths.py:57-59 | a builder operand is first called at the same x, and the entry then combines the two results |
| MathsTheorems.ReflectedSwaps | maths.py:60-87 | each `r` code is its plain code with the stored operand on the left |
| MathsTheorems.InvalidCode | maths.py:60-89 | exactly the fourteen appended codes are understood; any other raises `ValueError` |
| MathsTheorems.PrintAppend | maths.py:46-53 | the loop of `__repr__` over one more entry wraps the text once more |
| MathsTheorems.ReprWith | maths.py:41-53 | a derived builder prints from the name `"x"`, whatever the original's name |
| MathsTheorems.ReprWithText | maths.py:46-53 | it prints as `(s op other)`, or `(other op s)` without the `r` for a reflected code |
| MathsTheorems.ProductCall | maths.py:5-16 | `(x + 5) * (x - 3)` computes that polynomial at every x |
| MathsTheorems.SquareCall | maths.py:18-26 | `x**2 - 4 * x + 4` computes that polynomial at every x |
| MathsTheorems.MixedCall | maths.py:28-32 | `5 - (x % 8 + 17 // x)` computes it with floor division, and raises at 0 |
| MathsTheorems.DoctestValues | maths.py:9-32 | the doctest values -15, 0, 9, 20, 4, 0, 16 and -3 |
| MathsTheorems.ProductRepr | maths.py:6-8 | the doctest text `((x + 5) * (x - 3))` |
| MathsTheorems.SquareRepr | maths.py:18-20 | the doctest text `(((x ** 2) - (4 * x)) + 4)` |
| MathsTheorems.MixedRepr | maths.py:28-30 | the doctest text `(5 - ((x % 8) + (17 // x)))` |
| Language.InWordsSpoken | language.py:3-10 | `in_words` succeeds exactly on 0..9999, and there joins the words of the number's arithmetic digits |
| Language.PaddedDigits | language.py:10 | the zero-padded text of n ≤ 9999 is its thousands, hundreds, tens and ones digit |
| Language.OutOfRange | language.py:10 | 10000 and -1 raise `ValueError` |
| Language.ThousandIff | language.py:13-15 | `<digit> thousand` is said exactly when the thousands digit is not 0, and then it comes first |
| Language.HundredIff | language.py:16-18 | `<digit> hundred` is said exactly when the hundreds digit is not 0, right after any thousands |
| Language.AndIff | language.py:12-20 | `and` is said exactly when n ≥ 100 and n mod 100 ≠ 0 |
| Language.LastTwoDigits | language.py:21-24 | tens digit 1 gives the single teen word `names[n % 100]` for the last two digits: the whole word list below 100, and right after `and` above it; otherwise the tens word and the ones word come last |
| Language.TrailingSpace | language.py:23-25 | `in_words(20)` is `"twenty "`, since the empty ones word is still joined |
| Translation.Alphabets | translation.py:2 | `ascii_lowercase` and `ascii_uppercase` are the 26 consecutive letters from `a` and from `A` |
| Translation.ToMapKeys | translation.py:13 | the keys of `dict(pairs)` are the pairs' first components |
| Translation.ToMapLast | translation.py:13 | a key's value is the one from its last pair |
| Translation.TableShift | translation.py:13 | the dictionary's keys are exactly the ASCII letters, each mapped 13 places on within its case |
| Translation.ShiftPlaces | translation.py:13 | a lower-case letter goes 13 places on in the lower-case alphabet, an upper-case one in the upper-case alphabet, and other characters stay |
| Translation.Rot13Shift | translation.py:14 | `rot13` keeps the length and shifts each character on its own |
| Translation.Rot13Involution | translation.py:13-14 | `rot13(rot13(s)) == s` |
| DatePicker.ChangeMonth | date_picker.py:36-37 | the new month is in 1..12, and year·12 + month - 1 moves by exactly `delta` |
| DatePicker.IndexInjective | date_picker.py:36-37 | a valid month and year are determined by that month count |
| DatePicker.StayPut | date_picker.py:33-37 | a step of 0, as the constructor draws the first month, changes nothing |
| DatePicker.Compose | date_picker.py:36-37 | two steps make one step by their sum |
| DatePicker.StepBack | date_picker.py:27-37 | a step is undone by its opposite, so `<` undoes `>` |
| DatePicker.YearRollover | date_picker.py:27-37 | `>` in December shows January of the next year; `<` in January shows December of the previous year |

## Left out

- Command-line parsing, the usage text and the printing of solutions in both solvers are left out. They are I/O around the search.
- Floating-point rounding of `truediv` is left out. Values are exact reals, and `float('inf')` is an abstract extended value with IEEE 754 rules for infinities and NaN.
- The order of the three loops in `crypto_solver.solve` is kept. Generator laziness is not modelled: lists are built whole, with the same contents in the same order.
- `FunctionBuilder`'s `/`, `/r`, and `**` with a negative exponent give floats. They are modelled as a `FloatResult` failure, not as float values. Float operands are not modelled either.
- Maths.Quotient: states only that true division never yields an integer. The float it returns is outside the model.
- `FunctionBuilder` operands that are neither integers nor builders are left out. They are Python's dynamic typing.
- `__init__`'s mutable list and `__copy__`'s list copy are values here. The "original is unchanged" promise holds by construction, because `With` returns a new builder and cannot change its argument.
- `in_words` for negative numbers is not modelled digit by digit. Formatting a negative with `'{:04}'` gives a leading `-` that `int` rejects, or too many characters; both cases are the one `NotFourDigits` failure.
- The `tkinter` widget of date_picker.py is left out: `get_date`, the buttons, `update_buttons`, `set_day` and `choose`. They are GUI code, and they depend on the `calendar` library, which is not part of this model. The month name shown in the label is left out for the same reason.
- utils.py `flatten` is not part of this model. It relies on Python's dynamic iteration protocol, and strings recurse in it without end.
- `translation.py`'s `test_string` is sample data and is not modelled.

## Findings

| source | as written | input that shows it | evidently intended | confidence | as-written member | corrected member |
|---|---|---|---|---|---|---|
| krypto_solver_2.py:11-14 | a zero divisor yields `float('inf')`, and a later `x / inf` is 0, so an expression that divides by zero can still equal the goal | `solve(0, [5, 1, 0])` reports `(5 / (1 / 0))`, whose inner division has no value | an expression that divides by zero is never a solution; an absorbing NaN sentinel (`Krypto.SolveFixed`) keeps it from ever comparing equal | not executed | KryptoTheorems.InfinityAbsorbed | KryptoTheorems.SolveFixedExact |
