# minitorch operators, modelled in Dafny

This project models `minitorch/operators.py`, the prelude of the minitorch
teaching library. The prelude has two layers:

- Scalar operators: `mul`, `id`, `add`, `neg`, `lt`, `eq`, `max`,
  `is_close`, `relu` and `inv`, plus the derivative-weighted "backward"
  helpers `log_back`, `inv_back` and `relu_back`.
- Higher-order list combinators: `map`, `zipWith` and `reduce`, and the
  wrappers built from them: `negList`, `addLists`, `sum` and `prod`.

Files and modules:

- `scalar_ops.dfy`, module `ScalarOps`: the scalar layer, over Dafny `real`.
- `combinators.dfy`, module `Combinators`: `map`, `zip`, `zipWith` and `reduce`.
- `list_ops.dfy`, module `ListOps`: `negList`, `addLists`, `sum` and `prod`.

Modelling decisions:

- Every scalar is a mathematical `real`. Lists are `seq<real>`.
- In the original, each combinator takes `fn` (and, for `reduce`, `start`)
  and returns an inner `apply` that loops over the list. The curried call
  `map(fn)(ls)` is modelled as the method call `Map(fn, ls)`, and likewise
  for the other two. Each method keeps the loop of `apply`, appending to
  `ret` or updating the accumulator `ori`. Each method is proved equal to a
  pure recursive function: `Mapped`, `ZippedWith` or `Reduced`.
- `zipWith` loops over Python's `zip(l1, l2)`. This is modelled by the
  function `Zip`, which stops at the shorter list.
- `reduce` is specified by `Reduced`: the reduction of `ls + [x]` is
  `fn(x, Reduced(ls))`, so the accumulator is always the second argument.
  `ReducedIsFoldFromHead` shows this agrees with a left fold from the head.
- `lt` and `eq` return a Python `bool`. Their docstrings promise
  1.0/0.0, and Python's `True` and `False` are 1 and 0 in arithmetic. The
  model therefore returns a `real` through `BoolAsReal`: 1.0 for true,
  0.0 for false.
- `is_close` is modelled as returning a `bool`, as the code does.
- Division by zero in `inv`, `log_back` and `inv_back` raises an error that
  the module never catches. It is modelled as the precondition `x != 0.0`.
- `log_back` is modelled literally as `inv(x) * d`, that is `d / x`. The
  logarithm itself shifts its argument by `EPS` (1e-6), so the exact
  derivative would be `d / (x + EPS)`. `LogBackIsUnshifted` proves the two
  differ whenever `d != 0` and `x + EPS != 0`. This is the code's behaviour, kept as written.

## Model

| member | source | states |
|---|---|---|
| ScalarOps.Mul | minitorch/operators.py:13-15 | computes x · y, the docstring's formula; it has no contract of its own, and its use is stated by `ListOps.ReducedMulIsProduct` (reduce(mul, 1) is the ordinary product) |
| ScalarOps.Id | minitorch/operators.py:19-21 | computes x, the docstring's formula; it has no contract of its own, and its property is `ListOps.MappedIdIsIdentity` (map(id) is the identity) |
| ScalarOps.Add | minitorch/operators.py:24-26 | computes x + y, the docstring's formula; it has no contract of its own, and its uses are stated by `ListOps.ReducedAddIsSum` and `ListOps.SumOfAddLists` |
| ScalarOps.Neg | minitorch/operators.py:29-31 | computes -x, the docstring's formula; it has no contract of its own, and its properties are `ScalarOps.NegLaws` |
| ScalarOps.NegLaws | minitorch/operators.py:29-31 | `neg` is an involution, `x + neg(x) == 0`, and `neg(x) == -1 * x` |
| ScalarOps.Lt | minitorch/operators.py:34-36 | the result is 1.0 exactly when x < y and 0.0 exactly when y <= x |
| ScalarOps.Eq | minitorch/operators.py:39-41 | the result is 1.0 exactly when x == y and 0.0 exactly when x != y |
| ScalarOps.Max | minitorch/operators.py:43-45 | the result is one of x and y, is at least both, and is x when x > y |
| ScalarOps.IsClose | minitorch/operators.py:48-50 | true exactly when y lies strictly within 0.01 of x |
| ScalarOps.IsCloseLaws | minitorch/operators.py:48-50 | `is_close` is reflexive and symmetric |
| ScalarOps.Relu | minitorch/operators.py:69-75 | the result is never negative, is x when x > 0, and is 0 when x <= 0 |
| ScalarOps.LogBack | minitorch/operators.py:90-92 | for x != 0, the result times x is d |
| ScalarOps.LogBackIsUnshifted | minitorch/operators.py:77-92 | `log_back(x, d) == d / x`; for d != 0 it differs from d / (x + EPS), the derivative of the shifted logarithm |
| ScalarOps.Inv | minitorch/operators.py:95-97 | for x != 0, the result is non-zero and times x is 1 |
| ScalarOps.InvInvolution | minitorch/operators.py:95-97 | for x != 0, `inv(inv(x)) == x`, so the two are close |
| ScalarOps.InvBack | minitorch/operators.py:100-102 | for x != 0, the result times x² is -d, that is, the result is -(1/x)² · d |
| ScalarOps.InvBackIsDerivative | minitorch/operators.py:100-102 | the change of `inv` over a step t differs from `inv_back(x, t)` by t²/(x²(x+t)), a term of second order in t |
| ScalarOps.ReluBack | minitorch/operators.py:105-107 | computes d when x > 0 and 0 otherwise, as the code does; it has no contract of its own, and its properties are `ScalarOps.ReluBackIsSlope` |
| ScalarOps.ReluBackIsSlope | minitorch/operators.py:105-107 | `relu_back(x, d) == d * lt(0, x)`, so it is d when x > 0 and 0 otherwise; `relu(x) == x * relu_back(x, 1)`; near a non-zero x the change of `relu` over a step t is exactly `relu_back(x, t)` |
| Combinators.Mapped | minitorch/operators.py:128-132 | the recursive map has the input's length and holds fn(ls[i]) at position i |
| Combinators.MappedSnoc | minitorch/operators.py:128-132 | mapping `ls + [x]` appends fn(x) to the mapping of ls, as each loop step does |
| Combinators.MappedAppend | minitorch/operators.py:128-132 | mapping distributes over concatenation |
| Combinators.Map | minitorch/operators.py:128-132 | the loop's result equals `Mapped(fn, ls)`: same length, fn(ls[i]) at position i, in input order |
| Combinators.Zip | minitorch/operators.py:160 | `zip` has the length of the shorter list and pairs l1[i] with l2[i] |
| Combinators.ZippedWith | minitorch/operators.py:158-162 | the recursive zipWith has length the smaller of the two lengths and holds fn(l1[i], l2[i]) at position i |
| Combinators.ZippedWithPrefix | minitorch/operators.py:158-162 | one more pair of prefixes appends one fn(l1[k], l2[k]), as each loop step does |
| Combinators.ZipWith | minitorch/operators.py:158-162 | the loop over `zip(l1, l2)` equals `ZippedWith(fn, l1, l2)`: truncated to the shorter length, fn(l1[i], l2[i]) at position i |
| Combinators.ReducedSnoc | minitorch/operators.py:183-190 | reducing the empty list gives start; reducing `ls + [x]` gives fn(x, reduction of ls), the accumulator second |
| Combinators.ReducedAppend | minitorch/operators.py:183-190 | reducing `a + b` reduces b starting from the reduction of a |
| Combinators.ReducedIsFoldFromHead | minitorch/operators.py:186-190 | the nested form fn(xn, … fn(x1, start)) equals the head-first fold that the loop performs |
| Combinators.ReducedPairOrder | minitorch/operators.py:183-184 | reducing [x1, x2] gives fn(x2, fn(x1, start)) exactly, for any fn |
| Combinators.Reduce | minitorch/operators.py:186-190 | the loop's accumulator ends at `Reduced(fn, start, ls)`, and is start for an empty list |
| ListOps.NegList | minitorch/operators.py:136-139 | the result has ls's length and holds -ls[i] at position i |
| ListOps.AddLists | minitorch/operators.py:166-169 | the result has the shorter length (the common length when the two are equal) and holds ls1[i] + ls2[i] at position i |
| ListOps.ReducedAddIsSum | minitorch/operators.py:194-197 | reduce(add, 0) equals the ordinary recursive sum |
| ListOps.Sum | minitorch/operators.py:194-197 | `sum` returns the ordinary sum of the list, and 0 for the empty list |
| ListOps.ReducedMulIsProduct | minitorch/operators.py:199-202 | reduce(mul, 1) equals the ordinary recursive product |
| ListOps.Prod | minitorch/operators.py:199-202 | `prod` returns the ordinary product of the list, and 1 for the empty list |
| ListOps.MappedIdIsIdentity | minitorch/operators.py:19-21 | map(id) returns a list equal to its input |
| ListOps.AddListsNegListCancel | minitorch/operators.py:166-169 | adding a list to its negation gives one zero per element |
| ListOps.SumOfNegList | minitorch/operators.py:136-139 | the sum of negList(ls) is minus the sum of ls |
| ListOps.SumOfAddLists | minitorch/operators.py:166-169 | for equal lengths, the sum of addLists(a, b) is sum(a) + sum(b) |
| ListOps.AddListsTruncatesExample | minitorch/operators.py:166-169 | zipWith(add)([1, 2, 3], [10, 20]) is [11, 22] |

## Left out

- `sigmoid`, `log` and `exp` (minitorch/operators.py:52-67, 80-87) are left out. They need `math.exp` and `math.log`, which real arithmetic in Dafny cannot express. For the same reason, the sigmoid symmetry and stability claims are not stated.
- IEEE floating-point behaviour is left out: rounding, overflow, NaN, infinities and signed zero. For example, `max(0.0, -0.0)` returning `-0.0` is not modelled. With exact reals, the tie case of `max` (returning y) cannot be told apart from returning x.
- `is_close` is stated only as |x - y| < 0.01 over the reals. Float tolerance beyond that is not captured.
- Python's `Iterable` genericity is left out: inputs are finite `seq<real>`. The combinators take total Dafny functions, so a `fn` that raises is not modelled.
- Division by zero: the `ZeroDivisionError` the original raises at x == 0 is modelled in `inv`, `log_back` and `inv_back` as the precondition `x != 0.0`, not as an error result, because the module never handles it.
- Overflow in `inv_back`: the original computes `inv(x) ** 2` on floats, and Python's float `**` raises `OverflowError` when the square exceeds the float range (for non-zero x with |x| below about 1e-154). The model computes the exact real `-(1/x)² · d` there instead of raising.
- The combinators as values (a function returned from `map(fn)`) are modelled by passing all arguments at once, because partial application adds nothing to the behaviour.
