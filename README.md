# minitorch operators in Dafny

This project models `minitorch/operators.py`, the prelude of minitorch. That
file holds the scalar functions the autodiff layer builds on, and the
higher-order list combinators `map`, `zipWith` and `reduce` with the list
operations defined from them. Everything is in one module, `Operators`
(`operators.dfy`).

- **Scalars** are Dafny `real`. `mul`, `id`, `add` and `neg` are plain
  functions, and lemmas state their laws: commutativity, neutral elements and
  involution. `lt` and `eq` return 1.0 or 0.0. `max` returns its second
  argument on a tie. `is_close` returns a boolean, not 1.0 or 0.0, and tests
  `|x - y| < 0.01` with the boundary excluded. `relu` is `max(0.0, x)`, and
  `relu_back` uses a strict `x > 0`.
- **Division.** `inv`, `inv_back` and `log_back` divide with Python's `/`, and
  Python raises `ZeroDivisionError` when the divisor is zero. `Div` models
  that operator. It returns `Result<real>`: either `Ok(quotient)` or
  `ZeroDivisionError`. So each of the three functions states exactly when it
  raises, and it has no precondition. `EPS` is the exact real 0.000001.
- **Combinators** are generic functions over `seq<T>` that take a function
  value. They are not closures returned by a factory, as in the source.
  `Map` and `ZipWith` are recursive. Their contracts give the length and
  every element, and `ZipWith` truncates to the shorter input.
- **`reduce`** has two parts. `FoldLeft` is the specification: a recursive
  left fold that threads the accumulator from the front. `Reduce` is a
  method with a `while` loop, like the source's accumulator loop, and it is
  proved to return `FoldLeft(fn, start, ls)`. `Sum` and `Prod` are the folds
  of `Add` from 0.0 and of `Mul` from 1.0. They are functions over
  `FoldLeft`, because a function cannot call a method.

Unlike `log`, `log_back` computes `d / (x + EPS)` and raises only when
`x + EPS` is exactly zero. A negative `x + EPS` is not an error: it gives an
ordinary quotient, which is zero when `d` is zero and otherwise has the sign
opposite to `d`.
`is_close` is annotated as returning a float, but it returns a bool, and the
model keeps the bool.

## Model

| member | source | states |
|---|---|---|
| `Operators.Mul` | minitorch/operators.py:10-12 | x * y over reals (see MulCommutes, MulNeutral) |
| `Operators.Id` | minitorch/operators.py:14-16 | the identity (see MapIdentity) |
| `Operators.Add` | minitorch/operators.py:18-20 | x + y over reals (see AddCommutes, AddNeutral) |
| `Operators.Neg` | minitorch/operators.py:22-24 | -x over reals (see NegInvolutive, NegIsAdditiveInverse) |
| `Operators.MulCommutes` | minitorch/operators.py:10-12 | mul(x, y) == mul(y, x) |
| `Operators.MulNeutral` | minitorch/operators.py:10-12 | 1.0 is a left and right identity of mul, which is why prod starts from it |
| `Operators.AddCommutes` | minitorch/operators.py:18-20 | add(x, y) == add(y, x) |
| `Operators.AddNeutral` | minitorch/operators.py:18-20 | 0.0 is a left and right identity of add, which is why sum starts from it |
| `Operators.NegInvolutive` | minitorch/operators.py:22-24 | neg(neg(x)) == x |
| `Operators.NegIsAdditiveInverse` | minitorch/operators.py:22-24 | add(x, neg(x)) == 0.0 |
| `Operators.MapIdentity` | minitorch/operators.py:14-16 | mapping id over a list gives the same list |
| `Operators.Lt` | minitorch/operators.py:26-28 | the result is 0.0 or 1.0, and it is 1.0 exactly when x < y |
| `Operators.LtIrreflexive` | minitorch/operators.py:26-28 | lt(x, x) == 0.0 |
| `Operators.Eq` | minitorch/operators.py:30-32 | the result is 0.0 or 1.0, and it is 1.0 exactly when x == y (no tolerance) |
| `Operators.EqReflexive` | minitorch/operators.py:30-32 | eq(x, x) == 1.0 |
| `Operators.EqSymmetric` | minitorch/operators.py:30-32 | eq(x, y) == eq(y, x) |
| `Operators.CompareTrichotomy` | minitorch/operators.py:26-32 | lt(x, y) + eq(x, y) + lt(y, x) == 1.0: exactly one of the three holds |
| `Operators.Max` | minitorch/operators.py:34-36 | the result is at least x and at least y, it equals one of them, and on a tie it is y |
| `Operators.MaxLeastUpperBound` | minitorch/operators.py:34-36 | every common upper bound of x and y is at least max(x, y) |
| `Operators.Abs` | minitorch/operators.py:40 | abs is non-negative and equals x or -x |
| `Operators.IsClose` | minitorch/operators.py:38-40 | true exactly when -0.01 < x - y < 0.01 |
| `Operators.IsCloseSymmetric` | minitorch/operators.py:38-40 | is_close(x, y) == is_close(y, x) |
| `Operators.IsCloseReflexive` | minitorch/operators.py:38-40 | is_close(x, x) |
| `Operators.IsCloseBoundaryExcluded` | minitorch/operators.py:38-40 | two values exactly 0.01 apart are not close, in either order |
| `Operators.IsCloseExamples` | minitorch/operators.py:38-40 | is_close(1.0, 1.009) holds and is_close(1.0, 1.02) does not |
| `Operators.Relu` | minitorch/operators.py:49-50 | relu(x) >= 0, relu(x) >= x, and relu(x) is 0.0 or x |
| `Operators.ReluPositivePart` | minitorch/operators.py:49-50 | relu(x) == x when x > 0, relu(x) == 0.0 otherwise, and relu(x) - relu(-x) == x |
| `Operators.Div` | minitorch/operators.py:60-67 | Python's `/` raises ZeroDivisionError exactly when the divisor is zero, and otherwise quotient * divisor == dividend |
| `Operators.LogBack` | minitorch/operators.py:52-61 | raises exactly when x + EPS == 0 (EPS = 0.000001), and otherwise result * (x + EPS) == d |
| `Operators.Inv` | minitorch/operators.py:63-64 | raises exactly when x == 0, and otherwise inv(x) * x == 1 |
| `Operators.InvInvolutive` | minitorch/operators.py:63-64 | for x != 0, inv(inv(x)) == x |
| `Operators.Square` | minitorch/operators.py:67 | the divisor x ** 2 of inv_back, as x * x (see SquareZero) |
| `Operators.SquareZero` | minitorch/operators.py:67 | the divisor x ** 2 is zero exactly when x is zero |
| `Operators.InvBack` | minitorch/operators.py:66-67 | raises exactly when x == 0, and otherwise result * x ** 2 == -d |
| `Operators.InvBackChain` | minitorch/operators.py:63-67 | for x != 0, inv_back(x, d) == mul(mul(neg(d), inv(x)), inv(x)), the chain rule for 1 / x |
| `Operators.ReluBack` | minitorch/operators.py:69-70 | returns d when x > 0 and 0.0 otherwise, so the gradient at x == 0 is 0 |
| `Operators.ReluBackIsSlope` | minitorch/operators.py:49-70 | relu_back(x, d) == d * relu_back(x, 1.0), and relu_back(x, 1.0) * x == relu(x): relu_back is the slope of relu at x |
| `Operators.Map` | minitorch/operators.py:74-77 | the result has the length of ls, and element i is fn(ls[i]) |
| `Operators.MapAppend` | minitorch/operators.py:74-77 | map distributes over concatenation |
| `Operators.MapNegExample` | minitorch/operators.py:74-80 | map(neg)([1.0, -2.0, 3.0]) == [-1.0, 2.0, -3.0] |
| `Operators.NegList` | minitorch/operators.py:79-80 | the result has the length of ls, and element i is -ls[i] |
| `Operators.NegListInvolutive` | minitorch/operators.py:79-80 | negList(negList(ls)) == ls |
| `Operators.ZipWith` | minitorch/operators.py:82-85 | the result has length min(len(ls1), len(ls2)), and element i is fn(ls1[i], ls2[i]) |
| `Operators.ZipWithTruncates` | minitorch/operators.py:82-85 | the surplus of the longer input is dropped: only the common-length prefixes matter |
| `Operators.AddLists` | minitorch/operators.py:87-88 | the result has length min(len(ls1), len(ls2)), and element i is ls1[i] + ls2[i] |
| `Operators.AddListsCommutes` | minitorch/operators.py:87-88 | addLists(a, b) == addLists(b, a) |
| `Operators.AddListsExample` | minitorch/operators.py:82-88 | addLists([1, 2, 3], [4, 5]) == [5, 7] |
| `Operators.FoldLeft` | minitorch/operators.py:90-96 | the left fold fn(...fn(fn(start, ls[0]), ls[1])..., ls[n-1]); folding [] gives start (see FoldLeftSnoc, FoldLeftAppend, Reduce) |
| `Operators.FoldLeftSnoc` | minitorch/operators.py:90-96 | folding ls + [x] is fn applied to the fold of ls and x, so reduce(fn, start)(ls + [x]) == fn(reduce(fn, start)(ls), x) together with Reduce's ensures |
| `Operators.FoldLeftAppend` | minitorch/operators.py:90-96 | folding a + b is folding b starting from the fold of a |
| `Operators.Reduce` | minitorch/operators.py:90-96 | the accumulator loop returns the left fold of ls from start |
| `Operators.Sum` | minitorch/operators.py:98-99 | the left fold of Add from 0.0 (see SumEmpty, SumAppend, SumNegList, SumAddLists) |
| `Operators.Prod` | minitorch/operators.py:101-102 | the left fold of Mul from 1.0 (see ProdEmpty, ProdAppend) |
| `Operators.SumEmpty` | minitorch/operators.py:98-99 | sum([]) == 0.0 |
| `Operators.ProdEmpty` | minitorch/operators.py:101-102 | prod([]) == 1.0 |
| `Operators.FoldAddFrom` | minitorch/operators.py:98-99 | folding add from any start s gives s + sum(ls) |
| `Operators.FoldMulFrom` | minitorch/operators.py:101-102 | folding mul from any start s gives s * prod(ls) |
| `Operators.SumAppend` | minitorch/operators.py:98-99 | sum(a + b) == sum(a) + sum(b) |
| `Operators.ProdAppend` | minitorch/operators.py:101-102 | prod(a + b) == prod(a) * prod(b) |
| `Operators.SumNegList` | minitorch/operators.py:79-99 | sum(negList(ls)) == -sum(ls) |
| `Operators.SumAddListsPrefix` | minitorch/operators.py:87-99 | sum(addLists(a, b)) is the sum of the first min(len(a), len(b)) elements of a plus that of b |
| `Operators.SumAddLists` | minitorch/operators.py:87-99 | for len(a) == len(b), sum(addLists(a, b)) == sum(a) + sum(b) |

## Left out

- `sigmoid`, `log` and `exp` (minitorch/operators.py:42-47, 54-58) are not modelled. They call Python's `math` library for transcendental functions. Dafny has no model of these. A declaration without a body would be an uninterpreted function with no properties, and any property stated about it, such as `exp(x) > 0`, would be an axiom nothing checks. Their behaviour that matters (overflow of `math.exp`, and the two branches of `sigmoid` at lines 43-47 that avoid it) is about floating point.
- IEEE-754 double semantics are not modelled: rounding, infinities, NaN and `-0.0` are not part of the model. Every scalar is an exact real. So the tie-break of `max` can only be stated as "returns y"; it has no observable effect on reals. The constants `1e-2` and `1e-6` are the exact reals 0.01 and 0.000001, not their binary approximations.
- Operators.InvBack: `x ** 2` can underflow to 0.0 for a tiny non-zero x, and Python then raises ZeroDivisionError. It can also overflow, and Python then raises OverflowError. Neither can happen on reals, so the model raises only at x == 0.
- Operators.LogBack: on floats, `x + EPS` can round to zero only when x is exactly -EPS, which matches the model. Other float rounding of the quotient is not modelled.
- Python's `Iterable` inputs (generators, one-shot iterators, laziness) are not modelled: every input is a finite `seq`.
- `map`, `zipWith` and `reduce` return closures in the source. Here they take the function and the list together. The float type annotations become generic element types.
- `sum` and `prod` call `reduce` in the source. Here they are defined over the specification fold `FoldLeft`, which `Reduce` is proved to compute, because a Dafny function cannot call a method.
- The source shadows the builtins `map`, `max`, `sum` and `id`. That is only a naming matter, and it has no behaviour to model.
- Operators.Map, Operators.ZipWith, Operators.Reduce: `fn` is a total Dafny function, so an exception raised by `fn` is not propagated. In Python, `map(inv)([1.0, 0.0, 2.0])` raises ZeroDivisionError at the second element and stops. In the model it gives `[Ok(1.0), ZeroDivisionError, Ok(0.5)]`. This loses nothing for `negList`, `addLists`, `sum` or `prod`, whose functions never raise.
