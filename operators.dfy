/** The core mathematical operators of minitorch: elementary scalar functions,
    the derivative helpers of relu, inv and log, and the higher-order list
    combinators map, zipWith and reduce with the list operations built on them.

    Every scalar is a mathematical `real`: IEEE-754 round-off, infinities and
    NaN are not modelled. A Python float division that raises
    ZeroDivisionError is modelled by the `Result` datatype below. */
module Operators {

  /** Outcome of a Python float division `n / d`: the quotient, or the
      ZeroDivisionError that Python raises when the divisor is zero. */
  datatype Result<T> = Ok(value: T) | ZeroDivisionError

  // ---------------------------------------------------------------------
  // Elementary scalar functions
  // ---------------------------------------------------------------------

  /** x * y */
  function Mul(x: real, y: real): real { x * y }

  /** The identity. */
  function Id(x: real): real { x }

  /** x + y */
  function Add(x: real, y: real): real { x + y }

  /** -x */
  function Neg(x: real): real { -x }

  lemma MulCommutes(x: real, y: real)
    ensures Mul(x, y) == Mul(y, x)
  {
  }

  /** 1.0 is the neutral element of Mul, so it is the start value of Prod. */
  lemma MulNeutral(x: real)
    ensures Mul(x, 1.0) == x && Mul(1.0, x) == x
  {
  }

  lemma AddCommutes(x: real, y: real)
    ensures Add(x, y) == Add(y, x)
  {
  }

  /** 0.0 is the neutral element of Add, so it is the start value of Sum. */
  lemma AddNeutral(x: real)
    ensures Add(x, 0.0) == x && Add(0.0, x) == x
  {
  }

  lemma NegInvolutive(x: real)
    ensures Neg(Neg(x)) == x
  {
  }

  lemma NegIsAdditiveInverse(x: real)
    ensures Add(x, Neg(x)) == 0.0
  {
  }

  /** Strict less-than as a number: 1.0 when x < y, 0.0 otherwise. */
  function Lt(x: real, y: real): (r: real)
    ensures r == 0.0 || r == 1.0
    ensures r == 1.0 <==> x < y
  {
    if x < y then 1.0 else 0.0
  }

  /** Exact equality as a number: 1.0 when x == y, 0.0 otherwise. */
  function Eq(x: real, y: real): (r: real)
    ensures r == 0.0 || r == 1.0
    ensures r == 1.0 <==> x == y
  {
    if x == y then 1.0 else 0.0
  }

  lemma LtIrreflexive(x: real)
    ensures Lt(x, x) == 0.0
  {
  }

  lemma EqReflexive(x: real)
    ensures Eq(x, x) == 1.0
  {
  }

  lemma EqSymmetric(x: real, y: real)
    ensures Eq(x, y) == Eq(y, x)
  {
  }

  /** Exactly one of x < y, x == y and y < x holds. */
  lemma CompareTrichotomy(x: real, y: real)
    ensures Lt(x, y) + Eq(x, y) + Lt(y, x) == 1.0
  {
  }

  /** The larger argument; on a tie the second argument is returned. */
  function Max(x: real, y: real): (r: real)
    ensures r >= x && r >= y
    ensures r == x || r == y
    ensures x == y ==> r == y
  {
    if x > y then x else y
  }

  /** Max is not only an upper bound of its arguments but the least one. */
  lemma MaxLeastUpperBound(x: real, y: real, z: real)
    requires x <= z && y <= z
    ensures Max(x, y) <= z
  {
  }

  /** The absolute tolerance of IsClose. */
  const CloseTolerance: real := 0.01

  /** Python's `abs` on a float. */
  function Abs(x: real): (r: real)
    ensures r >= 0.0
    ensures r == x || r == -x
  {
    if x < 0.0 then -x else x
  }

  /** Whether x and y differ by strictly less than the tolerance. The result
      is a boolean, not a 1.0/0.0 number as for Lt and Eq. */
  function IsClose(x: real, y: real): (r: bool)
    ensures r <==> -CloseTolerance < x - y < CloseTolerance
  {
    Abs(x - y) < CloseTolerance
  }

  lemma IsCloseSymmetric(x: real, y: real)
    ensures IsClose(x, y) == IsClose(y, x)
  {
  }

  lemma IsCloseReflexive(x: real)
    ensures IsClose(x, x)
  {
  }

  /** Two values exactly one tolerance apart are not close. */
  lemma IsCloseBoundaryExcluded(x: real)
    ensures !IsClose(x, x + CloseTolerance) && !IsClose(x + CloseTolerance, x)
  {
  }

  lemma IsCloseExamples()
    ensures IsClose(1.0, 1.009)
    ensures !IsClose(1.0, 1.02)
  {
  }

  /** The rectified linear unit, max(0.0, x). */
  function Relu(x: real): (r: real)
    ensures r >= 0.0 && r >= x
    ensures r == 0.0 || r == x
  {
    Max(0.0, x)
  }

  /** Relu keeps positive inputs and maps every other input to zero, and a
      value is its positive part minus its negative part. */
  lemma ReluPositivePart(x: real)
    ensures x > 0.0 ==> Relu(x) == x
    ensures x <= 0.0 ==> Relu(x) == 0.0
    ensures Relu(x) - Relu(-x) == x
  {
  }

  /** The shift that keeps the logarithm away from zero. */
  const Eps: real := 0.000001

  /** Python's float division `n / dn`: it raises ZeroDivisionError exactly
      when the divisor is zero, and the quotient times the divisor is n. */
  function Div(n: real, dn: real): (r: Result<real>)
    ensures r.ZeroDivisionError? <==> dn == 0.0
    ensures r.Ok? ==> r.value * dn == n
  {
    if dn == 0.0 then ZeroDivisionError else Ok(n / dn)
  }

  /** The derivative of log(x + Eps), times the upstream gradient d. */
  function LogBack(x: real, d: real): (r: Result<real>)
    ensures r.ZeroDivisionError? <==> x == -Eps
    ensures r.Ok? ==> r.value * (x + Eps) == d
  {
    Div(d, x + Eps)
  }

  /** The reciprocal 1 / x. */
  function Inv(x: real): (r: Result<real>)
    ensures r.ZeroDivisionError? <==> x == 0.0
    ensures r.Ok? ==> r.value * x == 1.0
  {
    Div(1.0, x)
  }

  /** Python's `x ** 2`. */
  function Square(x: real): real { x * x }

  lemma SquareOverX(x: real)
    requires x != 0.0
    ensures Square(x) / x == x
  {
  }

  /** A real square is zero exactly at zero. */
  lemma SquareZero(x: real)
    ensures Square(x) == 0.0 <==> x == 0.0
  {
    if x != 0.0 {
      SquareOverX(x);
    }
  }

  /** The derivative of 1 / x, times the upstream gradient d: -d / x ** 2. */
  function InvBack(x: real, d: real): (r: Result<real>)
    ensures r.ZeroDivisionError? <==> x == 0.0
    ensures r.Ok? ==> r.value * Square(x) == -d
  {
    SquareZero(x);
    Div(-d, Square(x))
  }

  /** The reciprocal of the reciprocal is the value itself. */
  lemma InvInvolutive(x: real)
    requires x != 0.0
    ensures Inv(x).Ok? && Inv(Inv(x).value) == Ok(x)
  {
    var v := Inv(x).value;
    assert v * x == 1.0;
    assert v != 0.0;
    assert 1.0 / v == x;
  }

  /** If v is the reciprocal of x and w * x ** 2 == -d, then w == -d * v * v. */
  lemma ReciprocalSquare(x: real, d: real, v: real, w: real)
    requires v * x == 1.0 && w * Square(x) == -d
    ensures w == Mul(Mul(Neg(d), v), v)
  {
  }

  /** InvBack is the chain rule for the reciprocal: -d * inv(x) * inv(x). */
  lemma InvBackChain(x: real, d: real)
    requires x != 0.0
    ensures Inv(x).Ok? && InvBack(x, d) == Ok(Mul(Mul(Neg(d), Inv(x).value), Inv(x).value))
  {
    ReciprocalSquare(x, d, Inv(x).value, InvBack(x, d).value);
  }

  /** The derivative of Relu, times the upstream gradient d. The comparison
      is strict, so the gradient at zero is zero. */
  function ReluBack(x: real, d: real): (r: real)
    ensures x > 0.0 ==> r == d
    ensures x <= 0.0 ==> r == 0.0
  {
    if x > 0.0 then d else 0.0
  }

  /** ReluBack scales d by the slope of Relu at x: Relu is linear on each
      side of zero with slope ReluBack(x, 1.0). */
  lemma ReluBackIsSlope(x: real, d: real)
    ensures ReluBack(x, d) == d * ReluBack(x, 1.0)
    ensures ReluBack(x, 1.0) * x == Relu(x)
  {
  }

  // ---------------------------------------------------------------------
  // Higher-order functions
  // ---------------------------------------------------------------------

  /** fn applied to every element, in order. */
  function Map<T, U>(fn: T -> U, ls: seq<T>): (r: seq<U>)
    ensures |r| == |ls|
    ensures forall i :: 0 <= i < |ls| ==> r[i] == fn(ls[i])
    decreases |ls|
  {
    if ls == [] then [] else [fn(ls[0])] + Map(fn, ls[1..])
  }

  /** fn applied to corresponding pairs; the surplus of the longer input is
      dropped, as Python's `zip` does. */
  function ZipWith<A, B, C>(fn: (A, B) -> C, ls1: seq<A>, ls2: seq<B>): (r: seq<C>)
    ensures |r| == if |ls1| <= |ls2| then |ls1| else |ls2|
    ensures forall i :: 0 <= i < |r| ==> r[i] == fn(ls1[i], ls2[i])
    decreases |ls1|
  {
    if ls1 == [] || ls2 == [] then []
    else [fn(ls1[0], ls2[0])] + ZipWith(fn, ls1[1..], ls2[1..])
  }

  /** The left fold fn(...fn(fn(start, ls[0]), ls[1])..., ls[n-1]),
      written with the accumulator threaded from the front. */
  function FoldLeft<T, A>(fn: (A, T) -> A, start: A, ls: seq<T>): A
    decreases |ls|
  {
    if ls == [] then start else FoldLeft(fn, fn(start, ls[0]), ls[1..])
  }

  /** Folding one more element at the end applies fn once more. */
  lemma {:induction false} FoldLeftSnoc<T, A>(fn: (A, T) -> A, start: A, ls: seq<T>, x: T)
    ensures FoldLeft(fn, start, ls + [x]) == fn(FoldLeft(fn, start, ls), x)
    decreases |ls|
  {
    if ls == [] {
      assert ls + [x] == [x];
      assert [x][1..] == [];
    } else {
      assert (ls + [x])[0] == ls[0];
      assert (ls + [x])[1..] == ls[1..] + [x];
      FoldLeftSnoc(fn, fn(start, ls[0]), ls[1..], x);
    }
  }

  /** Folding a concatenation folds the second part from the first's result. */
  lemma {:induction false} FoldLeftAppend<T, A>(fn: (A, T) -> A, start: A, a: seq<T>, b: seq<T>)
    ensures FoldLeft(fn, start, a + b) == FoldLeft(fn, FoldLeft(fn, start, a), b)
    decreases |a|
  {
    if a == [] {
      assert a + b == b;
    } else {
      assert (a + b)[0] == a[0];
      assert (a + b)[1..] == a[1..] + b;
      FoldLeftAppend(fn, fn(start, a[0]), a[1..], b);
    }
  }

  /** reduce(fn, start) applied to ls: an accumulator updated once per
      element, from left to right. */
  method Reduce<T, A>(fn: (A, T) -> A, start: A, ls: seq<T>) returns (result: A)
    ensures result == FoldLeft(fn, start, ls)
  {
    result := start;
    var i := 0;
    while i < |ls|
      invariant 0 <= i <= |ls|
      invariant result == FoldLeft(fn, start, ls[..i])
    {
      FoldLeftSnoc(fn, start, ls[..i], ls[i]);
      assert ls[..i + 1] == ls[..i] + [ls[i]];
      result := fn(result, ls[i]);
      i := i + 1;
    }
    assert ls[..i] == ls;
  }

  /** Every element negated. */
  function NegList(ls: seq<real>): (r: seq<real>)
    ensures |r| == |ls|
    ensures forall i :: 0 <= i < |ls| ==> r[i] == -ls[i]
  {
    Map(Neg, ls)
  }

  /** Pairwise sums, truncated to the shorter list. */
  function AddLists(ls1: seq<real>, ls2: seq<real>): (r: seq<real>)
    ensures |r| == if |ls1| <= |ls2| then |ls1| else |ls2|
    ensures forall i :: 0 <= i < |r| ==> r[i] == ls1[i] + ls2[i]
  {
    ZipWith(Add, ls1, ls2)
  }

  /** reduce(add, 0.0) */
  function Sum(ls: seq<real>): real {
    FoldLeft(Add, 0.0, ls)
  }

  /** reduce(mul, 1.0) */
  function Prod(ls: seq<real>): real {
    FoldLeft(Mul, 1.0, ls)
  }

  // ---------------------------------------------------------------------
  // Properties of the combinators
  // ---------------------------------------------------------------------

  /** Mapping the identity changes nothing. */
  lemma MapIdentity(ls: seq<real>)
    ensures Map(Id, ls) == ls
  {
  }

  /** Map distributes over concatenation. */
  lemma MapAppend<T, U>(fn: T -> U, a: seq<T>, b: seq<T>)
    ensures Map(fn, a + b) == Map(fn, a) + Map(fn, b)
  {
  }

  lemma MapNegExample()
    ensures Map(Neg, [1.0, -2.0, 3.0]) == [-1.0, 2.0, -3.0]
  {
  }

  /** Negating twice gives the list back. */
  lemma NegListInvolutive(ls: seq<real>)
    ensures NegList(NegList(ls)) == ls
  {
  }

  /** Only the common prefix of the two inputs matters. */
  lemma ZipWithTruncates<A, B, C>(fn: (A, B) -> C, ls1: seq<A>, ls2: seq<B>)
    ensures var m := if |ls1| <= |ls2| then |ls1| else |ls2|;
            ZipWith(fn, ls1, ls2) == ZipWith(fn, ls1[..m], ls2[..m])
  {
  }

  lemma AddListsCommutes(ls1: seq<real>, ls2: seq<real>)
    ensures AddLists(ls1, ls2) == AddLists(ls2, ls1)
  {
  }

  lemma AddListsExample()
    ensures AddLists([1.0, 2.0, 3.0], [4.0, 5.0]) == [5.0, 7.0]
  {
  }

  lemma SumEmpty()
    ensures Sum([]) == 0.0
  {
  }

  lemma ProdEmpty()
    ensures Prod([]) == 1.0
  {
  }

  /** Folding Add from any start adds the start to the sum. */
  lemma {:induction false} FoldAddFrom(s: real, ls: seq<real>)
    ensures FoldLeft(Add, s, ls) == s + Sum(ls)
    decreases |ls|
  {
    if ls != [] {
      FoldAddFrom(s + ls[0], ls[1..]);
      FoldAddFrom(0.0 + ls[0], ls[1..]);
    }
  }

  /** Folding Mul from any start multiplies the start by the product. */
  lemma {:induction false} FoldMulFrom(s: real, ls: seq<real>)
    ensures FoldLeft(Mul, s, ls) == s * Prod(ls)
    decreases |ls|
  {
    if ls != [] {
      FoldMulFrom(s * ls[0], ls[1..]);
      FoldMulFrom(1.0 * ls[0], ls[1..]);
    }
  }

  lemma SumAppend(a: seq<real>, b: seq<real>)
    ensures Sum(a + b) == Sum(a) + Sum(b)
  {
    FoldLeftAppend(Add, 0.0, a, b);
    FoldAddFrom(Sum(a), b);
  }

  lemma ProdAppend(a: seq<real>, b: seq<real>)
    ensures Prod(a + b) == Prod(a) * Prod(b)
  {
    FoldLeftAppend(Mul, 1.0, a, b);
    FoldMulFrom(Prod(a), b);
  }

  /** The sum of the negated list is the negated sum. */
  lemma {:induction false} SumNegList(ls: seq<real>)
    ensures Sum(NegList(ls)) == -Sum(ls)
    decreases |ls|
  {
    if ls != [] {
      var p, x := ls[..|ls| - 1], ls[|ls| - 1];
      assert ls == p + [x];
      assert NegList(ls) == NegList(p) + [-x];
      SumNegList(p);
      FoldLeftSnoc(Add, 0.0, p, x);
      FoldLeftSnoc(Add, 0.0, NegList(p), -x);
    }
  }

  /** The sum of the pairwise sums is the sum of the two sums over the
      common prefix. */
  lemma {:induction false} SumAddListsPrefix(a: seq<real>, b: seq<real>)
    ensures var m := if |a| <= |b| then |a| else |b|;
            Sum(AddLists(a, b)) == Sum(a[..m]) + Sum(b[..m])
    decreases |a|
  {
    var m := if |a| <= |b| then |a| else |b|;
    if m != 0 {
      var a', b' := a[..m - 1], b[..m - 1];
      assert AddLists(a, b) == AddLists(a', b') + [a[m - 1] + b[m - 1]];
      assert a[..m] == a' + [a[m - 1]];
      assert b[..m] == b' + [b[m - 1]];
      assert a'[..m - 1] == a' && b'[..m - 1] == b';
      SumAddListsPrefix(a', b');
      FoldLeftSnoc(Add, 0.0, AddLists(a', b'), a[m - 1] + b[m - 1]);
      FoldLeftSnoc(Add, 0.0, a', a[m - 1]);
      FoldLeftSnoc(Add, 0.0, b', b[m - 1]);
    }
  }

  /** For lists of equal length, the sum of the pairwise sums is the sum of
      the two sums. */
  lemma SumAddLists(a: seq<real>, b: seq<real>)
    requires |a| == |b|
    ensures Sum(AddLists(a, b)) == Sum(a) + Sum(b)
  {
    SumAddListsPrefix(a, b);
    assert a[..|a|] == a && b[..|b|] == b;
  }
}
