/** The floating-point library functions the indexes call (`math.log`,
    `math.exp`, `math.sqrt`). Their exact values are not modelled: they are
    carried as arbitrary functions on reals, and the lemmas that need a fact
    about them state it as a precondition. */
module RealMath {

  datatype MathLib = MathLib(ln: real -> real, exp: real -> real, sqrt: real -> real)

  /** `log(x) > 0` for `x > 1`. */
  ghost predicate LnPositiveAbove1(ln: real -> real) {
    forall x :: x > 1.0 ==> ln(x) > 0.0
  }

  /** `exp` is strictly increasing, so `exp(-a * x)` decreases in `x` for `a > 0`. */
  ghost predicate ExpIncreasing(exp: real -> real) {
    forall x, y :: x < y ==> exp(x) < exp(y)
  }

  /** `sqrt` on non-negative arguments: zero at zero, non-negative, monotone,
      and the inverse of squaring. */
  ghost predicate SqrtLaws(sqrt: real -> real) {
    && sqrt(0.0) == 0.0
    && (forall x :: x >= 0.0 ==> sqrt(x) >= 0.0 && sqrt(x) * sqrt(x) == x)
    && (forall x, y :: 0.0 <= x <= y ==> sqrt(x) <= sqrt(y))
  }

  lemma SqrtPositive(sqrt: real -> real, x: real)
    requires SqrtLaws(sqrt) && x > 0.0
    ensures sqrt(x) > 0.0
  {
    assert sqrt(x) >= 0.0 && sqrt(x) * sqrt(x) == x;
  }

  lemma SqrtSquare(sqrt: real -> real, x: real)
    requires SqrtLaws(sqrt) && x >= 0.0
    ensures sqrt(x) * sqrt(x) == x
  {
  }
}
