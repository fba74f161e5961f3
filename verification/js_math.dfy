/**
 * The two JavaScript integer operations the application relies on, stated
 * for integral operands and a positive divisor.
 */
module JsMath {

  /** `Math.floor(a / b)`: the largest q with q * b <= a. */
  function FloorDiv(a: int, b: int): (q: int)
    requires b > 0
    ensures q * b <= a < q * b + b
  {
    a / b
  }

  /** `a % b`: the remainder of truncated division, which takes the sign of `a`. */
  function Rem(a: int, b: int): (r: int)
    requires b > 0
    ensures a >= 0 ==> 0 <= r < b
    ensures a < 0 ==> -b < r <= 0
    ensures (a - r) % b == 0
  {
    if a >= 0 then
      RemCongruent(a, b, a / b, a % b);
      a % b
    else
      RemCongruent(a, b, -((-a) / b), -((-a) % b));
      -((-a) % b)
  }

  lemma RemCongruent(a: int, b: int, k: int, r: int)
    requires b > 0 && a == k * b + r
    ensures (a - r) % b == 0
  {
    MultipleMod(k, b);
  }

  /** A multiple of a non-zero integer d is at least d away from zero. */
  lemma ScaleBounds(d: int, b: int)
    requires b > 0
    ensures d >= 1 ==> d * b >= b
    ensures d <= -1 ==> d * b <= -b
  {
  }

  /** Floor division is unique: any q, r with a == q * b + r and 0 <= r < b are Dafny's quotient and remainder. */
  lemma {:induction false} EuclidUnique(a: int, b: int, q: int, r: int)
    requires b > 0 && 0 <= r < b && a == q * b + r
    ensures a / b == q && a % b == r
  {
    var q0, r0 := a / b, a % b;
    assert (q - q0) * b == r0 - r;
    ScaleBounds(q - q0, b);
  }

  lemma MultipleMod(k: int, b: int)
    requires b > 0
    ensures (k * b) % b == 0
  {
    EuclidUnique(k * b, b, k, 0);
  }

  /** For a non-negative dividend the quotient and remainder split `a` exactly. */
  lemma FloorDivRem(a: int, b: int)
    requires a >= 0 && b > 0
    ensures FloorDiv(a, b) * b + Rem(a, b) == a
  {
  }

  /** Any q, r with a == q * b + r and 0 <= r < b are the floor quotient and the remainder. */
  lemma {:induction false} DivUnique(a: int, b: int, q: int, r: int)
    requires b > 0 && 0 <= r < b && a == q * b + r
    ensures FloorDiv(a, b) == q
    ensures a >= 0 ==> Rem(a, b) == r
  {
    EuclidUnique(a, b, q, r);
  }
}
