/**
  Fixed-point money. Every amount is a whole number of cents (kopecks), so
  `round(x, 2)` on an amount becomes rounding a quotient of integers to the
  nearest integer.
 */
module Money {

  function Abs(x: int): (r: nat)
    ensures r == x || r == -x
  {
    if x < 0 then -x else x
  }

  function Max(a: int, b: int): (r: int)
    ensures r >= a && r >= b && (r == a || r == b)
  {
    if a < b then b else a
  }

  function Min(a: int, b: int): (r: int)
    ensures r <= a && r <= b && (r == a || r == b)
  {
    if a < b then a else b
  }

  /** `r` is `n / d` rounded to the nearest integer, a half going to the even neighbour. */
  predicate IsRoundedQuotient(n: int, d: int, r: int)
  {
    2 * Abs(n - r * d) <= d && (2 * Abs(n - r * d) == d ==> r % 2 == 0)
  }

  /**
    The quotient `n / d` rounded half to even: the rule of Python's built-in
    `round` applied to the exact value `n / d`.
   */
  function RoundHalfEven(n: int, d: int): (r: int)
    requires d > 0
    ensures IsRoundedQuotient(n, d, r)
  {
    var q := n / d;
    var m := n % d;
    assert n - q * d == m;
    assert n - (q + 1) * d == m - d;
    if 2 * m < d then q
    else if 2 * m > d then q + 1
    else if q % 2 == 0 then q
    else q + 1
  }

  /** The rounded quotient is unique: RoundHalfEven is the only function meeting its contract. */
  lemma RoundedQuotientIsUnique(n: int, d: int, r1: int, r2: int)
    requires d > 0
    requires IsRoundedQuotient(n, d, r1) && IsRoundedQuotient(n, d, r2)
    ensures r1 == r2
  {
    if r1 <= r2 {
      OrderedQuotientsAgree(n, d, r1, r2);
    } else {
      OrderedQuotientsAgree(n, d, r2, r1);
    }
  }

  lemma OrderedQuotientsAgree(n: int, d: int, lo: int, hi: int)
    requires d > 0 && lo <= hi
    requires IsRoundedQuotient(n, d, lo) && IsRoundedQuotient(n, d, hi)
    ensures lo == hi
  {
    var a, b := n - lo * d, n - hi * d;
    assert a - b == (hi - lo) * d by {
      assert hi * d == lo * d + (hi - lo) * d;
    }
    CloseQuotients(a, b, hi - lo, d);
    if hi - lo == 1 {
      // both are ties, so lo and lo + 1 would both be even
      assert false;
    }
  }

  /** Two candidates within half a divisor of the same value differ by at most one, and by one only at a tie. */
  lemma CloseQuotients(a: int, b: int, t: int, d: int)
    requires d > 0 && t >= 0 && a - b == t * d
    requires 2 * Abs(a) <= d && 2 * Abs(b) <= d
    ensures t <= 1
    ensures t == 1 ==> 2 * Abs(a) == d && 2 * Abs(b) == d
  {
    if t >= 2 {
      MulAtLeast(t, 2, d);
      assert false;
    }
  }

  lemma MulAtLeast(t: int, k: int, d: int)
    requires t >= k && d > 0
    ensures t * d >= k * d
  {
    assert t * d - k * d == (t - k) * d;
  }
}
