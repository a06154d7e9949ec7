/** The number conversions that the Python code applies to its float values,
    stated over exact reals: `round(x)`, `int(x)` and `round(x, 1)`. */
module Numeric {

  /** The absolute value, as Python's `abs` on an int. */
  function Abs(n: int): (r: nat)
    ensures r == n || r == -n
  {
    if n < 0 then -n else n
  }

  /** Python's `round(x)`: the nearest integer, a tie going to the even neighbour. */
  function RoundHalfEven(r: real): (n: int)
    ensures -0.5 <= r - n as real <= 0.5
    ensures (r - n as real == 0.5 || n as real - r == 0.5) ==> n % 2 == 0
  {
    var f := r.Floor;
    var d := r - f as real;
    if d < 0.5 then f
    else if d > 0.5 then f + 1
    else if f % 2 == 0 then f
    else f + 1
  }

  /** The two properties above single out one integer: any other candidate is the same one. */
  lemma RoundHalfEvenUnique(r: real, m: int)
    requires -0.5 <= r - m as real <= 0.5
    requires (r - m as real == 0.5 || m as real - r == 0.5) ==> m % 2 == 0
    ensures m == RoundHalfEven(r)
  {
  }

  /** Rounding an integral value gives that value back. */
  lemma RoundHalfEvenOfInt(k: int)
    ensures RoundHalfEven(k as real) == k
  {
    RoundHalfEvenUnique(k as real, k);
  }

  /** Rounding a value between two integers stays between them. */
  lemma RoundHalfEvenBetween(r: real, lo: int, hi: int)
    requires lo as real <= r <= hi as real
    ensures lo <= RoundHalfEven(r) <= hi
  {
  }

  /** `int(round((a + b) / 2.0))` lies between a and b. */
  lemma RoundedMidBetween(a: int, b: int)
    ensures var m := RoundHalfEven((a + b) as real / 2.0);
            a <= m <= b || b <= m <= a
  {
    if a <= b {
      RoundHalfEvenBetween((a + b) as real / 2.0, a, b);
    } else {
      RoundHalfEvenBetween((a + b) as real / 2.0, b, a);
    }
  }

  /** Python's `int(x)` on a float: truncation toward zero. */
  function Trunc(r: real): (n: int)
    ensures r >= 0.0 ==> 0 <= n && n as real <= r < n as real + 1.0
    ensures r < 0.0 ==> n <= 0 && n as real - 1.0 < r <= n as real
  {
    if r >= 0.0 then r.Floor else -((-r).Floor)
  }

  /** Truncating an integral value gives that value back. */
  lemma TruncOfInt(k: int)
    ensures Trunc(k as real) == k
  {
  }

  /** Python's `round(x, 1)`: the nearest multiple of one tenth, a tie going to the even tenth. */
  function RoundTenths(r: real): (q: real)
    ensures -0.05 <= r - q <= 0.05
  {
    RoundHalfEven(r * 10.0) as real / 10.0
  }

  /** A half-integer (such as the midpoint of two integers) already has one decimal,
      so rounding it to one decimal is exact. */
  lemma RoundTenthsOfHalf(k: int)
    ensures RoundTenths(k as real / 2.0) == k as real / 2.0
  {
    assert (k as real / 2.0) * 10.0 == (5 * k) as real;
    RoundHalfEvenOfInt(5 * k);
  }

  function Last<T>(s: seq<T>): T
    requires |s| > 0
  {
    s[|s| - 1]
  }

  function Sum(c: seq<int>): int
  {
    if |c| == 0 then 0 else Sum(c[..|c| - 1]) + Last(c)
  }

  function MinOf(c: seq<int>): (m: int)
    requires |c| > 0
    ensures m in c && forall x :: x in c ==> m <= x
  {
    if |c| == 1 then c[0]
    else
      var rest := MinOf(c[..|c| - 1]);
      assert forall x :: x in c ==> x in c[..|c| - 1] || x == Last(c);
      if Last(c) < rest then Last(c) else rest
  }

  function MaxOf(c: seq<int>): (m: int)
    requires |c| > 0
    ensures m in c && forall x :: x in c ==> x <= m
  {
    if |c| == 1 then c[0]
    else
      var rest := MaxOf(c[..|c| - 1]);
      assert forall x :: x in c ==> x in c[..|c| - 1] || x == Last(c);
      if Last(c) > rest then Last(c) else rest
  }

  lemma {:induction false} SumBounds(c: seq<int>, lo: int, hi: int)
    requires forall i :: 0 <= i < |c| ==> lo <= c[i] <= hi
    ensures |c| * lo <= Sum(c) <= |c| * hi
  {
    if |c| > 0 {
      var init := c[..|c| - 1];
      assert forall i :: 0 <= i < |init| ==> init[i] == c[i];
      SumBounds(init, lo, hi);
      assert |c| * lo == |init| * lo + lo && |c| * hi == |init| * hi + hi;
    }
  }

  /** n*a <= s <= n*b with n > 0 puts s / n in [a, b]. */
  lemma MeanBetween(s: int, n: int, a: int, b: int)
    requires n > 0 && n * a <= s <= n * b
    ensures a as real <= s as real / n as real <= b as real
  {
    assert (n * a) as real == n as real * a as real;
    assert (n * b) as real == n as real * b as real;
  }

  /** The rounded mean of a nonempty list lies between its least and greatest members. */
  lemma MeanRoundsBetween(c: seq<int>)
    requires |c| > 0
    ensures MinOf(c) <= RoundHalfEven(Sum(c) as real / |c| as real) <= MaxOf(c)
  {
    var lo, hi := MinOf(c), MaxOf(c);
    assert forall i :: 0 <= i < |c| ==> lo <= c[i] <= hi by {
      forall i | 0 <= i < |c| ensures lo <= c[i] <= hi {
        assert c[i] in c;
      }
    }
    SumBounds(c, lo, hi);
    MeanBetween(Sum(c), |c|, lo, hi);
    RoundHalfEvenBetween(Sum(c) as real / |c| as real, lo, hi);
  }
}
