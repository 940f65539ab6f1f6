/** Shared vocabulary of the model: an optional value, exact sums and means of
    power samples, and the integer conversions the Python code performs
    implicitly (`int()` on a float truncates toward zero, `math.ceil` of a
    true division). */
module Common {

  /** Python's `None` versus a present value. */
  datatype Option<+T> = None | Some(value: T)

  /** Sum of a sequence of samples, left to right. */
  function Sum(s: seq<real>): real
  {
    if s == [] then 0.0 else Sum(s[..|s| - 1]) + s[|s| - 1]
  }

  /** Arithmetic mean; the caller guarantees a non-empty sequence (Python
      would raise ZeroDivisionError). */
  function Mean(s: seq<real>): real
    requires |s| > 0
  {
    Sum(s) / (|s| as real)
  }

  /** Every sample lies in the closed interval [lo, hi]. */
  predicate AllWithin(s: seq<real>, lo: real, hi: real)
  {
    forall k :: 0 <= k < |s| ==> lo <= s[k] <= hi
  }

  lemma {:induction false} SumWithin(s: seq<real>, lo: real, hi: real)
    requires AllWithin(s, lo, hi)
    ensures (|s| as real) * lo <= Sum(s) <= (|s| as real) * hi
  {
    if s != [] {
      var init := s[..|s| - 1];
      assert AllWithin(init, lo, hi) by {
        forall k | 0 <= k < |init| ensures lo <= init[k] <= hi {
          assert init[k] == s[k];
        }
      }
      SumWithin(init, lo, hi);
      assert lo <= s[|s| - 1] <= hi;
      assert (|s| as real) * lo == (|init| as real) * lo + lo;
      assert (|s| as real) * hi == (|init| as real) * hi + hi;
    }
  }

  /** The mean of samples bounded by [lo, hi] is itself bounded by [lo, hi]. */
  lemma MeanWithin(s: seq<real>, lo: real, hi: real)
    requires |s| > 0
    requires AllWithin(s, lo, hi)
    ensures lo <= Mean(s) <= hi
  {
    SumWithin(s, lo, hi);
    var n := |s| as real;
    assert n * lo <= Sum(s) <= n * hi;
    assert lo == (n * lo) / n;
    assert hi == (n * hi) / n;
  }

  /** Python's `int(x)` on a float: truncation toward zero. */
  function Trunc(x: real): (r: int)
    ensures x >= 0.0 ==> 0 <= r && (r as real) <= x < (r as real) + 1.0
    ensures x < 0.0 ==> r <= 0 && (r as real) - 1.0 < x <= (r as real)
  {
    if x >= 0.0 then x.Floor else -((-x).Floor)
  }

  /** `math.ceil(a / b)` for integers with a positive divisor. */
  function CeilDiv(a: int, b: int): (r: int)
    requires b > 0
    ensures a <= r * b < a + b
  {
    -((-a) / b)
  }

  /** `math.ceil(a / b)` is positive exactly when `a` is. */
  lemma CeilDivPositive(a: int, b: int)
    requires b > 0
    ensures CeilDiv(a, b) >= 1 <==> a >= 1
  {
    var r := CeilDiv(a, b);
    if r >= 1 {
      assert (r - 1) * b >= 0;
    } else {
      assert (-r) * b >= 0;
    }
  }

  function MaxReal(a: real, b: real): real
  {
    if a >= b then a else b
  }

  function MinReal(a: real, b: real): real
  {
    if a <= b then a else b
  }

  function MinInt(a: int, b: int): int
  {
    if a <= b then a else b
  }
}
