/**
 * `Math.round` of a non-negative ratio, in exact integer arithmetic: the
 * nearest integer, halves rounded up.
 */
module Percent {

  /** Math.round(a / n) for a >= 0 and n > 0. */
  function RoundDiv(a: nat, n: nat): (r: nat)
    requires n > 0
    ensures 2 * n * r <= 2 * a + n < 2 * n * (r + 1)
  {
    var q := (2 * a + n) / (2 * n);
    assert 2 * a + n == (2 * n) * q + (2 * a + n) % (2 * n);
    q
  }

  lemma MulLe(k: nat, a: nat, b: nat)
    requires a <= b
    ensures k * a <= k * b
  {
    assert k * b - k * a == k * (b - a);
  }

  /** If `k * r <= x < k * b` then `r < b`. */
  lemma BelowBound(k: nat, r: nat, x: nat, b: nat)
    requires k * r <= x < k * b
    ensures r < b
  {
    if r >= b {
      MulLe(k, b, r);
      assert false;
    }
  }

  /** The rounded quotient is the only value in its rounding window. */
  lemma RoundingUnique(k: nat, x: nat, r: nat, c: nat)
    requires k * r <= x < k * (r + 1)
    requires k * c <= x < k * (c + 1)
    ensures r == c
  {
    BelowBound(k, r, x, c + 1);
    BelowBound(k, c, x, r + 1);
  }

  /** Percent of `done` out of `total`: 0 for an empty list, else Math.round(done / total * 100). */
  function CompletionPercent(done: nat, total: nat): (r: nat)
    ensures total == 0 ==> r == 0
    ensures total > 0 ==> 2 * total * r <= 200 * done + total < 2 * total * (r + 1)
    ensures done <= total ==> r <= 100
    ensures done == total && total > 0 ==> r == 100
    ensures done == 0 ==> r == 0
  {
    if total == 0 then 0
    else
      var r := RoundDiv(100 * done, total);
      var k, x := 2 * total, 200 * done + total;
      assert done <= total ==> r <= 100 by {
        if done <= total {
          MulLe(200, done, total);
          assert x < k * 101;
          BelowBound(k, r, x, 101);
        }
      }
      assert done == total ==> k * 100 <= x < k * 101;
      assert done == total ==> r == 100 by {
        if done == total { RoundingUnique(k, x, r, 100); }
      }
      assert done == 0 ==> r == 0 by {
        if done == 0 { RoundingUnique(k, x, r, 0); }
      }
      r
  }

  /** Unweighted mean of `count` percentages summing to `sum`, rounded; 0 when there are none. */
  function MeanPercent(sum: nat, count: nat): (r: nat)
    requires sum <= 100 * count
    ensures count == 0 ==> r == 0
    ensures count > 0 ==> 2 * count * r <= 2 * sum + count < 2 * count * (r + 1)
    ensures r <= 100
  {
    if count == 0 then 0
    else
      var r := RoundDiv(sum, count);
      BelowBound(2 * count, r, 2 * sum + count, 101);
      r
  }

  /** The sum of a list of non-negative numbers, folded from the left. */
  function Sum(xs: seq<nat>): nat {
    if xs == [] then 0 else Sum(xs[..|xs| - 1]) + xs[|xs| - 1]
  }

  lemma {:induction false} SumBounded(xs: seq<nat>, b: nat)
    requires forall i :: 0 <= i < |xs| ==> xs[i] <= b
    ensures Sum(xs) <= b * |xs|
  {
    if xs != [] {
      var init := xs[..|xs| - 1];
      assert forall i :: 0 <= i < |init| ==> init[i] == xs[i];
      SumBounded(init, b);
      assert b * |xs| == b * |init| + b;
    }
  }

  lemma {:induction false} SumUniform(xs: seq<nat>, p: nat)
    requires forall i :: 0 <= i < |xs| ==> xs[i] == p
    ensures Sum(xs) == p * |xs|
  {
    if xs != [] {
      var init := xs[..|xs| - 1];
      assert forall i :: 0 <= i < |init| ==> init[i] == xs[i];
      SumUniform(init, p);
      assert p * |xs| == p * |init| + p;
    }
  }

  /** The mean of `count` copies of the same percent is that percent. */
  lemma MeanOfUniform(p: nat, count: nat)
    requires p <= 100 && count > 0
    ensures p * count <= 100 * count && MeanPercent(p * count, count) == p
  {
    MulLe(count, p, 100);
    var k := 2 * count;
    var r := MeanPercent(p * count, count);
    assert k * p == 2 * (p * count);
    assert k * (p + 1) == k * p + k;
    RoundingUnique(k, 2 * (p * count) + count, r, p);
  }
}
