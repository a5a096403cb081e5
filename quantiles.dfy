/** `quantile_confidence_bound`: a confidence interval for the `p`-quantile
    of a sample, read off the sorted sample at two ranks computed from `p`
    and a lower and an upper radius. Floating-point numbers are reals here;
    Python's `math.floor` is `.Floor` and `math.ceil` is `Ceil` below. */
module Quantiles {
  import opened Sorting

  datatype Option<T> = None | Some(value: T)

  /** One end of a confidence interval: a sample value or an infinity. */
  datatype Bound = NegInf | Finite(value: real) | PosInf

  /** The order on bounds, with the infinities at the ends. */
  predicate BoundLe(a: Bound, b: Bound) {
    a.NegInf? || b.PosInf? || (a.Finite? && b.Finite? && a.value <= b.value)
  }

  datatype Interval = Interval(lower: Bound, upper: Bound)

  /** The function returns the pair of bounds, or raises IndexError when a
      rank indexes outside the sorted list. */
  datatype Outcome = Bounds(interval: Interval) | IndexError

  /** `math.ceil`: the least integer not below `x`. */
  function Ceil(x: real): (c: int)
    ensures x <= c as real < x + 1.0
  {
    -((-x).Floor)
  }

  /** `lower_index = floor(t * (p - lower_radius) + 1)`: the largest integer
      not above `t * (p - lower_radius) + 1`. */
  function LowerIndex(t: nat, p: real, lowerRadius: real): (k: int)
    ensures k as real <= (t as real) * (p - lowerRadius) + 1.0 < k as real + 1.0
  {
    ((t as real) * (p - lowerRadius) + 1.0).Floor
  }

  /** `upper_index = ceil(t * (p + upper_radius))`: the smallest integer not
      below `t * (p + upper_radius)`. */
  function UpperIndex(t: nat, p: real, upperRadius: real): (k: int)
    ensures (t as real) * (p + upperRadius) <= k as real < (t as real) * (p + upperRadius) + 1.0
  {
    Ceil((t as real) * (p + upperRadius))
  }

  /** Python's `xs[k]`: a negative `k` counts from the end; an index outside
      `-|xs| .. |xs| - 1` raises IndexError (None). */
  function PyItem(xs: seq<real>, k: int): (r: Option<real>)
    ensures r.Some? ==> r.value in xs
  {
    if 0 <= k < |xs| then Some(xs[k])
    else if -|xs| <= k < 0 then Some(xs[|xs| + k])
    else None
  }

  function AsFinite(x: Option<real>): Option<Bound> {
    if x.None? then None else Some(Finite(x.value))
  }

  /** The two bounds read off the sorted sample `sortedValues` of size `t`. */
  function BoundsAtRanks(sortedValues: seq<real>, t: nat, p: real, lowerRadius: real, upperRadius: real)
    : (r: Outcome)
    ensures r.Bounds? && r.interval.lower.Finite? ==> r.interval.lower.value in sortedValues
    ensures r.Bounds? && r.interval.upper.Finite? ==> r.interval.upper.value in sortedValues
  {
    var lowerIndex := LowerIndex(t, p, lowerRadius);
    var lower := if lowerIndex < 1 then Some(NegInf) else AsFinite(PyItem(sortedValues, lowerIndex - 1));
    var upperIndex := UpperIndex(t, p, upperRadius);
    var upper := if upperIndex > t then Some(PosInf) else AsFinite(PyItem(sortedValues, upperIndex - 1));
    if lower.None? || upper.None? then IndexError
    else Bounds(Interval(lower.value, upper.value))
  }

  /** `quantile_confidence_bound(values, p, lower_radius, upper_radius)`. */
  function QuantileConfidenceBound(values: seq<real>, p: real, lowerRadius: real, upperRadius: real)
    : (r: Outcome)
    ensures r.Bounds? && r.interval.lower.Finite? ==> r.interval.lower.value in values
    ensures r.Bounds? && r.interval.upper.Finite? ==> r.interval.upper.value in values
  {
    var sortedValues := Sort(values);
    assert forall x :: x in sortedValues ==> x in multiset(values);
    BoundsAtRanks(sortedValues, |values|, p, lowerRadius, upperRadius)
  }

  // Arithmetic facts about the two ranks.

  lemma FloorAtLeast(y: real, n: int)
    ensures y.Floor >= n <==> y >= n as real
  {
  }

  lemma CeilAtMost(y: real, n: int)
    ensures Ceil(y) <= n <==> y <= n as real
  {
  }

  lemma ScaleCompare(t: real, x: real, c: real)
    requires t > 0.0
    ensures t * x >= t * c <==> x >= c
  {
    assert t * x - t * c == t * (x - c);
  }

  lemma ScaleMonotone(t: real, x: real, y: real)
    requires t >= 0.0 && x <= y
    ensures t * x <= t * y
  {
    assert t * y - t * x == t * (y - x);
  }

  /** The lower rank is at most `t` exactly when `p - lower_radius < 1`. */
  lemma LowerIndexInRange(t: nat, p: real, lowerRadius: real)
    requires t > 0
    ensures LowerIndex(t, p, lowerRadius) <= t <==> p - lowerRadius < 1.0
  {
    var tr := t as real;
    var m := tr * (p - lowerRadius);
    FloorAtLeast(m + 1.0, t + 1);
    assert (t + 1) as real == tr + 1.0;
    ScaleCompare(tr, p - lowerRadius, 1.0);
    assert tr * 1.0 == tr;
    assert m + 1.0 >= tr + 1.0 <==> m >= tr;
  }

  /** The upper rank wraps no further than Python's negative indexing
      reaches exactly when `p + upper_radius > -1`. */
  lemma UpperIndexInRange(t: nat, p: real, upperRadius: real)
    requires t > 0
    ensures UpperIndex(t, p, upperRadius) >= 1 - t <==> p + upperRadius > -1.0
  {
    var tr := t as real;
    var m := tr * (p + upperRadius);
    CeilAtMost(m, -(t as int));
    assert (-(t as int)) as real == -tr;
    ScaleCompare(tr, -1.0, p + upperRadius);
    assert tr * -1.0 == -tr;
  }

  /** A larger lower radius never raises the lower rank. */
  lemma LowerIndexMonotone(t: nat, p: real, lowerRadius: real, lowerRadius': real)
    requires lowerRadius <= lowerRadius'
    ensures LowerIndex(t, p, lowerRadius') <= LowerIndex(t, p, lowerRadius)
  {
    var tr := t as real;
    var m, m' := tr * (p - lowerRadius), tr * (p - lowerRadius');
    ScaleMonotone(tr, p - lowerRadius', p - lowerRadius);
    assert m' + 1.0 <= m + 1.0;
  }

  /** A larger upper radius never lowers the upper rank. */
  lemma UpperIndexMonotone(t: nat, p: real, upperRadius: real, upperRadius': real)
    requires upperRadius <= upperRadius'
    ensures UpperIndex(t, p, upperRadius) <= UpperIndex(t, p, upperRadius')
  {
    var tr := t as real;
    var m, m' := tr * (p + upperRadius), tr * (p + upperRadius');
    ScaleMonotone(tr, p + upperRadius, p + upperRadius');
    assert -m' <= -m;
    assert (-m').Floor <= (-m).Floor;
  }

  lemma UpperIndexPositive(t: nat, p: real, upperRadius: real)
    requires t > 0 && p + upperRadius > 0.0
    ensures UpperIndex(t, p, upperRadius) >= 1
  {
    var tr := t as real;
    ScaleCompare(tr, 0.0, p + upperRadius);
    assert tr * 0.0 == 0.0;
    var m := tr * (p + upperRadius);
    assert m > 0.0;
  }

  /** The function raises IndexError exactly when the sample is empty, when
      `p - lower_radius >= 1` (the lower rank passes the end), or when
      `p + upper_radius <= -1` (the upper rank passes even the negative
      indices). */
  lemma NoIndexErrorIff(values: seq<real>, p: real, lowerRadius: real, upperRadius: real)
    ensures QuantileConfidenceBound(values, p, lowerRadius, upperRadius).Bounds?
        <==> |values| > 0 && p - lowerRadius < 1.0 && p + upperRadius > -1.0
  {
    var t := |values|;
    assert |Sort(values)| == |multiset(values)| == t;
    if t == 0 {
      assert LowerIndex(t, p, lowerRadius) == 1;
    } else {
      LowerIndexInRange(t, p, lowerRadius);
      UpperIndexInRange(t, p, upperRadius);
    }
  }

  /** The lower bound is minus infinity exactly when the lower rank is below
      1; otherwise it is the sample's `lower_index`-th smallest value. */
  lemma LowerBoundIsOrderStatistic(values: seq<real>, p: real, lowerRadius: real, upperRadius: real)
    requires QuantileConfidenceBound(values, p, lowerRadius, upperRadius).Bounds?
    ensures var lower := QuantileConfidenceBound(values, p, lowerRadius, upperRadius).interval.lower;
      var k := LowerIndex(|values|, p, lowerRadius);
      && (lower == NegInf <==> k < 1)
      && (k >= 1 ==> k <= |values| && lower.Finite? && lower.value == Sort(values)[k - 1]
                     && IsOrderStatistic(values, k, lower.value))
  {
    var k := LowerIndex(|values|, p, lowerRadius);
    NoIndexErrorIff(values, p, lowerRadius, upperRadius);
    LowerIndexInRange(|values|, p, lowerRadius);
    if k >= 1 {
      SortedIsOrderStatistic(values, k);
    }
  }

  /** The upper bound is plus infinity exactly when the upper rank exceeds
      `t`; for a rank in `1..t` it is the sample's `upper_index`-th smallest
      value, and for a rank below 1 Python's negative indexing picks element
      `t + upper_index - 1` of the sorted sample. */
  lemma UpperBoundIsOrderStatistic(values: seq<real>, p: real, lowerRadius: real, upperRadius: real)
    requires QuantileConfidenceBound(values, p, lowerRadius, upperRadius).Bounds?
    ensures var upper := QuantileConfidenceBound(values, p, lowerRadius, upperRadius).interval.upper;
      var k := UpperIndex(|values|, p, upperRadius);
      && |Sort(values)| == |values|
      && (upper == PosInf <==> k > |values|)
      && (1 <= k <= |values| ==> upper == Finite(Sort(values)[k - 1])
                                 && IsOrderStatistic(values, k, upper.value))
      && (k < 1 ==> 0 <= |values| + k - 1 && upper == Finite(Sort(values)[|values| + k - 1]))
  {
    var k := UpperIndex(|values|, p, upperRadius);
    assert |Sort(values)| == |multiset(values)| == |values|;
    if 1 <= k <= |values| {
      SortedIsOrderStatistic(values, k);
    }
  }

  /** Only the sorted copy is used, so reordering the sample changes
      nothing. */
  lemma PermutationInvariant(values: seq<real>, values': seq<real>, p: real, lowerRadius: real, upperRadius: real)
    requires multiset(values) == multiset(values')
    ensures QuantileConfidenceBound(values, p, lowerRadius, upperRadius)
         == QuantileConfidenceBound(values', p, lowerRadius, upperRadius)
  {
    assert |values| == |multiset(values)| == |multiset(values')| == |values'|;
    SortPermutationInvariant(values, values');
  }

  /** A larger lower radius never gives a larger lower bound, and leaves the
      upper bound as it is. */
  lemma LowerMonotoneInRadius(values: seq<real>, p: real, lowerRadius: real, lowerRadius': real, upperRadius: real)
    requires lowerRadius <= lowerRadius'
    requires QuantileConfidenceBound(values, p, lowerRadius, upperRadius).Bounds?
    ensures QuantileConfidenceBound(values, p, lowerRadius', upperRadius).Bounds?
    ensures BoundLe(QuantileConfidenceBound(values, p, lowerRadius', upperRadius).interval.lower,
                    QuantileConfidenceBound(values, p, lowerRadius, upperRadius).interval.lower)
    ensures QuantileConfidenceBound(values, p, lowerRadius', upperRadius).interval.upper
         == QuantileConfidenceBound(values, p, lowerRadius, upperRadius).interval.upper
  {
    var t := |values|;
    NoIndexErrorIff(values, p, lowerRadius, upperRadius);
    NoIndexErrorIff(values, p, lowerRadius', upperRadius);
    LowerIndexMonotone(t, p, lowerRadius, lowerRadius');
    LowerBoundIsOrderStatistic(values, p, lowerRadius, upperRadius);
    LowerBoundIsOrderStatistic(values, p, lowerRadius', upperRadius);
  }

  /** A larger upper radius never gives a smaller upper bound, and leaves the
      lower bound as it is, provided `p + upper_radius > 0` so that the upper
      rank is at least 1. */
  lemma UpperMonotoneInRadius(values: seq<real>, p: real, lowerRadius: real, upperRadius: real, upperRadius': real)
    requires upperRadius <= upperRadius' && p + upperRadius > 0.0
    requires QuantileConfidenceBound(values, p, lowerRadius, upperRadius).Bounds?
    ensures QuantileConfidenceBound(values, p, lowerRadius, upperRadius').Bounds?
    ensures BoundLe(QuantileConfidenceBound(values, p, lowerRadius, upperRadius).interval.upper,
                    QuantileConfidenceBound(values, p, lowerRadius, upperRadius').interval.upper)
    ensures QuantileConfidenceBound(values, p, lowerRadius, upperRadius').interval.lower
         == QuantileConfidenceBound(values, p, lowerRadius, upperRadius).interval.lower
  {
    var t := |values|;
    NoIndexErrorIff(values, p, lowerRadius, upperRadius);
    NoIndexErrorIff(values, p, lowerRadius, upperRadius');
    UpperIndexMonotone(t, p, upperRadius, upperRadius');
    UpperIndexPositive(t, p, upperRadius);
    UpperBoundIsOrderStatistic(values, p, lowerRadius, upperRadius);
    UpperBoundIsOrderStatistic(values, p, lowerRadius, upperRadius');
  }

  /** Without `p + upper_radius > 0` the upper bound is not monotone in the
      radius: with `p = 0` a zero radius gives upper rank 0, which Python's
      negative indexing turns into the largest value, while radius 0.5 gives
      rank 2 and the second smallest value. */
  lemma UpperRankZeroWraps()
    ensures QuantileConfidenceBound([1.0, 2.0, 3.0], 0.0, 0.0, 0.0) == Bounds(Interval(Finite(1.0), Finite(3.0)))
    ensures QuantileConfidenceBound([1.0, 2.0, 3.0], 0.0, 0.0, 0.5) == Bounds(Interval(Finite(1.0), Finite(2.0)))
  {
    SortOneTwoThree();
  }

  lemma SortOneTwoThree()
    ensures Sort([1.0, 2.0, 3.0]) == [1.0, 2.0, 3.0]
  {
  }

  /** When the two radii together cover at least one sample step
      (`t * (lower_radius + upper_radius) >= 1`), the lower rank does not
      exceed the upper rank and the interval is not inverted. */
  lemma BoundsOrdered(values: seq<real>, p: real, lowerRadius: real, upperRadius: real)
    requires QuantileConfidenceBound(values, p, lowerRadius, upperRadius).Bounds?
    requires (|values| as real) * (lowerRadius + upperRadius) >= 1.0
    ensures BoundLe(QuantileConfidenceBound(values, p, lowerRadius, upperRadius).interval.lower,
                    QuantileConfidenceBound(values, p, lowerRadius, upperRadius).interval.upper)
  {
    var t := |values|;
    var lo, hi := LowerIndex(t, p, lowerRadius), UpperIndex(t, p, upperRadius);
    assert (t as real) * (p - lowerRadius) + 1.0 <= (t as real) * (p + upperRadius) by {
      assert (t as real) * (p + upperRadius) - (t as real) * (p - lowerRadius)
          == (t as real) * (lowerRadius + upperRadius);
    }
    assert lo <= hi;
    LowerBoundIsOrderStatistic(values, p, lowerRadius, upperRadius);
    UpperBoundIsOrderStatistic(values, p, lowerRadius, upperRadius);
  }
}
