# confseq: vectorised interface and quantile confidence bounds

This project models two sequential pieces of the confseq package, which
computes uniform boundaries and confidence sequences.

**The R interface's recycling loops** (`r_package/src/confseq_interface.cpp`).
The exported boundary wrappers (the normal, gamma-exponential,
gamma-Poisson and beta-binomial mixtures, the stitching bounds and the
empirical-process bound) take some vector arguments and some scalar ones.
Each binds its scalar arguments into one scalar `confseq::` boundary
function with `std::bind` and hands it to `mapply2` or `mapply3`. Those
recycle the vectors to the longest one's length, as R's `rep_len` does:
element `i` comes from index `i mod length`. They then apply the function
element by element. `bernoulli_confidence_interval` has its own loop, with
no `std::bind`: it recycles the two count vectors the same way, calls a
function that returns a `(lower, upper)` pair with the scalar arguments
passed directly, and fills two parallel output vectors.
`quantile_ab_p_value` recycles nothing and is not part of this model.

- Module `Recycling` (`recycling.dfy`) holds the value-level meaning:
  - `RepLen` is R's `rep_len`;
  - `Map2` and `Map3` are element-wise maps;
  - `Recycled2` and `Recycled3` are what `mapply2` and `mapply3` return.
- Module `ConfseqInterface` (`confseq_interface.dfy`) holds the loops as
  methods over arrays, each proved against those functions. There is one
  method per exported wrapper. Each wrapper takes the scalar `confseq::`
  function it applies as a parameter, because that code is not part of this
  model.

The source does not report an empty argument next to a non-empty one as a
shape error. `rep_len` would reduce an index modulo zero there, so the model
makes it a precondition: every argument is non-empty, or every argument is
empty. Arguments of different non-zero lengths are recycled without any
complaint, even when one length does not divide the other.

**`quantile_confidence_bound`** (`demo/quantiles.py`). This function sorts a
sample and computes two ranks:

- `floor(t*(p - lower_radius) + 1)` for the lower bound;
- `ceil(t*(p + upper_radius))` for the upper bound.

It returns the order statistics at those ranks. A rank past either end
gives minus or plus infinity instead.

- Module `Sorting` (`sorting.dfy`) models Python's `sorted`. It also defines
  order statistics without reference to sorting: the k-th smallest value has
  fewer than k sample elements strictly below it, and at least k at or below
  it.
- Module `Quantiles` (`quantiles.dfy`) models the function itself, with no
  preconditions. The result is `Bounds(Interval(lower, upper))` or
  `IndexError`, and each bound is `NegInf`, `Finite(x)` or `PosInf`.
  - Python's indexing is modelled exactly (`PyItem`). A lower rank past the
    end raises `IndexError`.
  - An upper rank of 0 or less reads from the end of the list through
    negative indexing. It only raises `IndexError` once the rank is below
    `1 - t`, that is, once the index it reads is below `-t`.
  - `NoIndexErrorIff` says exactly when the function raises.

## Model

| member | source | states |
|---|---|---|
| `Recycling.RepLen` | r_package/src/confseq_interface.cpp:16-17 | recycling a vector to length `n` gives exactly `n` elements |
| `Recycling.RepLenAt` | r_package/src/confseq_interface.cpp:16-17 | element `i` of `rep_len(s, n)` is `s[i mod len(s)]` (R's repeat-and-truncate definition agrees with the cyclic index rule) |
| `Recycling.RepLenOwnLength` | r_package/src/confseq_interface.cpp:16-17 | recycling a vector to its own length returns it unchanged |
| `Recycling.Map2` | r_package/src/confseq_interface.cpp:18-21 | the element-wise map of two equally long vectors has their common length |
| `Recycling.Map3` | r_package/src/confseq_interface.cpp:33-36 | the element-wise map of three equally long vectors has their common length |
| `Recycling.Map2At` | r_package/src/confseq_interface.cpp:19-21 | element `i` of the pairwise map is `fn(xs[i], ys[i])` |
| `Recycling.Map3At` | r_package/src/confseq_interface.cpp:34-36 | element `i` of the three-way map is `fn(xs[i], ys[i], zs[i])` |
| `Recycling.Recycled2` | r_package/src/confseq_interface.cpp:15-22 | `mapply2`'s result has length `max(len(a), len(b))`, so it is empty when both arguments are empty |
| `Recycling.Recycled2At` | r_package/src/confseq_interface.cpp:15-21 | output `i` is `fn(a[i mod len(a)], b[i mod len(b)])`; any output index implies both arguments are non-empty |
| `Recycling.Recycled2Aligned` | r_package/src/confseq_interface.cpp:15-20 | with equal lengths nothing is recycled: the result is the plain pairwise map, `out[i] == fn(a[i], b[i])` |
| `Recycling.Recycled2Scalar` | r_package/src/confseq_interface.cpp:15-20 | a length-one argument `a` is broadcast: `out[i] == fn(a[0], b[i])` for every `i < len(b)` |
| `Recycling.Recycled2Local` | r_package/src/confseq_interface.cpp:19-21 | output `i` depends only on the recycled `i`-th arguments: two argument pairs that agree there give the same output `i` |
| `Recycling.Recycled2UpdateFirst` | r_package/src/confseq_interface.cpp:19-21 | changing element `j` of the first argument changes no output whose index is not `j` modulo its length |
| `Recycling.Recycled3` | r_package/src/confseq_interface.cpp:29-37 | `mapply3`'s result has length `max(len(a), len(b), len(c))` |
| `Recycling.Recycled3At` | r_package/src/confseq_interface.cpp:29-36 | output `i` is `fn(a[i mod len(a)], b[i mod len(b)], c[i mod len(c)])` |
| `Recycling.Recycled3Aligned` | r_package/src/confseq_interface.cpp:29-36 | with three equal lengths the result is the plain three-way map |
| `Recycling.RecycledPairsSplit` | r_package/src/confseq_interface.cpp:276-282 | the first and second components of one pair-valued recycled map equal two separate recycled maps with the projected function |
| `ConfseqInterface.MApply2` | r_package/src/confseq_interface.cpp:12-23 | returns a fresh array of length `max(len(arg1), len(arg2))` with `out[i] == fn(arg1[i mod len(arg1)], arg2[i mod len(arg2)])`, equal to `Recycled2`; both arguments are left unchanged |
| `ConfseqInterface.MApply3` | r_package/src/confseq_interface.cpp:25-38 | the same for three arguments, equal to `Recycled3` |
| `ConfseqInterface.BernoulliConfidenceInterval` | r_package/src/confseq_interface.cpp:267-285 | two fresh, distinct arrays of length `max(len(num_successes), len(num_trials))`; `(lower[i], upper[i])` is the one call's pair on the recycled `i`-th counts with the same `alpha`, `t_opt`, `alpha_opt`; the arrays are the first and second components of `Recycled2`; the inputs are unchanged |
| `ConfseqInterface.NormalLogMixture` | r_package/src/confseq_interface.cpp:53-60 | `out[i] == normal_log_mixture(s[i mod len(s)], v[i mod len(v)], v_opt, alpha_opt, is_one_sided)`, with the scalar parameters the same for every element |
| `ConfseqInterface.NormalMixtureBound` | r_package/src/confseq_interface.cpp:73-80 | `out[i] == normal_mixture_bound(v[..], alpha[..], v_opt, alpha_opt, is_one_sided)` on the recycled `i`-th elements |
| `ConfseqInterface.GammaExponentialLogMixture` | r_package/src/confseq_interface.cpp:89-95 | recycled element-wise call with `v_opt, c, alpha_opt` bound in that order |
| `ConfseqInterface.GammaExponentialMixtureBound` | r_package/src/confseq_interface.cpp:104-110 | recycled element-wise call with `v_opt, c, alpha_opt` bound |
| `ConfseqInterface.GammaPoissonLogMixture` | r_package/src/confseq_interface.cpp:119-125 | recycled element-wise call with `v_opt, c, alpha_opt` bound |
| `ConfseqInterface.GammaPoissonMixtureBound` | r_package/src/confseq_interface.cpp:134-140 | recycled element-wise call with `v_opt, c, alpha_opt` bound |
| `ConfseqInterface.BetaBinomialLogMixture` | r_package/src/confseq_interface.cpp:151-158 | recycled element-wise call with `v_opt, g, h, alpha_opt, is_one_sided` bound |
| `ConfseqInterface.BetaBinomialMixtureBound` | r_package/src/confseq_interface.cpp:167-174 | recycled element-wise call with `v_opt, g, h, alpha_opt, is_one_sided` bound |
| `ConfseqInterface.PolyStitchingBound` | r_package/src/confseq_interface.cpp:186-193 | recycled element-wise call with `v_min, c, s, eta` bound (defaults 0, 1.4, 2) |
| `ConfseqInterface.EmpiricalProcessLilBound` | r_package/src/confseq_interface.cpp:213-219 | recycled element-wise call with `t_min, A` bound (default `A = 0.85`) |
| `ConfseqInterface.DoubleStitchingBound` | r_package/src/confseq_interface.cpp:237-244 | three-way recycled call on `quantile_p, t, alpha` with `t_opt, delta, s, eta` bound |
| `Sorting.Sort` | demo/quantiles.py:6 | `sorted(values)` is in ascending order and is a permutation of `values` |
| `Sorting.SortedUnique` | demo/quantiles.py:6 | two sorted sequences with the same multiset of elements are equal |
| `Sorting.SortPermutationInvariant` | demo/quantiles.py:6 | sorting two permutations of one sample gives the same list |
| `Sorting.SortedIsOrderStatistic` | demo/quantiles.py:6-13 | `sorted(values)[k-1]` is an element of `values` and is the k-th smallest: fewer than `k` values lie below it, and at least `k` lie at or below it |
| `Quantiles.Ceil` | demo/quantiles.py:11 | `math.ceil(x)` is the integer `c` with `x <= c < x + 1` |
| `Quantiles.LowerIndex` | demo/quantiles.py:8 | the lower rank `k` satisfies `k <= t*(p - lower_radius) + 1 < k + 1`, so it is that value's floor |
| `Quantiles.UpperIndex` | demo/quantiles.py:11 | the upper rank `k` satisfies `t*(p + upper_radius) <= k < t*(p + upper_radius) + 1`, so it is that value's ceiling |
| `Quantiles.PyItem` | demo/quantiles.py:10-13 | a Python list item that does not raise is an element of the list |
| `Quantiles.BoundsAtRanks` | demo/quantiles.py:8-13 | reading both bounds off a sorted list at the two ranks yields, when no IndexError occurs, finite bounds that are elements of that list |
| `Quantiles.QuantileConfidenceBound` | demo/quantiles.py:5-14 | every finite bound returned is an element of `values` |
| `Quantiles.LowerIndexInRange` | demo/quantiles.py:8-10 | for `t > 0`, the lower rank is at most `t` exactly when `p - lower_radius < 1` |
| `Quantiles.UpperIndexInRange` | demo/quantiles.py:11-13 | for `t > 0`, the upper rank is at least `1 - t` exactly when `p + upper_radius > -1` |
| `Quantiles.LowerIndexMonotone` | demo/quantiles.py:8 | a larger lower radius never gives a larger lower rank |
| `Quantiles.UpperIndexMonotone` | demo/quantiles.py:11 | a larger upper radius never gives a smaller upper rank |
| `Quantiles.UpperIndexPositive` | demo/quantiles.py:11 | for `t > 0` and `p + upper_radius > 0`, the upper rank is at least 1 |
| `Quantiles.NoIndexErrorIff` | demo/quantiles.py:6-13 | the function returns bounds, rather than raising IndexError, exactly when `values` is non-empty, `p - lower_radius < 1` and `p + upper_radius > -1` |
| `Quantiles.LowerBoundIsOrderStatistic` | demo/quantiles.py:8-10 | the lower bound is `-inf` exactly when `floor(t*(p - lower_radius) + 1) < 1`; otherwise that rank `k` is at most `t` and the bound is `sorted(values)[k-1]`, the k-th smallest value |
| `Quantiles.UpperBoundIsOrderStatistic` | demo/quantiles.py:11-13 | the upper bound is `+inf` exactly when `ceil(t*(p + upper_radius)) > t`; a rank `k` in `1..t` gives `sorted(values)[k-1]`, the k-th smallest value; a rank below 1 gives element `t + k - 1` through negative indexing |
| `Quantiles.PermutationInvariant` | demo/quantiles.py:6-14 | permuting `values` does not change the result |
| `Quantiles.LowerMonotoneInRadius` | demo/quantiles.py:8-10 | a larger lower radius never raises an IndexError that the smaller one did not. It never gives a larger lower bound, and it leaves the upper bound unchanged |
| `Quantiles.UpperMonotoneInRadius` | demo/quantiles.py:11-13 | when `p + upper_radius > 0`, a larger upper radius never gives a smaller upper bound and leaves the lower bound unchanged |
| `Quantiles.UpperRankZeroWraps` | demo/quantiles.py:11-13 | on `[1, 2, 3]` with `p = 0`, upper radius 0 gives upper bound 3, through index -1; upper radius 0.5 gives upper bound 2, so the bound is not monotone when `p + upper_radius <= 0` |
| `Quantiles.BoundsOrdered` | demo/quantiles.py:8-13 | when `t*(lower_radius + upper_radius) >= 1`, the lower bound does not exceed the upper bound |

## Left out

- The scalar `confseq::` functions are not part of this model. Each method takes the one it applies as a function parameter. This covers the normal, gamma-exponential, gamma-Poisson and beta-binomial mixtures, the stitching bounds, the empirical-process bound and the Bernoulli interval inversion. Their source, `uniform_boundaries.h`, is not part of this model, and they are floating-point numerics.
- Every scalar `confseq::` function is a total Dafny function, so the model assumes each call returns a value. In the source, the loops at r_package/src/confseq_interface.cpp:19-21, 34-36 and 276-282 have no `try`/`catch`: a call that throws, such as a domain error on an out-of-range argument, aborts the whole vectorised R call, and no output vector is returned at all. The model does not capture that failure path.
- `quantile_ab_p_value`, `StaticOrderStatistics` and `QuantileABTest` (r_package/src/confseq_interface.cpp:302-313) are not part of this model. Their implementation lives in `uniform_boundaries.h`, which is not part of this model either.
- Rcpp marshalling is left out: `Rcpp::List::create`, the `// [[Rcpp::export]]` attributes, R's copy-on-write sharing of vectors, and the roxygen documentation. The `(lower, upper)` list is returned as two arrays.
- `int n = std::max(...)` narrows R's vector length to a C `int`. Vectors longer than 2^31 - 1 elements are not modelled; lengths are unbounded naturals.
- R's `double` values are `real`. The loops only copy them and hand them to the opaque function, so no rounding arises.
- `fixed_quantile_confidence_bounds` and `uniform_quantile_confidence_bounds` (demo/quantiles.py:16-32) are left out. They only compose `quantile_confidence_bound` with the external `boundaries` module and a float division.
- `setup.py` is build configuration and is left out.
- The quantile model computes `t*(p ± radius)` over exact reals. It does not capture IEEE rounding that could move `floor` or `ceil` across an integer at a rank boundary. It also does not capture NaN or infinite inputs; Python's `sorted` has no defined order with NaN present.
- `Quantiles.UpperMonotoneInRadius` requires `p + upper_radius > 0`, which is weaker than unconditional monotonicity. Below that, the upper rank is 0 or less, and Python's negative indexing reads from the top of the sorted list; `Quantiles.UpperRankZeroWraps` shows the upper bound then falling as the radius grows. With `p` in `(0, 1)` and a non-negative radius, the requirement always holds.
