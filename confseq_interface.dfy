/** The vectorised R interface: each exported function recycles its vector
    arguments to the longest one's length and applies a scalar boundary
    function element by element, with the remaining scalar arguments fixed
    for every element. The scalar `confseq::` functions themselves are not
    part of this model; each method takes the one it applies as a parameter.
    R's numeric vectors are arrays of reals here. */
module ConfseqInterface {
  import opened Recycling

  /** `mapply2`: a fresh vector as long as the longer argument, whose element
      `i` is `fn` of element `i mod length` of each argument. */
  method MApply2(fn: (real, real) -> real, arg1: array<real>, arg2: array<real>)
    returns (out: array<real>)
    requires Recyclable2(arg1[..], arg2[..])
    ensures fresh(out)
    ensures out.Length == Max(arg1.Length, arg2.Length)
    ensures forall i :: 0 <= i < out.Length ==>
      out[i] == fn(arg1[i % arg1.Length], arg2[i % arg2.Length])
    ensures Recyclable2(arg1[..], arg2[..]) && out[..] == Recycled2(fn, arg1[..], arg2[..])
    ensures arg1[..] == old(arg1[..]) && arg2[..] == old(arg2[..])
  {
    var n := Max(arg1.Length, arg2.Length);
    out := new real[n];
    for i := 0 to n
      invariant forall k :: 0 <= k < i ==> out[k] == fn(arg1[k % arg1.Length], arg2[k % arg2.Length])
    {
      out[i] := fn(arg1[i % arg1.Length], arg2[i % arg2.Length]);
    }
    forall k | 0 <= k < n ensures out[k] == Recycled2(fn, arg1[..], arg2[..])[k] {
      Recycled2At(fn, arg1[..], arg2[..], k);
    }
  }

  /** `mapply3`: the same with three argument vectors. */
  method MApply3(fn: (real, real, real) -> real, arg1: array<real>, arg2: array<real>, arg3: array<real>)
    returns (out: array<real>)
    requires Recyclable3(arg1[..], arg2[..], arg3[..])
    ensures fresh(out)
    ensures out.Length == Max3(arg1.Length, arg2.Length, arg3.Length)
    ensures forall i :: 0 <= i < out.Length ==>
      out[i] == fn(arg1[i % arg1.Length], arg2[i % arg2.Length], arg3[i % arg3.Length])
    ensures Recyclable3(arg1[..], arg2[..], arg3[..])
    ensures out[..] == Recycled3(fn, arg1[..], arg2[..], arg3[..])
    ensures arg1[..] == old(arg1[..]) && arg2[..] == old(arg2[..]) && arg3[..] == old(arg3[..])
  {
    var n := Max3(arg1.Length, arg2.Length, arg3.Length);
    out := new real[n];
    for i := 0 to n
      invariant forall k :: 0 <= k < i ==>
        out[k] == fn(arg1[k % arg1.Length], arg2[k % arg2.Length], arg3[k % arg3.Length])
    {
      out[i] := fn(arg1[i % arg1.Length], arg2[i % arg2.Length], arg3[i % arg3.Length]);
    }
    forall k | 0 <= k < n ensures out[k] == Recycled3(fn, arg1[..], arg2[..], arg3[..])[k] {
      Recycled3At(fn, arg1[..], arg2[..], arg3[..], k);
    }
  }

  /** `bernoulli_confidence_interval`: one call of `interval` per recycled
      element, its first component stored in `lowerBounds` and its second in
      `upperBounds` at the same index; `alpha`, `tOpt` and `alphaOpt` are the
      same for every element. */
  method BernoulliConfidenceInterval(
      interval: (real, real, real, real, real) -> (real, real),
      numSuccesses: array<real>, numTrials: array<real>,
      alpha: real, tOpt: real, alphaOpt: real := 0.05)
    returns (lowerBounds: array<real>, upperBounds: array<real>)
    requires Recyclable2(numSuccesses[..], numTrials[..])
    ensures fresh(lowerBounds) && fresh(upperBounds) && lowerBounds != upperBounds
    ensures lowerBounds.Length == upperBounds.Length == Max(numSuccesses.Length, numTrials.Length)
    ensures forall i :: 0 <= i < lowerBounds.Length ==>
      (lowerBounds[i], upperBounds[i])
        == interval(numSuccesses[i % numSuccesses.Length], numTrials[i % numTrials.Length],
                    alpha, tOpt, alphaOpt)
    ensures Recyclable2(numSuccesses[..], numTrials[..])
    ensures var pairs := Recycled2((s, t) => interval(s, t, alpha, tOpt, alphaOpt),
                                   numSuccesses[..], numTrials[..]);
      lowerBounds[..] == Firsts(pairs) && upperBounds[..] == Seconds(pairs)
    ensures numSuccesses[..] == old(numSuccesses[..]) && numTrials[..] == old(numTrials[..])
  {
    var n := Max(numSuccesses.Length, numTrials.Length);
    lowerBounds := new real[n];
    upperBounds := new real[n];
    for i := 0 to n
      invariant forall k :: 0 <= k < i ==>
        (lowerBounds[k], upperBounds[k])
          == interval(numSuccesses[k % numSuccesses.Length], numTrials[k % numTrials.Length],
                      alpha, tOpt, alphaOpt)
    {
      var bounds := interval(numSuccesses[i % numSuccesses.Length], numTrials[i % numTrials.Length],
                             alpha, tOpt, alphaOpt);
      lowerBounds[i] := bounds.0;
      upperBounds[i] := bounds.1;
    }
    var fn := (s, t) => interval(s, t, alpha, tOpt, alphaOpt);
    forall k | 0 <= k < n
      ensures lowerBounds[k] == Firsts(Recycled2(fn, numSuccesses[..], numTrials[..]))[k]
      ensures upperBounds[k] == Seconds(Recycled2(fn, numSuccesses[..], numTrials[..]))[k]
    {
      Recycled2At(fn, numSuccesses[..], numTrials[..], k);
    }
  }

  // The exported wrappers. Each binds its scalar parameters, in the order the
  // wrapper passes them, into the scalar function and hands the result to
  // MApply2 or MApply3.

  method NormalLogMixture(
      logMixture: (real, real, real, real, bool) -> real,
      s: array<real>, v: array<real>, vOpt: real, alphaOpt: real := 0.05, isOneSided: bool := true)
    returns (out: array<real>)
    requires Recyclable2(s[..], v[..])
    ensures fresh(out) && out.Length == Max(s.Length, v.Length)
    ensures forall i :: 0 <= i < out.Length ==>
      out[i] == logMixture(s[i % s.Length], v[i % v.Length], vOpt, alphaOpt, isOneSided)
  {
    out := MApply2((x, y) => logMixture(x, y, vOpt, alphaOpt, isOneSided), s, v);
  }

  method NormalMixtureBound(
      mixtureBound: (real, real, real, real, bool) -> real,
      v: array<real>, alpha: array<real>, vOpt: real, alphaOpt: real := 0.05, isOneSided: bool := true)
    returns (out: array<real>)
    requires Recyclable2(v[..], alpha[..])
    ensures fresh(out) && out.Length == Max(v.Length, alpha.Length)
    ensures forall i :: 0 <= i < out.Length ==>
      out[i] == mixtureBound(v[i % v.Length], alpha[i % alpha.Length], vOpt, alphaOpt, isOneSided)
  {
    out := MApply2((x, y) => mixtureBound(x, y, vOpt, alphaOpt, isOneSided), v, alpha);
  }

  method GammaExponentialLogMixture(
      logMixture: (real, real, real, real, real) -> real,
      s: array<real>, v: array<real>, vOpt: real, c: real, alphaOpt: real := 0.05)
    returns (out: array<real>)
    requires Recyclable2(s[..], v[..])
    ensures fresh(out) && out.Length == Max(s.Length, v.Length)
    ensures forall i :: 0 <= i < out.Length ==>
      out[i] == logMixture(s[i % s.Length], v[i % v.Length], vOpt, c, alphaOpt)
  {
    out := MApply2((x, y) => logMixture(x, y, vOpt, c, alphaOpt), s, v);
  }

  method GammaExponentialMixtureBound(
      mixtureBound: (real, real, real, real, real) -> real,
      v: array<real>, alpha: array<real>, vOpt: real, c: real, alphaOpt: real := 0.05)
    returns (out: array<real>)
    requires Recyclable2(v[..], alpha[..])
    ensures fresh(out) && out.Length == Max(v.Length, alpha.Length)
    ensures forall i :: 0 <= i < out.Length ==>
      out[i] == mixtureBound(v[i % v.Length], alpha[i % alpha.Length], vOpt, c, alphaOpt)
  {
    out := MApply2((x, y) => mixtureBound(x, y, vOpt, c, alphaOpt), v, alpha);
  }

  method GammaPoissonLogMixture(
      logMixture: (real, real, real, real, real) -> real,
      s: array<real>, v: array<real>, vOpt: real, c: real, alphaOpt: real := 0.05)
    returns (out: array<real>)
    requires Recyclable2(s[..], v[..])
    ensures fresh(out) && out.Length == Max(s.Length, v.Length)
    ensures forall i :: 0 <= i < out.Length ==>
      out[i] == logMixture(s[i % s.Length], v[i % v.Length], vOpt, c, alphaOpt)
  {
    out := MApply2((x, y) => logMixture(x, y, vOpt, c, alphaOpt), s, v);
  }

  method GammaPoissonMixtureBound(
      mixtureBound: (real, real, real, real, real) -> real,
      v: array<real>, alpha: array<real>, vOpt: real, c: real, alphaOpt: real := 0.05)
    returns (out: array<real>)
    requires Recyclable2(v[..], alpha[..])
    ensures fresh(out) && out.Length == Max(v.Length, alpha.Length)
    ensures forall i :: 0 <= i < out.Length ==>
      out[i] == mixtureBound(v[i % v.Length], alpha[i % alpha.Length], vOpt, c, alphaOpt)
  {
    out := MApply2((x, y) => mixtureBound(x, y, vOpt, c, alphaOpt), v, alpha);
  }

  method BetaBinomialLogMixture(
      logMixture: (real, real, real, real, real, real, bool) -> real,
      s: array<real>, v: array<real>, vOpt: real, g: real, h: real,
      alphaOpt: real := 0.05, isOneSided: bool := true)
    returns (out: array<real>)
    requires Recyclable2(s[..], v[..])
    ensures fresh(out) && out.Length == Max(s.Length, v.Length)
    ensures forall i :: 0 <= i < out.Length ==>
      out[i] == logMixture(s[i % s.Length], v[i % v.Length], vOpt, g, h, alphaOpt, isOneSided)
  {
    out := MApply2((x, y) => logMixture(x, y, vOpt, g, h, alphaOpt, isOneSided), s, v);
  }

  method BetaBinomialMixtureBound(
      mixtureBound: (real, real, real, real, real, real, bool) -> real,
      v: array<real>, alpha: array<real>, vOpt: real, g: real, h: real,
      alphaOpt: real := 0.05, isOneSided: bool := true)
    returns (out: array<real>)
    requires Recyclable2(v[..], alpha[..])
    ensures fresh(out) && out.Length == Max(v.Length, alpha.Length)
    ensures forall i :: 0 <= i < out.Length ==>
      out[i] == mixtureBound(v[i % v.Length], alpha[i % alpha.Length], vOpt, g, h, alphaOpt, isOneSided)
  {
    out := MApply2((x, y) => mixtureBound(x, y, vOpt, g, h, alphaOpt, isOneSided), v, alpha);
  }

  method PolyStitchingBound(
      stitchingBound: (real, real, real, real, real, real) -> real,
      v: array<real>, alpha: array<real>, vMin: real, c: real := 0.0, s: real := 1.4, eta: real := 2.0)
    returns (out: array<real>)
    requires Recyclable2(v[..], alpha[..])
    ensures fresh(out) && out.Length == Max(v.Length, alpha.Length)
    ensures forall i :: 0 <= i < out.Length ==>
      out[i] == stitchingBound(v[i % v.Length], alpha[i % alpha.Length], vMin, c, s, eta)
  {
    out := MApply2((x, y) => stitchingBound(x, y, vMin, c, s, eta), v, alpha);
  }

  method EmpiricalProcessLilBound(
      lilBound: (real, real, real, real) -> real,
      t: array<real>, alpha: array<real>, tMin: real, a: real := 0.85)
    returns (out: array<real>)
    requires Recyclable2(t[..], alpha[..])
    ensures fresh(out) && out.Length == Max(t.Length, alpha.Length)
    ensures forall i :: 0 <= i < out.Length ==>
      out[i] == lilBound(t[i % t.Length], alpha[i % alpha.Length], tMin, a)
  {
    out := MApply2((x, y) => lilBound(x, y, tMin, a), t, alpha);
  }

  method DoubleStitchingBound(
      stitchingBound: (real, real, real, real, real, real, real) -> real,
      quantileP: array<real>, t: array<real>, alpha: array<real>,
      tOpt: real, delta: real := 0.5, s: real := 1.4, eta: real := 2.0)
    returns (out: array<real>)
    requires Recyclable3(quantileP[..], t[..], alpha[..])
    ensures fresh(out) && out.Length == Max3(quantileP.Length, t.Length, alpha.Length)
    ensures forall i :: 0 <= i < out.Length ==>
      out[i] == stitchingBound(quantileP[i % quantileP.Length], t[i % t.Length],
                               alpha[i % alpha.Length], tOpt, delta, s, eta)
  {
    out := MApply3((x, y, z) => stitchingBound(x, y, z, tOpt, delta, s, eta), quantileP, t, alpha);
  }
}
