/** Argument recycling as R's `rep_len` defines it, and the element-wise maps
    that the vectorised R interface builds on it. These value-level
    definitions are the specifications the array loops in `ConfseqInterface`
    are proved against. */
module Recycling {

  function Max(a: int, b: int): int { if a < b then b else a }

  function Max3(a: int, b: int, c: int): int { Max(Max(a, b), c) }

  /** `n` elements can be drawn cyclically from `s`: either `s` is non-empty or
      nothing is drawn. Recycling an empty vector to a positive length would
      reduce an index modulo zero. */
  predicate CanRecycle<A>(s: seq<A>, n: nat) { |s| > 0 || n == 0 }

  /** R's `rep_len(s, n)`: `s` written out end to end as often as needed and
      cut off after `n` elements. */
  function RepLen<A>(s: seq<A>, n: nat): (r: seq<A>)
    requires CanRecycle(s, n)
    ensures |r| == n
    decreases n
  {
    if n == 0 then []
    else if n <= |s| then s[..n]
    else s + RepLen(s, n - |s|)
  }

  lemma {:induction false} MulAtLeast(m: nat, k: int)
    requires k >= 1
    ensures m * k >= m
  {
    if k > 1 {
      MulAtLeast(m, k - 1);
      assert m * k == m * (k - 1) + m;
    }
  }

  /** Euclidean remainder is determined by any decomposition `x == m * q + r`
      with `0 <= r < m`. */
  lemma ModUnique(x: int, m: int, q: int, r: int)
    requires m > 0 && 0 <= r < m && x == m * q + r
    ensures x % m == r
  {
    var q', r' := x / m, x % m;
    assert x == m * q' + r';
    if q' < q {
      MulAtLeast(m, q - q');
    } else if q < q' {
      MulAtLeast(m, q' - q);
    }
  }

  lemma ModShift(i: int, m: int)
    requires 0 < m <= i
    ensures (i - m) % m == i % m
  {
    var q, r := i / m, i % m;
    assert i == m * q + r;
    assert i - m == m * (q - 1) + r;
    ModUnique(i - m, m, q - 1, r);
  }

  /** Element `i` of the recycled vector is element `i mod |s|` of `s`. */
  lemma {:induction false} RepLenAt<A>(s: seq<A>, n: nat, i: nat)
    requires |s| > 0 && i < n
    ensures RepLen(s, n)[i] == s[i % |s|]
    decreases n
  {
    if n <= |s| {
      assert i % |s| == i;
    } else if i < |s| {
      assert i % |s| == i;
    } else {
      RepLenAt(s, n - |s|, i - |s|);
      ModShift(i, |s|);
    }
  }

  /** Recycling a vector to its own length leaves it as it is. */
  lemma RepLenOwnLength<A>(s: seq<A>)
    ensures RepLen(s, |s|) == s
  {
  }

  /** `fn` applied pairwise to two vectors of one length. */
  function Map2<A, B, R>(fn: (A, B) -> R, xs: seq<A>, ys: seq<B>): (r: seq<R>)
    requires |xs| == |ys|
    ensures |r| == |xs|
  {
    if xs == [] then [] else [fn(xs[0], ys[0])] + Map2(fn, xs[1..], ys[1..])
  }

  lemma {:induction false} Map2At<A, B, R>(fn: (A, B) -> R, xs: seq<A>, ys: seq<B>, i: nat)
    requires |xs| == |ys| && i < |xs|
    ensures Map2(fn, xs, ys)[i] == fn(xs[i], ys[i])
  {
    if i > 0 {
      Map2At(fn, xs[1..], ys[1..], i - 1);
    }
  }

  /** `fn` applied element-wise to three vectors of one length. */
  function Map3<A, B, C, R>(fn: (A, B, C) -> R, xs: seq<A>, ys: seq<B>, zs: seq<C>): (r: seq<R>)
    requires |xs| == |ys| == |zs|
    ensures |r| == |xs|
  {
    if xs == [] then [] else [fn(xs[0], ys[0], zs[0])] + Map3(fn, xs[1..], ys[1..], zs[1..])
  }

  lemma {:induction false} Map3At<A, B, C, R>(fn: (A, B, C) -> R, xs: seq<A>, ys: seq<B>, zs: seq<C>, i: nat)
    requires |xs| == |ys| == |zs| && i < |xs|
    ensures Map3(fn, xs, ys, zs)[i] == fn(xs[i], ys[i], zs[i])
  {
    if i > 0 {
      Map3At(fn, xs[1..], ys[1..], zs[1..], i - 1);
    }
  }

  /** Two argument vectors that can be recycled to the longer one's length. */
  predicate Recyclable2<A, B>(a: seq<A>, b: seq<B>) {
    CanRecycle(a, Max(|a|, |b|)) && CanRecycle(b, Max(|a|, |b|))
  }

  predicate Recyclable3<A, B, C>(a: seq<A>, b: seq<B>, c: seq<C>) {
    var n := Max3(|a|, |b|, |c|);
    CanRecycle(a, n) && CanRecycle(b, n) && CanRecycle(c, n)
  }

  /** The vector `mapply2(fn, a, b)` returns: both arguments recycled to the
      longer length, then combined pairwise. */
  function Recycled2<A, B, R>(fn: (A, B) -> R, a: seq<A>, b: seq<B>): (r: seq<R>)
    requires Recyclable2(a, b)
    ensures |r| == Max(|a|, |b|)
  {
    var n := Max(|a|, |b|);
    Map2(fn, RepLen(a, n), RepLen(b, n))
  }

  /** The vector `mapply3(fn, a, b, c)` returns. */
  function Recycled3<A, B, C, R>(fn: (A, B, C) -> R, a: seq<A>, b: seq<B>, c: seq<C>): (r: seq<R>)
    requires Recyclable3(a, b, c)
    ensures |r| == Max3(|a|, |b|, |c|)
  {
    var n := Max3(|a|, |b|, |c|);
    Map3(fn, RepLen(a, n), RepLen(b, n), RepLen(c, n))
  }

  /** Output element `i` is `fn` of the `i mod length`-th element of each argument. */
  lemma Recycled2At<A, B, R>(fn: (A, B) -> R, a: seq<A>, b: seq<B>, i: nat)
    requires Recyclable2(a, b) && i < Max(|a|, |b|)
    ensures |a| > 0 && |b| > 0
    ensures Recycled2(fn, a, b)[i] == fn(a[i % |a|], b[i % |b|])
  {
    var n := Max(|a|, |b|);
    RepLenAt(a, n, i);
    RepLenAt(b, n, i);
    Map2At(fn, RepLen(a, n), RepLen(b, n), i);
  }

  lemma Recycled3At<A, B, C, R>(fn: (A, B, C) -> R, a: seq<A>, b: seq<B>, c: seq<C>, i: nat)
    requires Recyclable3(a, b, c) && i < Max3(|a|, |b|, |c|)
    ensures |a| > 0 && |b| > 0 && |c| > 0
    ensures Recycled3(fn, a, b, c)[i] == fn(a[i % |a|], b[i % |b|], c[i % |c|])
  {
    var n := Max3(|a|, |b|, |c|);
    RepLenAt(a, n, i);
    RepLenAt(b, n, i);
    RepLenAt(c, n, i);
    Map3At(fn, RepLen(a, n), RepLen(b, n), RepLen(c, n), i);
  }

  /** Arguments of equal length are not recycled: the result is the plain
      pairwise map. */
  lemma Recycled2Aligned<A, B, R>(fn: (A, B) -> R, a: seq<A>, b: seq<B>)
    requires |a| == |b|
    ensures Recyclable2(a, b)
    ensures Recycled2(fn, a, b) == Map2(fn, a, b)
    ensures forall i :: 0 <= i < |a| ==> Recycled2(fn, a, b)[i] == fn(a[i], b[i])
  {
    RepLenOwnLength(a);
    RepLenOwnLength(b);
    forall i | 0 <= i < |a| ensures Recycled2(fn, a, b)[i] == fn(a[i], b[i]) {
      Map2At(fn, a, b, i);
    }
  }

  lemma Recycled3Aligned<A, B, C, R>(fn: (A, B, C) -> R, a: seq<A>, b: seq<B>, c: seq<C>)
    requires |a| == |b| == |c|
    ensures Recyclable3(a, b, c)
    ensures Recycled3(fn, a, b, c) == Map3(fn, a, b, c)
    ensures forall i :: 0 <= i < |a| ==> Recycled3(fn, a, b, c)[i] == fn(a[i], b[i], c[i])
  {
    RepLenOwnLength(a);
    RepLenOwnLength(b);
    RepLenOwnLength(c);
    forall i | 0 <= i < |a| ensures Recycled3(fn, a, b, c)[i] == fn(a[i], b[i], c[i]) {
      Map3At(fn, a, b, c, i);
    }
  }

  /** A length-one argument is broadcast: every output element uses its one
      value. */
  lemma Recycled2Scalar<A, B, R>(fn: (A, B) -> R, a: seq<A>, b: seq<B>)
    requires |a| == 1 && |b| > 0
    ensures Recyclable2(a, b)
    ensures |Recycled2(fn, a, b)| == |b|
    ensures forall i :: 0 <= i < |b| ==> Recycled2(fn, a, b)[i] == fn(a[0], b[i])
  {
    assert Max(|a|, |b|) == |b|;
    forall i | 0 <= i < |b| ensures Recycled2(fn, a, b)[i] == fn(a[0], b[i]) {
      Recycled2At(fn, a, b, i);
      assert i % |a| == 0 && i % |b| == i;
    }
  }

  /** Element independence: output `i` depends only on the recycled `i`-th
      arguments, so two argument pairs that agree there give equal outputs at
      `i`, whatever they hold elsewhere. */
  lemma Recycled2Local<A, B, R>(fn: (A, B) -> R, a: seq<A>, b: seq<B>, a': seq<A>, b': seq<B>, i: nat)
    requires Recyclable2(a, b) && |a'| == |a| && |b'| == |b| && i < Max(|a|, |b|)
    requires |a| > 0 && |b| > 0
    requires a[i % |a|] == a'[i % |a|] && b[i % |b|] == b'[i % |b|]
    ensures Recyclable2(a', b')
    ensures Recycled2(fn, a, b)[i] == Recycled2(fn, a', b')[i]
  {
    Recycled2At(fn, a, b, i);
    Recycled2At(fn, a', b', i);
  }

  /** Changing one element of the first argument changes only the outputs
      that recycle it. */
  lemma Recycled2UpdateFirst<A, B, R>(fn: (A, B) -> R, a: seq<A>, b: seq<B>, j: nat, x: A)
    requires Recyclable2(a, b) && j < |a|
    ensures Recyclable2(a[j := x], b)
    ensures forall i :: 0 <= i < Max(|a|, |b|) && i % |a| != j ==>
      Recycled2(fn, a[j := x], b)[i] == Recycled2(fn, a, b)[i]
  {
    forall i | 0 <= i < Max(|a|, |b|) && i % |a| != j
      ensures Recycled2(fn, a[j := x], b)[i] == Recycled2(fn, a, b)[i]
    {
      Recycled2Local(fn, a, b, a[j := x], b, i);
    }
  }

  /** First and second components of a vector of pairs. */
  function Firsts<X, Y>(ps: seq<(X, Y)>): (r: seq<X>)
    ensures |r| == |ps| && forall i :: 0 <= i < |ps| ==> r[i] == ps[i].0
  {
    seq(|ps|, i requires 0 <= i < |ps| => ps[i].0)
  }

  function Seconds<X, Y>(ps: seq<(X, Y)>): (r: seq<Y>)
    ensures |r| == |ps| && forall i :: 0 <= i < |ps| ==> r[i] == ps[i].1
  {
    seq(|ps|, i requires 0 <= i < |ps| => ps[i].1)
  }

  /** Filling two parallel outputs from one pair-valued call per element
      gives the same two vectors as two separate recycled maps with the
      first and the second component of `fn`. */
  lemma RecycledPairsSplit<A, B, X, Y>(fn: (A, B) -> (X, Y), a: seq<A>, b: seq<B>)
    requires Recyclable2(a, b)
    ensures Firsts(Recycled2(fn, a, b)) == Recycled2((x, y) => fn(x, y).0, a, b)
    ensures Seconds(Recycled2(fn, a, b)) == Recycled2((x, y) => fn(x, y).1, a, b)
  {
    var first := (x, y) => fn(x, y).0;
    var second := (x, y) => fn(x, y).1;
    forall i | 0 <= i < Max(|a|, |b|)
      ensures Firsts(Recycled2(fn, a, b))[i] == Recycled2(first, a, b)[i]
      ensures Seconds(Recycled2(fn, a, b))[i] == Recycled2(second, a, b)[i]
    {
      Recycled2At(fn, a, b, i);
      Recycled2At(first, a, b, i);
      Recycled2At(second, a, b, i);
    }
  }
}
