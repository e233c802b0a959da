/**
 * The descriptive statistics that pandas and numpy compute for the risk
 * metrics, over exact reals: sums and means, sample and population
 * variance, sample covariance, extremes, sorting and numpy's default
 * ("linear") percentile.
 */
module Stats {

  function Sum(s: seq<real>): real
  {
    if s == [] then 0.0 else s[0] + Sum(s[1..])
  }

  lemma {:induction false} SumAppend(a: seq<real>, b: seq<real>)
    ensures Sum(a + b) == Sum(a) + Sum(b)
  {
    if a != [] {
      assert (a + b)[1..] == a[1..] + b;
      SumAppend(a[1..], b);
    } else {
      assert a + b == b;
    }
  }

  function Mean(s: seq<real>): real
    requires |s| > 0
  {
    Sum(s) / |s| as real
  }

  /** Sum of the squared deviations of `s` from `m`. */
  function SqDev(s: seq<real>, m: real): real
  {
    if s == [] then 0.0 else (s[0] - m) * (s[0] - m) + SqDev(s[1..], m)
  }

  /** Sum of the products of paired deviations; pairs are taken by position. */
  function CoDev(x: seq<real>, y: seq<real>, mx: real, my: real): real
    requires |x| == |y|
  {
    if x == [] then 0.0 else (x[0] - mx) * (y[0] - my) + CoDev(x[1..], y[1..], mx, my)
  }

  /**
   * pandas `Series.var()` (the square of `Series.std()`): divisor N-1.
   * It is never negative, and it is 0 exactly for a constant series.
   */
  function SampleVariance(s: seq<real>): (v: real)
    requires |s| >= 2
    ensures v >= 0.0
    ensures v == 0.0 <==> Constant(s)
  {
    SqDevNonNegative(s, Mean(s));
    SqDevAtMeanZeroIffConstant(s);
    SqDev(s, Mean(s)) / (|s| - 1) as real
  }

  /**
   * numpy `var` with its default ddof=0: divisor N. It is never negative,
   * it is 0 exactly for a constant series, and it is the sample variance
   * scaled by (N-1)/N.
   */
  function PopulationVariance(s: seq<real>): (v: real)
    requires |s| >= 1
    ensures v >= 0.0
    ensures v == 0.0 <==> Constant(s)
    ensures |s| >= 2 ==> v * |s| as real == SampleVariance(s) * (|s| - 1) as real
  {
    var d := SqDev(s, Mean(s));
    SqDevNonNegative(s, Mean(s));
    SqDevAtMeanZeroIffConstant(s);
    if |s| >= 2 then
      BothUnscale(d, |s| as real);
      d / |s| as real
    else
      d / |s| as real
  }

  /**
   * Entry [0, 1] of `np.cov(x, y)`: divisor N-1, positional pairing. The
   * covariance of a series with itself is its sample variance.
   */
  function SampleCovariance(x: seq<real>, y: seq<real>): (c: real)
    requires |x| == |y| >= 2
    ensures x == y ==> c == SampleVariance(x)
  {
    CoDevSelf(x, Mean(x));
    CoDev(x, y, Mean(x), Mean(y)) / (|x| - 1) as real
  }

  /** The covariance does not depend on the order of its two series. */
  lemma {:induction false} CovarianceSymmetric(x: seq<real>, y: seq<real>)
    requires |x| == |y| >= 2
    ensures SampleCovariance(x, y) == SampleCovariance(y, x)
  {
    CoDevSwap(x, y, Mean(x), Mean(y));
  }

  /** Every element of `s` less `c` (a pandas Series minus a scalar). */
  function Shift(s: seq<real>, c: real): seq<real>
  {
    seq(|s|, i requires 0 <= i < |s| => s[i] - c)
  }

  ghost predicate Constant(s: seq<real>)
  {
    forall i, j :: 0 <= i < |s| && 0 <= j < |s| ==> s[i] == s[j]
  }

  ghost predicate Positive(s: seq<real>)
  {
    forall i :: 0 <= i < |s| ==> s[i] > 0.0
  }

  ghost predicate SortedAsc(s: seq<real>)
  {
    forall i, j :: 0 <= i <= j < |s| ==> s[i] <= s[j]
  }

  // ---------------------------------------------------------------------
  // Arithmetic facts the solver does not find unaided

  lemma {:induction false} ProductNonNegative(a: real, b: real)
    requires a >= 0.0 && b >= 0.0
    ensures a * b >= 0.0
  {
  }

  lemma {:induction false} ProductPositive(a: real, b: real, p: real)
    requires a > 0.0 && b > 0.0 && p == a * b
    ensures p > 0.0
  {
  }

  lemma {:induction false} SquareNonNegative(d: real)
    ensures d * d >= 0.0
  {
    if d >= 0.0 {
      ProductNonNegative(d, d);
    } else {
      ProductNonNegative(-d, -d);
    }
  }

  lemma {:induction false} SquareZero(d: real, sq: real)
    requires sq == d * d && sq == 0.0
    ensures d == 0.0
  {
    if d > 0.0 {
      ProductPositive(d, d, sq);
    } else if d < 0.0 {
      ProductPositive(-d, -d, sq);
    }
  }

  lemma {:induction false} SquareOfProduct(a: real, b: real)
    ensures (a * b) * (a * b) == (a * a) * (b * b)
  {
  }

  /** b * (mu / a) for positive a and b: its sign is the sign of mu. */
  lemma {:induction false} ScaledRatio(b: real, mu: real, a: real)
    requires a > 0.0 && b > 0.0
    ensures (b * (mu / a)) * a == b * mu
    ensures b * (mu / a) > 0.0 <==> mu > 0.0
    ensures b * (mu / a) == 0.0 <==> mu == 0.0
  {
    var q := mu / a;
    assert q * a == mu;
    if q > 0.0 {
      ProductPositive(b, q, b * q);
      ProductPositive(q, a, mu);
    }
    if q < 0.0 {
      ProductPositive(b, -q, b * -q);
      ProductPositive(-q, a, -mu);
    }
  }

  /** The ratio of a sample (N-1) to a population (N) statistic of the same sum. */
  lemma {:induction false} SampleOverPopulation(d: real, n: real)
    requires d != 0.0 && n > 1.0
    ensures (d / (n - 1.0)) / (d / n) == n / (n - 1.0)
  {
  }

  /** Dividing by a non-zero number and multiplying back is the identity. */
  lemma {:induction false} Unscale(total: real, d: real)
    requires d != 0.0
    ensures total / d * d == total
  {
  }

  /** The same total over n and over n - 1, each multiplied back. */
  lemma {:induction false} BothUnscale(total: real, n: real)
    requires n > 1.0
    ensures total / n * n == total / (n - 1.0) * (n - 1.0)
  {
    Unscale(total, n);
    Unscale(total, n - 1.0);
  }

  lemma {:induction false} DivideOut(a: real, b: real, g: real)
    requires b != 0.0 && a == b * g
    ensures a / b == g
  {
  }

  /** A fraction `t` in [0, 1) of a non-negative `d` lies in [0, d]. */
  lemma {:induction false} FractionWithin(t: real, d: real)
    requires 0.0 <= t < 1.0 && d >= 0.0
    ensures 0.0 <= t * d <= d
  {
    ProductNonNegative(1.0 - t, d);
  }

  /** The percentile position (n * q / 100) lies in [0, n]. */
  lemma {:induction false} PositionWithin(n: real, q: real)
    requires n >= 0.0 && 0.0 <= q <= 100.0
    ensures 0.0 <= n * q / 100.0 <= n
  {
    ProductNonNegative(n, 100.0 - q);
    ProductNonNegative(n, q);
  }

  // ---------------------------------------------------------------------
  // Deviations, variance and shifting

  lemma {:induction false} SqDevNonNegative(s: seq<real>, m: real)
    ensures SqDev(s, m) >= 0.0
  {
    if s != [] {
      SquareNonNegative(s[0] - m);
      SqDevNonNegative(s[1..], m);
    }
  }

  /** The squared deviations vanish exactly when every element equals `m`. */
  lemma {:induction false} SqDevZero(s: seq<real>, m: real)
    ensures SqDev(s, m) == 0.0 <==> forall i :: 0 <= i < |s| ==> s[i] == m
  {
    if s != [] {
      var d := s[0] - m;
      var sq := d * d;
      SqDevZero(s[1..], m);
      SqDevNonNegative(s[1..], m);
      SquareNonNegative(d);
      if sq == 0.0 {
        SquareZero(d, sq);
      }
      if forall i :: 0 <= i < |s| ==> s[i] == m {
        assert forall i :: 0 <= i < |s[1..]| ==> s[1..][i] == m by {
          forall i | 0 <= i < |s[1..]| ensures s[1..][i] == m {
            assert s[1..][i] == s[i + 1];
          }
        }
      }
      if SqDev(s, m) == 0.0 {
        forall i | 0 <= i < |s| ensures s[i] == m {
          if i > 0 {
            assert s[i] == s[1..][i - 1];
          }
        }
      }
    }
  }

  lemma {:induction false} SumConstant(s: seq<real>, c: real)
    requires forall i :: 0 <= i < |s| ==> s[i] == c
    ensures Sum(s) == |s| as real * c
  {
    if s != [] {
      assert forall i :: 0 <= i < |s[1..]| ==> s[1..][i] == s[i + 1];
      SumConstant(s[1..], c);
    }
  }

  /** A series deviates from its own mean exactly when it is not constant. */
  lemma {:induction false} SqDevAtMeanZeroIffConstant(s: seq<real>)
    requires |s| >= 1
    ensures SqDev(s, Mean(s)) == 0.0 <==> Constant(s)
  {
    SqDevZero(s, Mean(s));
    if Constant(s) {
      assert forall i :: 0 <= i < |s| ==> s[i] == s[0];
      SumConstant(s, s[0]);
      assert Mean(s) == s[0];
    }
  }

  lemma {:induction false} SumShift(s: seq<real>, c: real)
    ensures Sum(Shift(s, c)) == Sum(s) - |s| as real * c
  {
    if s != [] {
      assert Shift(s, c)[1..] == Shift(s[1..], c);
      SumShift(s[1..], c);
    }
  }

  /** Subtracting a constant from every element lowers the mean by that constant. */
  lemma {:induction false} MeanShift(s: seq<real>, c: real)
    requires |s| > 0
    ensures Mean(Shift(s, c)) == Mean(s) - c
  {
    var n := |s| as real;
    SumShift(s, c);
    calc {
      Mean(Shift(s, c));
      (Sum(s) - n * c) / n;
      Sum(s) / n - (n * c) / n;
      Mean(s) - c;
    }
  }

  lemma {:induction false} SqDevShift(s: seq<real>, c: real, m: real)
    ensures SqDev(Shift(s, c), m - c) == SqDev(s, m)
  {
    if s != [] {
      assert Shift(s, c)[1..] == Shift(s[1..], c);
      SqDevShift(s[1..], c, m);
    }
  }

  /** Subtracting a constant from every element leaves the sample variance unchanged. */
  lemma {:induction false} SampleVarianceShift(s: seq<real>, c: real)
    requires |s| >= 2
    ensures SampleVariance(Shift(s, c)) == SampleVariance(s)
  {
    MeanShift(s, c);
    SqDevShift(s, c, Mean(s));
  }

  lemma {:induction false} CoDevSelf(x: seq<real>, m: real)
    ensures CoDev(x, x, m, m) == SqDev(x, m)
  {
    if x != [] {
      CoDevSelf(x[1..], m);
    }
  }

  lemma {:induction false} CoDevSwap(x: seq<real>, y: seq<real>, mx: real, my: real)
    requires |x| == |y|
    ensures CoDev(x, y, mx, my) == CoDev(y, x, my, mx)
  {
    if x != [] {
      CoDevSwap(x[1..], y[1..], mx, my);
    }
  }

  // ---------------------------------------------------------------------
  // Extremes

  function Max(s: seq<real>): (m: real)
    requires |s| > 0
    ensures forall i :: 0 <= i < |s| ==> s[i] <= m
    ensures exists i :: 0 <= i < |s| && s[i] == m
  {
    if |s| == 1 then s[0]
    else
      var init := s[..|s| - 1];
      var m' := Max(init);
      assert forall i :: 0 <= i < |s| - 1 ==> s[i] == init[i];
      if s[|s| - 1] > m' then s[|s| - 1] else m'
  }

  function Min(s: seq<real>): (m: real)
    requires |s| > 0
    ensures forall i :: 0 <= i < |s| ==> m <= s[i]
    ensures exists i :: 0 <= i < |s| && s[i] == m
  {
    if |s| == 1 then s[0]
    else
      var init := s[..|s| - 1];
      var m' := Min(init);
      assert forall i :: 0 <= i < |s| - 1 ==> s[i] == init[i];
      if s[|s| - 1] < m' then s[|s| - 1] else m'
  }

  // ---------------------------------------------------------------------
  // Sorting and percentiles

  function Insert(x: real, s: seq<real>): (r: seq<real>)
    requires SortedAsc(s)
    ensures SortedAsc(r)
    ensures multiset(r) == multiset(s) + multiset{x}
  {
    if s == [] || x <= s[0] then [x] + s
    else
      var rest := Insert(x, s[1..]);
      assert s == [s[0]] + s[1..];
      InsertedAbove(x, s, rest);
      [s[0]] + rest
  }

  /** Helper for Insert: the head of `s` bounds everything inserted after it. */
  lemma {:induction false} InsertedAbove(x: real, s: seq<real>, rest: seq<real>)
    requires s != [] && SortedAsc(s) && s[0] < x
    requires multiset(rest) == multiset(s[1..]) + multiset{x}
    ensures forall k :: 0 <= k < |rest| ==> s[0] <= rest[k]
  {
    forall k | 0 <= k < |rest| ensures s[0] <= rest[k] {
      assert rest[k] in multiset(rest);
      if rest[k] != x {
        assert rest[k] in multiset(s[1..]);
        var j :| 0 <= j < |s[1..]| && s[1..][j] == rest[k];
        assert s[1..][j] == s[j + 1];
      }
    }
  }

  /** Insertion sort: the ascending arrangement numpy's percentile works on. */
  function Sort(s: seq<real>): (r: seq<real>)
    ensures SortedAsc(r)
    ensures multiset(r) == multiset(s)
    ensures |r| == |s|
  {
    if s == [] then []
    else
      assert s == [s[0]] + s[1..];
      Insert(s[0], Sort(s[1..]))
  }

  /**
   * numpy's default percentile of an already sorted sample: the order
   * statistics at floor(h) and floor(h)+1, h = (n-1)*q/100, linearly
   * interpolated.
   */
  function Interpolate(a: seq<real>, q: real): (r: real)
    requires |a| >= 1 && 0.0 <= q <= 100.0 && SortedAsc(a)
    ensures a[0] <= r <= a[|a| - 1]
    ensures q == 0.0 ==> r == a[0]
    ensures q == 100.0 ==> r == a[|a| - 1]
  {
    var n := |a| - 1;
    var h := n as real * q / 100.0;
    FloorWithin(n, q);
    var lo := h.Floor;
    var t := h - lo as real;
    if lo < n then
      assert a[0] <= a[lo] <= a[lo + 1] <= a[n];
      Lerp(a[lo], a[lo + 1], t)
    else
      assert a[0] <= a[lo];
      a[lo]
  }

  /** The whole part of the position n * q / 100 is an index of [0, n]. */
  lemma {:induction false} FloorWithin(n: nat, q: real)
    requires 0.0 <= q <= 100.0
    ensures var h := n as real * q / 100.0;
      && 0 <= h.Floor <= n
      && h.Floor as real <= h < h.Floor as real + 1.0
      && (q == 0.0 ==> h == 0.0)
      && (q == 100.0 ==> h.Floor == n)
  {
    PositionWithin(n as real, q);
  }

  /** The point a fraction t of the way from x to y. */
  function Lerp(x: real, y: real, t: real): (r: real)
    requires x <= y && 0.0 <= t < 1.0
    ensures x <= r <= y
    ensures t == 0.0 ==> r == x
  {
    var d := y - x;
    FractionWithin(t, d);
    x + t * d
  }

  /**
   * numpy `percentile(s, q)` with the default linear method: between the
   * smallest and the largest element, and equal to them at q = 0 and q = 100.
   */
  function Percentile(s: seq<real>, q: real): (r: real)
    requires |s| >= 1 && 0.0 <= q <= 100.0
    ensures Min(s) <= r <= Max(s)
    ensures q == 0.0 ==> r == Min(s)
    ensures q == 100.0 ==> r == Max(s)
  {
    var a := Sort(s);
    SortedWithin(s, a);
    SortedEnds(s, a);
    Interpolate(a, q)
  }

  /** The ends of the ascending arrangement are the smallest and largest elements. */
  lemma {:induction false} SortedEnds(s: seq<real>, a: seq<real>)
    requires |s| >= 1 && |a| == |s| && multiset(a) == multiset(s) && SortedAsc(a)
    ensures a[0] == Min(s) && a[|a| - 1] == Max(s)
  {
    SortedWithin(s, a);
    var i :| 0 <= i < |s| && s[i] == Min(s);
    var j :| 0 <= j < |s| && s[j] == Max(s);
    assert s[i] in multiset(a) && s[j] in multiset(a);
    var k :| 0 <= k < |a| && a[k] == s[i];
    var l :| 0 <= l < |a| && a[l] == s[j];
  }

  /** A rearrangement of `s` stays between the smallest and largest element of `s`. */
  lemma {:induction false} SortedWithin(s: seq<real>, a: seq<real>)
    requires |s| >= 1 && multiset(a) == multiset(s)
    ensures |a| == |s|
    ensures forall k :: 0 <= k < |a| ==> Min(s) <= a[k] <= Max(s)
  {
    assert |a| == |multiset(a)| == |multiset(s)| == |s|;
    forall k | 0 <= k < |a| ensures Min(s) <= a[k] <= Max(s) {
      assert a[k] in multiset(a);
      assert a[k] in multiset(s);
      var j :| 0 <= j < |s| && s[j] == a[k];
    }
  }

  /** At the position of the k-th order statistic the percentile is that statistic exactly. */
  lemma {:induction false} PercentileAtRank(s: seq<real>, k: nat)
    requires |s| >= 2 && k < |s|
    ensures var q := 100.0 * k as real / (|s| - 1) as real;
      && 0.0 <= q <= 100.0
      && Percentile(s, q) == Sort(s)[k]
  {
    var q := 100.0 * k as real / (|s| - 1) as real;
    RankPosition(|s| - 1, k);
    InterpolateAtRank(Sort(s), q, k);
  }

  /** A larger q never gives a smaller percentile. */
  lemma {:induction false} PercentileMonotone(s: seq<real>, q1: real, q2: real)
    requires |s| >= 1 && 0.0 <= q1 <= q2 <= 100.0
    ensures Percentile(s, q1) <= Percentile(s, q2)
  {
    InterpolateMonotone(Sort(s), q1, q2);
  }

  /** q = 100k/n puts the percentile position n * q / 100 exactly on k. */
  lemma {:induction false} RankPosition(n: nat, k: nat)
    requires 1 <= n && k <= n
    ensures var q := 100.0 * k as real / n as real;
      && 0.0 <= q <= 100.0
      && n as real * q / 100.0 == k as real
  {
    var q := 100.0 * k as real / n as real;
    assert q * n as real == 100.0 * k as real;
    ProductNonNegative(100.0 * k as real, 1.0 / n as real);
    if q > 100.0 {
      ProductPositive(q - 100.0, n as real, (q - 100.0) * n as real);
    }
  }

  /** At a whole-number position k the interpolation returns a[k]. */
  lemma {:induction false} InterpolateAtRank(a: seq<real>, q: real, k: nat)
    requires |a| >= 1 && 0.0 <= q <= 100.0 && SortedAsc(a) && k < |a|
    requires (|a| - 1) as real * q / 100.0 == k as real
    ensures Interpolate(a, q) == a[k]
  {
    assert (k as real).Floor == k;
  }

  lemma {:induction false} InterpolateMonotone(a: seq<real>, q1: real, q2: real)
    requires |a| >= 1 && 0.0 <= q1 <= q2 <= 100.0 && SortedAsc(a)
    ensures Interpolate(a, q1) <= Interpolate(a, q2)
  {
    var n := |a| - 1;
    ProductNonNegative(n as real, q2 - q1);
    assert n as real * q1 / 100.0 <= n as real * q2 / 100.0;
    var lo1, t1 := InterpolateSplit(a, q1);
    var lo2, t2 := InterpolateSplit(a, q2);
    if lo1 == lo2 {
      if lo1 < n {
        LerpMonotone(a[lo1], a[lo1 + 1], t1, t2);
      }
    } else {
      assert a[lo1 + 1] <= a[lo2];
    }
  }

  /**
   * The interpolation at q, split into the whole part `lo` and the
   * fraction `t` of its position.
   */
  lemma {:induction false} InterpolateSplit(a: seq<real>, q: real) returns (lo: nat, t: real)
    requires |a| >= 1 && 0.0 <= q <= 100.0 && SortedAsc(a)
    ensures var h := (|a| - 1) as real * q / 100.0;
      lo as real <= h < lo as real + 1.0 && t == h - lo as real
    ensures lo <= |a| - 1 && 0.0 <= t < 1.0
    ensures lo < |a| - 1 ==> Interpolate(a, q) == Lerp(a[lo], a[lo + 1], t)
    ensures lo == |a| - 1 ==> Interpolate(a, q) == a[lo]
  {
    var n := |a| - 1;
    var h := n as real * q / 100.0;
    FloorWithin(n, q);
    lo := h.Floor;
    t := h - lo as real;
  }

  lemma {:induction false} LerpMonotone(x: real, y: real, t1: real, t2: real)
    requires x <= y && 0.0 <= t1 <= t2 < 1.0
    ensures Lerp(x, y, t1) <= Lerp(x, y, t2)
  {
    ProductNonNegative(t2 - t1, y - x);
  }
}
