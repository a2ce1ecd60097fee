/** Variance, covariance, beta and alpha of return series, and the padded sum of series. */
module Statistics {
  import opened Reals

  /** What a statistic yields: the code throws on series it cannot use, and a division by zero
      leaves no finite number. */
  datatype Figure = Thrown | NotFinite | Value(value: real)

  /** Sum of the products of two series. */
  ghost function Dot(u: seq<real>, v: seq<real>): real
    requires |u| == |v|
  {
    if u == [] then 0.0 else Dot(u[..|u| - 1], v[..|v| - 1]) + Times(u[|u| - 1], v[|v| - 1])
  }

  ghost function Minus(x: seq<real>, c: real): (r: seq<real>)
    ensures |r| == |x| && forall i | 0 <= i < |x| :: r[i] == x[i] - c
  {
    seq(|x|, i requires 0 <= i < |x| => x[i] - c)
  }

  ghost function Deviations(x: seq<real>): (r: seq<real>)
    requires x != []
    ensures |r| == |x|
  {
    Minus(x, Mean(x))
  }

  ghost function Covariance(x: seq<real>, y: seq<real>): real
    requires |x| == |y| > 1
  {
    Dot(Deviations(x), Deviations(y)) / (|x| - 1) as real
  }

  ghost function Variance(x: seq<real>): real
    requires |x| > 1
  {
    Covariance(x, x)
  }

  lemma DotExtends(u: seq<real>, v: seq<real>, i: nat)
    requires i < |u| == |v|
    ensures Dot(u[..i + 1], v[..i + 1]) == Dot(u[..i], v[..i]) + Times(u[i], v[i])
  {
    assert u[..i + 1][..i] == u[..i] && v[..i + 1][..i] == v[..i];
  }

  // ----- the loops

  method MeanOf(s: seq<real>) returns (mean: real)
    requires s != []
    ensures mean == Mean(s)
  {
    var sum := 0.0;
    for i := 0 to |s|
      invariant sum == Sum(s[..i])
    {
      assert s[..i + 1][..i] == s[..i];
      sum := sum + s[i];
    }
    assert s[..|s|] == s;
    mean := sum / |s| as real;
  }

  method CalculateVariance(data: seq<real>) returns (r: Figure)
    ensures r == if |data| < 2 then Thrown else Value(Variance(data))
  {
    if |data| < 2 {
      return Thrown;
    }
    hide Mean, Times;
    var mean := MeanOf(data);
    var variance := 0.0;
    ghost var d := Deviations(data);
    for i := 0 to |data|
      invariant variance == Dot(d[..i], d[..i])
    {
      DotExtends(d, d, i);
      hide Dot;
      variance := variance + Times(data[i] - mean, data[i] - mean);
    }
    assert d[..|data|] == d;
    variance := variance / (|data| - 1) as real;
    r := Value(variance);
  }

  method CalculateCovariance(x: seq<real>, y: seq<real>) returns (r: Figure)
    ensures r == if |x| != |y| || |x| < 2 then Thrown else Value(Covariance(x, y))
  {
    if |x| != |y| || |x| < 2 {
      return Thrown;
    }
    hide Mean, Times;
    var meanX := MeanOf(x);
    var meanY := MeanOf(y);
    var covariance := 0.0;
    ghost var dx, dy := Deviations(x), Deviations(y);
    for i := 0 to |x|
      invariant covariance == Dot(dx[..i], dy[..i])
    {
      DotExtends(dx, dy, i);
      hide Dot;
      covariance := covariance + Times(x[i] - meanX, y[i] - meanY);
    }
    assert dx[..|x|] == dx && dy[..|x|] == dy;
    covariance := covariance / (|x| - 1) as real;
    r := Value(covariance);
  }

  /** The slope of a series against the market. */
  ghost function Beta(x: seq<real>, market: seq<real>): real
    requires |x| == |market| > 1 && Variance(market) != 0.0
  {
    Covariance(x, market) / Variance(market)
  }

  method BetaCalculate(x: seq<real>, market: seq<real>) returns (r: Figure)
    ensures r == if |x| != |market| || |x| < 2 then Thrown
                 else if Variance(market) == 0.0 then NotFinite
                 else Value(Beta(x, market))
  {
    var covariance := CalculateCovariance(x, market);
    if covariance.Thrown? {
      return Thrown;
    }
    var variance := CalculateVariance(market);
    r := if variance.value == 0.0 then NotFinite else Value(covariance.value / variance.value);
  }

  function AlphaCalculate(rp: real, rf: real, rm: real, beta: real): real {
    rp - (rf + (rm - rf) * beta)
  }

  // ----- linear combinations

  /** The series `a * x + y`. */
  ghost function Combine(a: real, x: seq<real>, y: seq<real>): (r: seq<real>)
    requires |x| == |y|
    ensures |r| == |x| && forall i | 0 <= i < |x| :: r[i] == Times(a, x[i]) + y[i]
  {
    seq(|x|, i requires 0 <= i < |x| => Times(a, x[i]) + y[i])
  }

  lemma TimesLaws(a: real, x: real, y: real, z: real)
    ensures Times(x, y) == Times(y, x)
    ensures Times(Times(a, x) + y, z) == Times(a, Times(x, z)) + Times(y, z)
    ensures Times(a, x + y) == Times(a, x) + Times(a, y)
    ensures Times(a, 0.0) == 0.0
    ensures Times(1.0, a) == a
  {
  }

  lemma {:induction false} DotSymmetric(u: seq<real>, v: seq<real>)
    requires |u| == |v|
    ensures Dot(u, v) == Dot(v, u)
  {
    hide Times;
    if u != [] {
      DotSymmetric(u[..|u| - 1], v[..|v| - 1]);
      TimesLaws(0.0, u[|u| - 1], v[|v| - 1], 0.0);
    }
  }

  lemma {:induction false} DotLinear(a: real, u: seq<real>, w: seq<real>, v: seq<real>)
    requires |u| == |w| == |v|
    ensures Dot(Combine(a, u, w), v) == Times(a, Dot(u, v)) + Dot(w, v)
  {
    hide Times;
    TimesLaws(a, 0.0, 0.0, 0.0);
    if u != [] {
      var n := |u| - 1;
      DotLinear(a, u[..n], w[..n], v[..n]);
      assert Combine(a, u, w)[..n] == Combine(a, u[..n], w[..n]);
      TimesLaws(a, u[n], w[n], v[n]);
      TimesLaws(a, Dot(u[..n], v[..n]), Times(u[n], v[n]), 0.0);
    }
  }

  lemma {:induction false} DotNonNegative(u: seq<real>)
    ensures Dot(u, u) >= 0.0
  {
    if u != [] {
      DotNonNegative(u[..|u| - 1]);
      assert Times(u[|u| - 1], u[|u| - 1]) >= 0.0;
    }
  }

  lemma {:induction false} SumLinear(a: real, x: seq<real>, y: seq<real>)
    requires |x| == |y|
    ensures Sum(Combine(a, x, y)) == Times(a, Sum(x)) + Sum(y)
  {
    hide Times;
    TimesLaws(a, 0.0, 0.0, 0.0);
    if x != [] {
      var n := |x| - 1;
      SumLinear(a, x[..n], y[..n]);
      assert Combine(a, x, y)[..n] == Combine(a, x[..n], y[..n]);
      TimesLaws(a, Sum(x[..n]), x[n], 0.0);
    }
  }

  lemma DivideLinear(a: real, p: real, q: real, n: real)
    requires n != 0.0
    ensures (Times(a, p) + q) / n == Times(a, p / n) + q / n
  {
    var x, y := p / n, q / n;
    assert x * n == p && y * n == q;
    assert (a * x + y) * n == a * (x * n) + y * n;
    Quotient(a * x + y, n, a * p + q);
  }

  lemma DeviationsLinear(a: real, x: seq<real>, y: seq<real>)
    requires |x| == |y| > 0
    ensures Deviations(Combine(a, x, y)) == Combine(a, Deviations(x), Deviations(y))
  {
    SumLinear(a, x, y);
    DivideLinear(a, Sum(x), Sum(y), |x| as real);
    assert Mean(Combine(a, x, y)) == Times(a, Mean(x)) + Mean(y);
    forall i | 0 <= i < |x|
      ensures Deviations(Combine(a, x, y))[i] == Combine(a, Deviations(x), Deviations(y))[i]
    {
      TimesLaws(a, x[i] - Mean(x), Mean(x), 0.0);
      hide Times, Mean;
    }
  }

  // ----- the laws of covariance

  lemma CovarianceSymmetric(x: seq<real>, y: seq<real>)
    requires |x| == |y| > 1
    ensures Covariance(x, y) == Covariance(y, x)
  {
    DotSymmetric(Deviations(x), Deviations(y));
  }

  /** Linear in the first series, and so, by symmetry, in the second. */
  lemma CovarianceLinear(a: real, x: seq<real>, y: seq<real>, z: seq<real>)
    requires |x| == |y| == |z| > 1
    ensures Covariance(Combine(a, x, y), z) == Times(a, Covariance(x, z)) + Covariance(y, z)
    ensures Covariance(z, Combine(a, x, y)) == Times(a, Covariance(z, x)) + Covariance(z, y)
  {
    hide Times, Mean, Deviations;
    DeviationsLinear(a, x, y);
    DotLinear(a, Deviations(x), Deviations(y), Deviations(z));
    DivideLinear(a, Dot(Deviations(x), Deviations(z)), Dot(Deviations(y), Deviations(z)), (|x| - 1) as real);
    CovarianceSymmetric(Combine(a, x, y), z);
    CovarianceSymmetric(x, z);
    CovarianceSymmetric(y, z);
  }

  lemma VarianceNonNegative(x: seq<real>)
    requires |x| > 1
    ensures Variance(x) >= 0.0
  {
    DotNonNegative(Deviations(x));
    NonNegativeQuotient(Dot(Deviations(x), Deviations(x)), (|x| - 1) as real);
  }

  lemma NonNegativeQuotient(a: real, n: real)
    requires a >= 0.0 && n > 0.0
    ensures a / n >= 0.0
  {
    assert (a / n) * n == a;
  }

  /** The squared distance of `u` from `t * v`. */
  lemma DotOfDifference(t: real, u: seq<real>, v: seq<real>)
    requires |u| == |v|
    ensures Dot(u, u) - 2.0 * Times(t, Dot(u, v)) + Times(t, Times(t, Dot(v, v))) >= 0.0
  {
    var w := Combine(-t, v, u);
    DotNonNegative(w);
    DotLinear(-t, v, u, w);
    DotSymmetric(v, w);
    DotSymmetric(u, w);
    DotLinear(-t, v, u, v);
    DotLinear(-t, v, u, u);
    DotSymmetric(u, v);
    Expand(t, Dot(u, u), Dot(u, v), Dot(v, v));
    hide Dot, Times;
  }

  lemma Expand(t: real, uu: real, uv: real, vv: real)
    ensures Times(-t, Times(-t, vv) + uv) + (Times(-t, uv) + uu) == uu - 2.0 * Times(t, uv) + Times(t, Times(t, vv))
  {
  }

  /** A quadratic without a sign change has a discriminant that is not positive. */
  lemma Discriminant(uu: real, uv: real, vv: real)
    requires forall t: real :: uu - 2.0 * Times(t, uv) + Times(t, Times(t, vv)) >= 0.0
    requires uu >= 0.0 && vv >= 0.0
    ensures Times(uv, uv) <= Times(uu, vv)
  {
    if vv > 0.0 {
      var t := uv / vv;
      assert t * vv == uv;
      assert uu - 2.0 * Times(t, uv) + Times(t, Times(t, vv)) >= 0.0;
      assert uu - t * uv >= 0.0;
      assert (uu - t * uv) * vv >= 0.0;
      assert (uu - t * uv) * vv == uu * vv - (t * vv) * uv;
    } else if uv != 0.0 {
      LineFalls(uu, uv, (uu + 1.0) / (2.0 * uv));
    }
  }

  lemma LineFalls(uu: real, uv: real, t: real)
    requires uv != 0.0 && t == (uu + 1.0) / (2.0 * uv)
    ensures uu - 2.0 * Times(t, uv) + Times(t, Times(t, 0.0)) < 0.0
  {
    assert t * (2.0 * uv) == uu + 1.0;
  }

  lemma DotCauchySchwarz(u: seq<real>, v: seq<real>)
    requires |u| == |v|
    ensures Times(Dot(u, v), Dot(u, v)) <= Times(Dot(u, u), Dot(v, v))
  {
    hide Times, Dot;
    forall t: real
      ensures Dot(u, u) - 2.0 * Times(t, Dot(u, v)) + Times(t, Times(t, Dot(v, v))) >= 0.0
    {
      DotOfDifference(t, u, v);
    }
    DotNonNegative(u);
    DotNonNegative(v);
    Discriminant(Dot(u, u), Dot(u, v), Dot(v, v));
  }

  lemma LessByScale(p: real, q: real, s: real)
    requires s > 0.0 && Times(p, s) <= Times(q, s)
    ensures p <= q
  {
  }

  lemma StrictTimes(a: real, b: real, x: real)
    requires a < b && 0.0 < x
    ensures Times(a, x) < Times(b, x)
  {
  }

  lemma SquarePositive(n: real)
    requires n > 0.0
    ensures Times(n, n) > 0.0
  {
    StrictTimes(0.0, n, n);
  }

  lemma Regroup(x: real, y: real, n: real)
    ensures Times(Times(x, y), Times(n, n)) == Times(Times(x, n), Times(y, n))
  {
  }

  lemma DivideBoth(a: real, b: real, c: real, n: real)
    requires n > 0.0 && Times(a, a) <= Times(b, c)
    ensures Times(a / n, a / n) <= Times(b / n, c / n)
  {
    var x, y, z := a / n, b / n, c / n;
    assert Times(x, n) == a && Times(y, n) == b && Times(z, n) == c;
    SquarePositive(n);
    Regroup(x, x, n);
    Regroup(y, z, n);
    hide Times;
    LessByScale(Times(x, x), Times(y, z), Times(n, n));
  }

  /** The Cauchy-Schwarz inequality for the sample covariance. */
  lemma CauchySchwarz(x: seq<real>, y: seq<real>)
    requires |x| == |y| > 1
    ensures Times(Covariance(x, y), Covariance(x, y)) <= Times(Variance(x), Variance(y))
  {
    hide Times, Dot, Deviations;
    var u, v := Deviations(x), Deviations(y);
    DotCauchySchwarz(u, v);
    DivideBoth(Dot(u, v), Dot(u, u), Dot(v, v), (|x| - 1) as real);
  }

  // ----- beta and alpha

  lemma BetaLinear(a: real, x: seq<real>, y: seq<real>, market: seq<real>)
    requires |x| == |y| == |market| > 1 && Variance(market) != 0.0
    ensures Beta(Combine(a, x, y), market) == Times(a, Beta(x, market)) + Beta(y, market)
  {
    hide Times, Variance, Covariance;
    CovarianceLinear(a, x, y, market);
    DivideLinear(a, Covariance(x, market), Covariance(y, market), Variance(market));
  }

  /** The market measured against itself has slope one, and then no excess return. */
  lemma MarketAgainstItself(market: seq<real>, rm: real, rf: real)
    requires |market| > 1 && Variance(market) != 0.0
    ensures Beta(market, market) == 1.0
    ensures AlphaCalculate(rm, rf, rm, Beta(market, market)) == 0.0
  {
    hide Covariance;
    Quotient(1.0, Variance(market), Variance(market));
  }

  // ----- the padded sum of series

  ghost function MaxLength(arrays: seq<seq<real>>): nat {
    if arrays == [] then 0
    else
      var rest, last := MaxLength(arrays[..|arrays| - 1]), |arrays[|arrays| - 1]|;
      if last > rest then last else rest
  }

  /** Sum of the entries at index `i`, over the series that have one. */
  ghost function Column(arrays: seq<seq<real>>, i: nat): real {
    if arrays == [] then 0.0
    else
      var last := arrays[|arrays| - 1];
      Column(arrays[..|arrays| - 1], i) + if i < |last| then last[i] else 0.0
  }

  /** Adds series of any lengths, shorter ones padded with zeros.  Called with no series at all,
      the code throws. */
  method AddArrays(arrays: seq<seq<real>>) returns (r: seq<real>)
    requires arrays != []
    ensures |r| == MaxLength(arrays)
    ensures forall i | 0 <= i < |r| :: r[i] == Column(arrays, i)
  {
    var maxLength := 0;
    for k := 0 to |arrays|
      invariant maxLength == MaxLength(arrays[..k])
    {
      assert arrays[..k + 1][..k] == arrays[..k];
      if |arrays[k]| > maxLength {
        maxLength := |arrays[k]|;
      }
    }
    assert arrays[..|arrays|] == arrays;
    var result := new real[maxLength](_ => 0.0);
    for i := 0 to maxLength
      invariant forall j | 0 <= j < i :: result[j] == Column(arrays, j)
      invariant forall j | i <= j < maxLength :: result[j] == 0.0
    {
      for k := 0 to |arrays|
        invariant result[i] == Column(arrays[..k], i)
        invariant forall j | 0 <= j < i :: result[j] == Column(arrays, j)
        invariant forall j | i < j < maxLength :: result[j] == 0.0
      {
        assert arrays[..k + 1][..k] == arrays[..k];
        if i < |arrays[k]| {
          result[i] := result[i] + arrays[k][i];
        }
      }
      assert arrays[..|arrays|] == arrays;
    }
    r := result[..];
  }

  /** All columns of the series. */
  ghost function Columns(arrays: seq<seq<real>>): (r: seq<real>)
    ensures |r| == MaxLength(arrays) && forall i | 0 <= i < |r| :: r[i] == Column(arrays, i)
  {
    seq(MaxLength(arrays), i requires 0 <= i < MaxLength(arrays) => Column(arrays, i))
  }

  lemma {:induction false} ColumnPastEnd(arrays: seq<seq<real>>, i: nat)
    requires i >= MaxLength(arrays)
    ensures Column(arrays, i) == 0.0
  {
    if arrays != [] {
      ColumnPastEnd(arrays[..|arrays| - 1], i);
    }
  }

  /** Adding one series to the padded sum of others is the padded sum of all of them, so adding
      them one at a time, as the emulator does, loses nothing. */
  lemma AddOneMore(arrays: seq<seq<real>>, a: seq<real>)
    ensures Columns([Columns(arrays), a]) == Columns(arrays + [a])
  {
    var pair := [Columns(arrays), a];
    assert pair[..1] == [Columns(arrays)] && pair[..1][..0] == [];
    assert (arrays + [a])[..|arrays|] == arrays;
    assert MaxLength(pair[..1]) == MaxLength(arrays);
    assert MaxLength(pair) == MaxLength(arrays + [a]);
    forall i | 0 <= i < MaxLength(pair)
      ensures Column(pair, i) == Column(arrays + [a], i)
    {
      assert Column(pair[..1], i) == if i < MaxLength(arrays) then Column(arrays, i) else 0.0;
      if i >= MaxLength(arrays) {
        ColumnPastEnd(arrays, i);
      }
    }
  }

  ghost function BetaSum(arrays: seq<seq<real>>, market: seq<real>): real
    requires |market| > 1 && Variance(market) != 0.0
    requires forall k | 0 <= k < |arrays| :: |arrays[k]| == |market|
  {
    if arrays == [] then 0.0
    else BetaSum(arrays[..|arrays| - 1], market) + Beta(arrays[|arrays| - 1], market)
  }

  lemma {:induction false} LengthOfEqual(arrays: seq<seq<real>>, n: nat)
    requires arrays != [] && forall k | 0 <= k < |arrays| :: |arrays[k]| == n
    ensures MaxLength(arrays) == n
  {
    if |arrays| > 1 {
      LengthOfEqual(arrays[..|arrays| - 1], n);
    }
  }

  /** The beta of a sum of series is the sum of their betas. */
  lemma {:induction false} BetaOfSum(arrays: seq<seq<real>>, market: seq<real>)
    requires arrays != [] && |market| > 1 && Variance(market) != 0.0
    requires forall k | 0 <= k < |arrays| :: |arrays[k]| == |market|
    ensures |Columns(arrays)| == |market|
    ensures Beta(Columns(arrays), market) == BetaSum(arrays, market)
  {
    hide Beta, Variance;
    LengthOfEqual(arrays, |market|);
    var n := |arrays| - 1;
    var rest, last := arrays[..n], arrays[n];
    if n == 0 {
      forall i | 0 <= i < |market|
        ensures Columns(arrays)[i] == last[i]
      {
        assert Column(arrays, i) == Column(rest, i) + last[i];
      }
      assert Columns(arrays) == last;
    } else {
      LengthOfEqual(rest, |market|);
      BetaOfSum(rest, market);
      BetaLinear(1.0, Columns(rest), last, market);
      ScaleByOne(Columns(rest), last);
      assert Columns(arrays) == Combine(1.0, Columns(rest), last);
      Unit(Beta(Columns(rest), market));
      TimesLaws(1.0, Beta(Columns(rest), market), 0.0, 0.0);
    }
  }

  lemma ScaleByOne(x: seq<real>, y: seq<real>)
    requires |x| == |y|
    ensures forall i | 0 <= i < |x| :: Combine(1.0, x, y)[i] == x[i] + y[i]
  {
  }
}
