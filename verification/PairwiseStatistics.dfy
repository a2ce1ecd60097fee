/** The sample statistics said without means: by the differences between the entries of a series. */
module PairwiseStatistics {
  import opened Reals
  import opened Statistics

  /** Products of the differences of entry `i` from the first `m` entries. */
  ghost function PairsWith(x: seq<real>, y: seq<real>, i: nat, m: nat): real
    requires i < |x| == |y| && m <= |x|
  {
    if m == 0 then 0.0 else PairsWith(x, y, i, m - 1) + Times(x[i] - x[m - 1], y[i] - y[m - 1])
  }

  /** The same for each of the first `k` entries against all entries. */
  ghost function PairSum(x: seq<real>, y: seq<real>, k: nat): real
    requires |x| == |y| && k <= |x|
  {
    if k == 0 then 0.0 else PairSum(x, y, k - 1) + PairsWith(x, y, k - 1, |x|)
  }

  lemma ExpandProduct(a: real, b: real, c: real, d: real)
    ensures Times(a - b, c - d) == Times(a, c) - Times(a, d) - Times(b, c) + Times(b, d)
  {
  }

  lemma TimesSums(a: real, x: real, y: real, n: nat)
    ensures Times(a, x + y) == Times(a, x) + Times(a, y)
    ensures Times((n + 1) as real, a) == Times(n as real, a) + a
    ensures Times(x, a) == Times(a, x)
    ensures Times(0.0, a) == 0.0 == Times(a, 0.0)
  {
  }

  lemma {:induction false} PairsWithIs(x: seq<real>, y: seq<real>, i: nat, m: nat)
    requires i < |x| == |y| && m <= |x|
    ensures PairsWith(x, y, i, m) ==
            Times(m as real, Times(x[i], y[i])) - Times(x[i], Sum(y[..m])) - Times(y[i], Sum(x[..m]))
            + Dot(x[..m], y[..m])
  {
    TimesSums(Times(x[i], y[i]), 0.0, 0.0, 0);
    TimesSums(x[i], 0.0, 0.0, 0);
    TimesSums(y[i], 0.0, 0.0, 0);
    if m > 0 {
      PairsWithIs(x, y, i, m - 1);
      DotExtends(x, y, m - 1);
      assert x[..m][..m - 1] == x[..m - 1] && y[..m][..m - 1] == y[..m - 1];
      ExpandProduct(x[i], x[m - 1], y[i], y[m - 1]);
      TimesSums(Times(x[i], y[i]), 0.0, 0.0, m - 1);
      TimesSums(x[i], Sum(y[..m - 1]), y[m - 1], 0);
      TimesSums(y[i], Sum(x[..m - 1]), x[m - 1], 0);
      hide Times, Dot;
      TimesSums(y[i], x[m - 1], 0.0, 0);
    }
  }

  lemma SumExtends(s: seq<real>, i: nat)
    requires i < |s|
    ensures Sum(s[..i + 1]) == Sum(s[..i]) + s[i]
  {
    assert s[..i + 1][..i] == s[..i];
  }

  lemma PairStep(n: nat, k: nat, dx: real, xy: real, d: real, sx: real, sy: real, tx: real, ty: real, x: real, y: real)
    ensures Times(n as real, dx) - Times(ty, sx) - Times(tx, sy) + Times(k as real, d)
            + (Times(n as real, xy) - Times(x, ty) - Times(y, tx) + d) ==
            Times(n as real, dx + xy) - Times(ty, sx + x) - Times(tx, sy + y) + Times((k + 1) as real, d)
  {
    hide Times;
    TimesSums(n as real, dx, xy, 0);
    TimesSums(ty, sx, x, 0);
    TimesSums(tx, sy, y, 0);
    TimesSums(ty, x, 0.0, 0);
    TimesSums(tx, y, 0.0, 0);
    TimesSums(d, 0.0, 0.0, k);
  }

  lemma {:induction false} PairSumIs(x: seq<real>, y: seq<real>, k: nat)
    requires |x| == |y| && k <= |x|
    ensures PairSum(x, y, k) ==
            Times(|x| as real, Dot(x[..k], y[..k])) - Times(Sum(y), Sum(x[..k])) - Times(Sum(x), Sum(y[..k]))
            + Times(k as real, Dot(x, y))
  {
    hide Times, PairsWith, Dot, Sum;
    if k > 0 {
      PairSumIs(x, y, k - 1);
      PairsWithIs(x, y, k - 1, |x|);
      assert x[..|x|] == x && y[..|x|] == y;
      DotExtends(x, y, k - 1);
      SumExtends(x, k - 1);
      SumExtends(y, k - 1);
      PairStep(|x|, k - 1, Dot(x[..k - 1], y[..k - 1]), Times(x[k - 1], y[k - 1]), Dot(x, y),
               Sum(x[..k - 1]), Sum(y[..k - 1]), Sum(x), Sum(y), x[k - 1], y[k - 1]);
    } else {
      DotOfNothing();
      TimesSums(Sum(x), 0.0, 0.0, 0);
      TimesSums(Sum(y), 0.0, 0.0, 0);
      TimesSums(Dot(x, y), 0.0, 0.0, 0);
      TimesSums(|x| as real, 0.0, 0.0, 0);
    }
  }

  lemma ShiftedProduct(a: real, b: real, x: real, y: real, sx: real, sy: real, n: nat)
    ensures Times(x - a, y - b) - Times(a, sy) - Times(b, sx) + Times(n as real, Times(a, b)) ==
            Times(x, y) - Times(a, sy + y) - Times(b, sx + x) + Times((n + 1) as real, Times(a, b))
  {
    hide Times;
    ExpandProduct(x, a, y, b);
    TimesSums(Times(a, b), 0.0, 0.0, n);
    TimesSums(a, sy, y, 0);
    TimesSums(b, sx, x, 0);
    TimesSums(b, x, 0.0, 0);
  }

  lemma DotOfNothing()
    ensures Dot([], []) == 0.0 && Sum([]) == 0.0
  {
  }

  lemma {:induction false} DotOfShifted(x: seq<real>, y: seq<real>, a: real, b: real, k: nat)
    requires k <= |x| == |y|
    ensures Dot(Minus(x, a)[..k], Minus(y, b)[..k]) ==
            Dot(x[..k], y[..k]) - Times(a, Sum(y[..k])) - Times(b, Sum(x[..k])) + Times(k as real, Times(a, b))
  {
    hide Times, Dot, Sum;
    if k > 0 {
      DotOfShifted(x, y, a, b, k - 1);
      DotExtends(Minus(x, a), Minus(y, b), k - 1);
      DotExtends(x, y, k - 1);
      SumExtends(x, k - 1);
      SumExtends(y, k - 1);
      ShiftedProduct(a, b, x[k - 1], y[k - 1], Sum(x[..k - 1]), Sum(y[..k - 1]), k - 1);
    } else {
      DotOfNothing();
      TimesSums(a, 0.0, 0.0, 0);
      TimesSums(b, 0.0, 0.0, 0);
      TimesSums(Times(a, b), 0.0, 0.0, 0);
    }
  }

  lemma Cancel(n: real, d: real, sx: real, sy: real, mx: real, my: real)
    requires Times(mx, n) == sx && Times(my, n) == sy
    ensures Times(2.0 * n, d - Times(mx, sy) - Times(my, sx) + Times(n, Times(mx, my)))
         == 2.0 * Times(n, d) - 2.0 * Times(sx, sy)
  {
    assert n * (mx * sy) == sx * sy;
    assert n * (my * sx) == sx * sy;
    assert n * (n * (mx * my)) == sx * sy;
  }

  lemma QuotientTimes(k: real, d: real, n: real)
    requires n != 0.0
    ensures Times(Times(k, n), d / n) == Times(k, d)
  {
    assert d / n * n == d;
  }

  lemma CovarianceTimes(x: seq<real>, y: seq<real>, k: real)
    requires |x| == |y| > 1
    ensures Times(Times(k, (|x| - 1) as real), Covariance(x, y)) == Times(k, Dot(Deviations(x), Deviations(y)))
  {
    hide Dot, Deviations;
    QuotientTimes(k, Dot(Deviations(x), Deviations(y)), (|x| - 1) as real);
  }

  /** With n entries, 2 n (n - 1) times the covariance is the sum of the products of all differences
      between entries. */
  lemma CovarianceOfPairs(x: seq<real>, y: seq<real>)
    requires |x| == |y| > 1
    ensures Times(Times(2.0 * |x| as real, (|x| - 1) as real), Covariance(x, y)) == PairSum(x, y, |x|)
  {
    hide Times, Dot, Mean, Sum, PairSum, Covariance;
    CovarianceTimes(x, y, 2.0 * |x| as real);
    PairSumIs(x, y, |x|);
    assert x[..|x|] == x && y[..|x|] == y;
    MeanTimesLength(x);
    MeanTimesLength(y);
    DotOfShifted(x, y, Mean(x), Mean(y), |x|);
    assert Deviations(x)[..|x|] == Deviations(x) && Deviations(y)[..|x|] == Deviations(y);
    Cancel(|x| as real, Dot(x, y), Sum(x), Sum(y), Mean(x), Mean(y));
    TimesSums(Sum(x), Sum(y), 0.0, 0);
  }

  lemma {:induction false} SumOfShifted(x: seq<real>, c: real)
    ensures Sum(Minus(x, c)) == Sum(x) - Times(|x| as real, c)
  {
    TimesSums(c, 0.0, 0.0, 0);
    if x != [] {
      var n := |x| - 1;
      SumOfShifted(x[..n], c);
      assert Minus(x, c)[..n] == Minus(x[..n], c);
      TimesSums(c, 0.0, 0.0, n);
      hide Times;
    }
  }

  lemma SameDeviations(x: seq<real>, c: real)
    requires x != []
    ensures Deviations(Minus(x, c)) == Deviations(x)
  {
    SumOfShifted(x, c);
    Quotient(Mean(x) - c, |x| as real, Sum(x) - Times(|x| as real, c));
    assert Mean(Minus(x, c)) == Mean(x) - c;
    hide Mean;
  }

  /** A constant added to a series changes no covariance and no beta. */
  lemma ShiftsDoNotMatter(x: seq<real>, y: seq<real>, c: real, d: real)
    requires |x| == |y| > 1
    ensures Covariance(Minus(x, c), Minus(y, d)) == Covariance(x, y)
    ensures Variance(y) != 0.0 ==> Variance(Minus(y, d)) != 0.0 && Beta(Minus(x, c), Minus(y, d)) == Beta(x, y)
  {
    hide Deviations;
    SameDeviations(x, c);
    SameDeviations(y, d);
  }

  /** Three days of a portfolio and its market. */
  lemma BetaOfThreeDays()
    ensures Covariance([0.0, 10.0, 5.0], [0.0, 4.0, 8.0]) == 10.0
    ensures Variance([0.0, 4.0, 8.0]) == 16.0
    ensures Beta([0.0, 10.0, 5.0], [0.0, 4.0, 8.0]) == 0.625
  {
    var x, m := [0.0, 10.0, 5.0], [0.0, 4.0, 8.0];
    hide Covariance, PairSum;
    CovarianceOfPairs(x, m);
    CovarianceOfPairs(m, m);
    ThreePairs(x, m);
    ThreePairs(m, m);
  }

  lemma ThreePairs(x: seq<real>, y: seq<real>)
    requires |x| == |y| == 3
    ensures PairSum(x, y, 3) ==
            2.0 * (Times(x[0] - x[1], y[0] - y[1]) + Times(x[0] - x[2], y[0] - y[2]) + Times(x[1] - x[2], y[1] - y[2]))
  {
    hide Times;
    forall i: nat | i < 3
      ensures PairsWith(x, y, i, 3) ==
              Times(x[i] - x[0], y[i] - y[0]) + Times(x[i] - x[1], y[i] - y[1]) + Times(x[i] - x[2], y[i] - y[2])
    {
      assert PairsWith(x, y, i, 1) == Times(x[i] - x[0], y[i] - y[0]);
      assert PairsWith(x, y, i, 2) == PairsWith(x, y, i, 1) + Times(x[i] - x[1], y[i] - y[1]);
    }
    assert PairSum(x, y, 1) == PairsWith(x, y, 0, 3);
    assert PairSum(x, y, 2) == PairSum(x, y, 1) + PairsWith(x, y, 1, 3);
    SameTurned(x[0] - x[1], y[0] - y[1], x[1] - x[0], y[1] - y[0]);
    SameTurned(x[0] - x[2], y[0] - y[2], x[2] - x[0], y[2] - y[0]);
    SameTurned(x[1] - x[2], y[1] - y[2], x[2] - x[1], y[2] - y[1]);
    TimesSums(0.0, 0.0, 0.0, 0);
  }

  lemma SameTurned(a: real, b: real, c: real, d: real)
    requires c == -a && d == -b
    ensures Times(a, b) == Times(c, d)
  {
  }

  // ----- alpha

  /** Alpha is zero for the riskless asset and for the market, grows with the return one for one,
      and mixes as the assets do; this leaves only one formula for it. */
  lemma AlphaLaws(rf: real, rm: real, r: real, beta: real, other: real, otherBeta: real, extra: real, a: real)
    ensures AlphaCalculate(rf, rf, rm, 0.0) == 0.0 && AlphaCalculate(rm, rf, rm, 1.0) == 0.0
    ensures AlphaCalculate(r + extra, rf, rm, beta) == AlphaCalculate(r, rf, rm, beta) + extra
    ensures AlphaCalculate(Times(a, r) + Times(1.0 - a, other), rf, rm, Times(a, beta) + Times(1.0 - a, otherBeta))
         == Times(a, AlphaCalculate(r, rf, rm, beta)) + Times(1.0 - a, AlphaCalculate(other, rf, rm, otherBeta))
  {
    var excess := rm - rf;
    assert excess * (a * beta + (1.0 - a) * otherBeta) == a * (excess * beta) + (1.0 - a) * (excess * otherBeta);
  }

  // ----- padded sums

  lemma NothingPadded()
    ensures |Columns([])| == 0
  {
  }

  /** The padded sum is as long as the longest series. */
  lemma {:induction false} LengthOfPadded(arrays: seq<seq<real>>)
    ensures forall k | 0 <= k < |arrays| :: |arrays[k]| <= |Columns(arrays)|
    ensures arrays != [] ==> exists k :: 0 <= k < |arrays| && |arrays[k]| == |Columns(arrays)|
  {
    if arrays != [] {
      var n := |arrays| - 1;
      var init := arrays[..n];
      LengthOfPadded(init);
      assert |Columns(arrays)| == if |arrays[n]| > |Columns(init)| then |arrays[n]| else |Columns(init)|;
      hide MaxLength, Columns;
      assert forall k | 0 <= k < n :: arrays[k] == init[k];
      if |arrays[n]| < |Columns(init)| {
        assert n > 0 by { NothingPadded(); }
        var k :| 0 <= k < n && |init[k]| == |Columns(init)|;
        assert |arrays[k]| == |Columns(arrays)|;
      } else {
        assert |arrays[n]| == |Columns(arrays)|;
      }
    }
  }

  /** Two series added entry by entry; where one has ended, the other counts alone. */
  lemma PaddedPair(x: seq<real>, y: seq<real>, i: nat)
    requires i < |x| || i < |y|
    ensures i < |Columns([x, y])|
    ensures Columns([x, y])[i] == (if i < |x| then x[i] else 0.0) + (if i < |y| then y[i] else 0.0)
  {
    var both := [x, y];
    assert both[..1] == [x] && both[..1][..0] == [];
    assert Column(both[..1], i) == if i < |x| then x[i] else 0.0;
    assert MaxLength(both[..1]) == |x|;
  }
}
