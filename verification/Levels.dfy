/** Support and resistance levels: a greedy scan that keeps levels apart. */
module Levels {
  import opened Filters
  import opened Reals

  datatype Kind = Support | Resistance

  datatype Level = Level(date: int, price: real, kind: Kind)

  /** Highs, lows and days of the bars, three lists of one length. */
  datatype Chart = Chart(high: seq<real>, low: seq<real>, date: seq<int>)

  ghost predicate WellFormed(c: Chart) {
    |c.high| == |c.low| == |c.date|
  }

  predicate IsSupport(c: Chart, i: nat)
    requires WellFormed(c) && 2 <= i < |c.low| - 2
  {
    && c.low[i] < c.low[i - 1] && c.low[i] < c.low[i + 1]
    && c.low[i] < c.low[i - 2] && c.low[i] < c.low[i + 2]
  }

  predicate IsResistance(c: Chart, i: nat)
    requires WellFormed(c) && 2 <= i < |c.high| - 2
  {
    && c.high[i] > c.high[i - 1] && c.high[i] > c.high[i + 1]
    && c.high[i] > c.high[i - 2] && c.high[i] > c.high[i + 2]
  }

  /** A support is the strict minimum of the lows of five bars, a resistance the strict maximum of
      their highs. */
  lemma PivotsAreExtremes(c: Chart, i: nat)
    requires WellFormed(c) && 2 <= i < |c.low| - 2
    ensures IsSupport(c, i) <==> forall j | i - 2 <= j <= i + 2 && j != i :: c.low[i] < c.low[j]
    ensures IsResistance(c, i) <==> forall j | i - 2 <= j <= i + 2 && j != i :: c.high[i] > c.high[j]
  {
    assert forall j {:trigger c.low[j]} {:trigger c.high[j]} | i - 2 <= j <= i + 2 && j != i ::
        j == i - 2 || j == i - 1 || j == i + 1 || j == i + 2;
  }

  /** The candidate at bar `i`: a support pivot, or else a resistance pivot. */
  ghost predicate HasPivot(c: Chart, i: nat)
    requires WellFormed(c) && 2 <= i < |c.low| - 2
  {
    IsSupport(c, i) || IsResistance(c, i)
  }

  ghost function Pivot(c: Chart, i: nat): Level
    requires WellFormed(c) && 2 <= i < |c.low| - 2 && HasPivot(c, i)
  {
    if IsSupport(c, i) then Level(c.date[i], c.low[i], Support) else Level(c.date[i], c.high[i], Resistance)
  }

  function Distance(a: real, b: real): real {
    if a < b then b - a else a - b
  }

  predicate IsFar(levels: seq<Level>, s: real, price: real) {
    forall k | 0 <= k < |levels| :: Distance(price, levels[k].price) >= s
  }

  // ----- what a greedy selection is

  /** The bars whose pivots were recorded. */
  ghost predicate Recorded(c: Chart, bars: seq<nat>, levels: seq<Level>, end: nat)
    requires WellFormed(c)
  {
    && |bars| == |levels|
    && (forall k | 0 <= k < |bars| ::
          2 <= bars[k] < end && bars[k] < |c.low| - 2 && HasPivot(c, bars[k]) && levels[k] == Pivot(c, bars[k]))
    && (forall k, l | 0 <= k < l < |bars| :: bars[k] < bars[l])
  }

  /** Recorded levels are at least `s` apart. */
  ghost predicate Packed(levels: seq<Level>, s: real) {
    forall k, l | 0 <= k < l < |levels| :: Distance(levels[k].price, levels[l].price) >= s
  }

  /** Bar `i` is recorded, or its pivot is closer than `s` to a level recorded earlier. */
  ghost predicate CoveredAt(c: Chart, bars: seq<nat>, levels: seq<Level>, s: real, i: nat)
    requires WellFormed(c) && 2 <= i < |c.low| - 2 && HasPivot(c, i) && |bars| == |levels|
  {
    i in bars
    || exists k | 0 <= k < |bars| :: bars[k] < i && Distance(Pivot(c, i).price, levels[k].price) < s
  }

  ghost predicate Covered(c: Chart, bars: seq<nat>, levels: seq<Level>, s: real, end: nat)
    requires WellFormed(c) && |bars| == |levels|
  {
    forall i: nat | 2 <= i < end && i < |c.low| - 2 && HasPivot(c, i) :: CoveredAt(c, bars, levels, s, i)
  }

  ghost predicate IsGreedy(c: Chart, bars: seq<nat>, levels: seq<Level>, s: real, end: nat)
    requires WellFormed(c)
  {
    Recorded(c, bars, levels, end) && Packed(levels, s) && Covered(c, bars, levels, s, end)
  }

  ghost function OfKind(levels: seq<Level>, kind: Kind): seq<Level> {
    if levels == [] then []
    else OfKind(levels[..|levels| - 1], kind) + if levels[|levels| - 1].kind == kind then [levels[|levels| - 1]] else []
  }

  function Thirds(c: Chart, k: nat): (r: seq<real>)
    requires WellFormed(c) && k <= |c.high|
    ensures |r| == k && forall i | 0 <= i < k :: r[i] == (c.high[i] - c.low[i]) / 3.0
  {
    seq(k, i requires 0 <= i < k => (c.high[i] - c.low[i]) / 3.0)
  }

  /** A third of the mean height of the bars. */
  function Spacing(c: Chart): real
    requires WellFormed(c)
  {
    if c.high == [] then 0.0 else Mean(Thirds(c, |c.high|))
  }

  // ----- the scan

  lemma DistanceSymmetric(a: real, b: real)
    ensures Distance(a, b) == Distance(b, a)
  {
  }

  lemma CoveredWithOneMore(c: Chart, bars: seq<nat>, levels: seq<Level>, s: real, j: nat, i: nat, level: Level)
    requires WellFormed(c) && 2 <= j < |c.low| - 2 && HasPivot(c, j) && |bars| == |levels|
    requires CoveredAt(c, bars, levels, s, j)
    ensures CoveredAt(c, bars + [i], levels + [level], s, j)
  {
    hide HasPivot, Pivot, Distance;
    if j !in bars {
      var k :| 0 <= k < |bars| && bars[k] < j && Distance(Pivot(c, j).price, levels[k].price) < s;
      assert (bars + [i])[k] == bars[k] && (levels + [level])[k] == levels[k];
    }
  }

  lemma NowRecorded(c: Chart, bars: seq<nat>, levels: seq<Level>, s: real, i: nat)
    requires WellFormed(c) && 2 <= i < |c.low| - 2 && HasPivot(c, i) && |bars| == |levels| > 0 && bars[|bars| - 1] == i
    ensures CoveredAt(c, bars, levels, s, i)
  {
  }

  lemma KeepPivot(c: Chart, bars: seq<nat>, levels: seq<Level>, s: real, i: nat)
    requires WellFormed(c) && IsGreedy(c, bars, levels, s, i) && 2 <= i < |c.low| - 2 && HasPivot(c, i)
    requires IsFar(levels, s, Pivot(c, i).price)
    ensures IsGreedy(c, bars + [i], levels + [Pivot(c, i)], s, i + 1)
  {
    hide HasPivot, Pivot, Distance, CoveredAt;
    var b, l := bars + [i], levels + [Pivot(c, i)];
    forall j: nat | 2 <= j < i + 1 && HasPivot(c, j)
      ensures CoveredAt(c, b, l, s, j)
    {
      if j < i {
        CoveredWithOneMore(c, bars, levels, s, j, i, Pivot(c, i));
      } else {
        NowRecorded(c, b, l, s, i);
      }
    }
    forall k | 0 <= k < |levels|
      ensures Distance(levels[k].price, Pivot(c, i).price) >= s
    {
      DistanceSymmetric(levels[k].price, Pivot(c, i).price);
    }
  }

  lemma SkipBar(c: Chart, bars: seq<nat>, levels: seq<Level>, s: real, i: nat)
    requires WellFormed(c) && IsGreedy(c, bars, levels, s, i) && 2 <= i < |c.low| - 2
    requires HasPivot(c, i) ==> !IsFar(levels, s, Pivot(c, i).price)
    ensures IsGreedy(c, bars, levels, s, i + 1)
  {
    hide IsSupport, IsResistance, HasPivot, Pivot, Distance;
  }

  /** The scan records a greedy selection and returns its two kinds, each in order. */
  method GetLevels(c: Chart)
    returns (resistance: seq<Level>, support: seq<Level>, ghost bars: seq<nat>, ghost levels: seq<Level>)
    requires WellFormed(c)
    ensures IsGreedy(c, bars, levels, Spacing(c), |c.low|)
    ensures resistance == OfKind(levels, Resistance) && support == OfKind(levels, Support)
  {
    hide IsSupport, IsResistance, Distance, Spacing;
    var s := Spacing(c);
    var found: seq<Level> := [];
    bars := [];
    var i := 2;
    while i < |c.high| - 2
      invariant 2 <= i && IsGreedy(c, bars, found, s, i)
    {
      hide IsGreedy, IsFar;
      if IsSupport(c, i) {
        var l := c.low[i];
        if IsFar(found, s, l) {
          KeepPivot(c, bars, found, s, i);
          found := found + [Level(c.date[i], l, Support)];
          bars := bars + [i];
        } else {
          SkipBar(c, bars, found, s, i);
        }
      } else if IsResistance(c, i) {
        var l := c.high[i];
        if IsFar(found, s, l) {
          KeepPivot(c, bars, found, s, i);
          found := found + [Level(c.date[i], l, Resistance)];
          bars := bars + [i];
        } else {
          SkipBar(c, bars, found, s, i);
        }
      } else {
        SkipBar(c, bars, found, s, i);
      }
      i := i + 1;
    }
    assert IsGreedy(c, bars, found, s, |c.low|);
    levels := found;
    resistance := Select(found, Resistance);
    support := Select(found, Support);
  }

  method Select(levels: seq<Level>, kind: Kind) returns (r: seq<Level>)
    ensures r == OfKind(levels, kind)
  {
    r := [];
    for k := 0 to |levels|
      invariant r == OfKind(levels[..k], kind)
    {
      assert levels[..k + 1][..k] == levels[..k];
      if levels[k].kind == kind {
        r := r + [levels[k]];
      }
    }
    assert levels[..|levels|] == levels;
  }

  /** The two returned lists share out the levels between them. */
  lemma {:induction false} KindsShareOut(levels: seq<Level>)
    ensures |OfKind(levels, Resistance)| + |OfKind(levels, Support)| == |levels|
  {
    if levels != [] {
      KindsShareOut(levels[..|levels| - 1]);
    }
  }

  /** Each level stands in the list of its kind, after the earlier ones of that kind. */
  lemma {:induction false} PlaceInKind(levels: seq<Level>, k: nat)
    requires k < |levels|
    ensures var list, place := OfKind(levels, levels[k].kind), |OfKind(levels[..k], levels[k].kind)|;
            place < |list| && list[place] == levels[k]
  {
    var n := |levels| - 1;
    if k < n {
      PlaceInKind(levels[..n], k);
      assert levels[..n][..k] == levels[..k];
    }
  }

  // ----- levels apart cannot crowd together

  lemma {:induction false} HighestLevel(levels: seq<Level>) returns (m: nat)
    requires levels != []
    ensures m < |levels| && forall k | 0 <= k < |levels| :: levels[k].price <= levels[m].price
  {
    m := 0;
    if |levels| > 1 {
      var n := |levels| - 1;
      m := HighestLevel(levels[..n]);
      assert forall k | 0 <= k < n :: levels[k] == levels[..n][k];
      if levels[n].price > levels[m].price {
        m := n;
      }
    }
  }

  /** Levels that are `s` apart span at least `s` for each step from one to the next. */
  lemma {:induction false} LevelsSpread(levels: seq<Level>, s: real) returns (hi: nat, lo: nat)
    requires levels != [] && Packed(levels, s)
    ensures hi < |levels| && lo < |levels|
    ensures forall k | 0 <= k < |levels| :: levels[k].price <= levels[hi].price
    ensures levels[hi].price - levels[lo].price >= Times((|levels| - 1) as real, s)
    decreases |levels|
  {
    hi := HighestLevel(levels);
    lo := hi;
    ZeroSteps(s);
    if |levels| > 1 {
      hide Times;
      var rest := levels[..hi] + levels[hi + 1..];
      assert forall k | 0 <= k < |rest| :: rest[k] == levels[if k < hi then k else k + 1];
      var h, l := LevelsSpread(rest, s);
      lo := if l < hi then l else l + 1;
      var next := if h < hi then h else h + 1;
      assert Distance(levels[hi].price, levels[next].price) >= s;
      OneMoreStep(|levels| - 2, s);
    }
  }

  lemma ZeroSteps(s: real)
    ensures Times(0.0, s) == 0.0
  {
  }

  lemma OneMoreStep(n: int, s: real)
    ensures Times((n + 1) as real, s) == Times(n as real, s) + s
  {
  }

  // ----- there is only one greedy selection

  /** The last step of a selection: bar `i` is recorded exactly when its pivot is far from all
      levels before. */
  lemma LastStep(c: Chart, bars: seq<nat>, levels: seq<Level>, s: real, i: nat)
    returns (takes: bool, b: seq<nat>, l: seq<Level>)
    requires WellFormed(c) && 2 <= i && IsGreedy(c, bars, levels, s, i + 1)
    ensures IsGreedy(c, b, l, s, i)
    ensures takes <==> i < |c.low| - 2 && HasPivot(c, i) && IsFar(l, s, Pivot(c, i).price)
    ensures if takes then bars == b + [i] && levels == l + [Pivot(c, i)] else bars == b && levels == l
  {
    hide IsGreedy, HasPivot, Pivot, IsFar;
    takes := bars != [] && bars[|bars| - 1] == i;
    if takes {
      GreedyWithoutLast(c, bars, levels, s, i);
      b, l := bars[..|bars| - 1], levels[..|levels| - 1];
    } else {
      GreedyAfterSkip(c, bars, levels, s, i);
      b, l := bars, levels;
    }
  }

  lemma GreedyWithoutLast(c: Chart, bars: seq<nat>, levels: seq<Level>, s: real, i: nat)
    requires WellFormed(c) && 2 <= i && IsGreedy(c, bars, levels, s, i + 1)
    requires bars != [] && bars[|bars| - 1] == i
    ensures |levels| == |bars|
    ensures IsGreedy(c, bars[..|bars| - 1], levels[..|levels| - 1], s, i)
    ensures i < |c.low| - 2 && HasPivot(c, i) && levels[|levels| - 1] == Pivot(c, i)
    ensures IsFar(levels[..|levels| - 1], s, Pivot(c, i).price)
  {
    assert |bars| == |levels| by { hide HasPivot, Pivot, Distance; }
    RecordedWithoutLast(c, bars, levels, s, i);
    hide HasPivot, Pivot, Distance, Recorded, Packed, CoveredAt;
    forall j: nat | 2 <= j < i && j < |c.low| - 2 && HasPivot(c, j)
      ensures CoveredAt(c, bars[..|bars| - 1], levels[..|levels| - 1], s, j)
    {
      CoveredWithoutLast(c, bars, levels, s, j);
    }
  }

  lemma GreedyAfterSkip(c: Chart, bars: seq<nat>, levels: seq<Level>, s: real, i: nat)
    requires WellFormed(c) && 2 <= i && IsGreedy(c, bars, levels, s, i + 1)
    requires bars == [] || bars[|bars| - 1] != i
    ensures IsGreedy(c, bars, levels, s, i)
    ensures i < |c.low| - 2 && HasPivot(c, i) ==> !IsFar(levels, s, Pivot(c, i).price)
  {
    hide HasPivot, Pivot, Distance;
    assert forall k | 0 <= k < |bars| :: bars[k] <= bars[|bars| - 1] && bars[k] < i;
    if i < |c.low| - 2 && HasPivot(c, i) {
      assert CoveredAt(c, bars, levels, s, i);
    }
  }

  lemma RecordedWithoutLast(c: Chart, bars: seq<nat>, levels: seq<Level>, s: real, i: nat)
    requires WellFormed(c) && Recorded(c, bars, levels, i + 1) && Packed(levels, s)
    requires bars != [] && bars[|bars| - 1] == i
    ensures Recorded(c, bars[..|bars| - 1], levels[..|levels| - 1], i) && Packed(levels[..|levels| - 1], s)
    ensures i < |c.low| - 2 && HasPivot(c, i) && levels[|levels| - 1] == Pivot(c, i)
    ensures IsFar(levels[..|levels| - 1], s, Pivot(c, i).price)
  {
    hide HasPivot, Pivot, Distance;
    forall k | 0 <= k < |levels| - 1
      ensures Distance(Pivot(c, i).price, levels[k].price) >= s
    {
      DistanceSymmetric(levels[k].price, Pivot(c, i).price);
    }
  }

  lemma CoveredWithoutLast(c: Chart, bars: seq<nat>, levels: seq<Level>, s: real, j: nat)
    requires WellFormed(c) && 2 <= j < |c.low| - 2 && HasPivot(c, j) && |bars| == |levels| > 0
    requires CoveredAt(c, bars, levels, s, j) && j < bars[|bars| - 1]
    ensures CoveredAt(c, bars[..|bars| - 1], levels[..|levels| - 1], s, j)
  {
    hide HasPivot, Pivot;
    var n := |bars| - 1;
    if j in bars {
      var k :| 0 <= k < |bars| && bars[k] == j;
      assert bars[..n][k] == j;
    } else {
      var k :| 0 <= k < |bars| && bars[k] < j && Distance(Pivot(c, j).price, levels[k].price) < s;
      assert bars[..n][k] == bars[k] && levels[..n][k] == levels[k];
    }
  }

  /** Any selection with these properties is the one the scan makes. */
  lemma {:induction false} GreedyIsUnique(c: Chart, s: real, end: nat,
                                          bars: seq<nat>, levels: seq<Level>, bars': seq<nat>, levels': seq<Level>)
    requires WellFormed(c) && IsGreedy(c, bars, levels, s, end) && IsGreedy(c, bars', levels', s, end)
    ensures bars == bars' && levels == levels'
    decreases end
  {
    if end > 2 {
      hide IsGreedy, IsFar, HasPivot, Pivot;
      var takes, b, l := LastStep(c, bars, levels, s, end - 1);
      var takes', b', l' := LastStep(c, bars', levels', s, end - 1);
      GreedyIsUnique(c, s, end - 1, b, l, b', l');
    } else {
      RecordingNeedsRoom(c, bars, levels, end);
      RecordingNeedsRoom(c, bars', levels', end);
    }
  }

  lemma RecordingNeedsRoom(c: Chart, bars: seq<nat>, levels: seq<Level>, end: nat)
    requires WellFormed(c) && Recorded(c, bars, levels, end)
    ensures bars != [] ==> end > 2
  {
    if bars != [] {
      assert 2 <= bars[0] < end;
    }
  }

  // ----- the selection in plain terms

  ghost predicate LowestOfFive(s: seq<real>, i: int)
    requires 2 <= i < |s| - 2
  {
    forall j | i - 2 <= j <= i + 2 && j != i :: s[i] < s[j]
  }

  ghost predicate HighestOfFive(s: seq<real>, i: int)
    requires 2 <= i < |s| - 2
  {
    forall j | i - 2 <= j <= i + 2 && j != i :: s[i] > s[j]
  }

  /** Each level is the low of a bar lower than its neighbours, or else the high of a bar higher than
      they are, with the day of the bar. */
  lemma LevelIsExtreme(c: Chart, bars: seq<nat>, levels: seq<Level>, s: real, end: nat, k: nat)
    requires WellFormed(c) && IsGreedy(c, bars, levels, s, end) && k < |levels|
    ensures |bars| == |levels| && 2 <= bars[k] < |c.low| - 2 && levels[k].date == c.date[bars[k]]
    ensures if levels[k].kind == Support
            then LowestOfFive(c.low, bars[k]) && levels[k].price == c.low[bars[k]]
            else HighestOfFive(c.high, bars[k]) && !LowestOfFive(c.low, bars[k]) && levels[k].price == c.high[bars[k]]
  {
    PivotsAreExtremes(c, bars[k]);
    hide IsSupport, IsResistance, Distance, CoveredAt;
  }

  /** Any two levels differ by the spacing at least. */
  lemma LevelsAreApart(c: Chart, bars: seq<nat>, levels: seq<Level>, s: real, end: nat, k: nat, l: nat)
    requires WellFormed(c) && IsGreedy(c, bars, levels, s, end) && k < l < |levels|
    ensures |bars| == |levels| && bars[k] < bars[l]
    ensures levels[k].price - levels[l].price >= s || levels[l].price - levels[k].price >= s
  {
    hide IsSupport, IsResistance, HasPivot, Pivot, CoveredAt;
    assert Distance(levels[k].price, levels[l].price) >= s;
  }

  /** Every low lower than its neighbours is a level or within the spacing of an earlier one, and so is
      every high higher than its neighbours on a bar without such a low. */
  lemma ExtremesAreCovered(c: Chart, bars: seq<nat>, levels: seq<Level>, s: real, i: nat)
    requires WellFormed(c) && IsGreedy(c, bars, levels, s, |c.low|) && 2 <= i < |c.low| - 2
    requires LowestOfFive(c.low, i) || HighestOfFive(c.high, i)
    ensures |bars| == |levels|
    ensures var price := if LowestOfFive(c.low, i) then c.low[i] else c.high[i];
            i in bars || exists k :: 0 <= k < |bars| && bars[k] < i && -s < price - levels[k].price < s
  {
    PivotsAreExtremes(c, i);
    var price := if LowestOfFive(c.low, i) then c.low[i] else c.high[i];
    assert HasPivot(c, i) && Pivot(c, i).price == price;
    assert CoveredAt(c, bars, levels, s, i);
    hide IsSupport, IsResistance, HasPivot, Pivot;
    if i !in bars {
      var k :| 0 <= k < |bars| && bars[k] < i && Distance(price, levels[k].price) < s;
      assert bars[k] < i && -s < price - levels[k].price < s;
    }
  }

  ghost function HasKind(kind: Kind): Level -> bool {
    (l: Level) => l.kind == kind
  }

  /** Each returned list has all the levels of its kind, in order. */
  lemma {:induction false} KindFilter(levels: seq<Level>, kind: Kind)
    ensures IsFilter(levels, OfKind(levels, kind), HasKind(kind))
  {
    hide IsFilter;
    if levels == [] {
      NothingKept(levels, HasKind(kind));
    } else {
      var init, last := levels[..|levels| - 1], levels[|levels| - 1];
      KindFilter(init, kind);
      FilterOneMore(init, OfKind(init, kind), HasKind(kind), last);
      assert levels == init + [last] && OfKind(init, kind) + [] == OfKind(init, kind);
    }
  }

  lemma {:induction false} SumOfThirds(c: Chart, k: nat)
    requires WellFormed(c) && k <= |c.high|
    ensures 3.0 * Sum(Thirds(c, k)) == Sum(c.high[..k]) - Sum(c.low[..k])
  {
    if k > 0 {
      SumOfThirds(c, k - 1);
      assert Thirds(c, k)[..k - 1] == Thirds(c, k - 1);
      assert c.high[..k][..k - 1] == c.high[..k - 1] && c.low[..k][..k - 1] == c.low[..k - 1];
    }
  }

  /** Three times the number of bars times the spacing is the sum of the highs less that of the lows. */
  lemma SpacingIs(c: Chart)
    requires WellFormed(c) && c.high != []
    ensures 3.0 * Times(|c.high| as real, Spacing(c)) == Sum(c.high) - Sum(c.low)
  {
    var n := |c.high|;
    SumOfThirds(c, n);
    assert c.high[..n] == c.high && c.low[..n] == c.low;
    MeanTimesLength(Thirds(c, n));
    hide Sum, Mean;
  }
}
