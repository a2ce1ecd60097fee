/** The strategy that trades when the price crosses its moving average. */
module MovingAverage {
  import opened Options
  import opened Positions
  import opened TradeLog
  import opened Returns
  import opened Ledger
  import opened Crossover
  import opened Windows
  import opened BestPeriod

  /** There is a bar before this one, and it has a price. */
  predicate Known(bars: seq<Bar<real>>, i: nat)
    requires i < |bars|
  {
    i > 0 && bars[i - 1].close != 0.0
  }

  predicate Enters(bars: seq<Bar<real>>, i: nat)
    requires i < |bars|
  {
    Known(bars, i) && bars[i].close > bars[i].ind && bars[i - 1].close <= bars[i - 1].ind
  }

  predicate Leaves(bars: seq<Bar<real>>, i: nat)
    requires i < |bars|
  {
    Known(bars, i) && bars[i].close < bars[i].ind && bars[i - 1].close > bars[i - 1].ind
  }

  ghost function Cues(bars: seq<Bar<real>>): (cues: seq<Cue>)
    ensures |cues| == |bars|
         && forall i {:trigger cues[i]} | 0 <= i < |bars| :: cues[i] == Cue(Enters(bars, i), Leaves(bars, i))
  {
    seq(|bars|, i requires 0 <= i < |bars| => Cue(Enters(bars, i), Leaves(bars, i)))
  }

  /** The signal of the last bar: unlike an entry, a buy signal needs the bar before to be
      strictly below its average. */
  function LastSignal(bars: seq<Bar<real>>, i: nat, isBuy: bool): nat
    requires i < |bars|
  {
    if Enters(bars, i) && bars[i - 1].close < bars[i - 1].ind then BUY
    else if Leaves(bars, i) then SELL
    else if isBuy then HOLD_BUY
    else HOLD_SELL
  }

  /** What the reported signal says: buy or hold-buy exactly when the run ends with an open position,
      which it liquidates, buy and sell exactly when the last bar crosses, buy only from strictly
      below. */
  ghost predicate SignalOf(bars: seq<Bar<real>>, signal: nat) {
    if bars == [] then signal == BUY
    else
      var n := |bars| - 1;
      && signal <= HOLD_SELL
      && (signal == BUY <==> n > 0 && bars[n - 1].close != 0.0
                             && bars[n].close > bars[n].ind && bars[n - 1].close < bars[n - 1].ind)
      && (signal == SELL <==> n > 0 && bars[n - 1].close != 0.0
                              && bars[n].close < bars[n].ind && bars[n - 1].close > bars[n - 1].ind)
      && (signal in {BUY, HOLD_BUY} <==> HeldAt(Cues(bars), n))
  }

  /** The strategy loop. */
  method Run(bars: seq<Bar<real>>) returns (l: Ledger, signal: nat)
    ensures Closed(l, bars, Held(Cues(bars)), true)
    ensures SignalOf(bars, signal)
  {
    hide Closed, Tracks, Sell, Held;
    l, signal := START, BUY;
    ghost var held := Held(Cues(bars));
    StartTracks(bars, held, true);
    for i := 0 to |bars|
      invariant if i < |bars| then Tracks(l, bars, held, i) else Closed(l, bars, held, true)
      invariant i == 0 ==> signal == BUY
      invariant i == |bars| > 0 ==>
                  && signal <= HOLD_SELL
                  && (signal == BUY <==> i > 1 && bars[i - 2].close != 0.0
                                         && bars[i - 1].close > bars[i - 1].ind && bars[i - 2].close < bars[i - 2].ind)
                  && (signal == SELL <==> i > 1 && bars[i - 2].close != 0.0
                                          && bars[i - 1].close < bars[i - 1].ind && bars[i - 2].close > bars[i - 2].ind)
                  && (signal in {BUY, HOLD_BUY} <==> held[i - 1])
    {
      ghost var before := l;
      NextTracks(l, bars, held, i, true);
      assert held[i] == HeldAt(Cues(bars), i);
      if Enters(bars, i) && !l.isBuy {
        l := Buy(l, i);
      }
      if i == |bars| - 1 {
        signal := LastSignal(bars, i, l.isBuy);
      }
      if (Leaves(bars, i) && l.isBuy) || (i == |bars| - 1 && l.isBuy) {
        l := Sell(l, bars, i);
      }
      assert l == Next(before, bars, held[i], i, true);
    }
  }

  /** The price came from at or below its average to above it; a bar after a price of zero does not
      count. */
  ghost predicate RosePast(c: seq<real>, a: seq<real>, k: int)
    requires 0 < k < |c| == |a|
  {
    c[k - 1] != 0.0 && c[k] > a[k] && c[k - 1] <= a[k - 1]
  }

  /** The price came from strictly above its average to below it. */
  ghost predicate FellPast(c: seq<real>, a: seq<real>, k: int)
    requires 0 < k < |c| == |a|
  {
    c[k - 1] != 0.0 && c[k] < a[k] && c[k - 1] > a[k - 1]
  }

  /** The position after any bar, ties and missing prices included: it is open exactly when the price
      rose past its average at some bar and has not fallen past it since. */
  lemma PositionIsLastCrossing(bars: seq<Bar<real>>, i: nat)
    requires i < |bars|
    ensures var c, a := Closes(bars), Indicators(bars);
            HeldAt(Cues(bars), i) <==>
              exists j | 0 < j <= i :: RosePast(c, a, j) && forall k | j < k <= i :: !FellPast(c, a, k)
  {
    var cues, c, a := Cues(bars), Closes(bars), Indicators(bars);
    assert Exclusive(cues);
    HeldIffEnteredSince(cues, i);
    CuesOnSeries(bars);
    hide Cues, HeldAt, RosePast, FellPast;
    if j: nat :| j <= i && EnteredSince(cues, j, i) {
      assert 0 < j && RosePast(c, a, j);
      assert forall k | j < k <= i :: cues[k].leave == FellPast(c, a, k);
    }
    if j :| 0 < j <= i && RosePast(c, a, j) && forall k | j < k <= i :: !FellPast(c, a, k) {
      assert forall k | j < k <= i :: cues[k].leave == FellPast(c, a, k);
      assert EnteredSince(cues, j, i);
    }
  }

  lemma CuesOnSeries(bars: seq<Bar<real>>)
    ensures var cues, c, a := Cues(bars), Closes(bars), Indicators(bars);
            && (bars != [] ==> cues[0] == Cue(false, false))
            && forall k {:trigger cues[k]} | 0 < k < |bars| :: cues[k] == Cue(RosePast(c, a, k), FellPast(c, a, k))
  {
  }

  /** With prices, the position is open exactly when the price is above its average after a bar
      at or below it, unless a tie right after such a bar misleads the loop. */
  lemma PositionIsCrossover(bars: seq<Bar<real>>)
    requires Tradable(Closes(bars))
    ensures var closes, averages := Closes(bars), Indicators(bars);
            && ((forall i | 0 <= i < |bars| :: AgreesAt(Cues(bars), closes, averages, true, i))
                <==> (forall i | 0 < i < |bars| :: !Misleads(closes, averages, true, i)))
            && ((forall i | 0 <= i < |bars| :: !Tie(closes, averages, i))
                ==> (forall i | 0 <= i < |bars| :: AgreesAt(Cues(bars), closes, averages, true, i)))
  {
    assert CrossCues(Cues(bars), Closes(bars), Indicators(bars), true);
    HeldIffCrossed(Cues(bars), Closes(bars), Indicators(bars), true);
  }

  // ----- the whole calculation

  datatype Report = Report(period: nat, total: real, count: nat, min: real, max: real,
                           detail: seq<Deal>, signal: nat, average: Option<real>)

  /** The default list of periods, the long list for privileged callers, or the one asked for. */
  function Periods(asked: Option<nat>, privileged: bool): (periods: seq<nat>)
    requires asked.Some? ==> asked.value > 0
    ensures |periods| > 0 && forall k | 0 <= k < |periods| :: periods[k] > 0
    ensures asked.Some? ==> periods == [asked.value]
    ensures asked.None? && !privileged ==> periods == [5, 10, 20, 50, 60, 100]
    ensures asked.None? && privileged ==> |periods| == 96 && periods[0] == 5 && periods[95] == 100
                                          && forall k | 0 < k < 96 :: periods[k] == periods[k - 1] + 1
  {
    if asked.Some? then [asked.value]
    else if privileged then seq(96, k => k + 5)
    else [5, 10, 20, 50, 60, 100]
  }

  ghost function WindowOf(rows: seq<Row>, dateFrom: int, dateTo: int, period: nat): seq<Bar<real>>
    requires period > 0
  {
    ClosedWindow(rows, BarsByReversing(rows, period), dateFrom, dateTo)
  }

  /** The report carries the figures of the closed ledger of its window, and the signal of its
      last bar. */
  ghost predicate Reports(r: Report, rows: seq<Row>, dateFrom: int, dateTo: int, period: nat)
    requires period > 0
  {
    var bars := WindowOf(rows, dateFrom, dateTo, period);
    && r.period == period
    && (exists l: Ledger :: Closed(l, bars, Held(Cues(bars)), true) && Carries(r, l))
    && SignalOf(bars, r.signal)
  }

  ghost predicate Carries(r: Report, l: Ledger) {
    r.total == l.total - 1.0 && r.count == l.count && r.min == l.min && r.max == l.max && r.detail == l.detail
  }

  lemma LatestAverage(rows: seq<Row>, period: nat)
    requires period > 0
    ensures |Sma(Prices(rows), period)| > 0 <==> period <= |rows|
    ensures period <= |rows| ==>
              Reverse(Sma(Prices(rows), period))[0] == AverageAt(rows, period, |rows| - 1)
  {
    if period <= |rows| {
      ReversedAverage(rows, period, |rows| - 1);
    }
  }

  method CalculatePeriod(rows: seq<Row>, dateFrom: int, dateTo: int, period: nat) returns (r: Report)
    requires period > 0
    ensures Reports(r, rows, dateFrom, dateTo, period)
    ensures r.average == if period <= |rows| then Some(AverageAt(rows, period, |rows| - 1)) else None
  {
    hide Closed, AverageAt, Held, Sma, SignalOf;
    var averages := Reverse(Sma(Prices(rows), period));
    var bars := ClosedWindow(rows, BarsByReversing(rows, period), dateFrom, dateTo);
    var l, signal := Run(bars);
    r := Report(period, l.total - 1.0, l.count, l.min, l.max, l.detail, signal,
                if |averages| > 0 then Some(averages[0]) else None);
    LatestAverage(rows, period);
    assert Carries(r, l);
  }

  ghost function Totals(reports: seq<Report>): (totals: seq<real>)
    ensures |totals| == |reports| && forall k | 0 <= k < |reports| :: totals[k] == reports[k].total
  {
    seq(|reports|, k requires 0 <= k < |reports| => reports[k].total)
  }

  method Reduce(reports: seq<Report>) returns (best: Report)
    requires reports != []
    ensures best == reports[Kept(Totals(reports), |reports|)]
  {
    best := reports[0];
    for k := 0 to |reports|
      invariant best == reports[Kept(Totals(reports), k)]
    {
      best := if best.total == 0.0 then reports[0] else if reports[k].total > best.total then reports[k] else best;
    }
  }

  /** One report a period, and the one the reduction keeps. */
  method Calculate(rows: seq<Row>, dateFrom: int, dateTo: int, asked: Option<nat>, privileged: bool)
    returns (best: Report, reports: seq<Report>)
    requires asked.Some? ==> asked.value > 0
    ensures var periods := Periods(asked, privileged);
            && |reports| == |periods|
            && forall k | 0 <= k < |periods| :: Reports(reports[k], rows, dateFrom, dateTo, periods[k])
    ensures best == reports[Kept(Totals(reports), |reports|)]
  {
    hide Reports;
    reports := [];
    var periods := Periods(asked, privileged);
    for k := 0 to |periods|
      invariant |reports| == k
      invariant forall j | 0 <= j < k :: Reports(reports[j], rows, dateFrom, dateTo, periods[j])
    {
      var r := CalculatePeriod(rows, dateFrom, dateTo, periods[k]);
      reports := reports + [r];
    }
    best := Reduce(reports);
  }

  lemma WindowLength(rows: seq<Row>, dateFrom: int, dateTo: int, period: nat, other: nat)
    requires period > 0 && other > 0
    ensures |WindowOf(rows, dateFrom, dateTo, period)| == |WindowOf(rows, dateFrom, dateTo, other)|
  {
    hide BarsByReversing, FindDate;
  }

  /** The variant of the calculation that reports the average of the second bar: it throws, for
      every period alike, exactly when the window has fewer than two bars. */
  method CalculateBackup(rows: seq<Row>, dateFrom: int, dateTo: int, asked: Option<nat>, privileged: bool)
    returns (r: Option<(Report, seq<Report>)>)
    requires asked.Some? ==> asked.value > 0
    ensures var periods := Periods(asked, privileged);
            && (r.None? <==> |WindowOf(rows, dateFrom, dateTo, periods[0])| < 2)
            && (r.Some? ==>
                  && |r.value.1| == |periods|
                  && (forall k | 0 <= k < |periods| ::
                        && Reports(r.value.1[k], rows, dateFrom, dateTo, periods[k])
                        && |WindowOf(rows, dateFrom, dateTo, periods[k])| >= 2
                        && r.value.1[k].average == Some(WindowOf(rows, dateFrom, dateTo, periods[k])[1].ind))
                  && r.value.0 == r.value.1[Kept(Totals(r.value.1), |r.value.1|)])
  {
    hide Reports, BarsByReversing, ClosedWindow, SignalOf, Closed, Held;
    var reports: seq<Report> := [];
    var periods := Periods(asked, privileged);
    for k := 0 to |periods|
      invariant |reports| == k
      invariant k > 0 ==> |WindowOf(rows, dateFrom, dateTo, periods[0])| >= 2
      invariant forall j | 0 <= j < k ::
                  && Reports(reports[j], rows, dateFrom, dateTo, periods[j])
                  && |WindowOf(rows, dateFrom, dateTo, periods[j])| >= 2
                  && reports[j].average == Some(WindowOf(rows, dateFrom, dateTo, periods[j])[1].ind)
    {
      var bars := ClosedWindow(rows, BarsByReversing(rows, periods[k]), dateFrom, dateTo);
      WindowLength(rows, dateFrom, dateTo, periods[k], periods[0]);
      var l, signal := Run(bars);
      if |bars| < 2 {
        return None;
      }
      var r := Report(periods[k], l.total - 1.0, l.count, l.min, l.max, l.detail, signal, Some(bars[1].ind));
      RunReports(r, l, rows, dateFrom, dateTo, periods[k]);
      reports := reports + [r];
    }
    var best := Reduce(reports);
    return Some((best, reports));
  }

  lemma RunReports(r: Report, l: Ledger, rows: seq<Row>, dateFrom: int, dateTo: int, period: nat)
    requires period > 0 && r.period == period && Carries(r, l)
    requires Closed(l, WindowOf(rows, dateFrom, dateTo, period),
                    Held(Cues(WindowOf(rows, dateFrom, dateTo, period))), true)
    requires SignalOf(WindowOf(rows, dateFrom, dateTo, period), r.signal)
    ensures Reports(r, rows, dateFrom, dateTo, period)
  {
  }

  lemma ReportTotal(r: Report, rows: seq<Row>, dateFrom: int, dateTo: int, period: nat)
    requires period > 0 && Reports(r, rows, dateFrom, dateTo, period)
    requires Tradable(Closes(WindowOf(rows, dateFrom, dateTo, period)))
    ensures var bars := WindowOf(rows, dateFrom, dateTo, period);
            && r.total + 1.0 == MarkToMarket(Closes(bars), Held(Cues(bars)), |bars|)
            && r.count == |r.detail|
  {
    hide Closed, MarkToMarket, Held, WindowOf, Tradable, SignalOf, Cues;
    var bars := WindowOf(rows, dateFrom, dateTo, period);
    var l: Ledger :| Closed(l, bars, Held(Cues(bars)), true) && Carries(r, l);
    TotalIsMarkToMarket(l, bars, Held(Cues(bars)), true);
    CountIsLogLength(l, bars, Held(Cues(bars)), true);
  }

  /** For any two days, the reported total is the growth of an account that is revalued at every
      bar of the closed window while the position is open, each bar carrying the mean of the closes
      that end there. */
  lemma ReportIsMarkToMarket(r: Report, rows: seq<Row>, dateFrom: int, dateTo: int, period: nat)
    requires period > 0 && Tradable(Prices(rows)) && Reports(r, rows, dateFrom, dateTo, period)
    ensures var bars := WindowOf(rows, dateFrom, dateTo, period);
            && Averaged(bars, rows, period, ClosedStart(rows, dateFrom), ClosedEnd(rows, dateTo))
            && Tradable(Closes(bars))
            && r.total + 1.0 == MarkToMarket(Closes(bars), Held(Cues(bars)), |bars|)
            && r.count == |r.detail|
  {
    var bars := ClosedWindow(rows, BarsByReversing(rows, period), dateFrom, dateTo);
    assert bars == WindowOf(rows, dateFrom, dateTo, period);
    hide *;
    ClosedWindowBars(rows, period, dateFrom, dateTo);
    AveragedTradable(bars, rows, period, ClosedStart(rows, dateFrom), ClosedEnd(rows, dateTo));
    ReportTotal(r, rows, dateFrom, dateTo, period);
  }
}
