/** The strategy that trades when a short moving average crosses a long one. */
module AverageCross {
  import opened Positions
  import opened TradeLog
  import opened Returns
  import opened Ledger
  import opened Crossover
  import opened Windows

  ghost function Shorts(bars: seq<Bar<Averages>>): (s: seq<real>)
    ensures |s| == |bars| && forall i | 0 <= i < |bars| :: s[i] == bars[i].ind.short
  {
    seq(|bars|, i requires 0 <= i < |bars| => bars[i].ind.short)
  }

  ghost function Longs(bars: seq<Bar<Averages>>): (s: seq<real>)
    ensures |s| == |bars| && forall i | 0 <= i < |bars| :: s[i] == bars[i].ind.long
  {
    seq(|bars|, i requires 0 <= i < |bars| => bars[i].ind.long)
  }

  predicate CrossesUp(bars: seq<Bar<Averages>>, i: nat)
    requires 0 < i < |bars|
  {
    bars[i - 1].ind.short < bars[i - 1].ind.long && bars[i].ind.short > bars[i].ind.long
  }

  predicate CrossesDown(bars: seq<Bar<Averages>>, i: nat)
    requires 0 < i < |bars|
  {
    bars[i - 1].ind.short > bars[i - 1].ind.long && bars[i].ind.short < bars[i].ind.long
  }

  ghost function Cues(bars: seq<Bar<Averages>>): (cues: seq<Cue>)
    ensures |cues| == |bars|
    ensures forall i {:trigger cues[i]} | 0 <= i < |bars| ::
              cues[i] == Cue(i > 0 && CrossesUp(bars, i), i > 0 && CrossesDown(bars, i))
  {
    seq(|bars|, i requires 0 <= i < |bars| => Cue(i > 0 && CrossesUp(bars, i), i > 0 && CrossesDown(bars, i)))
  }

  /** What the reported signal says.  The first bar is skipped, so a window of one bar keeps the
      initial signal although no position is open; on longer windows it is buy or hold-buy exactly
      when the run ends with an open position, which it liquidates. */
  ghost predicate SignalOf(bars: seq<Bar<Averages>>, signal: nat) {
    if |bars| <= 1 then signal == BUY && (bars != [] ==> !HeldAt(Cues(bars), 0))
    else
      var s, l, n := Shorts(bars), Longs(bars), |bars| - 1;
      && (signal in {BUY, HOLD_BUY} <==> HeldAt(Cues(bars), n))
      && (signal == BUY <==> s[n - 1] < l[n - 1] && s[n] > l[n])
      && (signal == SELL <==> s[n - 1] > l[n - 1] && s[n] < l[n])
      && signal <= HOLD_SELL
  }

  /** The strategy loop. */
  method Run(bars: seq<Bar<Averages>>) returns (l: Ledger, signal: nat)
    ensures Closed(l, bars, Held(Cues(bars)), true)
    ensures SignalOf(bars, signal)
  {
    hide Closed, Tracks, Sell, Held;
    l, signal := START, BUY;
    ghost var held := Held(Cues(bars));
    StartTracks(bars, held, true);
    for i := 0 to |bars|
      invariant if i < |bars| then Tracks(l, bars, held, i) else Closed(l, bars, held, true)
      invariant i <= 1 ==> signal == BUY
      invariant i == |bars| > 1 ==>
                  && (signal in {BUY, HOLD_BUY} <==> held[i - 1])
                  && (signal == BUY <==> CrossesUp(bars, i - 1))
                  && (signal == SELL <==> CrossesDown(bars, i - 1))
                  && signal <= HOLD_SELL
    {
      ghost var before := l;
      NextTracks(l, bars, held, i, true);
      assert held[i] == HeldAt(Cues(bars), i);
      if i > 0 {
        if CrossesUp(bars, i) && !l.isBuy {
          l := Buy(l, i);
        }
        if i == |bars| - 1 {
          signal := if CrossesUp(bars, i) then BUY
                    else if CrossesDown(bars, i) then SELL
                    else if l.isBuy then HOLD_BUY else HOLD_SELL;
        }
        if (CrossesDown(bars, i) && l.isBuy) || (i == |bars| - 1 && l.isBuy) {
          l := Sell(l, bars, i);
        }
      }
      assert l == Next(before, bars, held[i], i, true);
    }
  }

  /** The first series came from below the second to above it. */
  ghost predicate RosePast(s: seq<real>, l: seq<real>, k: int)
    requires 0 < k < |s| == |l|
  {
    s[k - 1] < l[k - 1] && s[k] > l[k]
  }

  ghost predicate FellPast(s: seq<real>, l: seq<real>, k: int)
    requires 0 < k < |s| == |l|
  {
    s[k - 1] > l[k - 1] && s[k] < l[k]
  }

  /** The position after any bar, ties included: it is open exactly when the short average rose past
      the long one at some bar and has not fallen past it since. */
  lemma PositionIsLastCrossing(bars: seq<Bar<Averages>>, i: nat)
    requires i < |bars|
    ensures var s, l := Shorts(bars), Longs(bars);
            HeldAt(Cues(bars), i) <==>
              exists j | 0 < j <= i :: RosePast(s, l, j) && forall k | j < k <= i :: !FellPast(s, l, k)
  {
    var cues, s, l := Cues(bars), Shorts(bars), Longs(bars);
    assert Exclusive(cues);
    HeldIffEnteredSince(cues, i);
    CuesOnSeries(bars);
    hide Cues, HeldAt, RosePast, FellPast;
    if j: nat :| j <= i && EnteredSince(cues, j, i) {
      assert 0 < j && RosePast(s, l, j);
      assert forall k | j < k <= i :: cues[k].leave == FellPast(s, l, k);
    }
    if j :| 0 < j <= i && RosePast(s, l, j) && forall k | j < k <= i :: !FellPast(s, l, k) {
      assert forall k | j < k <= i :: cues[k].leave == FellPast(s, l, k);
      assert EnteredSince(cues, j, i);
    }
  }

  lemma CuesOnSeries(bars: seq<Bar<Averages>>)
    ensures var cues, s, l := Cues(bars), Shorts(bars), Longs(bars);
            && (bars != [] ==> cues[0] == Cue(false, false))
            && forall k {:trigger cues[k]} | 0 < k < |bars| :: cues[k] == Cue(RosePast(s, l, k), FellPast(s, l, k))
  {
  }

  /** The position is "short above long, after having been below" exactly when no tie sits next
      to a bar above once the short average has been below. */
  lemma PositionIsCrossover(bars: seq<Bar<Averages>>)
    ensures var cues, fast, slow := Cues(bars), Shorts(bars), Longs(bars);
            && ((forall i | 0 <= i < |bars| :: AgreesAt(cues, fast, slow, false, i))
                <==> (forall i | 0 < i < |bars| :: !Misleads(fast, slow, false, i)))
            && ((forall i | 0 <= i < |bars| :: !Tie(fast, slow, i))
                ==> (forall i | 0 <= i < |bars| :: AgreesAt(cues, fast, slow, false, i)))
  {
    assert CrossCues(Cues(bars), Shorts(bars), Longs(bars), false);
    HeldIffCrossed(Cues(bars), Shorts(bars), Longs(bars), false);
  }

  /** The calculation on a price history: the window excludes both end days. */
  method Calculate(rows: seq<Row>, dateFrom: int, dateTo: int, short: nat, long: nat)
    returns (total: real, count: nat, min: real, max: real, detail: seq<Deal>, signal: nat)
    requires short > 0 && long > 0
    ensures var bars := OpenWindow(rows, BarsNewestFirst(rows, short, long), dateFrom, dateTo);
            && Closed(Ledger(false, 0, count, total + 1.0, min, max, detail), bars, Held(Cues(bars)), true)
            && SignalOf(bars, signal)
  {
    var bars := OpenWindow(rows, BarsNewestFirst(rows, short, long), dateFrom, dateTo);
    var l, s := Run(bars);
    CountIsLogLength(l, bars, Held(Cues(bars)), true);
    total, count, min, max, detail, signal := l.total - 1.0, l.count, l.min, l.max, l.detail, s;
  }

  /** On a history with one row a day, and for any two days, the total of the calculation is the
      growth of an account revalued at every bar of the open window while the position is open, each
      bar carrying the two averages of the closes that end there. */
  lemma TotalIsMarkToMarketBetween(l: Ledger, rows: seq<Row>, dateFrom: int, dateTo: int, short: nat, long: nat)
    requires short > 0 && long > 0 && DistinctDates(rows) && Tradable(Prices(rows))
    requires var bars := OpenWindow(rows, BarsNewestFirst(rows, short, long), dateFrom, dateTo);
             Closed(l, bars, Held(Cues(bars)), true)
    ensures var bars := OpenWindow(rows, BarsNewestFirst(rows, short, long), dateFrom, dateTo);
            && AveragedTwice(bars, rows, short, long, OpenStart(rows, dateFrom), OpenEnd(rows, dateTo))
            && Tradable(Closes(bars))
            && l.total == MarkToMarket(Closes(bars), Held(Cues(bars)), |bars|)
  {
    hide *;
    var bars := OpenWindow(rows, BarsNewestFirst(rows, short, long), dateFrom, dateTo);
    OpenWindowBars(rows, short, long, dateFrom, dateTo);
    AveragedTwiceTradable(bars, rows, short, long, OpenStart(rows, dateFrom), OpenEnd(rows, dateTo));
    TotalIsMarkToMarket(l, bars, Held(Cues(bars)), true);
  }
}
