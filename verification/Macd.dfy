/** The strategies that trade on the MACD line, its signal line and its histogram. */
module Macd {
  import opened Options
  import opened Positions
  import opened TradeLog
  import opened Returns
  import opened Ledger
  import opened Crossover
  import opened Windows

  datatype Lines = Lines(macd: real, signal: real, histogram: real)

  datatype Indicator = MacdSignal | MacdHistogram | Unknown

  function Previous(bars: seq<Bar<Lines>>, i: nat): Option<Lines>
    requires i < |bars|
  {
    if i == 0 then None else Some(bars[i - 1].ind)
  }

  predicate DetermineBuySignal(item: Lines, prev: Option<Lines>, indicator: Indicator) {
    prev.Some? &&
    match indicator
    case MacdSignal => prev.value.macd < prev.value.signal && item.macd > item.signal
    case MacdHistogram => item.macd < item.signal && item.histogram > prev.value.histogram
    case Unknown => false
  }

  /** The previous bar is read only where there is one: an open position on any bar but the last
      means the loop has passed the first bar. */
  predicate DetermineSellSignal(item: Lines, prev: Option<Lines>, isBuy: bool,
                                index: nat, lastIndex: int, indicator: Indicator)
    requires isBuy && index != lastIndex ==> prev.Some?
  {
    isBuy && (
      index == lastIndex ||
      match indicator
      case MacdSignal => prev.value.macd > prev.value.signal && item.macd < item.signal
      case MacdHistogram => item.macd > item.signal && item.histogram < prev.value.histogram
      case Unknown => false)
  }

  function DetermineLastSignal(item: Lines, prev: Option<Lines>, isBuy: bool, indicator: Indicator): nat {
    if prev.None? then HOLD_SELL
    else
      match indicator
      case MacdSignal =>
        if item.macd > item.signal then BUY
        else if item.macd < item.signal then SELL
        else if isBuy then HOLD_BUY else HOLD_SELL
      case MacdHistogram =>
        if item.macd < item.signal && item.histogram > prev.value.histogram then BUY
        else if item.macd > item.signal && item.histogram < prev.value.histogram then SELL
        else if isBuy then HOLD_BUY else HOLD_SELL
      case Unknown => HOLD_SELL
  }

  /** When to leave, before the forced sale of the last bar. */
  ghost predicate Leaves(bars: seq<Bar<Lines>>, indicator: Indicator, i: nat)
    requires i < |bars|
  {
    i > 0 && DetermineSellSignal(bars[i].ind, Previous(bars, i), true, i, -1, indicator)
  }

  ghost function Cues(bars: seq<Bar<Lines>>, indicator: Indicator): (cues: seq<Cue>)
    ensures |cues| == |bars|
    ensures forall i {:trigger cues[i]} | 0 <= i < |bars| ::
              cues[i] == Cue(DetermineBuySignal(bars[i].ind, Previous(bars, i), indicator), Leaves(bars, indicator, i))
  {
    seq(|bars|, i requires 0 <= i < |bars| =>
      Cue(DetermineBuySignal(bars[i].ind, Previous(bars, i), indicator), Leaves(bars, indicator, i)))
  }

  lemma SellSignalIs(bars: seq<Bar<Lines>>, indicator: Indicator, isBuy: bool, i: nat)
    requires i < |bars| && (isBuy ==> i > 0)
    ensures DetermineSellSignal(bars[i].ind, Previous(bars, i), isBuy, i, |bars| - 1, indicator)
       <==> isBuy && (i == |bars| - 1 || Leaves(bars, indicator, i))
  {
  }

  /** What the reported signal says.  On the histogram it is buy or hold-buy exactly when the
      position is open after the bar; on the signal line it only tells whether the line is above
      or below, and the position decides a tie. */
  ghost predicate SignalOf(bars: seq<Bar<Lines>>, indicator: Indicator, open: bool, signal: nat) {
    if bars == [] then signal == BUY
    else if |bars| == 1 then signal == HOLD_SELL
    else
      var last, prev := bars[|bars| - 1].ind, bars[|bars| - 2].ind;
      signal <= HOLD_SELL &&
      match indicator
      case MacdSignal =>
        && (signal == BUY <==> last.macd > last.signal) && (signal == SELL <==> last.macd < last.signal)
        && (signal == HOLD_BUY ==> open) && (signal == HOLD_SELL ==> !open)
      case MacdHistogram =>
        && (signal in {BUY, HOLD_BUY} <==> open)
        && (signal == BUY <==> last.macd < last.signal && last.histogram > prev.histogram)
        && (signal == SELL <==> last.macd > last.signal && last.histogram < prev.histogram)
      case Unknown => signal == HOLD_SELL
  }

  lemma LastSignalIs(bars: seq<Bar<Lines>>, indicator: Indicator, wasOpen: bool)
    requires bars != []
    ensures var i, last := |bars| - 1, bars[|bars| - 1].ind;
            var buys := DetermineBuySignal(last, Previous(bars, i), indicator);
            SignalOf(bars, indicator, if wasOpen then !Leaves(bars, indicator, i) else buys,
                     DetermineLastSignal(last, Previous(bars, i), wasOpen || buys, indicator))
  {
  }

  /** The strategy loop.  The sale is decided before the entry, so a bar never enters and sells;
      an entry on the last bar stays open and is counted but not logged. */
  method Run(bars: seq<Bar<Lines>>, indicator: Indicator) returns (l: Ledger, signal: nat)
    ensures Closed(l, bars, Held(Cues(bars, indicator)), false)
    ensures SignalOf(bars, indicator, bars != [] && HeldAt(Cues(bars, indicator), |bars| - 1), signal)
  {
    hide Closed, Tracks, Sell, Held, SignalOf;
    l, signal := START, BUY;
    ghost var held := Held(Cues(bars, indicator));
    StartTracks(bars, held, false);
    assert bars == [] ==> SignalOf(bars, indicator, false, BUY) by { NoSignal(indicator); }
    for i := 0 to |bars|
      invariant if i < |bars| then Tracks(l, bars, held, i) else Closed(l, bars, held, false)
      invariant i == |bars| ==> SignalOf(bars, indicator, i > 0 && held[i - 1], signal)
    {
      hide DetermineSellSignal, DetermineBuySignal, DetermineLastSignal, Leaves;
      ghost var before := l;
      NextTracks(l, bars, held, i, false);
      assert held[i] == HeldAt(Cues(bars, indicator), i);
      SellSignalIs(bars, indicator, l.isBuy, i);
      if i == |bars| - 1 {
        LastSignalIs(bars, indicator, l.isBuy);
      }
      var item := bars[i].ind;
      var shouldBuy := DetermineBuySignal(item, Previous(bars, i), indicator);
      var shouldSell := DetermineSellSignal(item, Previous(bars, i), l.isBuy, i, |bars| - 1, indicator);
      if shouldBuy && !l.isBuy {
        l := Buy(l, i);
      }
      if i == |bars| - 1 {
        signal := DetermineLastSignal(item, Previous(bars, i), l.isBuy, indicator);
      }
      if shouldSell && l.isBuy {
        l := Sell(l, bars, i);
      }
      assert l == Next(before, bars, held[i], i, false);
    }
  }

  lemma NoSignal(indicator: Indicator)
    ensures SignalOf([], indicator, false, BUY)
  {
  }

  ghost function MacdLine(bars: seq<Bar<Lines>>): (s: seq<real>)
    ensures |s| == |bars| && forall i | 0 <= i < |bars| :: s[i] == bars[i].ind.macd
  {
    seq(|bars|, i requires 0 <= i < |bars| => bars[i].ind.macd)
  }

  ghost function SignalLine(bars: seq<Bar<Lines>>): (s: seq<real>)
    ensures |s| == |bars| && forall i | 0 <= i < |bars| :: s[i] == bars[i].ind.signal
  {
    seq(|bars|, i requires 0 <= i < |bars| => bars[i].ind.signal)
  }

  /** On the signal line, the position is the plain crossover condition exactly when no tie sits
      next to a bar above it once the line has been below. */
  lemma PositionIsCrossover(bars: seq<Bar<Lines>>)
    ensures var cues, fast, slow := Cues(bars, MacdSignal), MacdLine(bars), SignalLine(bars);
            && ((forall i | 0 <= i < |bars| :: AgreesAt(cues, fast, slow, false, i))
                <==> (forall i | 0 < i < |bars| :: !Misleads(fast, slow, false, i)))
            && ((forall i | 0 <= i < |bars| :: !Tie(fast, slow, i))
                ==> (forall i | 0 <= i < |bars| :: AgreesAt(cues, fast, slow, false, i)))
  {
    assert CrossCues(Cues(bars, MacdSignal), MacdLine(bars), SignalLine(bars), false);
    HeldIffCrossed(Cues(bars, MacdSignal), MacdLine(bars), SignalLine(bars), false);
  }

  /** On either indicator the position is open exactly when some bar entered and none left since. */
  lemma PositionIsEntrySinceExit(bars: seq<Bar<Lines>>, indicator: Indicator, i: nat)
    requires i < |bars|
    ensures HeldAt(Cues(bars, indicator), i)
       <==> exists j: nat | j <= i :: EnteredSince(Cues(bars, indicator), j, i)
  {
    assert Exclusive(Cues(bars, indicator));
    HeldIffEnteredSince(Cues(bars, indicator), i);
  }

  /** On the histogram the position is open exactly when, at some bar, the histogram rose with the
      line below its signal, and at no bar since did it fall with the line above. */
  lemma HistogramPosition(bars: seq<Bar<Lines>>, i: nat)
    requires i < |bars|
    ensures HeldAt(Cues(bars, MacdHistogram), i) <==>
              exists j | 0 < j <= i :: RoseBelow(bars, j) && forall k | j < k <= i :: !FellAbove(bars, k)
  {
    var cues := Cues(bars, MacdHistogram);
    assert forall k | 0 < k < |bars| :: cues[k] == Cue(RoseBelow(bars, k), FellAbove(bars, k));
    PositionIsEntrySinceExit(bars, MacdHistogram, i);
    hide RoseBelow, FellAbove, Cues;
    assert !cues[0].enter by { FirstBarIsQuiet(bars, MacdHistogram); }
    if j: nat :| j <= i && EnteredSince(cues, j, i) {
      assert 0 < j && RoseBelow(bars, j);
      assert forall k | j < k <= i :: cues[k].leave == FellAbove(bars, k);
    }
    if j :| 0 < j <= i && RoseBelow(bars, j) && forall k | j < k <= i :: !FellAbove(bars, k) {
      assert EnteredSince(cues, j, i);
    }
  }

  ghost predicate RoseBelow(bars: seq<Bar<Lines>>, k: int)
    requires 0 < k < |bars|
  {
    bars[k].ind.macd < bars[k].ind.signal && bars[k].ind.histogram > bars[k - 1].ind.histogram
  }

  ghost predicate FellAbove(bars: seq<Bar<Lines>>, k: int)
    requires 0 < k < |bars|
  {
    bars[k].ind.macd > bars[k].ind.signal && bars[k].ind.histogram < bars[k - 1].ind.histogram
  }

  lemma FirstBarIsQuiet(bars: seq<Bar<Lines>>, indicator: Indicator)
    requires bars != []
    ensures Cues(bars, indicator)[0] == Cue(false, false)
  {
  }

  /** The line came from below its signal to above it, or the other way round. */
  ghost predicate CrossedUp(bars: seq<Bar<Lines>>, k: int)
    requires 0 < k < |bars|
  {
    bars[k - 1].ind.macd < bars[k - 1].ind.signal && bars[k].ind.macd > bars[k].ind.signal
  }

  ghost predicate CrossedDown(bars: seq<Bar<Lines>>, k: int)
    requires 0 < k < |bars|
  {
    bars[k - 1].ind.macd > bars[k - 1].ind.signal && bars[k].ind.macd < bars[k].ind.signal
  }

  ghost predicate UpSinceDown(bars: seq<Bar<Lines>>, i: nat)
    requires i < |bars|
  {
    exists j | 0 < j <= i :: CrossedUp(bars, j) && forall k | j < k <= i :: !CrossedDown(bars, k)
  }

  lemma SignalLineCues(bars: seq<Bar<Lines>>)
    ensures forall k | 0 < k < |bars| ::
              Cues(bars, MacdSignal)[k] == Cue(CrossedUp(bars, k), CrossedDown(bars, k))
  {
  }

  /** On the signal line the position is open exactly when the line crossed up at some bar and has
      not crossed down since. */
  lemma {:induction false} SignalLinePosition(bars: seq<Bar<Lines>>, i: nat)
    requires i < |bars|
    ensures HeldAt(Cues(bars, MacdSignal), i) <==> UpSinceDown(bars, i)
  {
    hide CrossedUp, CrossedDown, Cues, HeldAt;
    var cues := Cues(bars, MacdSignal);
    PositionIsEntrySinceExit(bars, MacdSignal, i);
    SignalLineCues(bars);
    assert !cues[0].enter by { FirstBarIsQuiet(bars, MacdSignal); }
    if j: nat :| j <= i && EnteredSince(cues, j, i) {
      assert 0 < j && CrossedUp(bars, j);
      assert forall k | j < k <= i :: cues[k].leave == CrossedDown(bars, k);
    }
    if j :| 0 < j <= i && CrossedUp(bars, j) && forall k | j < k <= i :: !CrossedDown(bars, k) {
      assert EnteredSince(cues, j, i);
    }
  }

  /** When the signal of the signal line, read as buy or hold-buy, tells whether a position is open:
      never on an empty window and always on a single bar; on longer windows, if the last bar is
      tied, if it is above and the line crossed up since it last crossed down, or if it is below
      and it did not. */
  ghost predicate Truthful(bars: seq<Bar<Lines>>) {
    bars != [] &&
    (|bars| > 1 ==>
       var i, last := |bars| - 1, bars[|bars| - 1].ind;
       last.macd == last.signal || (last.macd > last.signal <==> UpSinceDown(bars, i)))
  }

  lemma {:induction false} SignalTellsPositionIff(bars: seq<Bar<Lines>>, signal: nat)
    requires SignalOf(bars, MacdSignal, bars != [] && HeldAt(Cues(bars, MacdSignal), |bars| - 1), signal)
    ensures (signal in {BUY, HOLD_BUY} <==> bars != [] && HeldAt(Cues(bars, MacdSignal), |bars| - 1))
       <==> Truthful(bars)
  {
    hide Cues, UpSinceDown;
    if bars != [] {
      SignalLinePosition(bars, |bars| - 1);
      assert |bars| == 1 ==> !HeldAt(Cues(bars, MacdSignal), 0) by { FirstBarIsQuiet(bars, MacdSignal); }
    }
    hide HeldAt;
  }

  /** Where no tie misleads the loop, the signal is wrong only on windows that end above the signal
      line and were never below it. */
  lemma {:induction false} UntiedSignalTellsPositionIff(bars: seq<Bar<Lines>>, signal: nat)
    requires |bars| > 1 && forall k | 0 < k < |bars| :: !Misleads(MacdLine(bars), SignalLine(bars), false, k)
    requires SignalOf(bars, MacdSignal, HeldAt(Cues(bars, MacdSignal), |bars| - 1), signal)
    ensures var i, fast, slow := |bars| - 1, MacdLine(bars), SignalLine(bars);
            (signal in {BUY, HOLD_BUY} <==> HeldAt(Cues(bars, MacdSignal), i))
            <==> (Above(fast, slow, i) ==> WasLow(fast, slow, false, i))
  {
    var i, fast, slow := |bars| - 1, MacdLine(bars), SignalLine(bars);
    PositionIsCrossover(bars);
    assert AgreesAt(Cues(bars, MacdSignal), fast, slow, false, i);
    hide Cues, WasLow, Misleads, HeldAt;
  }

  /** Two quiet bars with the line above: the signal is buy, yet no position was ever opened. */
  lemma SignalWithoutPosition() returns (bars: seq<Bar<Lines>>)
    ensures |bars| == 2 && !HeldAt(Cues(bars, MacdSignal), 1)
    ensures SignalOf(bars, MacdSignal, false, BUY)
  {
    var line := Lines(1.0, 0.0, 1.0);
    bars := [Bar(1, 10.0, line), Bar(2, 10.0, line)];
    assert Cues(bars, MacdSignal)[0] == Cue(false, false);
    assert !HeldAt(Cues(bars, MacdSignal), 0);
  }

  /** With any other indicator nothing is ever bought. */
  lemma {:induction false} UnknownNeverBuys(bars: seq<Bar<Lines>>, i: nat)
    requires i < |bars|
    ensures !HeldAt(Cues(bars, Unknown), i)
  {
    if i > 0 {
      UnknownNeverBuys(bars, i - 1);
    }
  }

  /** Every reported trade spans at least one bar. */
  lemma TradesSpanABar(l: Ledger, bars: seq<Bar<Lines>>, indicator: Indicator, k: nat)
    requires Closed(l, bars, Held(Cues(bars, indicator)), false) && k < |l.detail|
    ensures exists buy: nat, sell: nat :: buy < sell < |bars| &&
              l.detail[k].dateBuy == bars[buy].date && l.detail[k].dateSell == bars[sell].date
  {
    hide Closed, IsLog, IsTrade;
    var held := Held(Cues(bars, indicator));
    var log := Spans(held, false);
    SpansIsLog(held, false);
    RowsAreTheLog(l, bars, held, false, log, k);
    OnlyLastBarTradesAreEmpty(held, false, log, k);
    SpansAreTrades(held, false, k);
    TradeIsForward(held, log[k]);
    assert log[k].buy < log[k].sell;
  }

  lemma TradeIsForward(held: seq<bool>, s: Span)
    requires IsTrade(held, s)
    ensures s.buy <= s.sell < |held|
  {
  }

  /** The calculation on a price history, oldest first, and its lines, newest first; missing
      lines count as zero. */
  method Calculate(rows: seq<Row>, newestLines: seq<Lines>, dateFrom: int, dateTo: int, indicator: Indicator)
    returns (total: real, count: nat, min: real, max: real, detail: seq<Deal>, signal: nat)
    ensures var bars := OpenWindow(rows, Attach(rows, newestLines), dateFrom, dateTo);
            exists l: Ledger ::
              && Closed(l, bars, Held(Cues(bars, indicator)), false)
              && l.total == total + 1.0 && l.count == count && l.min == min && l.max == max && l.detail == detail
    ensures var bars := OpenWindow(rows, Attach(rows, newestLines), dateFrom, dateTo);
            SignalOf(bars, indicator, bars != [] && HeldAt(Cues(bars, indicator), |bars| - 1), signal)
  {
    var bars := OpenWindow(rows, Attach(rows, newestLines), dateFrom, dateTo);
    var l, s := Run(bars, indicator);
    total, count, min, max, detail, signal := l.total - 1.0, l.count, l.min, l.max, l.detail, s;
  }

  function Attach(rows: seq<Row>, newestLines: seq<Lines>): (bars: seq<Bar<Lines>>)
    ensures |bars| == |rows|
  {
    var newest := Reverse(rows);
    seq(|rows|, i requires 0 <= i < |rows| =>
      Bar(newest[i].date, newest[i].close, if i < |newestLines| then newestLines[i] else Lines(0.0, 0.0, 0.0)))
  }

  /** The lines of each row, oldest first: counted from the newest row, and zero where they run out. */
  ghost function LinesOf(rows: seq<Row>, newestLines: seq<Lines>): (lines: seq<Lines>)
    ensures |lines| == |rows|
    ensures forall i | 0 <= i < |rows| ::
              lines[i] == if |rows| - 1 - i < |newestLines| then newestLines[|rows| - 1 - i] else Lines(0.0, 0.0, 0.0)
  {
    seq(|rows|, i requires 0 <= i < |rows| =>
      if |rows| - 1 - i < |newestLines| then newestLines[|rows| - 1 - i] else Lines(0.0, 0.0, 0.0))
  }

  lemma AttachAt(rows: seq<Row>, newestLines: seq<Lines>, i: nat)
    requires i < |rows|
    ensures Attach(rows, newestLines)[|rows| - 1 - i] == Bar(rows[i].date, rows[i].close, LinesOf(rows, newestLines)[i])
  {
  }

  /** The open window with the lines of its rows, for any two days. */
  lemma WindowCarriesLines(rows: seq<Row>, newestLines: seq<Lines>, dateFrom: int, dateTo: int)
    requires DistinctDates(rows)
    ensures CarriesFrom(OpenWindow(rows, Attach(rows, newestLines), dateFrom, dateTo), rows, LinesOf(rows, newestLines),
                        OpenStart(rows, dateFrom), OpenEnd(rows, dateTo))
  {
    hide OpenWindow, Attach, LinesOf, OpenStart, OpenEnd, Reverse;
    OpenWindowAt(rows, Attach(rows, newestLines), dateFrom, dateTo);
    forall i: nat | i < |rows|
      ensures Attach(rows, newestLines)[|rows| - 1 - i]
           == Bar(rows[i].date, rows[i].close, LinesOf(rows, newestLines)[i])
    {
      AttachAt(rows, newestLines, i);
    }
  }

  /** On a history with one row a day, and for any two days, the total is the growth of an account
      revalued at every bar of the open window while the position is open. */
  lemma TotalIsMarkToMarketBetween(l: Ledger, rows: seq<Row>, newestLines: seq<Lines>, dateFrom: int, dateTo: int,
                                   indicator: Indicator)
    requires DistinctDates(rows) && Tradable(Prices(rows))
    requires var bars := OpenWindow(rows, Attach(rows, newestLines), dateFrom, dateTo);
             Closed(l, bars, Held(Cues(bars, indicator)), false)
    ensures var bars := OpenWindow(rows, Attach(rows, newestLines), dateFrom, dateTo);
            && CarriesFrom(bars, rows, LinesOf(rows, newestLines), OpenStart(rows, dateFrom), OpenEnd(rows, dateTo))
            && Tradable(Closes(bars))
            && l.total == MarkToMarket(Closes(bars), Held(Cues(bars, indicator)), |bars|)
  {
    hide *;
    var bars := OpenWindow(rows, Attach(rows, newestLines), dateFrom, dateTo);
    WindowCarriesLines(rows, newestLines, dateFrom, dateTo);
    CarriedTradable(bars, rows, LinesOf(rows, newestLines), OpenStart(rows, dateFrom), OpenEnd(rows, dateTo));
    TotalIsMarkToMarket(l, bars, Held(Cues(bars, indicator)), false);
  }
}
