/** The variables every strategy loop carries, and what they mean at each bar. */
module Ledger {
  import opened Reals
  import opened TradeLog
  import opened Returns

  /** A bar of the price window with the indicator values attached to it.  Days are numbered. */
  datatype Bar<T> = Bar(date: int, close: real, ind: T)

  /** One row of the trade log that a strategy reports. */
  datatype Deal = Deal(dateBuy: int, dateSell: int, priceBuy: real, priceSell: real, profit: real)

  datatype Ledger = Ledger(
    isBuy: bool, indexBuy: nat, count: nat, total: real, min: real, max: real, detail: seq<Deal>)

  // Signals reported for the last bar.
  const BUY: nat := 0
  const SELL: nat := 1
  const HOLD_BUY: nat := 2
  const HOLD_SELL: nat := 3

  const START := Ledger(false, 0, 0, 1.0, 0.0, 0.0, [])

  ghost function Closes<T>(bars: seq<Bar<T>>): (closes: seq<real>)
    ensures |closes| == |bars| && forall i | 0 <= i < |bars| :: closes[i] == bars[i].close
  {
    seq(|bars|, i requires 0 <= i < |bars| => bars[i].close)
  }

  /** The indicator series of bars that carry one value. */
  ghost function Indicators(bars: seq<Bar<real>>): (values: seq<real>)
    ensures |values| == |bars| && forall i | 0 <= i < |bars| :: values[i] == bars[i].ind
  {
    seq(|bars|, i requires 0 <= i < |bars| => bars[i].ind)
  }

  function DealOf<T>(bars: seq<Bar<T>>, s: Span): Deal
    requires s.buy < |bars| && s.sell < |bars|
  {
    Deal(bars[s.buy].date, bars[s.sell].date, bars[s.buy].close, bars[s.sell].close,
         Profit(bars[s.buy].close, bars[s.sell].close))
  }

  function Buy(l: Ledger, i: nat): Ledger {
    l.(isBuy := true, indexBuy := i, count := l.count + 1)
  }

  function Sell<T>(l: Ledger, bars: seq<Bar<T>>, i: nat): Ledger
    requires l.indexBuy < |bars| && i < |bars|
  {
    var percent := Profit(bars[l.indexBuy].close, bars[i].close);
    l.(isBuy := false, total := l.total * (1.0 + percent / 100.0),
       min := Min(l.min, percent / 100.0), max := Max(l.max, percent / 100.0),
       detail := l.detail + [DealOf(bars, Span(l.indexBuy, i))])
  }

  // ----- what the variables mean

  /** The running total, extremes and rows are those of the trades in `log`. */
  ghost predicate Settles<T>(l: Ledger, bars: seq<Bar<T>>, log: seq<Span>) {
    && InWindow(Closes(bars), log)
    && |l.detail| == |log|
    && (forall k | 0 <= k < |log| :: l.detail[k] == DealOf(bars, log[k]))
    && l.total == Compound(Closes(bars), log)
    && l.min == Worst(Closes(bars), log)
    && l.max == Best(Closes(bars), log)
  }

  /** The ledger before bar `k`. */
  ghost predicate Tracks<T>(l: Ledger, bars: seq<Bar<T>>, held: seq<bool>, k: nat) {
    && k <= |held| == |bars|
    && l.isBuy == (k > 0 && held[k - 1])
    && (l.isBuy ==> l.indexBuy == RunStart(held, k))
    && l.count == Entries(held, k)
    && Settles(l, bars, Dropped(held, k))
  }

  /** The ledger after the last bar. */
  ghost predicate Closed<T>(l: Ledger, bars: seq<Bar<T>>, held: seq<bool>, closesEntryBar: bool) {
    && |held| == |bars|
    && l.isBuy == (|held| > 0 && held[|held| - 1] && !Liquidates(held, closesEntryBar))
    && l.count == Entries(held, |held|)
    && Settles(l, bars, Spans(held, closesEntryBar))
  }

  // ----- one bar

  /** What a loop does at bar `i` when the position after the bar, before any liquidation, is
      `hold`. */
  function Next<T>(l: Ledger, bars: seq<Bar<T>>, hold: bool, i: nat, closesEntryBar: bool): Ledger
    requires i < |bars| && (l.isBuy ==> l.indexBuy < |bars|)
  {
    var entered := if hold && !l.isBuy then Buy(l, i) else l;
    var liquidates := i == |bars| - 1 && if closesEntryBar then entered.isBuy else l.isBuy;
    if (l.isBuy && !hold) || liquidates then Sell(entered, bars, i) else entered
  }

  lemma SellSettles<T>(l: Ledger, bars: seq<Bar<T>>, log: seq<Span>, i: nat)
    requires Settles(l, bars, log) && l.indexBuy < |bars| && i < |bars|
    ensures Settles(Sell(l, bars, i), bars, log + [Span(l.indexBuy, i)])
    ensures !Sell(l, bars, i).isBuy && Sell(l, bars, i).count == l.count
  {
    hide Compound, Worst, Best, Profit;
    var s := Span(l.indexBuy, i);
    CompoundAppend(Closes(bars), log, s);
    SellMultiplies(l, bars, i);
    hide Times, Gain;
  }

  lemma SellMultiplies<T>(l: Ledger, bars: seq<Bar<T>>, i: nat)
    requires l.indexBuy < |bars| && i < |bars|
    ensures var gain := Gain(Closes(bars), Span(l.indexBuy, i));
            && Sell(l, bars, i).total == Times(l.total, 1.0 + gain)
            && Sell(l, bars, i).min == Min(l.min, gain)
            && Sell(l, bars, i).max == Max(l.max, gain)
  {
    hide Profit;
  }

  lemma BuySettles<T>(l: Ledger, bars: seq<Bar<T>>, log: seq<Span>, i: nat)
    requires Settles(l, bars, log)
    ensures Settles(Buy(l, i), bars, log)
  {
  }

  lemma NextTracks<T>(l: Ledger, bars: seq<Bar<T>>, held: seq<bool>, i: nat, closesEntryBar: bool)
    requires Tracks(l, bars, held, i) && i < |bars|
    ensures l.isBuy == (i > 0 && held[i - 1])
    ensures l.isBuy ==> l.indexBuy < |bars|
    ensures var after := Next(l, bars, held[i], i, closesEntryBar);
            if i < |bars| - 1 then Tracks(after, bars, held, i + 1) else Closed(after, bars, held, closesEntryBar)
  {
    hide Settles, Sell;
    BuySettles(l, bars, Dropped(held, i), i);
    var entered := if held[i] && !l.isBuy then Buy(l, i) else l;
    assert held[i] ==> entered.indexBuy == RunStart(held, i + 1) && Dropped(held, i + 1) == Dropped(held, i);
    if entered.isBuy {
      SellSettles(entered, bars, Dropped(held, i), i);
    }
  }

  lemma StartTracks<T>(bars: seq<Bar<T>>, held: seq<bool>, closesEntryBar: bool)
    requires |held| == |bars|
    ensures Tracks(START, bars, held, 0)
    ensures bars == [] ==> Closed(START, bars, held, closesEntryBar)
  {
  }

  // ----- what every closed ledger satisfies

  /** The total is the growth of the account that is revalued at every bar while the position
      is open. */
  lemma TotalIsMarkToMarket<T>(l: Ledger, bars: seq<Bar<T>>, held: seq<bool>, closesEntryBar: bool)
    requires Closed(l, bars, held, closesEntryBar) && Tradable(Closes(bars))
    ensures l.total == MarkToMarket(Closes(bars), held, |bars|)
  {
    CompoundIsMarkToMarket(Closes(bars), held, closesEntryBar);
  }

  /** The reported rows are the trades of the one log that the history of positions has: days and
      prices of the two bars, and the gain in percent of the price paid. */
  lemma RowsAreTheLog<T>(l: Ledger, bars: seq<Bar<T>>, held: seq<bool>, closesEntryBar: bool, log: seq<Span>, k: nat)
    requires Closed(l, bars, held, closesEntryBar) && IsLog(held, closesEntryBar, log)
    ensures |l.detail| == |log|
    ensures k < |log| ==>
              && log[k].buy < |bars| && log[k].sell < |bars|
              && var r, b, s := l.detail[k], bars[log[k].buy], bars[log[k].sell];
                 && r.dateBuy == b.date && r.dateSell == s.date && r.priceBuy == b.close && r.priceSell == s.close
                 && (b.close != 0.0 ==> Times(r.profit, b.close) == (s.close - b.close) * 100.0)
  {
    hide IsLog, Spans, Compound, Worst, Best;
    LogIffSpans(held, closesEntryBar, log);
    SpansInWindow(Closes(bars), held, closesEntryBar);
    if k < |log| && bars[log[k].buy].close != 0.0 {
      ProfitTimesPrice(bars[log[k].buy].close, bars[log[k].sell].close);
    }
    hide Profit, Times;
  }

  lemma ProfitTimesPrice(bought: real, sold: real)
    requires bought != 0.0
    ensures Times(Profit(bought, sold), bought) == (sold - bought) * 100.0
  {
    var q := (sold - bought) / bought;
    assert q * bought == sold - bought;
  }

  /** Every entry is logged, except one on the last bar in a loop that does not liquidate it;
      that one leaves the flag set. */
  lemma CountIsLogLength<T>(l: Ledger, bars: seq<Bar<T>>, held: seq<bool>, closesEntryBar: bool)
    requires Closed(l, bars, held, closesEntryBar)
    ensures closesEntryBar ==> !l.isBuy
    ensures l.isBuy <==> !closesEntryBar && |held| > 0 && Rises(held, |held| - 1)
    ensures l.count == |l.detail| + if l.isBuy then 1 else 0
  {
    EntriesCountTrades(held, |held|);
  }

  lemma RowGain<T>(bars: seq<Bar<T>>, s: Span)
    requires s.buy < |bars| && s.sell < |bars|
    ensures DealOf(bars, s).profit / 100.0 == Gain(Closes(bars), s)
  {
    hide Profit;
  }

  /** Extremes and compounding of the reported rows, for positive prices. */
  lemma RowsBoundTotal<T>(l: Ledger, bars: seq<Bar<T>>, held: seq<bool>, closesEntryBar: bool)
    requires Closed(l, bars, held, closesEntryBar)
    ensures l.min <= 0.0 <= l.max
    ensures forall k | 0 <= k < |l.detail| :: l.min <= l.detail[k].profit / 100.0 <= l.max
    ensures l.min == 0.0 || exists k :: 0 <= k < |l.detail| && l.detail[k].profit / 100.0 == l.min
    ensures l.max == 0.0 || exists k :: 0 <= k < |l.detail| && l.detail[k].profit / 100.0 == l.max
    ensures Positive(Closes(bars)) ==>
              Power(1.0 + l.min, |l.detail|) <= l.total <= Power(1.0 + l.max, |l.detail|)
  {
    hide Gain, Times, Power, Worst, Best, Compound, Spans;
    var closes, log := Closes(bars), Spans(held, closesEntryBar);
    BestAndWorst(closes, log);
    forall k | 0 <= k < |log|
      ensures l.detail[k].profit / 100.0 == Gain(closes, log[k])
    {
      RowGain(bars, log[k]);
    }
    if Positive(closes) {
      GeometricBound(closes, log);
    }
  }
}
