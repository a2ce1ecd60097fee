/** The strategy that holds while the price is above the parabolic SAR. */
module ParabolicSar {
  import opened Positions
  import opened TradeLog
  import opened Returns
  import opened Ledger
  import opened Crossover
  import opened Windows

  /** Unlike the crossover strategies, this one reads no earlier bar, so the first bar may enter. */
  ghost function Cues(bars: seq<Bar<real>>): (cues: seq<Cue>)
    ensures |cues| == |bars|
    ensures forall i | 0 <= i < |bars| :: cues[i] == Cue(bars[i].close > bars[i].ind, bars[i].close < bars[i].ind)
  {
    seq(|bars|, i requires 0 <= i < |bars| => Cue(bars[i].close > bars[i].ind, bars[i].close < bars[i].ind))
  }

  /** What the reported signal says: on a non-empty window it is buy or hold-buy exactly when the
      run ends by liquidating an open position on the last bar, and one to hold exactly on a tie. */
  ghost predicate SignalOf(bars: seq<Bar<real>>, signal: nat) {
    if bars == [] then signal == BUY
    else
      && (signal in {BUY, HOLD_BUY} <==> Liquidates(Held(Cues(bars)), true))
      && (signal in {HOLD_BUY, HOLD_SELL} <==> bars[|bars| - 1].close == bars[|bars| - 1].ind)
      && signal <= HOLD_SELL
  }

  /** The strategy loop. */
  method Run(bars: seq<Bar<real>>) returns (l: Ledger, signal: nat)
    ensures Closed(l, bars, Held(Cues(bars)), true)
    ensures SignalOf(bars, signal)
  {
    hide Closed, Tracks, Sell, Held;
    l, signal := START, BUY;
    ghost var held := Held(Cues(bars));
    StartTracks(bars, held, true);
    for i := 0 to |bars|
      invariant if i < |bars| then Tracks(l, bars, held, i) else Closed(l, bars, held, true)
      invariant i == 0 ==> signal == BUY
      invariant i == |bars| > 0 ==>
                  && (signal in {BUY, HOLD_BUY} <==> held[i - 1])
                  && (signal in {HOLD_BUY, HOLD_SELL} <==> bars[i - 1].close == bars[i - 1].ind)
                  && signal <= HOLD_SELL
    {
      ghost var before := l;
      NextTracks(l, bars, held, i, true);
      assert held[i] == HeldAt(Cues(bars), i);
      var item := bars[i];
      if item.close > item.ind && !l.isBuy {
        l := Buy(l, i);
      }
      if i == |bars| - 1 {
        signal := if item.close > item.ind then BUY
                  else if item.close < item.ind then SELL
                  else if l.isBuy then HOLD_BUY else HOLD_SELL;
      }
      if (item.close < item.ind && l.isBuy) || (i == |bars| - 1 && l.isBuy) {
        l := Sell(l, bars, i);
      }
      assert l == Next(before, bars, held[i], i, true);
    }
  }

  /** The position is open exactly when the latest bar whose price differs from its SAR is above
      it, ties included. */
  lemma PositionFollowsLatestUntied(bars: seq<Bar<real>>, i: nat)
    requires i < |bars|
    ensures HeldAt(Cues(bars), i)
       <==> exists j: nat | j <= i :: LatestUntied(Closes(bars), Indicators(bars), j, i) && bars[j].close > bars[j].ind
  {
    HeldIffLatestUntiedAbove(Cues(bars), Closes(bars), Indicators(bars), i);
  }

  /** The calculation on a price history and its SAR series, oldest first; a missing SAR counts
      as zero. */
  method Calculate(rows: seq<Row>, sars: seq<real>, dateFrom: int, dateTo: int)
    returns (total: real, count: nat, min: real, max: real, detail: seq<Deal>, signal: nat)
    ensures var bars := ClosedWindow(rows, Attach(rows, sars), dateFrom, dateTo);
            && Closed(Ledger(false, 0, count, total + 1.0, min, max, detail), bars, Held(Cues(bars)), true)
            && SignalOf(bars, signal)
  {
    var bars := ClosedWindow(rows, Attach(rows, sars), dateFrom, dateTo);
    var l, s := Run(bars);
    CountIsLogLength(l, bars, Held(Cues(bars)), true);
    total, count, min, max, detail, signal := l.total - 1.0, l.count, l.min, l.max, l.detail, s;
  }

  function Attach(rows: seq<Row>, sars: seq<real>): (bars: seq<Bar<real>>)
    ensures |bars| == |rows|
  {
    seq(|rows|, i requires 0 <= i < |rows| => Bar(rows[i].date, rows[i].close, OrZero(sars, i)))
  }

  /** The SAR of each row, zero where the series has ended. */
  ghost function SarsOf(rows: seq<Row>, sars: seq<real>): (values: seq<real>)
    ensures |values| == |rows|
    ensures forall i | 0 <= i < |rows| :: values[i] == if i < |sars| then sars[i] else 0.0
  {
    seq(|rows|, i requires 0 <= i < |rows| => if i < |sars| then sars[i] else 0.0)
  }

  /** The closed window with the SAR of its rows, for any two days. */
  lemma WindowCarriesSar(rows: seq<Row>, sars: seq<real>, dateFrom: int, dateTo: int)
    ensures CarriesFrom(ClosedWindow(rows, Attach(rows, sars), dateFrom, dateTo), rows, SarsOf(rows, sars),
                        ClosedStart(rows, dateFrom), ClosedEnd(rows, dateTo))
  {
    assert forall i | 0 <= i < |rows| ::
        Attach(rows, sars)[i] == Bar(rows[i].date, rows[i].close, SarsOf(rows, sars)[i]);
    hide ClosedWindow, Attach, SarsOf, FindDate;
    ClosedWindowIs(rows, Attach(rows, sars), dateFrom, dateTo);
  }

  /** For any two days the total is the growth of an account revalued at every bar of the closed
      window while the position is open. */
  lemma TotalIsMarkToMarketWithin(l: Ledger, rows: seq<Row>, sars: seq<real>, dateFrom: int, dateTo: int)
    requires Tradable(Prices(rows))
    requires var bars := ClosedWindow(rows, Attach(rows, sars), dateFrom, dateTo);
             Closed(l, bars, Held(Cues(bars)), true)
    ensures var bars := ClosedWindow(rows, Attach(rows, sars), dateFrom, dateTo);
            && CarriesFrom(bars, rows, SarsOf(rows, sars), ClosedStart(rows, dateFrom), ClosedEnd(rows, dateTo))
            && Tradable(Closes(bars))
            && l.total == MarkToMarket(Closes(bars), Held(Cues(bars)), |bars|)
  {
    hide *;
    var bars := ClosedWindow(rows, Attach(rows, sars), dateFrom, dateTo);
    WindowCarriesSar(rows, sars, dateFrom, dateTo);
    CarriedTradable(bars, rows, SarsOf(rows, sars), ClosedStart(rows, dateFrom), ClosedEnd(rows, dateTo));
    TotalIsMarkToMarket(l, bars, Held(Cues(bars)), true);
  }
}
