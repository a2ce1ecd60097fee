/** What a log of trades is worth. */
module Returns {
  import opened Reals
  import opened TradeLog

  /** Percentage gained by buying at `bought` and selling at `sold`.  A price of zero, for which
      JavaScript yields a non-finite number, is given the value zero. */
  function Profit(bought: real, sold: real): real {
    if bought == 0.0 then 0.0 else (sold - bought) / bought * 100.0
  }

  ghost predicate Tradable(closes: seq<real>) {
    forall i | 0 <= i < |closes| :: closes[i] != 0.0
  }

  ghost predicate Positive(closes: seq<real>) {
    forall i | 0 <= i < |closes| :: closes[i] > 0.0
  }

  ghost predicate InWindow(closes: seq<real>, log: seq<Span>) {
    forall k | 0 <= k < |log| :: log[k].buy < |closes| && log[k].sell < |closes|
  }

  /** Return of one trade as a fraction. */
  ghost function Gain(closes: seq<real>, s: Span): real
    requires s.buy < |closes| && s.sell < |closes|
  {
    Profit(closes[s.buy], closes[s.sell]) / 100.0
  }

  /** Capital after reinvesting one unit through every trade of the log. */
  ghost function Compound(closes: seq<real>, log: seq<Span>): real
    requires InWindow(closes, log)
  {
    if log == [] then 1.0 else Times(Compound(closes, log[..|log| - 1]), 1.0 + Gain(closes, log[|log| - 1]))
  }

  ghost function Worst(closes: seq<real>, log: seq<Span>): real
    requires InWindow(closes, log)
  {
    if log == [] then 0.0 else Min(Worst(closes, log[..|log| - 1]), Gain(closes, log[|log| - 1]))
  }

  ghost function Best(closes: seq<real>, log: seq<Span>): real
    requires InWindow(closes, log)
  {
    if log == [] then 0.0 else Max(Best(closes, log[..|log| - 1]), Gain(closes, log[|log| - 1]))
  }

  /** Capital of an account that is revalued at every bar: over each of the first `k` bars it
      moves with the price exactly when the position was open after the bar before. */
  ghost function MarkToMarket(closes: seq<real>, held: seq<bool>, k: nat): real
    requires k <= |closes| == |held| && Tradable(closes)
  {
    if k <= 1 then 1.0
    else if held[k - 2] then Times(MarkToMarket(closes, held, k - 1), Ratio(closes[k - 2], closes[k - 1]))
    else MarkToMarket(closes, held, k - 1)
  }

  lemma GainIsRatio(closes: seq<real>, s: Span)
    requires s.buy < |closes| && s.sell < |closes| && closes[s.buy] != 0.0
    ensures 1.0 + Gain(closes, s) == Ratio(closes[s.buy], closes[s.sell])
  {
    var b, c := closes[s.buy], closes[s.sell];
    var q := Ratio(b, c);
    assert q * b == c;
    Quotient(q - 1.0, b, c - b);
  }

  // ----- compounding trades equals revaluing at every bar

  lemma DroppedInWindow(closes: seq<real>, held: seq<bool>, k: nat)
    requires k <= |closes| == |held|
    ensures InWindow(closes, Dropped(held, k))
  {
    DroppedIsLog(held, k);
    var log := Dropped(held, k);
    assert forall m | 0 <= m < |log| :: IsDropped(held, k, log[m]);
  }

  lemma SpansInWindow(closes: seq<real>, held: seq<bool>, closesEntryBar: bool)
    requires |closes| == |held|
    ensures InWindow(closes, Spans(held, closesEntryBar))
  {
    DroppedInWindow(closes, held, |held|);
  }

  lemma CompoundAppend(closes: seq<real>, log: seq<Span>, s: Span)
    requires InWindow(closes, log) && s.buy < |closes| && s.sell < |closes|
    ensures Compound(closes, log + [s]) == Times(Compound(closes, log), 1.0 + Gain(closes, s))
    ensures Worst(closes, log + [s]) == Min(Worst(closes, log), Gain(closes, s))
    ensures Best(closes, log + [s]) == Max(Best(closes, log), Gain(closes, s))
  {
    hide Times, Gain;
    assert (log + [s])[..|log|] == log;
  }

  /** The price ratio of the position that is open after the first `k` bars, if any. */
  ghost function OpenRatio(closes: seq<real>, held: seq<bool>, k: nat): real
    requires k <= |closes| == |held| && Tradable(closes)
  {
    if k > 0 && held[k - 1] then Ratio(closes[RunStart(held, k - 1)], closes[k - 1]) else 1.0
  }

  lemma {:induction false} DroppedCompound(closes: seq<real>, held: seq<bool>, k: nat)
    requires k <= |closes| == |held| && Tradable(closes)
    ensures InWindow(closes, Dropped(held, k))
    ensures Times(Compound(closes, Dropped(held, k)), OpenRatio(closes, held, k)) == MarkToMarket(closes, held, k)
  {
    hide Times, Ratio, Gain, Compound;
    DroppedInWindow(closes, held, k);
    if k > 0 && (k == 1 || !held[k - 2]) {
      RatioSame(closes[k - 1]);
    }
    if k > 1 {
      DroppedCompound(closes, held, k - 1);
      if held[k - 2] {
        var start, move := RunStart(held, k - 2), Ratio(closes[k - 2], closes[k - 1]);
        RatioChain(closes[start], closes[k - 2], closes[k - 1]);
        Associate(Compound(closes, Dropped(held, k - 1)), OpenRatio(closes, held, k - 1), move);
        if !held[k - 1] {
          CompoundAppend(closes, Dropped(held, k - 1), Span(start, k - 1));
          GainIsRatio(closes, Span(start, k - 1));
          Unit(Compound(closes, Dropped(held, k)));
        }
      }
    } else {
      NothingCompounds(closes);
      Unit(1.0);
    }
  }

  lemma NothingCompounds(closes: seq<real>)
    ensures Compound(closes, []) == 1.0
  {
  }

  /** What a strategy reports as its total is the growth of the account that is revalued at
      every bar; an entry on the last bar adds nothing. */
  lemma CompoundIsMarkToMarket(closes: seq<real>, held: seq<bool>, closesEntryBar: bool)
    requires |closes| == |held| && Tradable(closes)
    ensures InWindow(closes, Spans(held, closesEntryBar))
    ensures Compound(closes, Spans(held, closesEntryBar)) == MarkToMarket(closes, held, |held|)
  {
    hide Times, Ratio, Gain, Compound, MarkToMarket;
    var n := |held|;
    SpansInWindow(closes, held, closesEntryBar);
    DroppedCompound(closes, held, n);
    Unit(Compound(closes, Dropped(held, n)));
    if Liquidates(held, closesEntryBar) {
      var s := Span(RunStart(held, n), n - 1);
      CompoundAppend(closes, Dropped(held, n), s);
      GainIsRatio(closes, s);
    } else if n > 0 && held[n - 1] {
      RatioSame(closes[n - 1]);
    }
  }

  // ----- bounds

  lemma {:induction false} BestAndWorst(closes: seq<real>, log: seq<Span>)
    requires InWindow(closes, log)
    ensures Worst(closes, log) <= 0.0 <= Best(closes, log)
    ensures forall k | 0 <= k < |log| :: Worst(closes, log) <= Gain(closes, log[k]) <= Best(closes, log)
    ensures Worst(closes, log) == 0.0 || exists k :: 0 <= k < |log| && Gain(closes, log[k]) == Worst(closes, log)
    ensures Best(closes, log) == 0.0 || exists k :: 0 <= k < |log| && Gain(closes, log[k]) == Best(closes, log)
  {
    hide Gain;
    if log != [] {
      var rest := log[..|log| - 1];
      BestAndWorst(closes, rest);
      assert forall k | 0 <= k < |rest| :: rest[k] == log[k];
    }
  }

  ghost function Power(base: real, k: nat): real {
    if k == 0 then 1.0 else Times(Power(base, k - 1), base)
  }

  lemma {:induction false} PowerBounds(closes: seq<real>, log: seq<Span>, low: real, high: real)
    requires InWindow(closes, log) && 0.0 <= 1.0 + low
    requires forall k | 0 <= k < |log| :: low <= Gain(closes, log[k]) <= high
    ensures 0.0 <= Power(1.0 + low, |log|) <= Compound(closes, log) <= Power(1.0 + high, |log|)
  {
    hide Times, Gain;
    if log != [] {
      var rest, s := log[..|log| - 1], log[|log| - 1];
      assert forall k | 0 <= k < |rest| :: rest[k] == log[k];
      PowerBounds(closes, rest, low, high);
      TimesBounds(Power(1.0 + low, |rest|), Compound(closes, rest), Power(1.0 + high, |rest|),
                  1.0 + low, 1.0 + Gain(closes, s), 1.0 + high);
    }
  }

  /** With positive prices the compounded capital lies between the worst and the best trade,
      each repeated as often as the strategy traded. */
  lemma GeometricBound(closes: seq<real>, log: seq<Span>)
    requires InWindow(closes, log) && Positive(closes)
    ensures Power(1.0 + Worst(closes, log), |log|) <= Compound(closes, log) <= Power(1.0 + Best(closes, log), |log|)
  {
    hide Times, Ratio, Gain;
    BestAndWorst(closes, log);
    forall k | 0 <= k < |log|
      ensures 0.0 < 1.0 + Gain(closes, log[k])
    {
      GainIsRatio(closes, log[k]);
      PositiveRatio(closes[log[k].buy], closes[log[k].sell]);
    }
    PowerBounds(closes, log, Worst(closes, log), Best(closes, log));
  }
}
