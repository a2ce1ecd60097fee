/** The trades that a history of positions amounts to.

    A trade is a pair of bar indices.  `IsLog` says, without any loop, which list of trades
    belongs to a history of positions; `Spans` is the list the strategy loops build, and it is
    the only list that `IsLog` accepts. */
module TradeLog {

  datatype Span = Span(buy: nat, sell: nat)

  /** The position is open after bar `i` and was not open before it. */
  ghost predicate Rises(held: seq<bool>, i: nat)
    requires i < |held|
  {
    held[i] && (i == 0 || !held[i - 1])
  }

  /** A position opened at `s.buy` and held on every bar until `s.sell`, where it is dropped or
      the window ends. */
  ghost predicate IsTrade(held: seq<bool>, s: Span) {
    && s.buy <= s.sell < |held|
    && Rises(held, s.buy)
    && (forall i | s.buy <= i < s.sell :: held[i])
    && (s.sell == |held| - 1 || !held[s.sell])
  }

  /** An entry on the last bar is logged only by the loops that liquidate on the entry bar. */
  ghost predicate Logged(held: seq<bool>, closesEntryBar: bool, i: nat)
    requires i < |held|
  {
    Rises(held, i) && (closesEntryBar || i < |held| - 1)
  }

  ghost predicate Opens(log: seq<Span>, i: nat) {
    exists k :: 0 <= k < |log| && log[k].buy == i
  }

  ghost predicate AllTrades(held: seq<bool>, closesEntryBar: bool, log: seq<Span>) {
    forall k | 0 <= k < |log| :: IsTrade(held, log[k]) && Logged(held, closesEntryBar, log[k].buy)
  }

  ghost predicate Ordered(log: seq<Span>) {
    forall k, l | 0 <= k < l < |log| :: log[k].buy <= log[k].sell < log[l].buy
  }

  ghost predicate Complete(held: seq<bool>, closesEntryBar: bool, log: seq<Span>) {
    forall i: nat | i < |held| && Logged(held, closesEntryBar, i) :: Opens(log, i)
  }

  /** The log holds trades of the history only, one after the other, and leaves none out. */
  ghost predicate IsLog(held: seq<bool>, closesEntryBar: bool, log: seq<Span>) {
    && AllTrades(held, closesEntryBar, log)
    && Ordered(log)
    && Complete(held, closesEntryBar, log)
  }

  // ----- the log as the loops build it

  /** The first bar of the run of held bars that ends just before bar `k`. */
  ghost function RunStart(held: seq<bool>, k: nat): (start: nat)
    requires k <= |held|
    ensures start <= k
  {
    if k == 0 || !held[k - 1] then k else RunStart(held, k - 1)
  }

  lemma {:induction false} RunIsHeld(held: seq<bool>, k: nat)
    requires k <= |held|
    ensures var start := RunStart(held, k);
            (forall i | start <= i < k :: held[i]) && (start > 0 ==> !held[start - 1])
  {
    if k > 0 && held[k - 1] {
      RunIsHeld(held, k - 1);
    }
  }

  /** A run of held bars that ends at bar `sell` is a trade. */
  lemma RunIsTrade(held: seq<bool>, k: nat, sell: nat)
    requires 0 < k <= |held| && held[k - 1]
    requires if k < |held| then sell == k && !held[k] else sell == k - 1
    ensures IsTrade(held, Span(RunStart(held, k), sell))
    ensures RunStart(held, k) < k
  {
    RunIsHeld(held, k);
  }

  /** The trades ended by dropping the position at one of the first `k` bars. */
  ghost function Dropped(held: seq<bool>, k: nat): seq<Span>
    requires k <= |held|
  {
    if k == 0 then []
    else if k >= 2 && held[k - 2] && !held[k - 1] then Dropped(held, k - 1) + [Span(RunStart(held, k - 1), k - 1)]
    else Dropped(held, k - 1)
  }

  /** The window ends with an open position that the loop liquidates on the last bar. */
  ghost predicate Liquidates(held: seq<bool>, closesEntryBar: bool) {
    |held| > 0 && held[|held| - 1] && (closesEntryBar || (|held| > 1 && held[|held| - 2]))
  }

  ghost function Spans(held: seq<bool>, closesEntryBar: bool): seq<Span> {
    if Liquidates(held, closesEntryBar)
    then Dropped(held, |held|) + [Span(RunStart(held, |held|), |held| - 1)]
    else Dropped(held, |held|)
  }

  // ----- the two agree

  /** A trade that ended because the position was dropped before bar `k`. */
  ghost predicate IsDropped(held: seq<bool>, k: nat, s: Span) {
    s.buy < s.sell < k <= |held| && IsTrade(held, s) && !held[s.sell]
  }

  ghost predicate IsDroppedLog(held: seq<bool>, k: nat, log: seq<Span>)
    requires k <= |held|
  {
    && (forall m | 0 <= m < |log| :: IsDropped(held, k, log[m]))
    && (forall m, l | 0 <= m < l < |log| :: log[m].sell < log[l].buy)
    && (forall i: nat | i < RunStart(held, k) && Rises(held, i) :: Opens(log, i))
  }

  lemma DroppedGrows(held: seq<bool>, k: nat, before: seq<Span>)
    requires 2 <= k <= |held| && held[k - 2] && !held[k - 1] && IsDroppedLog(held, k - 1, before)
    ensures IsDroppedLog(held, k, before + [Span(RunStart(held, k - 1), k - 1)])
  {
    var s := RunStart(held, k - 1);
    var log := before + [Span(s, k - 1)];
    RunIsHeld(held, k - 1);
    RunIsTrade(held, k - 1, k - 1);
    forall m | 0 <= m < |before|
      ensures log[m] == before[m] && before[m].sell < s && IsDropped(held, k, log[m])
    {
      assert IsDropped(held, k - 1, before[m]);
    }
    forall i: nat | i < k && Rises(held, i)
      ensures Opens(log, i)
    {
      if i < s {
        assert Opens(before, i);
        var m :| 0 <= m < |before| && before[m].buy == i;
        assert log[m].buy == i;
      } else {
        assert log[|before|].buy == i;
      }
    }
  }

  lemma NothingDropped(held: seq<bool>, k: nat, before: seq<Span>)
    requires 0 < k <= |held| && !(k >= 2 && held[k - 2] && !held[k - 1]) && IsDroppedLog(held, k - 1, before)
    ensures IsDroppedLog(held, k, before)
  {
    forall m | 0 <= m < |before|
      ensures IsDropped(held, k, before[m])
    {
      assert IsDropped(held, k - 1, before[m]);
    }
    hide IsTrade;
  }

  lemma {:induction false} DroppedIsLog(held: seq<bool>, k: nat)
    requires k <= |held|
    ensures IsDroppedLog(held, k, Dropped(held, k))
  {
    if k > 0 {
      DroppedIsLog(held, k - 1);
      hide IsDroppedLog;
      var before := Dropped(held, k - 1);
      if k >= 2 && held[k - 2] && !held[k - 1] {
        DroppedGrows(held, k, before);
      } else {
        NothingDropped(held, k, before);
      }
    }
  }

  lemma SpansAreTrades(held: seq<bool>, closesEntryBar: bool, k: nat)
    requires k < |Spans(held, closesEntryBar)|
    ensures var s := Spans(held, closesEntryBar)[k];
            IsTrade(held, s) && Logged(held, closesEntryBar, s.buy)
  {
    DroppedIsLog(held, |held|);
    if k < |Dropped(held, |held|)| {
      assert IsDropped(held, |held|, Dropped(held, |held|)[k]);
    } else {
      RunIsTrade(held, |held|, |held| - 1);
    }
  }

  lemma SpansAreComplete(held: seq<bool>, closesEntryBar: bool, i: nat)
    requires i < |held| && Logged(held, closesEntryBar, i)
    ensures Opens(Spans(held, closesEntryBar), i)
  {
    DroppedIsLog(held, |held|);
    var before, log := Dropped(held, |held|), Spans(held, closesEntryBar);
    if i < RunStart(held, |held|) {
      assert Opens(before, i);
      var m :| 0 <= m < |before| && before[m].buy == i;
      assert log[m].buy == i;
    } else {
      RunIsHeld(held, |held|);
      assert log[|before|].buy == i;
    }
  }

  lemma SpansAreOrdered(held: seq<bool>, closesEntryBar: bool, k: nat, l: nat)
    requires k < l < |Spans(held, closesEntryBar)|
    ensures Spans(held, closesEntryBar)[k].buy <= Spans(held, closesEntryBar)[k].sell
         < Spans(held, closesEntryBar)[l].buy
  {
    DroppedIsLog(held, |held|);
    RunIsHeld(held, |held|);
    hide IsTrade, Dropped, RunStart;
    assert IsDropped(held, |held|, Dropped(held, |held|)[k]);
  }

  lemma SpansIsLog(held: seq<bool>, closesEntryBar: bool)
    ensures IsLog(held, closesEntryBar, Spans(held, closesEntryBar))
  {
    var log := Spans(held, closesEntryBar);
    forall k | 0 <= k < |log|
      ensures IsTrade(held, log[k]) && Logged(held, closesEntryBar, log[k].buy)
    {
      SpansAreTrades(held, closesEntryBar, k);
    }
    forall k, l | 0 <= k < l < |log|
      ensures log[k].buy <= log[k].sell < log[l].buy
    {
      SpansAreOrdered(held, closesEntryBar, k, l);
    }
    forall i: nat | i < |held| && Logged(held, closesEntryBar, i)
      ensures Opens(log, i)
    {
      SpansAreComplete(held, closesEntryBar, i);
    }
  }

  /** Where two logs of one history first differ, neither can open its trade before the other. */
  lemma LogsAgreeAt(held: seq<bool>, closesEntryBar: bool, a: seq<Span>, b: seq<Span>, k: nat)
    requires AllTrades(held, closesEntryBar, a) && Ordered(a)
    requires Complete(held, closesEntryBar, b) && Ordered(b)
    requires k < |a| && k <= |b| && forall j | 0 <= j < k :: a[j] == b[j]
    ensures k < |b| && a[k].buy >= b[k].buy
  {
    assert Logged(held, closesEntryBar, a[k].buy);
    assert Opens(b, a[k].buy);
    var m :| 0 <= m < |b| && b[m].buy == a[k].buy;
    assert forall j | 0 <= j < k :: b[j].buy < a[k].buy;
  }

  /** Where a trade ends follows from where it starts. */
  lemma TradesAreSetByTheirBuy(held: seq<bool>, s: Span, t: Span)
    requires IsTrade(held, s) && IsTrade(held, t) && s.buy == t.buy
    ensures s == t
  {
  }

  lemma LogsAgreeOn(held: seq<bool>, closesEntryBar: bool, a: seq<Span>, b: seq<Span>, k: nat)
    requires IsLog(held, closesEntryBar, a) && IsLog(held, closesEntryBar, b)
    requires k < |a| && k <= |b| && forall j | 0 <= j < k :: a[j] == b[j]
    ensures k < |b| && a[k] == b[k]
  {
    LogsAgreeAt(held, closesEntryBar, a, b, k);
    LogsAgreeAt(held, closesEntryBar, b, a, k);
    TradesAreSetByTheirBuy(held, a[k], b[k]);
  }

  lemma {:induction false} LogsShareBeginning(held: seq<bool>, closesEntryBar: bool, a: seq<Span>, b: seq<Span>, k: nat)
    requires IsLog(held, closesEntryBar, a) && IsLog(held, closesEntryBar, b)
    requires k <= |a|
    ensures k <= |b| && forall j | 0 <= j < k :: a[j] == b[j]
  {
    hide IsLog;
    if k > 0 {
      LogsShareBeginning(held, closesEntryBar, a, b, k - 1);
      LogsAgreeOn(held, closesEntryBar, a, b, k - 1);
    }
  }

  /** The list the loops build is the one and only log of the history. */
  lemma LogIffSpans(held: seq<bool>, closesEntryBar: bool, log: seq<Span>)
    ensures IsLog(held, closesEntryBar, log) <==> log == Spans(held, closesEntryBar)
  {
    SpansIsLog(held, closesEntryBar);
    var spans := Spans(held, closesEntryBar);
    if IsLog(held, closesEntryBar, log) {
      LogsShareBeginning(held, closesEntryBar, log, spans, |log|);
      LogsShareBeginning(held, closesEntryBar, spans, log, |spans|);
      assert log == spans;
    }
  }

  /** In a log, only a trade on the last bar can have no length, and a loop that does not
      liquidate on the entry bar has none at all. */
  lemma OnlyLastBarTradesAreEmpty(held: seq<bool>, closesEntryBar: bool, log: seq<Span>, k: nat)
    requires IsLog(held, closesEntryBar, log) && k < |log|
    ensures log[k].buy == log[k].sell ==> closesEntryBar && log[k].sell == |held| - 1 && k == |log| - 1
  {
    assert IsTrade(held, log[k]) && Logged(held, closesEntryBar, log[k].buy);
    if k + 1 < |log| {
      assert log[k].sell < log[k + 1].buy;
      assert IsTrade(held, log[k + 1]);
    }
  }

  /** Before the last bar, the position is open exactly inside the logged trades. */
  lemma HeldIffInsideTrade(held: seq<bool>, closesEntryBar: bool, log: seq<Span>, i: nat)
    requires IsLog(held, closesEntryBar, log) && i < |held| - 1
    ensures held[i] <==> exists k | 0 <= k < |log| :: log[k].buy <= i < log[k].sell
  {
    if held[i] {
      var s := RunStart(held, i + 1);
      RunIsHeld(held, i + 1);
      assert Logged(held, closesEntryBar, s);
      assert Opens(log, s);
      var k :| 0 <= k < |log| && log[k].buy == s;
      assert IsTrade(held, log[k]);
      assert log[k].buy <= i < log[k].sell;
    }
    if k :| 0 <= k < |log| && log[k].buy <= i < log[k].sell {
      assert IsTrade(held, log[k]);
    }
  }

  // ----- the number of entries

  /** How often the position was opened in the first `k` bars. */
  ghost function Entries(held: seq<bool>, k: nat): nat
    requires k <= |held|
  {
    if k == 0 then 0 else Entries(held, k - 1) + if Rises(held, k - 1) then 1 else 0
  }

  lemma {:induction false} EntriesCountTrades(held: seq<bool>, k: nat)
    requires k <= |held|
    ensures Entries(held, k) == |Dropped(held, k)| + if k > 0 && held[k - 1] then 1 else 0
  {
    if k > 0 {
      EntriesCountTrades(held, k - 1);
    }
  }
}
