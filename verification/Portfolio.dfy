/** The investment emulator: one portfolio of weighted stocks, valued along their price lists. */
module Portfolio {
  import opened Filters
  import opened Reals
  import opened Returns
  import opened Statistics

  datatype Item = Item(code: string, weight: real)

  /** A row of the price query, which sorts by day. */
  datatype Row = Row(code: string, close: real)

  /** Values, gains and percentage returns of a stock or a portfolio, and the money received. */
  datatype Series = Series(values: seq<real>, gains: seq<real>, changes: seq<real>, received: real)

  /** Division; a division by zero, which has no finite result in the code, is given the value zero. */
  function Over(a: real, b: real): real {
    if b == 0.0 then 0.0 else a / b
  }

  function Stake(value: real, weight: real): real {
    Times(value, weight) / 100.0
  }

  function PricesOf(rows: seq<Row>, code: string): seq<real> {
    if rows == [] then []
    else if rows[|rows| - 1].code == code then PricesOf(rows[..|rows| - 1], code) + [rows[|rows| - 1].close]
    else PricesOf(rows[..|rows| - 1], code)
  }

  // ----- one stock

  function ValueAt(stake: real, prices: seq<real>, i: nat): real
    requires i < |prices|
  {
    if i == 0 then stake else Times(Over(stake, prices[i - 1]), prices[i])
  }

  function Received(stake: real, prices: seq<real>): real {
    if prices == [] then 0.0 else Times(Over(stake, prices[0]), prices[|prices| - 1])
  }

  ghost predicate IsSeriesOf(s: Series, stake: real, prices: seq<real>) {
    && |s.values| == |s.gains| == |s.changes| == |prices|
    && (forall i | 0 <= i < |prices| ::
          && s.values[i] == ValueAt(stake, prices, i)
          && s.gains[i] == s.values[i] - stake
          && s.changes[i] == Over(s.gains[i], stake) * 100.0)
    && s.received == Received(stake, prices)
  }

  method StockSeries(stake: real, prices: seq<real>) returns (s: Series)
    ensures IsSeriesOf(s, stake, prices)
  {
    hide Over, Times;
    var values: seq<real>, gains: seq<real>, changes: seq<real> := [], [], [];
    for i := 0 to |prices|
      invariant |values| == |gains| == |changes| == i
      invariant i > 0 ==> values[0] == stake
      invariant forall j | 0 <= j < i ::
                  && values[j] == ValueAt(stake, prices, j)
                  && gains[j] == values[j] - stake
                  && changes[j] == Over(gains[j], stake) * 100.0
    {
      var v := if i == 0 then stake else Times(Over(stake, prices[i - 1]), prices[i]);
      values := values + [v];
      gains := gains + [v - values[0]];
      changes := changes + [Over(v - values[0], values[0]) * 100.0];
    }
    s := Series(values, gains, changes, Received(stake, prices));
  }

  lemma ReturnOfRatio(stake: real, p: real, q: real)
    requires stake != 0.0 && p != 0.0
    ensures Over(Times(Over(stake, p), q) - stake, stake) * 100.0 == Profit(p, q)
    ensures Times(Over(stake, p), q) == Times(stake, 1.0 + Profit(p, q) / 100.0)
  {
    var x, r := stake / p, q / p;
    assert x * p == stake && r * p == q;
    assert x * q == (x * p) * r == stake * r;
    Quotient(r - 1.0, p, q - p);
    Quotient(r - 1.0, stake, x * q - stake) by {
      assert (r - 1.0) * stake == stake * r - stake;
    }
  }

  /** The returns of a stock are the moves of its price from one row to the next, whatever its
      weight. */
  lemma ReturnsIgnoreWeight(s: Series, stake: real, prices: seq<real>, i: nat)
    requires IsSeriesOf(s, stake, prices) && stake != 0.0 && Tradable(prices) && i < |prices|
    ensures s.changes[i] == if i == 0 then 0.0 else Profit(prices[i - 1], prices[i])
  {
    hide Times;
    if i > 0 {
      ReturnOfRatio(stake, prices[i - 1], prices[i]);
    }
    hide Over, Profit;
    assert Over(0.0, stake) == 0.0 by { ZeroOver(stake); }
  }

  lemma ZeroOver(b: real)
    ensures Over(0.0, b) == 0.0
  {
    if b != 0.0 {
      Quotient(0.0, b, 0.0);
    }
  }

  // ----- the portfolio

  /** The stocks in the order they are first listed; a code listed again keeps its place. */
  ghost function Codes(items: seq<Item>): seq<string> {
    if items == [] then []
    else
      var before, item := Codes(items[..|items| - 1]), items[|items| - 1];
      if item.code in before then before else before + [item.code]
  }

  /** The weight that counts for a code is the last one listed. */
  ghost function WeightOf(items: seq<Item>, code: string): real {
    if items == [] then 0.0
    else if items[|items| - 1].code == code then items[|items| - 1].weight
    else WeightOf(items[..|items| - 1], code)
  }

  ghost function Entries(items: seq<Item>): (entries: seq<Item>)
    ensures |entries| == |Codes(items)|
  {
    seq(|Codes(items)|, k requires 0 <= k < |Codes(items)| => Item(Codes(items)[k], WeightOf(items, Codes(items)[k])))
  }

  ghost predicate Distinct(items: seq<Item>) {
    forall k, l | 0 <= k < l < |items| :: items[k].code != items[l].code
  }

  lemma {:induction false} DistinctCodes(items: seq<Item>)
    requires Distinct(items)
    ensures |Codes(items)| == |items|
    ensures forall k | 0 <= k < |items| :: Codes(items)[k] == items[k].code
    ensures forall k | 0 <= k < |items| :: WeightOf(items, items[k].code) == items[k].weight
  {
    if items != [] {
      var init := items[..|items| - 1];
      DistinctCodes(init);
      assert forall k | 0 <= k < |init| :: Codes(init)[k] == items[k].code;
      assert items[|items| - 1].code !in Codes(init);
      forall k | 0 <= k < |init|
        ensures WeightOf(items, items[k].code) == items[k].weight
      {
        assert init[k] == items[k];
      }
    }
  }

  /** Without repeated codes, the portfolio is what was asked for. */
  lemma EntriesOfDistinct(items: seq<Item>)
    requires Distinct(items)
    ensures Entries(items) == items
  {
    DistinctCodes(items);
  }

  /** `columns` adds up one series of each entry. */
  ghost predicate IsSeriesOfAll(stocks: seq<Series>, value: real, entries: seq<Item>, rows: seq<Row>) {
    && |stocks| == |entries|
    && forall k | 0 <= k < |entries| ::
         IsSeriesOf(stocks[k], Stake(value, entries[k].weight), PricesOf(rows, entries[k].code))
  }

  ghost function Values(stocks: seq<Series>): (r: seq<seq<real>>)
    ensures |r| == |stocks| && forall k | 0 <= k < |stocks| :: r[k] == stocks[k].values
  {
    seq(|stocks|, k requires 0 <= k < |stocks| => stocks[k].values)
  }

  ghost function Gains(stocks: seq<Series>): (r: seq<seq<real>>)
    ensures |r| == |stocks| && forall k | 0 <= k < |stocks| :: r[k] == stocks[k].gains
  {
    seq(|stocks|, k requires 0 <= k < |stocks| => stocks[k].gains)
  }

  ghost function ChangeLists(stocks: seq<Series>): (r: seq<seq<real>>)
    ensures |r| == |stocks| && forall k | 0 <= k < |stocks| :: r[k] == stocks[k].changes
  {
    seq(|stocks|, k requires 0 <= k < |stocks| => stocks[k].changes)
  }

  ghost function ReceivedSum(stocks: seq<Series>): real {
    if stocks == [] then 0.0 else ReceivedSum(stocks[..|stocks| - 1]) + stocks[|stocks| - 1].received
  }

  /** The portfolio adds up the series of its stocks, index by index. */
  ghost predicate AddsUp(p: Series, stocks: seq<Series>) {
    && p.values == Columns(Values(stocks))
    && p.gains == Columns(Gains(stocks))
    && p.changes == Columns(ChangeLists(stocks))
    && p.received == ReceivedSum(stocks)
  }

  lemma AddsUpStep(p: Series, s: Series, r: Series, stocks: seq<Series>)
    requires AddsUp(p, stocks)
    requires r.values == Columns([p.values, s.values]) && r.gains == Columns([p.gains, s.gains])
    requires r.changes == Columns([p.changes, s.changes]) && r.received == p.received + s.received
    ensures AddsUp(r, stocks + [s])
  {
    hide Column, MaxLength;
    AddOneMore(Values(stocks), s.values);
    AddOneMore(Gains(stocks), s.gains);
    AddOneMore(ChangeLists(stocks), s.changes);
    assert Values(stocks + [s]) == Values(stocks) + [s.values];
    assert Gains(stocks + [s]) == Gains(stocks) + [s.gains];
    assert ChangeLists(stocks + [s]) == ChangeLists(stocks) + [s.changes];
    assert (stocks + [s])[..|stocks|] == stocks;
  }

  method AddSeries(p: Series, s: Series) returns (r: Series)
    ensures r.values == Columns([p.values, s.values])
    ensures r.gains == Columns([p.gains, s.gains])
    ensures r.changes == Columns([p.changes, s.changes])
    ensures r.received == p.received + s.received
  {
    hide Column, MaxLength;
    var values := AddArrays([p.values, s.values]);
    var gains := AddArrays([p.gains, s.gains]);
    var changes := AddArrays([p.changes, s.changes]);
    r := Series(values, gains, changes, p.received + s.received);
  }

  /** The table of per-stock series, filled item by item. */
  method Table(value: real, items: seq<Item>, rows: seq<Row>) returns (codes: seq<string>, table: map<string, Series>)
    ensures codes == Codes(items)
    ensures table.Keys == set code | code in codes
    ensures forall code | code in codes ::
              IsSeriesOf(table[code], Stake(value, WeightOf(items, code)), PricesOf(rows, code))
  {
    hide IsSeriesOf;
    codes, table := [], map[];
    for i := 0 to |items|
      invariant codes == Codes(items[..i])
      invariant table.Keys == set code | code in codes
      invariant forall code | code in codes ::
                  IsSeriesOf(table[code], Stake(value, WeightOf(items[..i], code)), PricesOf(rows, code))
    {
      assert items[..i + 1][..i] == items[..i];
      var item := items[i];
      var s := StockSeries(Stake(value, item.weight), PricesOf(rows, item.code));
      if item.code !in table {
        codes := codes + [item.code];
      }
      table := table[item.code := s];
    }
    assert items[..|items|] == items;
  }

  /** The emulator for one portfolio; `total` is its return in percent. */
  method Emulate(value: real, items: seq<Item>, rows: seq<Row>)
    returns (p: Series, total: real, ghost stocks: seq<Series>)
    ensures IsSeriesOfAll(stocks, value, Entries(items), rows)
    ensures AddsUp(p, stocks)
    ensures total == Over(p.received - value, value) * 100.0
  {
    hide IsSeriesOf, Column, MaxLength, Over, AddsUp, Columns;
    var codes, table := Table(value, items, rows);
    p, stocks := Series([], [], [], 0.0), [];
    assert AddsUp(p, stocks) by { NothingAddsUp(); }
    for k := 0 to |codes|
      invariant |stocks| == k && forall j | 0 <= j < k :: stocks[j] == table[codes[j]]
      invariant AddsUp(p, stocks)
    {
      var r := AddSeries(p, table[codes[k]]);
      AddsUpStep(p, table[codes[k]], r, stocks);
      p := r;
      stocks := stocks + [table[codes[k]]];
    }
    total := Over(p.received - value, value) * 100.0;
  }

  lemma NothingAddsUp()
    ensures AddsUp(Series([], [], [], 0.0), [])
  {
  }

  // ----- what the sums mean

  /** Money staked on the stocks whose price list has at least one but at most `i` prices. */
  ghost function StakedOnEnded(value: real, entries: seq<Item>, rows: seq<Row>, i: nat): real {
    if entries == [] then 0.0
    else
      var last := entries[|entries| - 1];
      StakedOnEnded(value, entries[..|entries| - 1], rows, i)
      + if 0 < |PricesOf(rows, last.code)| <= i then Stake(value, last.weight) else 0.0
  }

  /** Money staked on the stocks that have prices. */
  ghost function Staked(value: real, entries: seq<Item>, rows: seq<Row>): real {
    if entries == [] then 0.0
    else
      var last := entries[|entries| - 1];
      Staked(value, entries[..|entries| - 1], rows)
      + if 0 < |PricesOf(rows, last.code)| then Stake(value, last.weight) else 0.0
  }

  lemma IsSeriesOfRest(stocks: seq<Series>, value: real, entries: seq<Item>, rows: seq<Row>)
    requires IsSeriesOfAll(stocks, value, entries, rows) && entries != []
    ensures IsSeriesOfAll(stocks[..|stocks| - 1], value, entries[..|entries| - 1], rows)
    ensures Values(stocks)[..|stocks| - 1] == Values(stocks[..|stocks| - 1])
    ensures Gains(stocks)[..|stocks| - 1] == Gains(stocks[..|stocks| - 1])
  {
    hide IsSeriesOf;
  }

  lemma {:induction false} FirstColumnIsStaked(stocks: seq<Series>, value: real, entries: seq<Item>, rows: seq<Row>)
    requires IsSeriesOfAll(stocks, value, entries, rows)
    ensures Column(Values(stocks), 0) == Staked(value, entries, rows)
  {
    hide Stake, Over, Times, PricesOf;
    if entries != [] {
      IsSeriesOfRest(stocks, value, entries, rows);
      FirstColumnIsStaked(stocks[..|stocks| - 1], value, entries[..|entries| - 1], rows);
    }
  }

  lemma {:induction false} GainColumn(stocks: seq<Series>, value: real, entries: seq<Item>, rows: seq<Row>, i: nat)
    requires IsSeriesOfAll(stocks, value, entries, rows)
    ensures Column(Gains(stocks), i)
         == Column(Values(stocks), i) - Staked(value, entries, rows) + StakedOnEnded(value, entries, rows, i)
  {
    hide Stake, Over, Times, PricesOf, ValueAt;
    if entries != [] {
      IsSeriesOfRest(stocks, value, entries, rows);
      GainColumn(stocks[..|stocks| - 1], value, entries[..|entries| - 1], rows, i);
    }
  }

  lemma {:induction false} SameShape(stocks: seq<Series>)
    requires forall k | 0 <= k < |stocks| :: |stocks[k].values| == |stocks[k].gains|
    ensures MaxLength(Values(stocks)) == MaxLength(Gains(stocks))
  {
    if stocks != [] {
      var init := stocks[..|stocks| - 1];
      SameShape(init);
      assert Values(stocks)[..|stocks| - 1] == Values(init) && Gains(stocks)[..|stocks| - 1] == Gains(init);
    }
  }

  /** The gain of the portfolio is its value less its first value exactly when nothing is staked
      on stocks whose prices have run out. */
  lemma GainIsValueLessFirst(p: Series, stocks: seq<Series>, value: real, entries: seq<Item>, rows: seq<Row>, i: nat)
    requires IsSeriesOfAll(stocks, value, entries, rows) && AddsUp(p, stocks) && i < |p.values|
    ensures i < |p.gains|
    ensures p.gains[i] == p.values[i] - p.values[0] + StakedOnEnded(value, entries, rows, i)
    ensures p.gains[i] == p.values[i] - p.values[0] <==> StakedOnEnded(value, entries, rows, i) == 0.0
  {
    SameShape(stocks);
    GainColumn(stocks, value, entries, rows, i);
    FirstColumnIsStaked(stocks, value, entries, rows);
    hide Column, Staked, StakedOnEnded, IsSeriesOfAll;
  }

  /** With positive stakes that is: no price list ends before index `i`. */
  lemma {:induction false} NothingEnded(value: real, entries: seq<Item>, rows: seq<Row>, i: nat)
    requires forall k | 0 <= k < |entries| :: Stake(value, entries[k].weight) > 0.0
    ensures StakedOnEnded(value, entries, rows, i) >= 0.0
    ensures StakedOnEnded(value, entries, rows, i) == 0.0
       <==> forall k | 0 <= k < |entries| ::
              |PricesOf(rows, entries[k].code)| == 0 || |PricesOf(rows, entries[k].code)| > i
  {
    hide Stake, PricesOf;
    if entries != [] {
      var init := entries[..|entries| - 1];
      NothingEnded(value, init, rows, i);
      assert forall k | 0 <= k < |init| :: init[k] == entries[k];
    }
  }

  ghost function WeightSum(entries: seq<Item>): real {
    if entries == [] then 0.0 else WeightSum(entries[..|entries| - 1]) + entries[|entries| - 1].weight
  }

  ghost predicate Priced(entries: seq<Item>, rows: seq<Row>) {
    forall k | 0 <= k < |entries| ::
      PricesOf(rows, entries[k].code) != [] && Tradable(PricesOf(rows, entries[k].code))
  }

  lemma StakeSum(value: real, w: real, v: real)
    ensures Stake(value, w) + Stake(value, v) == Stake(value, w + v)
    ensures Stake(value, 0.0) == 0.0 && Stake(value, 100.0) == value
  {
  }

  lemma {:induction false} StakedIsShare(value: real, entries: seq<Item>, rows: seq<Row>)
    requires Priced(entries, rows)
    ensures Staked(value, entries, rows) == Stake(value, WeightSum(entries))
  {
    hide Stake, PricesOf;
    StakeSum(value, 0.0, 0.0);
    if entries != [] {
      var init := entries[..|entries| - 1];
      assert forall k | 0 <= k < |init| :: init[k] == entries[k];
      StakedIsShare(value, init, rows);
      StakeSum(value, WeightSum(init), entries[|entries| - 1].weight);
    }
  }

  /** With weights that add up to a hundred, the portfolio starts at the invested amount. */
  lemma StartsAtInvestedAmount(p: Series, stocks: seq<Series>, value: real, entries: seq<Item>, rows: seq<Row>)
    requires IsSeriesOfAll(stocks, value, entries, rows) && AddsUp(p, stocks) && Priced(entries, rows)
    requires WeightSum(entries) == 100.0 && |p.values| > 0
    ensures p.values[0] == value
  {
    FirstColumnIsStaked(stocks, value, entries, rows);
    StakedIsShare(value, entries, rows);
    StakeSum(value, 0.0, 0.0);
    hide Column, Staked, IsSeriesOfAll, Stake;
  }

  /** Return of one stock over the whole window, in percent. */
  ghost function StockReturn(rows: seq<Row>, code: string): real {
    var prices := PricesOf(rows, code);
    if prices == [] then 0.0 else Profit(prices[0], prices[|prices| - 1])
  }

  ghost function WeightedReturn(entries: seq<Item>, rows: seq<Row>): real {
    if entries == [] then 0.0
    else
      var last := entries[|entries| - 1];
      WeightedReturn(entries[..|entries| - 1], rows) + Times(last.weight, StockReturn(rows, last.code)) / 100.0
  }

  lemma StakeTimes(value: real, w: real, r: real)
    ensures Times(Stake(value, w), 1.0 + r / 100.0) == Stake(value, w + Times(w, r) / 100.0)
  {
    assert value * w / 100.0 * (1.0 + r / 100.0) == value * (w + w * r / 100.0) / 100.0;
  }

  lemma ReceivedOfStock(s: Series, stake: real, prices: seq<real>)
    requires IsSeriesOf(s, stake, prices) && prices != [] && Tradable(prices) && stake != 0.0
    ensures s.received == Times(stake, 1.0 + Profit(prices[0], prices[|prices| - 1]) / 100.0)
  {
    hide Times, Over, Profit, ValueAt;
    ReturnOfRatio(stake, prices[0], prices[|prices| - 1]);
  }

  lemma {:induction false} ReceivedIsShare(stocks: seq<Series>, value: real, entries: seq<Item>, rows: seq<Row>)
    requires IsSeriesOfAll(stocks, value, entries, rows) && Priced(entries, rows)
    requires forall k | 0 <= k < |entries| :: Stake(value, entries[k].weight) != 0.0
    ensures ReceivedSum(stocks) == Stake(value, WeightSum(entries) + WeightedReturn(entries, rows))
  {
    hide Stake, PricesOf, Times, IsSeriesOf, Profit;
    StakeSum(value, 0.0, 0.0);
    if entries != [] {
      var n := |entries| - 1;
      var init, last, prices := entries[..n], entries[n], PricesOf(rows, entries[n].code);
      assert forall k | 0 <= k < |init| :: init[k] == entries[k];
      IsSeriesOfRest(stocks, value, entries, rows);
      ReceivedIsShare(stocks[..n], value, init, rows);
      ReceivedOfStock(stocks[n], Stake(value, last.weight), prices);
      var r := StockReturn(rows, last.code);
      StakeTimes(value, last.weight, r);
      StakeSum(value, WeightSum(init) + WeightedReturn(init, rows), last.weight + Times(last.weight, r) / 100.0);
    }
  }

  lemma PercentOfStake(value: real, x: real)
    requires value != 0.0
    ensures Over(Stake(value, x) - value, value) * 100.0 == x - 100.0
  {
    Quotient(x / 100.0 - 1.0, value, value * x / 100.0 - value) by {
      assert (x / 100.0 - 1.0) * value == value * x / 100.0 - value;
    }
  }

  /** The return of the portfolio is the weight-average of the returns of its stocks, plus
      whatever the weights miss or exceed a hundred by. */
  lemma ReturnIsWeightedAverage(p: Series, stocks: seq<Series>, value: real, entries: seq<Item>, rows: seq<Row>)
    requires IsSeriesOfAll(stocks, value, entries, rows) && AddsUp(p, stocks) && Priced(entries, rows)
    requires value != 0.0 && forall k | 0 <= k < |entries| :: Stake(value, entries[k].weight) != 0.0
    ensures Over(p.received - value, value) * 100.0 == WeightedReturn(entries, rows) + (WeightSum(entries) - 100.0)
  {
    hide Stake, Over, WeightedReturn, WeightSum, Column, IsSeriesOf;
    ReceivedIsShare(stocks, value, entries, rows);
    PercentOfStake(value, WeightSum(entries) + WeightedReturn(entries, rows));
  }

  /** The beta of the portfolio is the plain sum of the betas of its stocks' returns. */
  lemma PortfolioBeta(p: Series, stocks: seq<Series>, market: seq<real>)
    requires AddsUp(p, stocks) && stocks != [] && |market| > 1 && Variance(market) != 0.0
    requires forall k | 0 <= k < |stocks| :: |stocks[k].changes| == |market|
    ensures |p.changes| == |market|
    ensures Beta(p.changes, market) == BetaSum(ChangeLists(stocks), market)
  {
    hide Variance, Beta, BetaSum, Column;
    BetaOfSum(ChangeLists(stocks), market);
  }

  /** Distinct codes, weights that add up to a hundred and price lists of one length: the
      portfolio starts at the invested amount, its gain is its value less that amount, and its
      return is the weight-average of the returns of the stocks that were asked for. */
  lemma FullyInvested(p: Series, total: real, stocks: seq<Series>, value: real,
                      items: seq<Item>, rows: seq<Row>, n: nat)
    requires IsSeriesOfAll(stocks, value, Entries(items), rows) && AddsUp(p, stocks)
    requires total == Over(p.received - value, value) * 100.0
    requires Distinct(items) && WeightSum(items) == 100.0 && Priced(items, rows) && value != 0.0
    requires forall k | 0 <= k < |items| :: Stake(value, items[k].weight) > 0.0 && |PricesOf(rows, items[k].code)| == n
    ensures |p.values| == n == |p.gains| && n > 0
    ensures p.values[0] == value
    ensures forall i | 0 <= i < n :: p.gains[i] == p.values[i] - value
    ensures total == WeightedReturn(items, rows)
  {
    EntriesOfDistinct(items);
    assert items != [];
    assert PricesOf(rows, items[0].code) != [];
    assert forall k | 0 <= k < |stocks| :: |Values(stocks)[k]| == n;
    LengthOfEqual(Values(stocks), n);
    hide Stake, Over, PricesOf, Column, StakedOnEnded, WeightedReturn, WeightSum, IsSeriesOf;
    StartsAtInvestedAmount(p, stocks, value, items, rows);
    ReturnIsWeightedAverage(p, stocks, value, items, rows);
    SameLengths(p, stocks, value, items, rows);
    forall i | 0 <= i < n
      ensures p.gains[i] == p.values[i] - value
    {
      NothingEnded(value, items, rows, i);
      GainIsValueLessFirst(p, stocks, value, items, rows, i);
    }
  }

  lemma SameLengths(p: Series, stocks: seq<Series>, value: real, entries: seq<Item>, rows: seq<Row>)
    requires IsSeriesOfAll(stocks, value, entries, rows) && AddsUp(p, stocks)
    ensures |p.values| == |p.gains|
  {
    SameShape(stocks);
  }

  // ----- what is collected, row by row and item by item

  const ITEM_CODE: Item -> string := (item: Item) => item.code

  ghost function OwnRow(code: string): Row -> bool {
    (row: Row) => row.code == code
  }

  /** The prices of a stock are those of its rows, in the order of the rows. */
  lemma {:induction false} PricesAreOwnRows(rows: seq<Row>, code: string) returns (own: seq<Row>)
    ensures IsFilter(rows, own, OwnRow(code)) && |PricesOf(rows, code)| == |own|
    ensures forall k | 0 <= k < |own| :: PricesOf(rows, code)[k] == own[k].close
  {
    hide IsFilter;
    if rows == [] {
      own := [];
      NothingKept(rows, OwnRow(code));
    } else {
      var init, row := rows[..|rows| - 1], rows[|rows| - 1];
      own := PricesAreOwnRows(init, code);
      FilterOneMore(init, own, OwnRow(code), row);
      assert rows == init + [row];
      own := if OwnRow(code)(row) then own + [row] else own;
    }
  }

  /** The codes are those of the items, each once, in the order they are first listed. */
  lemma {:induction false} CodesAreFirstSeen(items: seq<Item>)
    ensures FirstSeen(items, ITEM_CODE, Codes(items))
  {
    hide FirstSeen;
    if items == [] {
      NothingSeen(ITEM_CODE);
    } else {
      var init, item := items[..|items| - 1], items[|items| - 1];
      CodesAreFirstSeen(init);
      FirstSeenOneMore(init, ITEM_CODE, Codes(init), item);
      assert items == init + [item] && ITEM_CODE(item) == item.code;
    }
  }

  /** The weight of a code is the one it is listed with last. */
  lemma {:induction false} WeightIsLast(items: seq<Item>, i: nat)
    requires i < |items| && forall j | i < j < |items| :: items[j].code != items[i].code
    ensures WeightOf(items, items[i].code) == items[i].weight
  {
    if i < |items| - 1 {
      WeightIsLast(items[..|items| - 1], i);
    }
  }

  /** All money in one stock: the portfolio returns what the stock does from its first to its last
      price. */
  lemma SingleStock(p: Series, total: real, stocks: seq<Series>, value: real, code: string, rows: seq<Row>)
    requires IsSeriesOfAll(stocks, value, Entries([Item(code, 100.0)]), rows) && AddsUp(p, stocks)
    requires total == Over(p.received - value, value) * 100.0 && value > 0.0
    requires PricesOf(rows, code) != [] && Tradable(PricesOf(rows, code))
    ensures var prices := PricesOf(rows, code);
            Times(total, prices[0]) == (prices[|prices| - 1] - prices[0]) * 100.0
  {
    var items, prices := [Item(code, 100.0)], PricesOf(rows, code);
    assert items[..0] == [];
    StakeSum(value, 0.0, 0.0);
    assert WeightSum(items) == 100.0;
    assert WeightedReturn(items, rows) == StockReturn(rows, code);
    hide PricesOf, Stake, IsSeriesOfAll, AddsUp, Over, WeightedReturn, WeightSum, Entries;
    FullyInvested(p, total, stocks, value, items, rows, |prices|);
    PercentOfPrice(prices[0], prices[|prices| - 1]);
  }

  lemma PercentOfPrice(bought: real, sold: real)
    requires bought != 0.0
    ensures Times(Profit(bought, sold), bought) == (sold - bought) * 100.0
  {
    var q := (sold - bought) / bought;
    assert q * bought == sold - bought;
  }
}
