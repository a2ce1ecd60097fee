/** The back-test that pairs stored buy (0) and sell (1) signals into trades. */
module Backtest {
  import opened Filters
  import opened Options
  import opened Reals
  import opened Returns

  /** A row of the joined query: price of a stock on a day, perhaps a signal, and the latest
      price.  A missing price is zero, which the code treats alike. */
  datatype Row = Row(code: string, date: int, close: real, signal: Option<int>, lastPrice: real)

  datatype Mark = Mark(date: int, signal: int)

  datatype Stock = Stock(prices: map<int, real>, signals: seq<Mark>, lastPrice: real)

  datatype Trade = Trade(code: string, startDate: int, endDate: int, priceBuy: real, priceSell: real,
                         priceStar: real, priceChange: real, priceNow: real, status: int)

  // ----- grouping the rows by stock

  /** The codes in the order of their first rows. */
  ghost function Codes(rows: seq<Row>): seq<string> {
    if rows == [] then []
    else
      var before, row := Codes(rows[..|rows| - 1]), rows[|rows| - 1];
      if row.code in before then before else before + [row.code]
  }

  ghost function Marks(rows: seq<Row>, code: string): seq<Mark> {
    if rows == [] then []
    else
      var before, row := Marks(rows[..|rows| - 1], code), rows[|rows| - 1];
      if row.code == code && row.signal.Some? then before + [Mark(row.date, row.signal.value)] else before
  }

  /** The price of each day of the stock; a later row of the same day replaces an earlier one. */
  ghost function PricesOf(rows: seq<Row>, code: string): map<int, real> {
    if rows == [] then map[]
    else
      var before, row := PricesOf(rows[..|rows| - 1], code), rows[|rows| - 1];
      if row.code == code then before[row.date := row.close] else before
  }

  /** The realtime price if there is one, else the latest price on the first row of the stock. */
  ghost function LatestPrice(rows: seq<Row>, code: string, realtime: real): real {
    if realtime != 0.0 then realtime
    else if rows == [] then 0.0
    else if rows[0].code == code then rows[0].lastPrice
    else LatestPrice(rows[1..], code, realtime)
  }

  ghost function StockOf(rows: seq<Row>, code: string, realtime: real): Stock {
    Stock(PricesOf(rows, code), Marks(rows, code), LatestPrice(rows, code, realtime))
  }

  lemma {:induction false} CodesAreTheRows(rows: seq<Row>)
    ensures forall code :: code in Codes(rows) <==> exists i :: 0 <= i < |rows| && rows[i].code == code
    ensures forall k, l | 0 <= k < l < |Codes(rows)| :: Codes(rows)[k] != Codes(rows)[l]
  {
    if rows != [] {
      var init := rows[..|rows| - 1];
      CodesAreTheRows(init);
      forall code
        ensures code in Codes(rows) <==> exists i :: 0 <= i < |rows| && rows[i].code == code
      {
        assert rows[|rows| - 1].code == code ||
            (forall i | 0 <= i < |rows| && rows[i].code == code :: init[i].code == code);
        assert forall i | 0 <= i < |init| :: rows[i] == init[i];
      }
    }
  }

  lemma {:induction false} LatestPriceExtends(rows: seq<Row>, row: Row, code: string, realtime: real)
    ensures LatestPrice(rows + [row], code, realtime) ==
            if code in Codes(rows) || row.code != code || realtime != 0.0 then LatestPrice(rows, code, realtime)
            else row.lastPrice
  {
    if rows != [] {
      LatestPriceExtends(rows[1..], row, code, realtime);
      assert (rows + [row])[1..] == rows[1..] + [row];
      CodesAreTheRows(rows);
      CodesAreTheRows(rows[1..]);
      assert forall i | 0 < i < |rows| :: rows[i] == rows[1..][i - 1];
    }
  }

  /** One more row changes only its own stock. */
  lemma StockExtends(rows: seq<Row>, row: Row, code: string, realtime: real)
    ensures var before, after := StockOf(rows, code, realtime), StockOf(rows + [row], code, realtime);
            if row.code != code then after == before
            else
              && after.prices == before.prices[row.date := row.close]
              && after.signals == before.signals + (if row.signal.Some? then [Mark(row.date, row.signal.value)] else [])
              && after.lastPrice == if code in Codes(rows) || realtime != 0.0 then before.lastPrice else row.lastPrice
  {
    assert (rows + [row])[..|rows|] == rows;
    LatestPriceExtends(rows, row, code, realtime);
  }

  lemma {:induction false} UnseenStock(rows: seq<Row>, code: string)
    requires code !in Codes(rows)
    ensures PricesOf(rows, code) == map[] && Marks(rows, code) == []
  {
    if rows != [] {
      UnseenStock(rows[..|rows| - 1], code);
    }
  }

  /** Folding the rows into a table collects, for each stock, exactly its own rows. */
  method Group(rows: seq<Row>, realtime: real) returns (codes: seq<string>, stocks: map<string, Stock>)
    ensures codes == Codes(rows)
    ensures stocks.Keys == set code | code in codes
    ensures forall code | code in codes :: stocks[code] == StockOf(rows, code, realtime)
  {
    codes, stocks := [], map[];
    for i := 0 to |rows|
      invariant codes == Codes(rows[..i])
      invariant stocks.Keys == set code | code in codes
      invariant forall code | code in codes :: stocks[code] == StockOf(rows[..i], code, realtime)
    {
      var row := rows[i];
      assert rows[..i + 1] == rows[..i] + [row] && rows[..i + 1][..i] == rows[..i];
      ghost var before := stocks;
      if row.code !in stocks {
        UnseenStock(rows[..i], row.code);
        codes := codes + [row.code];
        stocks := stocks[row.code := Stock(map[], [], if realtime == 0.0 then row.lastPrice else realtime)];
      }
      var stock := stocks[row.code];
      stock := stock.(prices := stock.prices[row.date := row.close]);
      if row.signal.Some? {
        stock := stock.(signals := stock.signals + [Mark(row.date, row.signal.value)]);
      }
      stocks := stocks[row.code := stock];
      forall code | code in codes
        ensures stocks[code] == StockOf(rows[..i + 1], code, realtime)
      {
        StockExtends(rows[..i], row, code, realtime);
      }
    }
    assert rows[..|rows|] == rows;
  }

  /** The price map has an entry for the day of every signal. */
  lemma {:induction false} SignalsHavePrices(rows: seq<Row>, code: string)
    ensures forall k | 0 <= k < |Marks(rows, code)| :: Marks(rows, code)[k].date in PricesOf(rows, code)
  {
    if rows != [] {
      SignalsHavePrices(rows[..|rows| - 1], code);
    }
  }

  // ----- what is collected, row by row

  const CODE: Row -> string := (row: Row) => row.code

  ghost function OwnSignal(code: string): Row -> bool {
    (row: Row) => row.code == code && row.signal.Some?
  }

  /** The codes are those of the rows, each once, in the order they are first seen. */
  lemma {:induction false} CodesAreFirstSeen(rows: seq<Row>)
    ensures FirstSeen(rows, CODE, Codes(rows))
  {
    hide FirstSeen;
    if rows == [] {
      NothingSeen(CODE);
    } else {
      var init, row := rows[..|rows| - 1], rows[|rows| - 1];
      CodesAreFirstSeen(init);
      FirstSeenOneMore(init, CODE, Codes(init), row);
      assert rows == init + [row] && CODE(row) == row.code;
    }
  }

  /** The signals of a stock are those of its rows that have one, in the order of the rows. */
  lemma {:induction false} MarksAreOwnSignals(rows: seq<Row>, code: string) returns (own: seq<Row>)
    ensures IsFilter(rows, own, OwnSignal(code)) && |Marks(rows, code)| == |own|
    ensures forall k | 0 <= k < |own| ::
              own[k].signal.Some? && Marks(rows, code)[k] == Mark(own[k].date, own[k].signal.value)
  {
    hide IsFilter;
    if rows == [] {
      own := [];
      NothingKept(rows, OwnSignal(code));
    } else {
      var init, row := rows[..|rows| - 1], rows[|rows| - 1];
      own := MarksAreOwnSignals(init, code);
      FilterOneMore(init, own, OwnSignal(code), row);
      assert rows == init + [row];
      own := if OwnSignal(code)(row) then own + [row] else own;
    }
  }

  /** The price of a day is that of the last row of the stock on that day. */
  lemma {:induction false} PriceIsLastOfDay(rows: seq<Row>, code: string, i: nat)
    requires i < |rows| && rows[i].code == code
    requires forall j | i < j < |rows| :: rows[j].code != code || rows[j].date != rows[i].date
    ensures rows[i].date in PricesOf(rows, code) && PricesOf(rows, code)[rows[i].date] == rows[i].close
  {
    if i < |rows| - 1 {
      PriceIsLastOfDay(rows[..|rows| - 1], code, i);
    }
  }

  lemma {:induction false} PricedDaysHaveRows(rows: seq<Row>, code: string, date: int)
    requires date in PricesOf(rows, code)
    ensures exists i :: 0 <= i < |rows| && rows[i].code == code && rows[i].date == date
  {
    var init, last := rows[..|rows| - 1], |rows| - 1;
    if rows[last].code != code || rows[last].date != date {
      PricedDaysHaveRows(init, code, date);
      var i :| 0 <= i < |init| && init[i].code == code && init[i].date == date;
      assert rows[i] == init[i];
    }
  }

  /** The realtime price, if there is one, is the latest price of every stock; otherwise it is the
      latest price on the first row of the stock. */
  lemma {:induction false} LatestPriceIs(rows: seq<Row>, code: string, realtime: real, i: nat)
    requires i < |rows| && rows[i].code == code && forall j | 0 <= j < i :: rows[j].code != code
    ensures LatestPrice(rows, code, realtime) == if realtime != 0.0 then realtime else rows[i].lastPrice
  {
    if i > 0 {
      LatestPriceIs(rows[1..], code, realtime, i - 1);
    }
  }

  // ----- sorting the signals by day

  function Insert(s: seq<Mark>, m: Mark): seq<Mark> {
    if s == [] || s[|s| - 1].date <= m.date then s + [m] else Insert(s[..|s| - 1], m) + [s[|s| - 1]]
  }

  /** A stable sort. */
  function SortByDate(s: seq<Mark>): seq<Mark> {
    if s == [] then [] else Insert(SortByDate(s[..|s| - 1]), s[|s| - 1])
  }

  ghost predicate Sorted(s: seq<Mark>) {
    forall i, j | 0 <= i < j < |s| :: s[i].date <= s[j].date
  }

  /** The signals of one day, in their order. */
  ghost function OnDay(s: seq<Mark>, date: int): seq<Mark> {
    if s == [] then []
    else OnDay(s[..|s| - 1], date) + if s[|s| - 1].date == date then [s[|s| - 1]] else []
  }

  lemma {:induction false} InsertSorts(s: seq<Mark>, m: Mark)
    requires Sorted(s)
    ensures Sorted(Insert(s, m)) && |Insert(s, m)| == |s| + 1
    ensures Insert(s, m)[|s|].date == if s == [] || s[|s| - 1].date <= m.date then m.date else s[|s| - 1].date
  {
    if s != [] && s[|s| - 1].date > m.date {
      InsertSorts(s[..|s| - 1], m);
    }
  }

  lemma {:induction false} InsertOnDay(s: seq<Mark>, m: Mark, date: int)
    requires Sorted(s)
    ensures OnDay(Insert(s, m), date) == OnDay(s, date) + if m.date == date then [m] else []
  {
    if s == [] || s[|s| - 1].date <= m.date {
      assert (s + [m])[..|s|] == s;
    } else {
      var init, last := s[..|s| - 1], s[|s| - 1];
      InsertOnDay(init, m, date);
      assert (Insert(init, m) + [last])[..|Insert(init, m)|] == Insert(init, m);
    }
  }

  /** The sort orders the signals by day and keeps those of one day in their order; the days
      together make it a permutation. */
  lemma {:induction false} SortIsStable(s: seq<Mark>, date: int)
    ensures Sorted(SortByDate(s)) && |SortByDate(s)| == |s|
    ensures OnDay(SortByDate(s), date) == OnDay(s, date)
  {
    if s != [] {
      var init, last := s[..|s| - 1], s[|s| - 1];
      SortIsStable(init, date);
      InsertSorts(SortByDate(init), last);
      InsertOnDay(SortByDate(init), last, date);
    }
  }

  /** Signals that arrive in order, as the query sorts them, stay as they are. */
  lemma {:induction false} SortKeepsSorted(s: seq<Mark>)
    requires Sorted(s)
    ensures SortByDate(s) == s
  {
    if s != [] {
      SortKeepsSorted(s[..|s| - 1]);
    }
  }

  // ----- pairing

  function PriceOn(prices: map<int, real>, date: int): real {
    if date in prices then prices[date] else 0.0
  }

  /** The buy and sell signals, without any other. */
  ghost function BuysAndSells(s: seq<Mark>): seq<Mark> {
    if s == [] then []
    else BuysAndSells(s[..|s| - 1]) + if s[|s| - 1].signal in {0, 1} then [s[|s| - 1]] else []
  }

  function ClosedTrade(code: string, stock: Stock, start: int, bought: real, end: int): seq<Trade> {
    var sold := PriceOn(stock.prices, end);
    if bought != 0.0 && sold != 0.0
    then [Trade(code, start, end, bought, sold, 0.0, Profit(bought, sold), stock.lastPrice, 1)]
    else []
  }

  function OpenTrade(code: string, stock: Stock, start: int, bought: real, toDate: int): seq<Trade> {
    if bought != 0.0 && stock.lastPrice != 0.0
    then [Trade(code, start, toDate, bought, 0.0, stock.lastPrice, Profit(bought, stock.lastPrice), stock.lastPrice, 0)]
    else []
  }

  /** A trade for each buy signal that is directly followed by a sell signal. */
  ghost function Pairs(code: string, stock: Stock, s: seq<Mark>): seq<Trade> {
    if |s| < 2 then []
    else
      var buy, sell := s[|s| - 2], s[|s| - 1];
      Pairs(code, stock, s[..|s| - 1])
      + if buy.signal == 0 && sell.signal == 1
        then ClosedTrade(code, stock, buy.date, PriceOn(stock.prices, buy.date), sell.date)
        else []
  }

  /** The buy signal that ends the sequence, if one does, with its price. */
  ghost function LastBuy(stock: Stock, s: seq<Mark>): Option<(int, real)> {
    if s != [] && s[|s| - 1].signal == 0
    then Some((s[|s| - 1].date, PriceOn(stock.prices, s[|s| - 1].date)))
    else None
  }

  /** The trades of one stock: its adjacent pairs, and a running trade if the last signal buys. */
  ghost function TradesOf(code: string, stock: Stock, toDate: int): seq<Trade> {
    var s := BuysAndSells(SortByDate(stock.signals));
    Pairs(code, stock, s)
    + match LastBuy(stock, s)
      case Some((start, bought)) => OpenTrade(code, stock, start, bought, toDate) case None => []
  }

  lemma PairsExtend(code: string, stock: Stock, s: seq<Mark>, m: Mark)
    ensures Pairs(code, stock, s + [m]) ==
            if m.signal == 1 && LastBuy(stock, s).Some?
            then Pairs(code, stock, s)
                 + ClosedTrade(code, stock, LastBuy(stock, s).value.0, LastBuy(stock, s).value.1, m.date)
            else Pairs(code, stock, s)
    ensures LastBuy(stock, s + [m]) == if m.signal == 0 then Some((m.date, PriceOn(stock.prices, m.date))) else None
  {
    assert (s + [m])[..|s|] == s;
  }

  lemma BuysAndSellsExtend(s: seq<Mark>, m: Mark)
    ensures BuysAndSells(s + [m]) == if m.signal in {0, 1} then BuysAndSells(s) + [m] else BuysAndSells(s)
  {
    assert (s + [m])[..|s|] == s;
  }

  /** Scanning the sorted signals with one remembered buy finds exactly those trades. */
  method Scan(code: string, stock: Stock, toDate: int) returns (results: seq<Trade>)
    ensures results == TradesOf(code, stock, toDate)
  {
    results := [];
    var signals := SortByDate(stock.signals);
    var prevSignalZero: Option<(int, real)> := None;
    for i := 0 to |signals|
      invariant results == Pairs(code, stock, BuysAndSells(signals[..i]))
      invariant prevSignalZero == LastBuy(stock, BuysAndSells(signals[..i]))
    {
      hide Pairs, ClosedTrade, PriceOn, LastBuy, BuysAndSells;
      var signal := signals[i];
      assert signals[..i + 1] == signals[..i] + [signal];
      BuysAndSellsExtend(signals[..i], signal);
      PairsExtend(code, stock, BuysAndSells(signals[..i]), signal);
      if signal.signal == 0 {
        prevSignalZero := Some((signal.date, PriceOn(stock.prices, signal.date)));
      } else if signal.signal == 1 && prevSignalZero.Some? {
        results := results + ClosedTrade(code, stock, prevSignalZero.value.0, prevSignalZero.value.1, signal.date);
        prevSignalZero := None;
      }
    }
    assert signals[..|signals|] == signals;
    if prevSignalZero.Some? {
      results := results + OpenTrade(code, stock, prevSignalZero.value.0, prevSignalZero.value.1, toDate);
    }
  }

  const BUYS_OR_SELLS: Mark -> bool := (m: Mark) => m.signal == 0 || m.signal == 1

  /** The signals the pairs are made of are all buys and sells, in order. */
  lemma {:induction false} BuysAndSellsFilter(s: seq<Mark>)
    ensures IsFilter(s, BuysAndSells(s), BUYS_OR_SELLS)
  {
    hide IsFilter;
    if s == [] {
      NothingKept(s, BUYS_OR_SELLS);
    } else {
      var init, last := s[..|s| - 1], s[|s| - 1];
      BuysAndSellsFilter(init);
      FilterOneMore(init, BuysAndSells(init), BUYS_OR_SELLS, last);
      assert s == init + [last] && BuysAndSells(init) + [] == BuysAndSells(init);
    }
  }

  ghost function TradesOfAll(rows: seq<Row>, codes: seq<string>, toDate: int, realtime: real): seq<Trade> {
    if codes == [] then []
    else
      TradesOfAll(rows, codes[..|codes| - 1], toDate, realtime)
      + TradesOf(codes[|codes| - 1], StockOf(rows, codes[|codes| - 1], realtime), toDate)
  }

  /** The whole back-test: stock by stock, in the order the stocks first appear. */
  method Run(rows: seq<Row>, toDate: int, realtime: real) returns (results: seq<Trade>)
    ensures results == TradesOfAll(rows, Codes(rows), toDate, realtime)
    ensures forall i | 0 <= i < |rows| ::
              IsFilter(results, TradesOf(rows[i].code, StockOf(rows, rows[i].code, realtime), toDate),
                       OfStock(rows[i].code))
    ensures forall k | 0 <= k < |results| :: Occurs(rows, CODE, results[k].code)
    ensures forall k, l | 0 <= k < l < |results| && results[k].code != results[l].code ::
              SeenBefore(rows, CODE, results[k].code, results[l].code)
  {
    hide TradesOf, StockOf, SeenBefore, Occurs, IsFilter;
    RunHasEveryStock(rows, toDate, realtime);
    RunIsInOrder(rows, toDate, realtime);
    var codes, stocks := Group(rows, realtime);
    results := [];
    for k := 0 to |codes|
      invariant results == TradesOfAll(rows, codes[..k], toDate, realtime)
    {
      var trades := Scan(codes[k], stocks[codes[k]], toDate);
      assert codes[..k + 1][..k] == codes[..k];
      results := results + trades;
    }
    assert codes[..|codes|] == codes;
  }

  ghost function OfStock(code: string): Trade -> bool {
    (t: Trade) => t.code == code
  }

  lemma {:induction false} PairsHaveCode(code: string, stock: Stock, s: seq<Mark>)
    ensures forall k | 0 <= k < |Pairs(code, stock, s)| :: Pairs(code, stock, s)[k].code == code
  {
    if |s| >= 2 {
      PairsHaveCode(code, stock, s[..|s| - 1]);
    }
  }

  lemma TradesHaveCode(code: string, stock: Stock, toDate: int)
    ensures forall k | 0 <= k < |TradesOf(code, stock, toDate)| :: TradesOf(code, stock, toDate)[k].code == code
  {
    PairsHaveCode(code, stock, BuysAndSells(SortByDate(stock.signals)));
    hide Pairs, BuysAndSells, SortByDate;
  }

  /** The trades of one stock among those of several: all of its own, and none if it is not listed. */
  lemma {:induction false} TradesOfOne(rows: seq<Row>, codes: seq<string>, toDate: int, realtime: real, code: string)
    requires forall k, l | 0 <= k < l < |codes| :: codes[k] != codes[l]
    ensures IsFilter(TradesOfAll(rows, codes, toDate, realtime),
                     if code in codes then TradesOf(code, StockOf(rows, code, realtime), toDate) else [], OfStock(code))
  {
    hide TradesOf, StockOf, IsFilter;
    if codes == [] {
      NothingKept(TradesOfAll(rows, codes, toDate, realtime), OfStock(code));
    } else {
      var init, last := codes[..|codes| - 1], codes[|codes| - 1];
      var before, own := TradesOfAll(rows, init, toDate, realtime),
                         TradesOf(last, StockOf(rows, last, realtime), toDate);
      TradesOfOne(rows, init, toDate, realtime, code);
      TradesHaveCode(last, StockOf(rows, last, realtime), toDate);
      assert codes == init + [last];
      if last == code {
        AllKept(own, OfStock(code));
        FilterBoth(before, own, [], own, OfStock(code));
        assert [] + own == own;
      } else {
        NothingKept(own, OfStock(code));
        FilterBoth(before, own, if code in init then TradesOf(code, StockOf(rows, code, realtime), toDate) else [], [],
                   OfStock(code));
        assert forall x: seq<Trade> :: x + [] == x;
      }
    }
  }

  lemma RunHasEveryStock(rows: seq<Row>, toDate: int, realtime: real)
    ensures forall i | 0 <= i < |rows| ::
              IsFilter(TradesOfAll(rows, Codes(rows), toDate, realtime),
                       TradesOf(rows[i].code, StockOf(rows, rows[i].code, realtime), toDate), OfStock(rows[i].code))
  {
    hide TradesOf, StockOf, IsFilter, TradesOfAll;
    CodesAreTheRows(rows);
    forall i | 0 <= i < |rows|
      ensures IsFilter(TradesOfAll(rows, Codes(rows), toDate, realtime),
                       TradesOf(rows[i].code, StockOf(rows, rows[i].code, realtime), toDate), OfStock(rows[i].code))
    {
      TradesOfOne(rows, Codes(rows), toDate, realtime, rows[i].code);
    }
  }

  /** Each trade of several stocks belongs to one of them, in their order. */
  lemma {:induction false} TradesInOrder(rows: seq<Row>, codes: seq<string>, toDate: int, realtime: real, k: nat)
    returns (c: nat)
    requires k < |TradesOfAll(rows, codes, toDate, realtime)|
    ensures c < |codes| && TradesOfAll(rows, codes, toDate, realtime)[k].code == codes[c]
    ensures forall l: nat | k < l < |TradesOfAll(rows, codes, toDate, realtime)| ::
              exists d :: c <= d < |codes| && TradesOfAll(rows, codes, toDate, realtime)[l].code == codes[d]
  {
    var n := |codes| - 1;
    var before := TradesOfAll(rows, codes[..n], toDate, realtime);
    TradesHaveCode(codes[n], StockOf(rows, codes[n], realtime), toDate);
    hide TradesOf, StockOf;
    var all := TradesOfAll(rows, codes, toDate, realtime);
    assert forall l: nat | |before| <= l < |all| :: all[l].code == codes[n];
    if k < |before| {
      c := TradesInOrder(rows, codes[..n], toDate, realtime, k);
      forall l: nat | k < l < |all|
        ensures exists d :: c <= d < |codes| && all[l].code == codes[d]
      {
        if l < |before| {
          var d :| c <= d < n && before[l].code == codes[..n][d];
          assert all[l].code == codes[d];
        }
      }
    } else {
      c := n;
    }
  }

  lemma RunIsInOrder(rows: seq<Row>, toDate: int, realtime: real)
    ensures var results := TradesOfAll(rows, Codes(rows), toDate, realtime);
            && (forall k | 0 <= k < |results| :: Occurs(rows, CODE, results[k].code))
            && (forall k, l | 0 <= k < l < |results| && results[k].code != results[l].code ::
                  SeenBefore(rows, CODE, results[k].code, results[l].code))
  {
    hide TradesOfAll, SeenBefore, Occurs;
    var codes, results := Codes(rows), TradesOfAll(rows, Codes(rows), toDate, realtime);
    CodesAreFirstSeen(rows);
    forall k: nat | k < |results|
      ensures Occurs(rows, CODE, results[k].code)
      ensures forall l: nat | k < l < |results| && results[k].code != results[l].code ::
                SeenBefore(rows, CODE, results[k].code, results[l].code)
    {
      var c := TradesInOrder(rows, codes, toDate, realtime, k);
      assert codes[c] in codes;
    }
  }

  // ----- consequences

  /** Signal `k` buys, the next one sells, and both days have a price. */
  ghost predicate IsPairAt(stock: Stock, s: seq<Mark>, k: int)
    requires 0 <= k < |s| - 1
  {
    && s[k].signal == 0 && s[k + 1].signal == 1
    && PriceOn(stock.prices, s[k].date) != 0.0 && PriceOn(stock.prices, s[k + 1].date) != 0.0
  }

  /** The trade of the pair at `k`, field by field. */
  ghost predicate IsTradeOf(t: Trade, code: string, stock: Stock, s: seq<Mark>, k: int)
    requires 0 <= k < |s| - 1
  {
    && t.code == code && t.startDate == s[k].date && t.endDate == s[k + 1].date
    && t.priceBuy == PriceOn(stock.prices, s[k].date) && t.priceSell == PriceOn(stock.prices, s[k + 1].date)
    && t.priceStar == 0.0 && t.priceNow == stock.lastPrice && t.status == 1
    && Times(t.priceChange, t.priceBuy) == (t.priceSell - t.priceBuy) * 100.0
  }

  lemma ClosedTradeFields(code: string, stock: Stock, s: seq<Mark>, k: int)
    requires 0 <= k < |s| - 1 && s[k].signal == 0 && s[k + 1].signal == 1
    ensures var ts := ClosedTrade(code, stock, s[k].date, PriceOn(stock.prices, s[k].date), s[k + 1].date);
            if IsPairAt(stock, s, k) then |ts| == 1 && IsTradeOf(ts[0], code, stock, s, k) else ts == []
  {
    var b, c := PriceOn(stock.prices, s[k].date), PriceOn(stock.prices, s[k + 1].date);
    if b != 0.0 {
      var q := (c - b) / b;
      assert q * b == c - b;
    }
  }

  /** Each pair has its trade, placed after the trades of the pairs before it. */
  lemma {:induction false} EveryPairIsTraded(code: string, stock: Stock, s: seq<Mark>, k: int)
    requires 0 <= k < |s| - 1 && IsPairAt(stock, s, k)
    ensures var place, trades := |Pairs(code, stock, s[..k + 1])|, Pairs(code, stock, s);
            place < |trades| && IsTradeOf(trades[place], code, stock, s, k)
  {
    var init := s[..|s| - 1];
    if k < |s| - 2 {
      EveryPairIsTraded(code, stock, init, k);
      assert init[..k + 1] == s[..k + 1];
      hide ClosedTrade;
    } else {
      ClosedTradeFields(code, stock, s, k);
      assert init == s[..k + 1];
      hide ClosedTrade, IsTradeOf;
    }
  }

  /** Each closed trade belongs to a pair, and stands at the place of that pair. */
  lemma {:induction false} EveryTradeIsAPair(code: string, stock: Stock, s: seq<Mark>, m: nat)
    requires m < |Pairs(code, stock, s)|
    ensures exists k :: 0 <= k < |s| - 1 && IsPairAt(stock, s, k)
                        && IsTradeOf(Pairs(code, stock, s)[m], code, stock, s, k)
                        && m == |Pairs(code, stock, s[..k + 1])|
  {
    var init := s[..|s| - 1];
    if m < |Pairs(code, stock, init)| {
      EveryTradeIsAPair(code, stock, init, m);
      var k :| 0 <= k < |init| - 1 && IsPairAt(stock, init, k)
               && IsTradeOf(Pairs(code, stock, init)[m], code, stock, init, k)
               && m == |Pairs(code, stock, init[..k + 1])|;
      assert init[k] == s[k] && init[k + 1] == s[k + 1] && init[..k + 1] == s[..k + 1];
      hide ClosedTrade;
      assert IsPairAt(stock, s, k) && IsTradeOf(Pairs(code, stock, s)[m], code, stock, s, k);
    } else {
      var k := |s| - 2;
      ClosedTradeFields(code, stock, s, k);
      assert init == s[..k + 1];
      hide ClosedTrade, IsTradeOf;
      assert IsPairAt(stock, s, k) && IsTradeOf(Pairs(code, stock, s)[m], code, stock, s, k);
    }
  }

  /** Different pairs have different places, in their order; so no trade is listed twice. */
  lemma {:induction false} PlacesIncrease(code: string, stock: Stock, s: seq<Mark>, k: int, l: int)
    requires 0 <= k < l <= |s| - 1 && IsPairAt(stock, s, k)
    ensures |Pairs(code, stock, s[..k + 1])| < |Pairs(code, stock, s[..l + 1])|
    decreases l
  {
    var after := s[..l + 1];
    assert after[..|after| - 1] == s[..l];
    if k + 1 < l {
      PlacesIncrease(code, stock, s, k, l - 1);
      hide ClosedTrade;
    } else {
      ClosedTradeFields(code, stock, s, k);
      hide ClosedTrade, IsTradeOf;
    }
  }

  /** The running trade at the end: there is one exactly when the last signal buys and both its
      price and the latest price are known. */
  lemma RunningTrade(code: string, stock: Stock, toDate: int)
    ensures var s, trades := BuysAndSells(SortByDate(stock.signals)), TradesOf(code, stock, toDate);
            var closed := |Pairs(code, stock, s)|;
            Pairs(code, stock, s) <= trades &&
            if s != [] && s[|s| - 1].signal == 0
               && PriceOn(stock.prices, s[|s| - 1].date) != 0.0 && stock.lastPrice != 0.0
            then && |trades| == closed + 1
                 && var t := trades[closed];
                    && t.code == code && t.status == 0 && t.startDate == s[|s| - 1].date && t.endDate == toDate
                    && t.priceBuy == PriceOn(stock.prices, s[|s| - 1].date) && t.priceSell == 0.0
                    && t.priceStar == t.priceNow == stock.lastPrice
                    && Times(t.priceChange, t.priceBuy) == (t.priceStar - t.priceBuy) * 100.0
            else |trades| == closed
  {
    var s := BuysAndSells(SortByDate(stock.signals));
    hide Pairs, BuysAndSells, SortByDate;
    if s != [] && PriceOn(stock.prices, s[|s| - 1].date) != 0.0 {
      var b := PriceOn(stock.prices, s[|s| - 1].date);
      var q := (stock.lastPrice - b) / b;
      assert q * b == stock.lastPrice - b;
    }
  }

  ghost predicate Chronological(trades: seq<Trade>) {
    && (forall k | 0 <= k < |trades| :: trades[k].startDate <= trades[k].endDate)
    && (forall k, l | 0 <= k < l < |trades| :: trades[k].endDate <= trades[l].startDate)
  }

  ghost predicate EndBy(trades: seq<Trade>, date: int) {
    forall k | 0 <= k < |trades| :: trades[k].endDate <= date
  }

  lemma {:induction false} PairsAreChronological(code: string, stock: Stock, s: seq<Mark>)
    requires Sorted(s)
    ensures Chronological(Pairs(code, stock, s))
    ensures s != [] ==> EndBy(Pairs(code, stock, s), s[|s| - 1].date)
  {
    if |s| >= 2 {
      PairsAreChronological(code, stock, s[..|s| - 1]);
    }
  }

  lemma {:induction false} BuysAndSellsSorted(s: seq<Mark>)
    requires Sorted(s)
    ensures Sorted(BuysAndSells(s))
    ensures s != [] ==> forall k | 0 <= k < |BuysAndSells(s)| :: BuysAndSells(s)[k].date <= s[|s| - 1].date
  {
    if s != [] {
      BuysAndSellsSorted(s[..|s| - 1]);
    }
  }

  /** The closed trades of a stock do not overlap in time, and its running trade, which is the
      last one, starts after they end. */
  lemma TradesDoNotOverlap(code: string, stock: Stock, toDate: int)
    requires forall k | 0 <= k < |stock.signals| :: stock.signals[k].date <= toDate
    ensures Chronological(TradesOf(code, stock, toDate))
    ensures forall k | 0 <= k < |TradesOf(code, stock, toDate)| - 1 :: TradesOf(code, stock, toDate)[k].status == 1
  {
    var sorted := SortByDate(stock.signals);
    SortIsStable(stock.signals, 0);
    BuysAndSellsSorted(sorted);
    var s := BuysAndSells(sorted);
    PairsAreChronological(code, stock, s);
    PairsAreClosed(code, stock, s);
    SortBoundedBy(stock.signals, toDate);
    BuysAndSellsBoundedBy(sorted, toDate);
    hide Pairs, BuysAndSells, SortByDate, Profit, Sorted, PriceOn;
    if s != [] {
      var bought := PriceOn(stock.prices, s[|s| - 1].date);
      LastTradeFollows(Pairs(code, stock, s), OpenTrade(code, stock, s[|s| - 1].date, bought, toDate), s[|s| - 1].date);
    }
    hide EndBy, OpenTrade;
  }

  lemma LastTradeFollows(closed: seq<Trade>, last: seq<Trade>, date: int)
    requires Chronological(closed) && EndBy(closed, date) && |last| <= 1
    requires last != [] ==> date <= last[0].startDate <= last[0].endDate
    ensures Chronological(closed + last)
  {
  }

  ghost predicate BoundedBy(s: seq<Mark>, date: int) {
    forall k | 0 <= k < |s| :: s[k].date <= date
  }

  lemma {:induction false} InsertBoundedBy(s: seq<Mark>, m: Mark, date: int)
    requires BoundedBy(s, date) && m.date <= date
    ensures BoundedBy(Insert(s, m), date)
  {
    if s != [] && s[|s| - 1].date > m.date {
      InsertBoundedBy(s[..|s| - 1], m, date);
    }
  }

  lemma {:induction false} SortBoundedBy(s: seq<Mark>, date: int)
    requires BoundedBy(s, date)
    ensures BoundedBy(SortByDate(s), date)
  {
    if s != [] {
      SortBoundedBy(s[..|s| - 1], date);
      InsertBoundedBy(SortByDate(s[..|s| - 1]), s[|s| - 1], date);
    }
  }

  lemma {:induction false} BuysAndSellsBoundedBy(s: seq<Mark>, date: int)
    requires BoundedBy(s, date)
    ensures BoundedBy(BuysAndSells(s), date)
  {
    if s != [] {
      BuysAndSellsBoundedBy(s[..|s| - 1], date);
    }
  }

  lemma {:induction false} PairsAreClosed(code: string, stock: Stock, s: seq<Mark>)
    ensures forall k | 0 <= k < |Pairs(code, stock, s)| :: Pairs(code, stock, s)[k].status == 1
  {
    if |s| >= 2 {
      PairsAreClosed(code, stock, s[..|s| - 1]);
    }
  }
}
