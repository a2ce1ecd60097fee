/** Price windows: moving averages, and the index arithmetic that attaches them to bars. */
module Windows {
  import opened Options
  import opened Reals
  import opened Returns
  import opened Ledger

  /** One row of the price history; histories are queried oldest first. */
  datatype Row = Row(date: int, close: real)

  /** The two moving averages attached to a bar. */
  datatype Averages = Averages(short: real, long: real)

  // ----- sequences as the JavaScript array functions see them

  function Reverse<T>(s: seq<T>): (r: seq<T>)
    ensures |r| == |s|
    ensures forall i | 0 <= i < |s| :: r[i] == s[|s| - 1 - i]
  {
    seq(|s|, i requires 0 <= i < |s| => s[|s| - 1 - i])
  }

  /** A negative index counts from the end; indices outside the array are moved to its ends. */
  function Offset(n: nat, i: int): (o: nat)
    ensures o <= n
    ensures 0 <= i <= n ==> o == i
  {
    if i < 0 then (if n + i < 0 then 0 else n + i) else if i > n then n else i
  }

  function Slice<T>(s: seq<T>, start: int, end: int): seq<T> {
    var lo, hi := Offset(|s|, start), Offset(|s|, end);
    if lo <= hi then s[lo..hi] else []
  }

  /** Index of the first row of that day, or -1. */
  function FindDate(rows: seq<Row>, date: int): (i: int)
    ensures -1 <= i < |rows|
    ensures i == -1 ==> forall k | 0 <= k < |rows| :: rows[k].date != date
    ensures i >= 0 ==> rows[i].date == date && forall k | 0 <= k < i :: rows[k].date != date
  {
    if rows == [] then -1
    else if rows[0].date == date then 0
    else
      var rest := FindDate(rows[1..], date);
      assert forall k | 0 < k < |rows| :: rows[k] == rows[1..][k - 1];
      if rest == -1 then -1 else rest + 1
  }

  function Prices(rows: seq<Row>): (prices: seq<real>)
    ensures |prices| == |rows| && forall i | 0 <= i < |rows| :: prices[i] == rows[i].close
  {
    seq(|rows|, i requires 0 <= i < |rows| => rows[i].close)
  }

  // ----- the simple moving average

  /** The averages of all windows of `period` consecutive values, first window first. */
  function Sma(values: seq<real>, period: nat): (r: seq<real>)
    requires period > 0
    ensures |r| == if period <= |values| then |values| - period + 1 else 0
  {
    if period <= |values|
    then seq(|values| - period + 1, i requires 0 <= i <= |values| - period => Mean(values[i..i + period]))
    else []
  }

  lemma SmaAt(values: seq<real>, period: nat, i: nat)
    requires 0 < period && i + period <= |values|
    ensures Sma(values, period)[i] == Mean(values[i..i + period])
  {
  }

  /** Reading past the end of a series yields zero. */
  function OrZero(s: seq<real>, i: nat): real {
    if i < |s| then s[i] else 0.0
  }

  /** The moving average that belongs to a bar: the mean of the `period` closes that end there. */
  function AverageAt(rows: seq<Row>, period: nat, i: nat): real
    requires period > 0 && i < |rows|
  {
    if period <= i + 1 then Mean(Prices(rows)[i + 1 - period..i + 1]) else 0.0
  }

  ghost function SumOfCloses(rows: seq<Row>, k: nat): real
    requires k <= |rows|
  {
    if k == 0 then 0.0 else SumOfCloses(rows, k - 1) + rows[k - 1].close
  }

  lemma {:induction false} SumOfWindow(rows: seq<Row>, a: nat, b: nat)
    requires a <= b <= |rows|
    ensures Sum(Prices(rows)[a..b]) == SumOfCloses(rows, b) - SumOfCloses(rows, a)
  {
    if a < b {
      SumOfWindow(rows, a, b - 1);
      var window := Prices(rows)[a..b];
      assert window[..|window| - 1] == Prices(rows)[a..b - 1];
    }
  }

  /** The average of a bar, times its period, is the sum of the closes of that many bars, itself the
      last; a bar with too few bars before it has zero. */
  lemma AverageIsOfCloses(rows: seq<Row>, period: nat, i: nat)
    requires period > 0 && i < |rows|
    ensures period > i + 1 ==> AverageAt(rows, period, i) == 0.0
    ensures period <= i + 1 ==>
              Times(period as real, AverageAt(rows, period, i))
              == SumOfCloses(rows, i + 1) - SumOfCloses(rows, i + 1 - period)
  {
    if period <= i + 1 {
      SumOfWindow(rows, i + 1 - period, i + 1);
      hide Sum, SumOfCloses;
    }
  }

  // ----- the three ways the code attaches averages to bars

  /** Averages of the ascending prices, reversed and attached to the reversed rows. */
  function BarsByReversing(rows: seq<Row>, period: nat): (bars: seq<Bar<real>>)
    requires period > 0
    ensures |bars| == |rows|
  {
    var averages := Reverse(Sma(Prices(rows), period));
    var newest := Reverse(rows);
    Reverse(seq(|rows|, i requires 0 <= i < |rows| => Bar(newest[i].date, newest[i].close, OrZero(averages, i))))
  }

  /** Averages of the re-reversed prices, reversed again to run along the rows, newest first. */
  function NewestAverages(newest: seq<Row>, period: nat): seq<real>
    requires period > 0
  {
    Reverse(Sma(Reverse(Prices(newest)), period))
  }

  function BarsNewestFirst(rows: seq<Row>, short: nat, long: nat): (bars: seq<Bar<Averages>>)
    requires short > 0 && long > 0
    ensures |bars| == |rows|
  {
    var newest := Reverse(rows);
    var shorts, longs := NewestAverages(newest, short), NewestAverages(newest, long);
    seq(|rows|, i requires 0 <= i < |rows| =>
      Bar(newest[i].date, newest[i].close, Averages(OrZero(shorts, i), OrZero(longs, i))))
  }

  lemma {:induction false} SumOfReverse(s: seq<real>)
    ensures Sum(Reverse(s)) == Sum(s)
  {
    if s != [] {
      SumOfReverse(s[..|s| - 1]);
      SumPrepend(s[|s| - 1], Reverse(s[..|s| - 1]));
      assert Reverse(s) == [s[|s| - 1]] + Reverse(s[..|s| - 1]);
    }
  }

  lemma ReversedAverage(rows: seq<Row>, period: nat, i: nat)
    requires period > 0 && i < |rows|
    ensures OrZero(Reverse(Sma(Prices(rows), period)), |rows| - 1 - i) == AverageAt(rows, period, i)
  {
    if period <= i + 1 {
      SmaAt(Prices(rows), period, i + 1 - period);
    }
    hide Mean, Sma;
  }

  lemma ReversingAttachesAverage(rows: seq<Row>, period: nat, i: nat)
    requires period > 0 && i < |rows|
    ensures BarsByReversing(rows, period)[i] == Bar(rows[i].date, rows[i].close, AverageAt(rows, period, i))
  {
    hide AverageAt, Sma, OrZero;
    ReversedAverage(rows, period, i);
  }

  lemma NewestAverageAt(rows: seq<Row>, period: nat, i: nat)
    requires period > 0 && i < |rows|
    ensures OrZero(NewestAverages(Reverse(rows), period), |rows| - 1 - i) == AverageAt(rows, period, i)
  {
    hide Sma, OrZero, AverageAt;
    assert Reverse(Prices(Reverse(rows))) == Prices(rows);
    ReversedAverage(rows, period, i);
  }

  lemma NewestFirstAttachesAverage(rows: seq<Row>, short: nat, long: nat, i: nat)
    requires short > 0 && long > 0 && i < |rows|
    ensures BarsNewestFirst(rows, short, long)[|rows| - 1 - i]
         == Bar(rows[i].date, rows[i].close, Averages(AverageAt(rows, short, i), AverageAt(rows, long, i)))
  {
    hide NewestAverages, OrZero, AverageAt;
    NewestAverageAt(rows, short, i);
    NewestAverageAt(rows, long, i);
  }

  /** Rows queried newest first, with the averages taken directly on them: entry `k` averages
      row `k` and the older rows that follow it. */
  lemma DirectAttachesAverage(newest: seq<Row>, period: nat, k: nat)
    requires period > 0 && k < |newest|
    ensures k < |Sma(Prices(newest), period)| <==> period <= |newest| - k
    ensures period <= |newest| - k ==>
              Sma(Prices(newest), period)[k] == AverageAt(Reverse(newest), period, |newest| - 1 - k)
  {
    if period <= |newest| - k {
      SmaAt(Prices(newest), period, k);
      hide Sma;
      var rows, i := Reverse(newest), |newest| - 1 - k;
      var window := Prices(newest)[k..k + period];
      assert Prices(rows)[i + 1 - period..i + 1] == Reverse(window);
      SumOfReverse(window);
    }
  }

  // ----- the windows the strategies run on

  ghost predicate DistinctDates(rows: seq<Row>) {
    forall i, j | 0 <= i < j < |rows| :: rows[i].date != rows[j].date
  }

  /** Window of the price/average and SAR strategies, on bars oldest first. */
  function ClosedWindow<T>(rows: seq<Row>, bars: seq<Bar<T>>, dateFrom: int, dateTo: int): seq<Bar<T>> {
    Slice(bars, FindDate(rows, dateFrom), FindDate(rows, dateTo) + 1)
  }

  /** Window of the MACD and short/long strategies, on bars newest first, returned oldest first. */
  function OpenWindow<T>(rows: seq<Row>, newestBars: seq<Bar<T>>, dateFrom: int, dateTo: int): seq<Bar<T>> {
    Reverse(Slice(newestBars, FindDate(Reverse(rows), dateTo) + 1, FindDate(Reverse(rows), dateFrom)))
  }

  /** The bars from `lo` up to `hi`, none if there are none. */
  ghost function Part<T>(s: seq<T>, lo: nat, hi: nat): (r: seq<T>)
    ensures |r| == if lo < hi <= |s| then hi - lo else 0
    ensures forall i | 0 <= i < |r| :: r[i] == s[lo + i]
  {
    if lo < hi <= |s| then s[lo..hi] else []
  }

  // The days come from a query over all stocks, so a stock may have no row on either of them.

  /** The closed window starts at the first day, or at the newest bar if that day has no row. */
  ghost function ClosedStart(rows: seq<Row>, dateFrom: int): nat {
    var p := FindDate(rows, dateFrom);
    if p >= 0 then p else if rows == [] then 0 else |rows| - 1
  }

  /** It ends after the last day, or before everything if that day has no row. */
  ghost function ClosedEnd(rows: seq<Row>, dateTo: int): (end: nat)
    ensures end <= |rows|
  {
    FindDate(rows, dateTo) + 1
  }

  /** The open window starts after the first day, or at the second bar if that day has no row. */
  ghost function OpenStart(rows: seq<Row>, dateFrom: int): (start: nat)
    ensures 0 < start && (rows != [] ==> start <= |rows|)
  {
    var p := FindDate(rows, dateFrom);
    if p >= 0 then p + 1 else 1
  }

  /** It ends before the last day, or after everything if that day has no row. */
  ghost function OpenEnd(rows: seq<Row>, dateTo: int): (end: nat)
    ensures end <= |rows|
  {
    var q := FindDate(rows, dateTo);
    if q >= 0 then q else |rows|
  }

  lemma FindNewest(rows: seq<Row>, date: int)
    requires DistinctDates(rows)
    ensures var p := FindDate(rows, date);
            FindDate(Reverse(rows), date) == if p >= 0 then |rows| - 1 - p else -1
  {
    var newest, p := Reverse(rows), FindDate(rows, date);
    var i := FindDate(newest, date);
    if p >= 0 {
      assert newest[|rows| - 1 - p] == rows[p];
      assert newest[i] == rows[|rows| - 1 - i];
    } else {
      assert forall k | 0 <= k < |rows| :: newest[k] == rows[|rows| - 1 - k];
    }
  }

  lemma OpenWindowIsReversed<T>(rows: seq<Row>, newestBars: seq<Bar<T>>, dateFrom: int, dateTo: int)
    requires DistinctDates(rows) && |newestBars| == |rows|
    ensures OpenWindow(rows, newestBars, dateFrom, dateTo) ==
            Reverse(Part(newestBars, |rows| - OpenEnd(rows, dateTo),
                         if rows == [] then 0 else |rows| - OpenStart(rows, dateFrom)))
  {
    FindNewest(rows, dateFrom);
    FindNewest(rows, dateTo);
    hide FindDate, DistinctDates, Reverse;
  }

  lemma ReversedPart<T>(s: seq<T>, lo: nat, hi: nat, end: nat)
    requires hi <= |s| && lo + end == |s|
    ensures var part := Reverse(Part(s, |s| - hi, end));
            && |part| == (if lo < hi then hi - lo else 0)
            && forall i | 0 <= i < |part| :: part[i] == s[|s| - 1 - (lo + i)]
  {
    hide *;
  }

  lemma OpenWindowAt<T>(rows: seq<Row>, newestBars: seq<Bar<T>>, dateFrom: int, dateTo: int)
    requires DistinctDates(rows) && |newestBars| == |rows|
    ensures var bars, lo, hi := OpenWindow(rows, newestBars, dateFrom, dateTo),
                                OpenStart(rows, dateFrom), OpenEnd(rows, dateTo);
            && |bars| == (if lo < hi then hi - lo else 0)
            && forall i | 0 <= i < |bars| :: bars[i] == newestBars[|rows| - 1 - (lo + i)]
  {
    hide *;
    OpenWindowIsReversed(rows, newestBars, dateFrom, dateTo);
    if rows != [] {
      ReversedPart(newestBars, OpenStart(rows, dateFrom), OpenEnd(rows, dateTo), |rows| - OpenStart(rows, dateFrom));
    }
  }

  /** For any two days, the first kind of window includes its end days and the second excludes
      them; and they differ in what a day without a row does to them. */
  lemma WindowsDifferAtEnds<T>(rows: seq<Row>, bars: seq<Bar<T>>, dateFrom: int, dateTo: int)
    requires DistinctDates(rows) && |bars| == |rows|
    ensures ClosedWindow(rows, bars, dateFrom, dateTo)
         == Part(bars, ClosedStart(rows, dateFrom), ClosedEnd(rows, dateTo))
    ensures OpenWindow(rows, Reverse(bars), dateFrom, dateTo)
         == Part(bars, OpenStart(rows, dateFrom), OpenEnd(rows, dateTo))
  {
    hide *;
    ClosedWindowIs(rows, bars, dateFrom, dateTo);
    OpenWindowIs(rows, bars, dateFrom, dateTo);
  }

  lemma OpenWindowIs<T>(rows: seq<Row>, bars: seq<Bar<T>>, dateFrom: int, dateTo: int)
    requires DistinctDates(rows) && |bars| == |rows|
    ensures OpenWindow(rows, Reverse(bars), dateFrom, dateTo)
         == Part(bars, OpenStart(rows, dateFrom), OpenEnd(rows, dateTo))
  {
    hide *;
    OpenWindowAt(rows, Reverse(bars), dateFrom, dateTo);
    var window, lo := OpenWindow(rows, Reverse(bars), dateFrom, dateTo), OpenStart(rows, dateFrom);
    assert OpenEnd(rows, dateTo) <= |rows|;
    forall i | 0 <= i < |window|
      ensures window[i] == bars[lo + i]
    {
      assert Reverse(bars)[|rows| - 1 - (lo + i)] == bars[lo + i];
    }
  }

  lemma ClosedWindowIs<T>(rows: seq<Row>, bars: seq<Bar<T>>, dateFrom: int, dateTo: int)
    requires |bars| == |rows|
    ensures ClosedWindow(rows, bars, dateFrom, dateTo)
         == Part(bars, ClosedStart(rows, dateFrom), ClosedEnd(rows, dateTo))
  {
    hide FindDate;
  }

  // ----- when a window is the rows between its days

  ghost predicate Ascending(rows: seq<Row>) {
    forall i, j | 0 <= i < j < |rows| :: rows[i].date < rows[j].date
  }

  /** The rows from `lo` up to `hi` are those from day `first` to day `last`. */
  ghost predicate Within(rows: seq<Row>, lo: nat, hi: nat, first: int, last: int) {
    lo <= hi <= |rows| && forall i | 0 <= i < |rows| :: lo <= i < hi <==> first <= rows[i].date <= last
  }

  lemma RangeExists(rows: seq<Row>, first: int, last: int) returns (lo: nat, hi: nat)
    requires Ascending(rows)
    ensures Within(rows, lo, hi, first, last)
  {
    lo := 0;
    while lo < |rows| && rows[lo].date < first
      invariant lo <= |rows| && forall i | 0 <= i < lo :: rows[i].date < first
    {
      lo := lo + 1;
    }
    hi := lo;
    while hi < |rows| && rows[hi].date <= last
      invariant lo <= hi <= |rows| && forall i | lo <= i < hi :: rows[i].date <= last
    {
      hi := hi + 1;
    }
  }

  /** The closed window is the rows from the first to the last day, both included, exactly when
      both days are rows, or when what a missing day makes of it happens to fit: nothing if the
      last day is missing, the newest bar if only the first is and the last is the newest. */
  lemma ClosedWindowIsRangeIff<T>(rows: seq<Row>, bars: seq<Bar<T>>, dateFrom: int, dateTo: int, lo: nat, hi: nat)
    requires Ascending(rows) && |bars| == |rows| && Within(rows, lo, hi, dateFrom, dateTo)
    ensures ClosedWindow(rows, bars, dateFrom, dateTo) == bars[lo..hi] <==>
              var p, q := FindDate(rows, dateFrom), FindDate(rows, dateTo);
              if q == -1 then lo == hi else p >= 0 || hi - lo == if q == |rows| - 1 then 1 else 0
  {
    ClosedWindowIs(rows, bars, dateFrom, dateTo);
    hide ClosedWindow;
    var p, q := FindDate(rows, dateFrom), FindDate(rows, dateTo);
    hide FindDate;
    assert 0 <= p <= q ==> lo <= p < hi;
    if lo < hi {
      assert dateFrom <= rows[lo].date <= rows[hi - 1].date <= dateTo;
      assert p >= 0 ==> lo <= p < hi;
      assert q >= 0 ==> lo <= q < hi;
    }
  }

  /** Each bar carries the day of its row. */
  ghost predicate Dated<T>(rows: seq<Row>, bars: seq<Bar<T>>) {
    |bars| == |rows| && forall i | 0 <= i < |rows| :: bars[i].date == rows[i].date
  }

  lemma SamePart<T>(rows: seq<Row>, bars: seq<Bar<T>>, a: nat, b: nat, lo: nat, hi: nat)
    requires Ascending(rows) && Dated(rows, bars) && lo <= hi <= |rows| && b <= |rows|
    ensures Part(bars, a, b) == bars[lo..hi] <==> if lo < hi then a == lo && b == hi else a >= b
  {
    if lo < hi && Part(bars, a, b) == bars[lo..hi] {
      assert Part(bars, a, b)[0] == bars[a] && bars[lo..hi][0] == bars[lo];
    }
  }

  /** The open window is the rows strictly between the two days exactly when, if there are such
      rows, a missing first day has one older row and a missing last day no newer one; if there
      are none, when the window ends where it starts. */
  lemma OpenWindowIsRangeIff<T>(rows: seq<Row>, bars: seq<Bar<T>>, dateFrom: int, dateTo: int, lo: nat, hi: nat)
    requires Ascending(rows) && Dated(rows, bars) && Within(rows, lo, hi, dateFrom + 1, dateTo - 1)
    ensures OpenWindow(rows, Reverse(bars), dateFrom, dateTo) == bars[lo..hi] <==>
              if lo < hi then (FindDate(rows, dateFrom) >= 0 || lo == 1)
                             && (FindDate(rows, dateTo) >= 0 || hi == |rows|)
              else OpenStart(rows, dateFrom) >= OpenEnd(rows, dateTo)
  {
    WindowsDifferAtEnds(rows, bars, dateFrom, dateTo);
    hide OpenWindow, ClosedWindow, Part, Reverse;
    SamePart(rows, bars, OpenStart(rows, dateFrom), OpenEnd(rows, dateTo), lo, hi);
    if lo < hi {
      StrictRange(rows, dateFrom, dateTo, lo, hi);
    }
    hide FindDate;
  }

  lemma StrictRange(rows: seq<Row>, dateFrom: int, dateTo: int, lo: nat, hi: nat)
    requires Ascending(rows) && Within(rows, lo, hi, dateFrom + 1, dateTo - 1) && lo < hi
    ensures var p := FindDate(rows, dateFrom); p >= 0 ==> lo == p + 1
    ensures var q := FindDate(rows, dateTo); q >= 0 ==> hi == q
  {
    var p, q := FindDate(rows, dateFrom), FindDate(rows, dateTo);
    hide FindDate;
    assert dateFrom < rows[lo].date < dateTo && dateFrom < rows[hi - 1].date < dateTo;
    if p >= 0 {
      assert p < lo;
      assert dateFrom < rows[p + 1].date <= rows[lo].date;
    }
    if q >= 0 {
      assert q >= hi;
      assert rows[hi - 1].date <= rows[q - 1].date < dateTo;
    }
  }

  /** A stock first listed after the first day: up to the newest day the closed window is the last
      bar alone, up to an older day it is empty, and the open window lacks the oldest bar. */
  lemma LateListed<T>(rows: seq<Row>, bars: seq<Bar<T>>, dateFrom: int, q: nat)
    requires Ascending(rows) && |bars| == |rows| && q < |rows| && dateFrom < rows[0].date
    ensures ClosedWindow(rows, bars, dateFrom, rows[q].date) == if q == |rows| - 1 then bars[q..] else []
    ensures OpenWindow(rows, Reverse(bars), dateFrom, rows[q].date) == if q > 1 then bars[1..q] else []
  {
    assert FindDate(rows, dateFrom) == -1 && FindDate(rows, rows[q].date) == q;
    WindowsDifferAtEnds(rows, bars, dateFrom, rows[q].date);
    hide ClosedWindow, OpenWindow, FindDate;
  }

  /** Three rows inside the two days: one bar in the closed window, one in the open window. */
  lemma LateListedStock() returns (rows: seq<Row>, bars: seq<Bar<real>>)
    ensures Ascending(rows) && Dated(rows, bars) && Within(rows, 0, 3, 1, 7)
    ensures ClosedWindow(rows, bars, 1, 7) == bars[2..] && OpenWindow(rows, Reverse(bars), 1, 7) == bars[1..2]
  {
    rows := [Row(5, 10.0), Row(6, 11.0), Row(7, 12.0)];
    bars := [Bar(5, 10.0, 0.0), Bar(6, 11.0, 0.0), Bar(7, 12.0, 0.0)];
    LateListed(rows, bars, 1, 2);
  }

  /** The bars are those of the rows from `lo` up to `hi`, each with the indicator that belongs to
      its row. */
  ghost predicate CarriesFrom<T>(bars: seq<Bar<T>>, rows: seq<Row>, values: seq<T>, lo: nat, hi: nat)
    requires |values| == |rows|
  {
    && |bars| == (if lo < hi then hi - lo else 0)
    && (lo < hi ==> hi <= |rows|)
    && forall i | 0 <= i < |bars| :: bars[i] == Bar(rows[lo + i].date, rows[lo + i].close, values[lo + i])
  }

  lemma CarriedTradable<T>(bars: seq<Bar<T>>, rows: seq<Row>, values: seq<T>, lo: nat, hi: nat)
    requires |values| == |rows| && Tradable(Prices(rows)) && CarriesFrom(bars, rows, values, lo, hi)
    ensures Tradable(Closes(bars))
  {
    assert forall i | 0 <= i < |bars| :: Closes(bars)[i] == Prices(rows)[lo + i];
  }

  // ----- the windows with their averages

  /** The bars are those of the rows from `lo` up to `hi`, each with the mean of the closes that end
      there. */
  ghost predicate Averaged(bars: seq<Bar<real>>, rows: seq<Row>, period: nat, lo: nat, hi: nat)
    requires period > 0
  {
    && |bars| == (if lo < hi then hi - lo else 0)
    && (lo < hi ==> hi <= |rows|)
    && forall i | 0 <= i < |bars| ::
         bars[i] == Bar(rows[lo + i].date, rows[lo + i].close, AverageAt(rows, period, lo + i))
  }

  /** The same with a short and a long average. */
  ghost predicate AveragedTwice(bars: seq<Bar<Averages>>, rows: seq<Row>, short: nat, long: nat, lo: nat, hi: nat)
    requires short > 0 && long > 0
  {
    && |bars| == (if lo < hi then hi - lo else 0)
    && (lo < hi ==> hi <= |rows|)
    && forall i | 0 <= i < |bars| ::
         bars[i] == Bar(rows[lo + i].date, rows[lo + i].close,
                        Averages(AverageAt(rows, short, lo + i), AverageAt(rows, long, lo + i)))
  }

  /** The closed window on bars with averages, for any two days, bar by bar. */
  lemma ClosedWindowBars(rows: seq<Row>, period: nat, dateFrom: int, dateTo: int)
    requires period > 0
    ensures Averaged(ClosedWindow(rows, BarsByReversing(rows, period), dateFrom, dateTo), rows, period,
                     ClosedStart(rows, dateFrom), ClosedEnd(rows, dateTo))
  {
    hide AverageAt, ClosedWindow, BarsByReversing, Reverse, FindDate;
    ClosedWindowIs(rows, BarsByReversing(rows, period), dateFrom, dateTo);
    forall i | 0 <= i < |rows|
      ensures BarsByReversing(rows, period)[i] == Bar(rows[i].date, rows[i].close, AverageAt(rows, period, i))
    {
      ReversingAttachesAverage(rows, period, i);
    }
  }

  /** The open window on bars with two averages, for any two days, bar by bar. */
  lemma OpenWindowBars(rows: seq<Row>, short: nat, long: nat, dateFrom: int, dateTo: int)
    requires short > 0 && long > 0 && DistinctDates(rows)
    ensures AveragedTwice(OpenWindow(rows, BarsNewestFirst(rows, short, long), dateFrom, dateTo), rows, short, long,
                          OpenStart(rows, dateFrom), OpenEnd(rows, dateTo))
  {
    hide AverageAt, OpenWindow, BarsNewestFirst, FindDate;
    OpenWindowAt(rows, BarsNewestFirst(rows, short, long), dateFrom, dateTo);
    forall i | 0 <= i < |rows|
      ensures BarsNewestFirst(rows, short, long)[|rows| - 1 - i]
           == Bar(rows[i].date, rows[i].close, Averages(AverageAt(rows, short, i), AverageAt(rows, long, i)))
    {
      NewestFirstAttachesAverage(rows, short, long, i);
    }
  }

  /** A window of a history with prices has prices. */
  lemma AveragedTradable(bars: seq<Bar<real>>, rows: seq<Row>, period: nat, lo: nat, hi: nat)
    requires period > 0 && Tradable(Prices(rows)) && Averaged(bars, rows, period, lo, hi)
    ensures Tradable(Closes(bars))
  {
    hide AverageAt;
    assert forall i | 0 <= i < |bars| :: Closes(bars)[i] == Prices(rows)[lo + i];
  }

  lemma AveragedTwiceTradable(bars: seq<Bar<Averages>>, rows: seq<Row>, short: nat, long: nat, lo: nat, hi: nat)
    requires short > 0 && long > 0 && Tradable(Prices(rows)) && AveragedTwice(bars, rows, short, long, lo, hi)
    ensures Tradable(Closes(bars))
  {
    hide AverageAt;
    assert forall i | 0 <= i < |bars| :: Closes(bars)[i] == Prices(rows)[lo + i];
  }

  // ----- the indicator table of the signal warnings

  const AVERAGE_PERIODS: seq<nat> := [5, 10, 15, 20, 50, 60, 100]

  /** The average of a period on row `k`, in thousands, where enough older rows follow. */
  ghost function AverageOn(newest: seq<Row>, period: nat, k: nat): Option<real>
    requires period > 0 && k < |newest|
  {
    if period <= |newest| - k then Some(AverageAt(Reverse(newest), period, |newest| - 1 - k) / 1000.0) else None
  }

  /** A thousand times the entry is the average of the closes of the row and the older rows. */
  lemma ThousandTimesEntry(newest: seq<Row>, period: nat, k: nat)
    requires period > 0 && k < |newest|
    ensures AverageOn(newest, period, k).Some? <==> period <= |newest| - k
    ensures period <= |newest| - k ==>
              1000.0 * AverageOn(newest, period, k).value == AverageAt(Reverse(newest), period, |newest| - 1 - k)
  {
    hide AverageAt;
  }

  lemma DirectAverageOn(newest: seq<Row>, period: nat, k: nat)
    requires period > 0 && k < |newest|
    ensures var averages := Sma(Prices(newest), period);
            AverageOn(newest, period, k) == if k < |averages| then Some(averages[k] / 1000.0) else None
  {
    hide AverageAt, Sma, Reverse;
    DirectAttachesAverage(newest, period, k);
  }

  ghost predicate HasAverages(row: seq<Option<real>>, newest: seq<Row>, k: nat)
    requires k < |newest|
  {
    |row| == |AVERAGE_PERIODS| && forall m | 0 <= m < |row| :: row[m] == AverageOn(newest, AVERAGE_PERIODS[m], k)
  }

  method AttachRow(newest: seq<Row>, k: nat) returns (row: seq<Option<real>>)
    requires k < |newest|
    ensures HasAverages(row, newest, k)
  {
    row := [];
    for m := 0 to |AVERAGE_PERIODS|
      invariant |row| == m
      invariant forall j | 0 <= j < m :: row[j] == AverageOn(newest, AVERAGE_PERIODS[j], k)
    {
      hide AverageOn, Sma;
      var period := AVERAGE_PERIODS[m];
      var averages := Sma(Prices(newest), period);
      DirectAverageOn(newest, period, k);
      row := row + [if k < |averages| then Some(averages[k] / 1000.0) else None];
    }
  }

  /** Writes the averages of every period onto every row, newest row first. */
  method AttachAverages(newest: seq<Row>) returns (table: seq<seq<Option<real>>>)
    ensures |table| == |newest|
    ensures forall k | 0 <= k < |newest| :: HasAverages(table[k], newest, k)
  {
    hide HasAverages;
    table := [];
    for k := 0 to |newest|
      invariant |table| == k
      invariant forall i | 0 <= i < k :: HasAverages(table[i], newest, i)
    {
      var row := AttachRow(newest, k);
      table := table + [row];
    }
  }
}
