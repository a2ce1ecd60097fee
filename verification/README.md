# Verified model of the market back end

This project models, in Dafny, the parts of the market back end that compute or keep state, and
proves what they promise. `dafny verify dfyconfig.toml` checks all of it.

- **Strategies** (`Positions`, `TradeLog`, `Returns`, `Ledger`, `Crossover`, `Windows`,
  `MovingAverage`, `ParabolicSar`, `Macd`, `AverageCross`, `BestPeriod`). Four loops walk over a
  window of bars with a buy flag, a running total, extremes and a log. Each is a method proved
  against the history of positions its cues define; the theorems about logs, compounding and
  bounds are proved once, for every history. Where the loops differ (ties, the first bar, the last
  bar, the ends of the window) the difference is stated exactly.
- **Back-test of stored signals** (`Backtest`). Grouping rows by stock and scanning with one
  remembered buy is proved to find the adjacent buy/sell pairs.
- **Emulator** (`Statistics`, `PairwiseStatistics`, `Portfolio`). Sample statistics as loops, the
  laws of covariance, the covariance without means, and the sums that make a portfolio out of its
  stocks.
- **Support and resistance** (`Levels`). A greedy scan, characterised by packing and covering.
- **Sessions** (`Sessions`, `SessionRuns`, `LoginRuns`, `AuthService`). Requests are cut at every await, so
  logins, refreshes, logouts and password changes interleave; the theorems hold along every run.
- **Blog** (`Categories`, `CategoryService`, `CategoryTree`, `Tags`, `TagRuns`, `PostService`).
  Creations and updates of categories and posts are cut at every await too: what every step keeps,
  what holds along every interleaving, and exactly when names stay unique.
- **News** (`FilterTree`). A tree built in place.

`Filters` says, by places, what a filtered list and a list of keys are, and is used throughout.

Prices are reals. A division by zero, which has no finite result in the code, is given the value
zero, and the theorems that need a quotient ask for prices other than zero. Days are integers.
Query results are input sequences. Random ids and secrets are parameters that must be new. A token
is its payload and the secret that signed it, as in section 7.2 of RFC 7519 without the
cryptography; a client may present any token except one forged under a secret of the server.

What the proofs found, where the code does not do what its shape suggests:

- A price that touches its average after a crossing keeps the position open, so the crossover
  condition fails on windows with such ties, and only there (`Crossover.HeldIffCrossed`).
- The MACD signal-line variant can report "buy" without ever having held a position
  (`Macd.SignalWithoutPosition`); `Macd.SignalTellsPositionIff` says for which windows its signal
  tells whether a position is open. Every variant reports "buy" on an empty window, and the
  short/long variant on a window of one bar as well (`AverageCross.Run`).
- The two days of a window come from a query over all stocks. For a stock listed after the first
  day, one kind of window shrinks to the last bar or to nothing and the other loses its oldest bar
  (`Windows.LateListedStock`). `Windows.ClosedWindowIsRangeIff` and `Windows.OpenWindowIsRangeIff`
  say exactly when a window is the rows between its days.
- The choice of the best period starts over when the best total is zero and can then pass over a
  profitable period (`BestPeriod.ProfitPassedOver`).
- The percentages of the emulator are one-row price moves that ignore the weights, so the beta of
  a portfolio is the plain sum of the betas of its stocks (`Portfolio.ReturnsIgnoreWeight`,
  `Portfolio.PortfolioBeta`).
- The deletion after a failed verification looks for a device id and deletes no session
  (`SessionRuns.OtherRowsStay`).
- One refresh token can be exchanged twice by interleaved requests
  (`SessionRuns.TokenExchangedTwice`), exactly as long as no write to its session comes in between
  (`SessionRuns.ExchangedAgainIff`).
- A login that passed its check before a password change still gets its session
  (`LoginRuns.SessionUnderOldPassword`); the password that opened a session is the current one
  exactly unless the last change since its check set another (`LoginRuns.SessionPasswordIsCurrentIff`).
- Readers are shown unpublished subcategories (`CategoryTree.UnpublishedShown`), exactly if a
  published main category has one (`CategoryTree.ReadersSeePublishedIff`).
- Category names are not unique: an update never looks for its new name
  (`Categories.UpdateMayRepeatName`), and of two creations of one name both can be stored
  (`Categories.TwoCreationsShareName`). They stay distinct exactly while each write finds its name
  free at the moment it writes (`Categories.RunKeepsNamesIff`).
- Tag names are not unique either: two updates can save one name (`TagRuns.TwoUpdatesStoreNameTwice`)
  and a creation can repeat a name (`TagRuns.RepeatedNameStoredTwice`). They stay unique exactly
  while no save repeats a name or is overtaken by another save (`TagRuns.RunKeepsNamesIff`).

## Model

| member | source | states |
|---|---|---|
| Positions.HeldIffEnteredSince | src/investment/investment.service.ts:938-958 | the remembered buy flag after any bar equals a condition without memory: some earlier bar asked to enter and none since asked to leave |
| TradeLog.LogIffSpans | src/investment/investment.service.ts:928-971 | the list of trades a loop builds is the only list that holds trades of the position history, one after the other, and leaves no opened position out; both directions |
| TradeLog.SpansIsLog | src/investment/investment.service.ts:956-971 | the trades a loop builds are trades of the history, each sold before the next is bought, and every opened position is among them |
| TradeLog.HeldIffInsideTrade | src/investment/investment.service.ts:938-971 | before the last bar the position is open exactly inside the logged trades |
| TradeLog.OnlyLastBarTradesAreEmpty | src/investment/investment.service.ts:956-971 | only a trade on the last bar can have no length, and it is the last trade; a loop that sells before it buys has none |
| TradeLog.EntriesCountTrades | src/investment/investment.service.ts:939-943 | the number of entries is the number of dropped positions plus the open one |
| Returns.GainIsRatio | src/investment/investment.service.ts:958-960 | a trade multiplies the capital by the price sold over the price bought |
| Returns.CompoundIsMarkToMarket | src/investment/investment.service.ts:958-960 | compounding the trades equals revaluing the account at every bar at which the position was open before, for every history; an entry on the last bar adds nothing |
| Returns.BestAndWorst | src/investment/investment.service.ts:961-962 | the running minimum and maximum lie on both sides of zero, bound every trade, and are zero or reached by a trade |
| Returns.GeometricBound | src/investment/investment.service.ts:958-962 | for positive prices (1 + min)^k <= 1 + total <= (1 + max)^k with k the number of trades |
| Ledger.NextTracks | src/investment/investment.service.ts:938-972 | one bar of any of the loops keeps total, extremes, count, rows and flag in step with the position history, and the last bar closes them |
| Ledger.TotalIsMarkToMarket | src/investment/investment.service.ts:960-976 | the reported total is the growth of the account revalued at every bar while the position is open |
| Ledger.RowsAreTheLog | src/investment/investment.service.ts:964-970 | each reported row carries days and prices of the bars of its trade in the one log of the history, and the gain in percent of the price paid |
| Ledger.CountIsLogLength | src/investment/investment.service.ts:942-957 | count is the length of the log and the flag ends false; only in a loop that does not sell on the entry bar can an entry on the last bar stay open, and then count is one more |
| Ledger.RowsBoundTotal | src/investment/investment.service.ts:960-971 | every reported profit lies between min and max, which are zero or reached, and the geometric bound holds for the reported figures |
| Crossover.HeldIffCrossed | src/investment/investment.service.ts:939-958 | the loop is in position exactly when the fast series is above after having been low, if and only if no tie misleads it; windows without ties are a special case |
| Crossover.AgreementStep | src/investment/investment.service.ts:1499-1512 | one bar keeps that agreement exactly when no tie sits next to a bar above |
| Crossover.TieKeepsPosition | src/investment/investment.service.ts:956-957 | a window low, crossed, tied on which the position stays open although the price is not above |
| Crossover.HeldIffLatestUntiedAbove | src/investment/investment.service.ts:1109-1119 | with level cues the position is open exactly when the latest bar without a tie is above |
| MovingAverage.Run | src/investment/investment.service.ts:928-972 | the price/average loop closes its ledger on the window; the signal is buy or hold-buy exactly when the run ends with an open position, which it liquidates, buy and sell exactly when the last price crosses its average, a buy from strictly below |
| MovingAverage.PositionIsLastCrossing | src/investment/investment.service.ts:938-957 | after any bar, ties included, the position is open exactly when the price rose from at or below its average to above it at some bar and has not fallen from above to below since; bars after a price of zero do not count |
| MovingAverage.PositionIsCrossover | src/investment/investment.service.ts:939-957 | with prices, the position is above-average-after-not-above exactly when no tie misleads |
| MovingAverage.Periods | src/investment/investment.service.ts:918-921 | the periods: the one asked for, 5 to 100 for privileged callers, else the six defaults |
| MovingAverage.CalculatePeriod | src/investment/investment.service.ts:923-985 | the report of a period carries the figures of the closed ledger of its window, the signal of its last bar, and the average of the newest bar if there is one |
| MovingAverage.Calculate | src/investment/investment.service.ts:911-991 | one such report a period, and the one the reduction keeps |
| MovingAverage.CalculateBackup | src/investment/investment.service.ts:2176-2257 | the twin that reads the second bar: it throws exactly when the window has fewer than two bars, otherwise each report has the same figures and signal and the average of the second bar, and the same reduction keeps one |
| MovingAverage.ReportIsMarkToMarket | src/investment/investment.service.ts:936-976 | for any two days the report is the account revalued over the closed window, wherever it starts and ends, each bar carrying the mean of the closes that end there |
| ParabolicSar.Run | src/investment/investment.service.ts:1098-1135 | the SAR loop closes its ledger; on a non-empty window the signal is 0 or 2 exactly when the run ends by liquidating on the last bar, and 2 or 3 exactly on a tie |
| ParabolicSar.PositionFollowsLatestUntied | src/investment/investment.service.ts:1109-1120 | ties included, the position is open exactly when the latest bar whose close differs from its SAR is above it |
| ParabolicSar.Calculate | src/investment/investment.service.ts:1087-1151 | the figures and the signal of the closed window between the two days, on bars with their SAR or zero |
| ParabolicSar.WindowCarriesSar | src/investment/investment.service.ts:1095-1106 | for any two days, every bar of the closed window carries the SAR of its row, or zero where the series has ended |
| ParabolicSar.TotalIsMarkToMarketWithin | src/investment/investment.service.ts:1106-1128 | for any two days the total is the account revalued over the closed window, each bar with the SAR of its row |
| Macd.Run | src/investment/investment.service.ts:1267-1309 | the MACD loop closes a ledger that does not sell on the entry bar; the signal is what the last lines and the position say |
| Macd.LastSignalIs | src/investment/investment.service.ts:1328-1343 | on the histogram the reported signal is buy or hold-buy exactly when the position is open; on the signal line it follows the line and the position decides ties |
| Macd.SignalWithoutPosition | src/investment/investment.service.ts:1332-1335 | a concrete window on which the signal-line variant reports buy although no position was ever opened |
| Macd.SignalLinePosition | src/investment/investment.service.ts:1349-1364 | on the signal line the position is open exactly when the line crossed up at some bar and has not crossed down since, ties included |
| Macd.SignalTellsPositionIff | src/investment/investment.service.ts:1332-1335 | for every window, exactly when buy or hold-buy on the signal line means an open position: never without bars, always on one bar, else when the last bar is tied, or is above with a crossing up not undone, or below without one |
| Macd.UntiedSignalTellsPositionIff | src/investment/investment.service.ts:1332-1335 | where no tie misleads the loop, the signal is wrong exactly on windows that end above a signal line they were never below |
| Macd.PositionIsCrossover | src/investment/investment.service.ts:1349-1364 | on the signal line the position is the plain crossover condition exactly when no tie misleads |
| Macd.PositionIsEntrySinceExit | src/investment/investment.service.ts:1275-1305 | on any indicator the position is open exactly when some bar entered and none left since |
| Macd.HistogramPosition | src/investment/investment.service.ts:1351-1366 | on the histogram the position is open exactly when the histogram rose below the signal at some bar and has not since fallen above it |
| Macd.UnknownNeverBuys | src/investment/investment.service.ts:1353-1354 | any other indicator never buys |
| Macd.TradesSpanABar | src/investment/investment.service.ts:1277-1304 | every reported trade spans at least one bar |
| Macd.Calculate | src/investment/investment.service.ts:1247-1326 | the figures of the ledger of the open window between the two days, and the signal its last lines and position give |
| Macd.WindowCarriesLines | src/investment/investment.service.ts:1255-1265 | for any two days, every bar of the open window carries the lines of its row, counted from the newest row, or zeros where they run out |
| Macd.TotalIsMarkToMarketBetween | src/investment/investment.service.ts:1260-1294 | for any two days the total is the account revalued over the open window, each bar with the lines of its row |
| AverageCross.Run | src/investment/investment.service.ts:1485-1527 | the short/long loop closes its ledger; from two bars on the signal is 0 or 2 exactly when the run ends with an open position, 0 and 1 exactly when the last bar crosses, while on a window of one bar it stays 0 without a position |
| AverageCross.PositionIsLastCrossing | src/investment/investment.service.ts:1499-1512 | after any bar, ties included, the position is open exactly when the short average rose from below the long one to above it at some bar and has not fallen from above to below since |
| AverageCross.PositionIsCrossover | src/investment/investment.service.ts:1499-1512 | the position is short-above-long-after-below exactly when no tie misleads |
| AverageCross.Calculate | src/investment/investment.service.ts:1466-1543 | the figures and the signal of the open window between the two days |
| AverageCross.TotalIsMarkToMarketBetween | src/investment/investment.service.ts:1475-1516 | for any two days the total is the account revalued over the open window, wherever it starts and ends, each bar carrying both averages of the closes that end there |
| Windows.ReversingAttachesAverage | src/investment/investment.service.ts:924-926 | reversing the averages against reversed rows attaches to each bar the mean of the closes that end there |
| Windows.NewestFirstAttachesAverage | src/investment/investment.service.ts:1475-1483 | averaging the re-reversed prices and reversing again attaches the same means |
| Windows.DirectAttachesAverage | src/signal-warning/signal-warning.service.ts:274-300 | averages taken directly on descending rows are the same means, and exist exactly where enough older rows follow |
| Windows.AttachAverages | src/signal-warning/signal-warning.service.ts:277-301 | the nested loops write, for every row and every period, a thousandth of that mean or nothing |
| Windows.SumOfReverse | src/signal-warning/signal-warning.service.ts:280 | a sum does not depend on the direction the prices run in |
| Windows.AverageIsOfCloses | src/investment/investment.service.ts:924-926 | the average of a bar times its period is the sum of the closes of that many bars, itself the last; with fewer bars it is zero |
| Windows.ThousandTimesEntry | src/signal-warning/signal-warning.service.ts:299-301 | a thousand times an entry of the indicator table is the average of the closes of its row and the older ones, and there is one exactly when enough rows follow |
| Windows.FindDate | src/investment/investment.service.ts:914-915 | index of the first row of a day, or -1 if there is none |
| Windows.WindowsDifferAtEnds | src/investment/investment.service.ts:914-936 | for any two days: the first kind of window runs from the first day, or from the newest bar if that day is no row, to the last day included, or is empty if that is no row; the second, cut from descending rows, runs from after the first day, or from the second bar, to before the last day, or to the newest bar |
| Windows.OpenWindowAt | src/investment/investment.service.ts:1260-1265 | the window cut from descending rows, bar by bar, for any two days |
| Windows.ClosedWindowIsRangeIff | src/investment/investment.service.ts:914-936 | for any two days the closed window is the rows from the first to the last day exactly when both days are rows, or the last is no row and there are none in between, or only the first is no row and there is one row in between if the last day is the newest row and none otherwise |
| Windows.OpenWindowIsRangeIff | src/investment/investment.service.ts:1250-1265 | for any two days the open window is the rows strictly between them exactly when a missing first day has exactly one older row and a missing last day no newer one; without rows in between, when the window ends where it starts |
| Windows.LateListed | src/investment/investment.service.ts:844-936 | every stock listed after the first day: the closed window is the last bar up to the newest day and empty up to an older one, the open window lacks the oldest bar |
| Windows.LateListedStock | src/investment/investment.service.ts:844-936 | a concrete stock with three rows inside the two days and one bar in each window |
| Windows.ClosedWindowBars | src/investment/investment.service.ts:924-936 | every bar of the closed window with its average, for any two days |
| Windows.OpenWindowBars | src/investment/investment.service.ts:1475-1483 | every bar of the open window with its two averages, for any two days |
| BestPeriod.KeptIsBestIff | src/investment/investment.service.ts:988 | for every list of totals, exactly when the reduction keeps an entry of greatest total: always if the first is positive or none is zero, for a zero first entry iff nothing is positive, otherwise by the zeros that make it pass over entries |
| BestPeriod.KeptAfterProfit | src/investment/investment.service.ts:988 | from the first profitable entry that is not passed over, the reduction keeps the greatest |
| BestPeriod.KeptBeforeProfit | src/investment/investment.service.ts:988 | before it, the kept total is zero exactly when an odd number of zeros stands right before |
| BestPeriod.ProfitPassedOver | src/investment/investment.service.ts:2254 | a loss, a zero and a profit: the loss is kept |
| Backtest.Group | src/investment/investment.service.ts:2003-2020 | folding the rows collects for each stock exactly its own prices by day, its signals in order and its latest price; stocks in order of first row |
| Backtest.CodesAreFirstSeen | src/investment/investment.service.ts:2003-2011 | the stocks are those of the rows, each once, in the order they are first seen |
| Backtest.MarksAreOwnSignals | src/investment/investment.service.ts:2016-2019 | the signals of a stock are those of all its rows that have one, in the order of the rows |
| Backtest.PriceIsLastOfDay | src/investment/investment.service.ts:2013-2015 | the price of a day is that of the last row of the stock on it |
| Backtest.PricedDaysHaveRows | src/investment/investment.service.ts:2013-2015 | no other day has a price |
| Backtest.LatestPriceIs | src/investment/investment.service.ts:2005-2011 | the realtime price is the latest price of every stock, and without one the latest price on its first row |
| Backtest.StockExtends | src/investment/investment.service.ts:2012-2019 | one more row changes only its own stock |
| Backtest.SignalsHavePrices | src/investment/investment.service.ts:2013-2019 | every signal day has an entry in the price map |
| Backtest.SortIsStable | src/investment/investment.service.ts:2028 | the signals are ordered by day and keep their order within a day |
| Backtest.SortKeepsSorted | src/investment/investment.service.ts:2028 | signals that arrive in order stay as they are |
| Backtest.BuysAndSellsFilter | src/investment/investment.service.ts:2030-2057 | the pairs are made of all buy and sell signals, in order, and of no others |
| Backtest.Scan | src/investment/investment.service.ts:2025-2077 | the scan with one remembered buy emits exactly the adjacent buy/sell pairs and the running trade |
| Backtest.EveryPairIsTraded | src/investment/investment.service.ts:2033-2054 | each adjacent (0, 1) pair with both prices has its trade, in place, with days, prices and change |
| Backtest.EveryTradeIsAPair | src/investment/investment.service.ts:2038-2054 | each closed trade belongs to such a pair and stands at its place |
| Backtest.PlacesIncrease | src/investment/investment.service.ts:2033-2054 | later pairs have later places, so there is one trade a pair and none is listed twice |
| Backtest.RunningTrade | src/investment/investment.service.ts:2060-2077 | after the closed trades there is a status-0 trade exactly when the last signal buys and both prices are known |
| Backtest.TradesDoNotOverlap | src/investment/investment.service.ts:2030-2077 | the trades of a stock follow one another in time, the running one last |
| Backtest.Run | src/investment/investment.service.ts:2023-2078 | of the rows of any stock exactly its own trades, all and in their order, stand in the result; every trade is of a stock of the rows; the stocks follow one another in the order of their first rows |
| Statistics.CalculateVariance | src/investment/investment.service.ts:744-761 | throws below two values, otherwise yields the covariance of the series with itself |
| Statistics.CalculateCovariance | src/investment/investment.service.ts:763-781 | throws on unequal or too short series, otherwise yields the sample covariance |
| Statistics.BetaCalculate | src/investment/investment.service.ts:733-738 | throws with the covariance, is not finite on a constant market, otherwise yields the slope |
| Statistics.CovarianceSymmetric | src/investment/investment.service.ts:763-781 | covariance is symmetric |
| Statistics.CovarianceLinear | src/investment/investment.service.ts:763-781 | covariance is linear in both series |
| Statistics.VarianceNonNegative | src/investment/investment.service.ts:744-761 | variance is not negative |
| Statistics.CauchySchwarz | src/investment/investment.service.ts:744-781 | the squared covariance is at most the product of the variances |
| PairwiseStatistics.CovarianceOfPairs | src/investment/investment.service.ts:763-781 | without means: with n entries, 2 n (n - 1) times the covariance is the sum of the products of all differences between entries |
| PairwiseStatistics.ShiftsDoNotMatter | src/investment/investment.service.ts:733-781 | a constant added to a series changes no covariance, variance or beta |
| PairwiseStatistics.BetaOfThreeDays | src/investment/investment.service.ts:733-781 | covariance 10, variance 16 and beta 0.625 of three concrete days |
| Statistics.BetaLinear | src/investment/investment.service.ts:733-738 | beta is linear in the series |
| Statistics.MarketAgainstItself | src/investment/investment.service.ts:733-742 | the market has beta one against itself and then alpha zero |
| PairwiseStatistics.AlphaLaws | src/investment/investment.service.ts:740-742 | alpha is zero for the riskless asset and the market, grows one for one with the return, and mixes as the assets do |
| Statistics.AddArrays | src/investment/investment.service.ts:783-796 | entry i of the result is the sum of the entries i of all series that have one; the length is the greatest |
| PairwiseStatistics.LengthOfPadded | src/investment/investment.service.ts:784 | the padded sum is as long as the longest series |
| PairwiseStatistics.PaddedPair | src/investment/investment.service.ts:785-793 | two series are added entry by entry, and where one has ended the other counts alone |
| Statistics.AddOneMore | src/investment/investment.service.ts:386-405 | adding series one at a time is adding them all at once |
| Statistics.BetaOfSum | src/investment/investment.service.ts:541-554 | the beta of a sum of series is the sum of their betas |
| Portfolio.StockSeries | src/investment/investment.service.ts:290-343 | values, gains, percentages and money received of one stock |
| Portfolio.ReturnsIgnoreWeight | src/investment/investment.service.ts:301-328 | the percentages of a stock are the moves of its price from row to row, whatever its weight |
| Portfolio.ReceivedOfStock | src/investment/investment.service.ts:335-343 | the money received is the stake grown by the gain from the first price to the last |
| Portfolio.PricesAreOwnRows | src/investment/investment.service.ts:274-276 | the prices of a stock are those of all its rows, in their order |
| Portfolio.Table | src/investment/investment.service.ts:268-359 | the table has one entry a code, in order of first listing, with the weight listed last |
| Portfolio.CodesAreFirstSeen | src/investment/investment.service.ts:268-359 | the entries are the codes listed, each once, in the order they are first listed |
| Portfolio.WeightIsLast | src/investment/investment.service.ts:268-359 | the weight of an entry is the one its code is listed with last |
| Portfolio.EntriesOfDistinct | src/investment/investment.service.ts:273-345 | without repeated codes the entries are the items asked for |
| Portfolio.AddSeries | src/investment/investment.service.ts:381-405 | adds one stock to the padded sums and to the money received |
| Portfolio.Emulate | src/investment/investment.service.ts:268-430 | the portfolio adds up the series of its entries; its return is the money received against the money invested |
| Portfolio.GainIsValueLessFirst | src/investment/investment.service.ts:316-405 | the gain is the value less the first value exactly when nothing is staked on stocks whose prices have run out |
| Portfolio.NothingEnded | src/investment/investment.service.ts:274-276 | with positive stakes that means: no price list ends earlier |
| Portfolio.StartsAtInvestedAmount | src/investment/investment.service.ts:295-299 | weights that add up to a hundred start the portfolio at the invested amount |
| Portfolio.ReturnIsWeightedAverage | src/investment/investment.service.ts:335-343 | the return is the weight-average of the stock returns plus what the weights exceed a hundred by |
| Portfolio.FullyInvested | src/investment/investment.service.ts:273-430 | distinct codes, equal price lists, positive stakes, weights adding to a hundred: value 0, gains and return together |
| Portfolio.SingleStock | src/investment/investment.service.ts:273-430 | with everything in one stock the return is the percentage from its first to its last price |
| Portfolio.PortfolioBeta | src/investment/investment.service.ts:541-554 | the beta of the portfolio is the plain sum of the betas of the stocks |
| Levels.GetLevels | src/shares/shares.service.ts:3978-4042 | the scan records a greedy selection of pivots: recorded levels at least the spacing apart, every other pivot closer than that to an earlier level; the two results are its two kinds |
| Levels.PivotsAreExtremes | src/shares/shares.service.ts:3993-4015 | a support is the strict minimum of five lows, a resistance the strict maximum of five highs |
| Levels.LevelIsExtreme | src/shares/shares.service.ts:4017-4030 | each level is the low of a bar lower than its four neighbours, or else the high of a bar higher than them, with the day of the bar |
| Levels.LevelsAreApart | src/shares/shares.service.ts:3987-3991 | any two levels differ by the spacing at least |
| Levels.ExtremesAreCovered | src/shares/shares.service.ts:4017-4030 | every such low, and every such high on a bar without such a low, is a level or within the spacing of an earlier one |
| Levels.SpacingIs | src/shares/shares.service.ts:3978-3986 | three times the number of bars times the spacing is the sum of the highs less that of the lows |
| Levels.KindFilter | src/shares/shares.service.ts:4032-4041 | each returned list has all levels of its kind, in order |
| Levels.GreedyIsUnique | src/shares/shares.service.ts:4017-4030 | there is only one such selection |
| Levels.LevelsSpread | src/shares/shares.service.ts:3989-3991 | n levels span at least n - 1 spacings |
| Levels.KindsShareOut | src/shares/shares.service.ts:4032-4041 | the two lists share out the levels |
| Levels.PlaceInKind | src/shares/shares.service.ts:4032-4041 | each level stands in the list of its kind in scan order |
| Sessions.StepKeeps | src/auth/auth.service.ts:259-547 | every step of every request keeps the session table coherent, whatever the interleaving |
| Sessions.FoundRow | src/auth/auth.service.ts:494-499 | the row a query by refresh token finds is the one the token names |
| SessionRuns.RunKeeps | src/auth/auth.service.ts:259-547 | so does every run from the empty table |
| SessionRuns.StoredTokensAreCoherent | src/auth/auth.service.ts:287-306 | each stored refresh token is signed under the stored secret and names its row and its user |
| SessionRuns.RefreshFindsItsOwnRow | src/auth/auth.service.ts:491-517 | user id from the token and role from the row belong to one user |
| SessionRuns.RowHoldsLastWrite | src/auth/auth.service.ts:531-537 | a live row holds the secret of the last login or rotation written to it |
| SessionRuns.AcceptedIffLastPair | src/guards/auth.guard.ts:27-45 | the tokens that pass for a live session are exactly the pair of the last write |
| SessionRuns.AcceptedTokenIsTrue | src/auth/auth.service.ts:290-508 | over every run: a token that passes names the user of its session, and an access token the role this user has |
| SessionRuns.ExchangeableIffStored | src/guards/refresh_token.guard.ts:26-39 | a token can be exchanged exactly when it is the stored one of its own session, so one a session at most |
| SessionRuns.NoResurrection | src/auth/auth.service.ts:531-537 | a deleted session never comes back, whatever refreshes were under way |
| SessionRuns.RetiredTokensAreRefused | src/auth/auth.service.ts:387-396 | tokens under a secret that was stored and is in no row are refused for ever |
| SessionRuns.ReplacedSecretsRetire | src/auth/auth.service.ts:531-537 | replacing or deleting a row retires its secret |
| SessionRuns.EndedSessionIsRefused | src/auth/auth.service.ts:358-376 | after logout or password change no token of the session is accepted again |
| SessionRuns.OtherRowsStay | src/auth/auth.service.ts:628-631 | a step changes the row of its own session at most; the deletion by device id after a failed verification deletes nothing |
| SessionRuns.UninterruptedRefresh | src/auth/auth.service.ts:489-543 | an uninterrupted refresh makes the new pair pass and retires the old secret |
| LoginRuns.ChangedPasswordDecidesLogin | src/auth/auth.service.ts:186-199 | after a password change, and until the next one of the same user, the new password and only it passes the login check |
| LoginRuns.PasswordLasts | src/auth/auth.service.ts:199 | a password changes only when a change of that very user is written |
| LoginRuns.ChangeWasChecked | src/auth/auth.service.ts:177-199 | over every run: each password written was asked for by a request that had given the password its user had then |
| LoginRuns.CheckedLoginStillSaves | src/auth/auth.service.ts:262-306 | a login past its check still saves its session, with tokens that pass, whatever was written since |
| LoginRuns.SessionWasChecked | src/auth/auth.service.ts:259-306 | every row was saved by a login that had passed the check of the password its user had then |
| LoginRuns.SessionPasswordIsCurrentIff | src/auth/auth.service.ts:199-306 | over every run: the password checked for a session is the current one of its user exactly unless the last change written since the check set another |
| LoginRuns.SessionUnderOldPassword | src/auth/auth.service.ts:199-306 | a concrete run in which a login checked before a password change saves its session after it |
| SessionRuns.RowLastsUntilReplaced | src/auth/auth.service.ts:198-537 | between two points of a run a row is unchanged exactly if no rotation, logout or password change of that session was written, else its secret has retired; other sessions of the user survive |
| SessionRuns.ExchangeableUntilReplaced | src/auth/auth.service.ts:494-537 | a stored refresh token can still be exchanged later exactly if its row was not replaced in between |
| SessionRuns.ExchangedAgainIff | src/auth/auth.service.ts:494-537 | over every run: of two refreshes with one token the second also finds its row and goes on exactly if no rotation, logout or password change of the session was written between the two queries |
| SessionRuns.TokenExchangedTwice | src/auth/auth.service.ts:494-537 | a concrete run in which one refresh token is exchanged twice and the second write wins |
| AuthService.Service.constructor | src/auth/auth.service.ts:33-47 | the service starts without sessions |
| AuthService.Service.LoginCheck | src/auth/auth.service.ts:262-281 | unknown user or wrong password is refused, otherwise the login goes on |
| AuthService.Service.LoginSave | src/auth/auth.service.ts:287-316 | the new row and its pair, which passes: one access token with user, role and session, one refresh token with user and session |
| AuthService.Service.RefreshGuard | src/guards/refresh_token.guard.ts:20-45 | lets a token through exactly when it is signed under the stored secret of its session |
| AuthService.Service.Reject | src/guards/refresh_token.guard.ts:40-43 | the deletion by device id after a failed verification |
| AuthService.Service.RefreshFind | src/auth/auth.service.ts:489-528 | the query by refresh token and the new pair, with the user of the token and the role of the user of the row, handed out before the write |
| AuthService.Service.RefreshWrite | src/auth/auth.service.ts:530-543 | the update by session id, which answers that pair |
| AuthService.Service.Logout | src/auth/auth.service.ts:358-376 | deletes the session the token names |
| AuthService.Service.ChangeGuard | src/guards/change_password.guard.ts:14-39 | the guard of the password change |
| AuthService.Service.ChangeCheck | src/auth/auth.service.ts:177-193 | the old password is compared |
| AuthService.Service.ChangeDelete | src/auth/auth.service.ts:198 | the session is deleted |
| AuthService.Service.ChangeWrite | src/auth/auth.service.ts:199 | the new password is stored |
| AuthService.Service.Refresh | src/auth/auth.service.ts:489-543 | without interruption: a refresh succeeds exactly with the stored refresh token of its session; then the row holds the new pair, which names its user and the role of that user and passes, and the old token does not; otherwise no row changes |
| AuthService.Service.ChangePassword | src/auth/auth.service.ts:175-200 | without interruption: a password change succeeds exactly with an accepted token and the old password; then its session is gone and the user has the new password, otherwise nothing changes |
| Categories.StepKeeps | src/blogs/category.service.ts:20-83 | every step of every creation and update, whatever other steps came since its checks, keeps a forest of two levels and loses or changes the level of no row |
| Categories.RunKeepsLevels | src/blogs/category.service.ts:20-83 | over every interleaving: forest at every point; between any two points rows are never lost or renumbered, main categories stay main, subcategories stay subcategories |
| Categories.NoSelfParent | src/blogs/category.service.ts:68-71 | no category is its own parent |
| Categories.InsertedAsAsked | src/blogs/category.service.ts:20-42 | over every interleaving a creation inserts one row with the name and flag it was asked for, under the parent whose id it was given, or as a main category if it was given none |
| Categories.WrittenAsAsked | src/blogs/category.service.ts:47-79 | over every interleaving an update changes one row: to the name and flag given, or what they are by then, and under the parent whose id it was given |
| Categories.StepKeepsNamesIff | src/blogs/category.service.ts:37-79 | a write keeps names distinct exactly when the name it writes is still free when it is written; an update that leaves the name out always does |
| Categories.RunKeepsNamesIff | src/blogs/category.service.ts:20-83 | over every interleaving names are distinct at every point exactly when every write found its name free |
| Categories.FreeUntilStored | src/blogs/category.service.ts:21-42 | a name found free by a check is still free at the write if nobody stored it in between |
| Categories.TwoCreationsShareName | src/blogs/category.service.ts:21-42 | a concrete run of two creations, each checked before the other writes, that stores one name twice |
| Categories.UpdateMayRepeatName | src/blogs/category.service.ts:58-62 | a concrete run in which an uninterrupted update gives two categories one name |
| CategoryService.Service.constructor | src/blogs/category.service.ts:14-18 | the empty table |
| CategoryService.Service.CheckName | src/blogs/category.service.ts:21-24 | refused exactly when a row has the name |
| CategoryService.Service.CheckParent | src/blogs/category.service.ts:26-35 | refused exactly when there is no such parent or it is not a main category |
| CategoryService.Service.Insert | src/blogs/category.service.ts:37-44 | the new row and nothing else |
| CategoryService.Service.CheckCategory | src/blogs/category.service.ts:48-66 | refused exactly when the category is missing or would change its level |
| CategoryService.Service.CheckNewParent | src/blogs/category.service.ts:68-71 | refused exactly when the new parent is not a main category |
| CategoryService.CreateRefusalIs | src/blogs/category.service.ts:20-35 | a creation is refused exactly if a row has its name, or it was given an id that no row has or that of a subcategory |
| CategoryService.UpdateRefusalIs | src/blogs/category.service.ts:47-71 | an update is refused exactly if there is no such row, it would change the level of the row, or it was given an id that is not of a main category |
| CategoryService.Service.Write | src/blogs/category.service.ts:58-79 | the loop over the rows changes the given fields of one row |
| CategoryService.Service.CreateCategory | src/blogs/category.service.ts:20-45 | without interruption: every reason to refuse, or one new row with the name, the flag and the parent given, and nothing else |
| CategoryService.Service.UpdateCategory | src/blogs/category.service.ts:47-83 | without interruption: every reason to refuse, or the row with the fields given replaced, read back, and nothing else |
| CategoryTree.FindAllListsEachOnce | src/blogs/category.service.ts:85-106 | the administrator list, flattened, shows every category exactly once |
| CategoryTree.FindAllUserLists | src/blogs/category.service.ts:108-129 | the reader list shows the published main categories, each with all its subcategories, published or not, nothing twice |
| CategoryTree.AdminListIs | src/blogs/category.service.ts:85-106 | a node for every main category, the newest first, with a leaf for each of its own subcategories |
| CategoryTree.ReaderListIs | src/blogs/category.service.ts:108-129 | a node for every published main category, the oldest first, with a leaf for each of its own subcategories |
| CategoryTree.SubcategoriesAre | src/blogs/category.service.ts:85-129 | the subcategories of a category are all rows with its id as parent, in table order |
| CategoryTree.ReadersSeePublishedIff | src/blogs/category.service.ts:108-129 | readers are shown published categories only exactly when no published main category has an unpublished subcategory |
| CategoryTree.UnpublishedShown | src/blogs/category.service.ts:108-129 | a concrete table whose unpublished subcategory is shown to readers |
| FilterTree.Filter | src/news/news.service.ts:180-215 | the fold builds, level by level, one group for each key in order of first appearance from the rows with that key |
| FilterTree.LookupIsSelection | src/news/news.service.ts:180-215 | looking up a path gives the codes of exactly the rows of that path, in row order |
| FilterTree.PathFilter | src/news/news.service.ts:180-215 | the rows of a path are all rows with it, in order |
| FilterTree.FloorsInOrder | src/news/news.service.ts:180-215 | the floors stand in the order in which they are first seen |
| FilterTree.NamesAreFirstSeen | src/news/news.service.ts:181-212 | and so do the groups of each level |
| FilterTree.TreeIsTidy | src/news/news.service.ts:181-212 | names are unique among siblings and no node is empty |
| FilterTree.TreeKeepsRows | src/news/news.service.ts:180-215 | flattening gives back every row as often as it came in |
| FilterTree.PutIsGroupBy | src/news/news.service.ts:190-211 | putting a row into its group is grouping one row more, if it is so one level down |
| Tags.StepKeeps | src/blogs/post.service.ts:31-163 | every step of every creation and update keeps tag ids distinct, the tags of each post rows of the table without repeats, and what the other requests have found; no tag is ever removed |
| Tags.UpdateWritesRequestedNames | src/blogs/post.service.ts:127-163 | whatever ran since it began, an update with names saves the post with exactly those names, no tag twice, surviving tags first in the order they were read (the join table keeps no order for the next read); without names, with the tags it read |
| Tags.CreateWritesRequestedNames | src/blogs/post.service.ts:37-85 | a creation leaves the new post with exactly the requested names and no tag twice |
| Tags.NamedFilter | src/blogs/post.service.ts:139 | the tags a post keeps are all its tags with a requested name, in their order |
| Tags.PushInOrder | src/blogs/post.service.ts:141-146 | the tags added stand in the order they were found, and one is left out exactly if a tag with its id is kept or was found before |
| Tags.MissingFilter | src/blogs/post.service.ts:44 | the names a creation saves are all requested names that no tag has, in their order and as often as requested |
| TagRuns.RunKeeps | src/blogs/post.service.ts:31-163 | so does every run from the empty tables |
| TagRuns.EveryUpdateWritesItsNames | src/blogs/post.service.ts:95-163 | over every interleaving an update writes exactly the names it was asked for, the tags the post had when it was read first; asked for none, it writes those tags |
| TagRuns.FreeIffNotOvertaken | src/blogs/post.service.ts:130-134 | a name that a query did not find is in the table at the save exactly when another save of it came in between |
| TagRuns.StepKeepsNamesIff | src/blogs/post.service.ts:41-134 | a save keeps tag names unique exactly when the names it saves are distinct and none was saved since its query |
| TagRuns.RunKeepsNamesIff | src/blogs/post.service.ts:31-163 | over every interleaving tag names are unique exactly when every save so far was so |
| TagRuns.UndisturbedRunKeepsNames | src/blogs/post.service.ts:31-163 | in particular when nothing is saved between a query and its save and no creation repeats a name |
| TagRuns.TwoUpdatesStoreNameTwice | src/blogs/post.service.ts:129-136 | a concrete run of two interleaved updates that saves one name twice |
| TagRuns.RepeatedNameStoredTwice | src/blogs/post.service.ts:44-56 | a concrete run in which an uninterrupted creation that repeats a new name saves it twice |
| PostService.Service.constructor | src/blogs/post.service.ts:20-29 | the empty tables |
| PostService.Service.UpdateRead | src/blogs/post.service.ts:97-100 | refused exactly when there is no such post, else its tags are read |
| PostService.Service.TagFind | src/blogs/post.service.ts:130 | the query for the next name |
| PostService.Service.TagSave | src/blogs/post.service.ts:131-134 | one new row for a name that was not found |
| PostService.Service.UpdateWrite | src/blogs/post.service.ts:138-163 | the tags of the post, kept ones first, and no other post |
| PostService.Service.Attach | src/blogs/post.service.ts:141-146 | adds the tags whose id is not there yet |
| PostService.Service.CreateFind | src/blogs/post.service.ts:41-44 | the query for all names at once |
| PostService.Service.CreateSave | src/blogs/post.service.ts:45-57 | one new row for each missing name |
| PostService.Service.CreateWrite | src/blogs/post.service.ts:74-85 | the new post with its tags |
| PostService.Service.UpdatePost | src/blogs/post.service.ts:95-163 | without interruption: the loop finds or creates each name in turn, then the tags of the post are reconciled; a missing post changes nothing |
| PostService.AfterUpdateIs | src/blogs/post.service.ts:129-136 | without interruption an update adds exactly one tag for each requested name that no tag has, unpublished, numbered in turn |
| PostService.UpdatedPostIs | src/blogs/post.service.ts:138-146 | and leaves the post with exactly the requested names |
| PostService.Service.CreatePost | src/blogs/post.service.ts:31-85 | without interruption: one new tag for each name that no row has, and the new post with the tags of its names |

## Left out

- SQL texts, the database driver, caches, message queues, uploads, sockets, controllers and their
  validation: input and output.
- Indicator series other than the simple moving average come from a library that is not part of
  this model; MACD lines and SAR values are arbitrary series.
- Rounding, infinities and NaN: reals are exact, and a division by zero yields zero.
- Replacing the last close by the latest trade before a calculation, and the fields of a report that
  only copy prices from the ends of the history.
- Windows.AttachAverages: does not model the rounding to two decimals, nor the other indicators
  written by the same loop.
- MovingAverage.CalculateBackup: does not model the two prices its reports copy from the ends of the
  window, because they enter no computation.
- Portfolio.StockSeries: a stock without prices receives zero; in the code it receives no number, and
  the return of the whole portfolio is none either.
- Portfolio.Emulate: models one portfolio; the code runs the same statements on three weight columns.
  The highest, lowest and average figures, the Sharpe ratio and the chart series are not modelled.
- Statistics.AddArrays: does not model a call without any series, which throws; the code never makes
  one.
- Levels.GetLevels: highs, lows and days have one length, as the caller builds them; the reading of
  the last level by the caller is not modelled.
- Backtest.Run: does not model the cache of results and treats a missing price as zero, as the code
  does.
- AuthService.Service.LoginCheck: looks a user up by id instead of phone number, and compares
  passwords instead of hashes.
- A change of the role of a user, for which these services have no function.
- Token expiry, cookies, one-time passwords and the older session functions keyed by device id.
- A token without a session id, for which the database layer answers with a row of its choice.
- CategoryService.Service.Insert: does not model description and time stamps, because they are stored
  as given; the subcategories of a main category are rendered in table order.
- PostService.Service.UpdateWrite: models the tags of the post, not its category, its other fields, its
  thumbnail or its schedule.
- The deletion of posts. It touches neither tags nor categories; what a save of a deleted post does is
  up to the database layer.
- Names are compared as the code compares strings; a database that ignores case would find more.
- Star ratings, threshold tables and the folds of the other services: each is a table or a sum over
  one list, without state that spans requests.
