# Market risk analysis — a Dafny model

This project models two things:
- the risk-metrics engine of the market risk analyzer (`MarketRiskAnalyzer` in `market_risk_analysis.py`);
- the computations of its Streamlit dashboard (`dashboard.py`).

The analyzer's steps are:
- It holds one downloaded price table per symbol, plus the table of the market index.
- It chooses each table's price column: adjusted close, else close.
- It turns prices into daily simple returns.
- It computes per-symbol risk metrics: annualised volatility, beta against the market, the Sharpe ratio, the 5% historical Value at Risk, total return and maximum drawdown.
- It stores the metrics in an insertion-ordered dictionary.
- It renders them as a summary table.

The dashboard does the following:
- parses the symbol text box;
- averages the metrics into four headline cards;
- draws one price trace per symbol;
- colours the volatility and beta cells of the summary table;
- builds the volatility and beta bar charts;
- places the return histograms in a 2 x 2 grid.

Modules:
- `Wrappers` (wrappers.dfy): `Option`, and `Result`, which models a Python exception that propagates.
- `Stats` (stats.dfy): sums, means, population and sample variance, sample covariance, min/max, sorting, and the linearly interpolated percentile (numpy's default).
- `Prices` (prices.dfy):
  - the price tables, with single-level or ticker-tagged columns;
  - the choice of price column;
  - `pct_change`, with compounding;
  - total return;
  - running peaks, drawdowns and the maximum drawdown.
- `MarketRiskAnalysis` (analyzer.dfy):
  - the five metric calculators, as functions over the analyzer's state;
  - one metrics pass, with its per-symbol failure skipping;
  - the summary rows;
  - the class `MarketRiskAnalyzer`, whose methods update the `returnSeries` and `riskMetrics` fields in place.
- `Text` and `FloatText` (text.dfy, floattext.dfy): the subset of Python's `str.strip`, `str.upper`, `split('\n')`, `'\n'.join` and `float(str)` that the dashboard relies on.
- `Dashboard` (dashboard.dfy): the dashboard computations.

Floating-point numbers are `real`. Square root is a parameter `root` with `root(x) >= 0` and `root(x) * root(x) == x`. A Python exception caught by a `try` becomes a `Raised` result, which the caller handles as the source does.

Quirks of the code, stated as written and proved:
- Volatility uses the sample variance (pandas `std`, ddof 1). Beta divides the sample covariance (`np.cov`, N-1) by the population variance (`np.var` on a Series, ddof 0). So the market's beta against itself is N/(N-1), not 1 (`BetaAgainstItself`).
- The summary table shows a metric equal to 0 as absent, the same as a missing one. A price series that never falls therefore has no drawdown cell (`RisingPricesShowNoDrawdown`).
- The headline cards divide by the number of requested symbols, including those without metrics (`AbsentSymbolDilutes`, `HalfPortfolioVolatility`).
- The market's table is stored under the key `"market"`. A multi-level table is tagged with the index's ticker, so it has no `('Adj Close', 'market')` column, and then the market gets no returns (`MultiLevelMarketHasNoReturns`).

## Model

| member | source | states |
|---|---|---|
| Prices.PriceColumn | market_risk_analysis.py:64-83 | a price column exists iff the table has an adjusted-close or a close column labelled for the symbol (tagged with the symbol for multi-level tables); the chosen column is in the table, is labelled for the symbol, and is adjusted close whenever that is present, otherwise close |
| Prices.PctChange | market_risk_analysis.py:86 | n prices give n-1 returns (none for no prices) |
| Prices.Compounding | market_risk_analysis.py:86 | each price is the first price times the product of (1 + r) over the earlier returns, i.e. return t is p[t+1]/p[t] - 1 |
| Prices.TotalReturn | market_risk_analysis.py:199 | raises IndexError exactly on an empty series; otherwise it is the compounded growth of the returns minus 1, and 0 for a single price |
| Prices.GrowthIsPriceRatio | market_risk_analysis.py:199 | the compounded growth of the returns is last price / first price |
| Prices.Peaks | market_risk_analysis.py:232 | the running peak at t is the maximum of the prices up to and including t |
| Prices.PeaksBound | market_risk_analysis.py:232 | every positive price lies in (0, its running peak] |
| Prices.Drawdown | market_risk_analysis.py:233 | the drawdown d of a price x below its peak y satisfies d * y == x - y, lies in (-1, 0], and is 0 exactly at the peak |
| Prices.Drawdowns | market_risk_analysis.py:233 | each entry is (price - running peak) / running peak, lies in (-1, 0], and is 0 exactly when the price is at its running peak |
| Prices.MaxDrawdown | market_risk_analysis.py:231-234 | the maximum drawdown is the smallest of the drawdowns (one of them, and no larger than any); it lies in (-1, 0] and is 0 iff the prices never fall |
| Prices.DrawdownsFacts | market_risk_analysis.py:231-234 | the smallest drawdown is 0 iff the prices are non-decreasing (both directions) |
| Stats.Percentile | market_risk_analysis.py:163 | the interpolated percentile lies between the minimum and maximum of the data; it is the minimum at q = 0 and the maximum at q = 100 |
| Stats.Sort | market_risk_analysis.py:163 | the result is sorted ascending and a permutation of the input |
| Stats.SampleVariance | market_risk_analysis.py:108 | the sample variance (pandas `std` squared, divisor N-1) is non-negative, and 0 iff all values are equal |
| Stats.PopulationVariance | market_risk_analysis.py:126 | the population variance (`np.var`, divisor N) is non-negative, 0 iff all values are equal, and N times it is N-1 times the sample variance |
| Stats.SampleCovariance | market_risk_analysis.py:125 | the covariance (`np.cov`, divisor N-1) of a series with itself is its sample variance |
| Stats.CovarianceSymmetric | market_risk_analysis.py:125 | the covariance does not depend on the order of its two series |
| Stats.Interpolate | market_risk_analysis.py:163 | the linear interpolation of a sorted sample lies between its first and last element, and is the first at q = 0 and the last at q = 100 |
| Stats.PercentileAtRank | market_risk_analysis.py:163 | at q = 100k/(N-1) the percentile is exactly the k-th smallest value |
| Stats.PercentileMonotone | market_risk_analysis.py:163 | a larger q never gives a smaller percentile |
| Stats.SampleVarianceShift | market_risk_analysis.py:146-147 | subtracting a constant from every return leaves the sample variance unchanged |
| MarketRiskAnalysis.MarketRiskAnalyzer.constructor | market_risk_analysis.py:21-27 | stores the requested symbols; returns and metrics start empty |
| MarketRiskAnalysis.ReturnsFor | market_risk_analysis.py:60-90 | a table yields returns iff it is non-empty and has a price column; the returns are the percentage changes of that column, one fewer than the rows |
| MarketRiskAnalysis.ReturnsOf | market_risk_analysis.py:58-94 | the returns stored for a set of visited keys are exactly those whose tables yield returns, each with those returns |
| MarketRiskAnalysis.ReturnsTable | market_risk_analysis.py:58-94 | the returns table has exactly the symbols whose tables yield returns, each with those returns |
| MarketRiskAnalysis.ReturnsRebuildPrices | market_risk_analysis.py:86 | a stored return series has one entry fewer than the prices, and compounding it from the first price rebuilds every price |
| MarketRiskAnalysis.MultiLevelMarketHasNoReturns | market_risk_analysis.py:64-83 | a multi-level market table, tagged with the index's ticker rather than "market", gets no returns |
| MarketRiskAnalysis.MarketRiskAnalyzer.CalculateReturns | market_risk_analysis.py:56-94 | the new returns are the old ones updated with the returns table of the price tables |
| MarketRiskAnalysis.CalculateVolatility | market_risk_analysis.py:96-111 | None iff the symbol has no returns; otherwise a non-negative value whose square is sample variance times the period, and which is 0 iff the returns are constant |
| MarketRiskAnalysis.ScaledDeviation | market_risk_analysis.py:107-109 | the daily standard deviation times the square root of the period is non-negative and squares to variance times period |
| MarketRiskAnalysis.CalculateBeta | market_risk_analysis.py:113-131 | Ok(None) without symbol or market returns; ValueError iff the lengths differ (including an empty market series beside a non-empty one); otherwise None iff the market's population variance is 0, and beta times that variance is the sample covariance |
| MarketRiskAnalysis.BetaAgainstItself | market_risk_analysis.py:123-129 | beta of the market's own returns (N of them, not constant) is N/(N-1) |
| MarketRiskAnalysis.CalculateSharpe | market_risk_analysis.py:133-149 | None iff the symbol has no returns; otherwise the ratio times the daily standard deviation is sqrt(period) times the mean excess return, and its sign is the sign of the mean excess return |
| MarketRiskAnalysis.CalculateVar | market_risk_analysis.py:151-165 | Ok(None) without returns; ValueError when the confidence level is outside [0, 1]; IndexError iff the returns are empty; otherwise the interpolated percentile of the returns at confidence level times 100, which lies between the worst and best daily return |
| MarketRiskAnalysis.CalculateMaxDrawdown | market_risk_analysis.py:209-238 | None iff the symbol has no table or no price column; otherwise the maximum drawdown of the symbol's price column, a value in (-1, 0] that is 0 iff the prices never fall |
| MarketRiskAnalysis.MetricsFor | market_risk_analysis.py:171-205 | a symbol gets metrics iff it has non-empty returns (on empty ones `np.percentile` raises IndexError) and the market's returns do not differ in length from its own (else `np.cov` raises ValueError) |
| MarketRiskAnalysis.MetricsForValues | market_risk_analysis.py:171-205 | stored metrics have a positive volatility, a Sharpe ratio, a VaR between the worst and best return, a drawdown in (-1, 0], total return equal to compounded growth minus 1, and beta iff the market's variance is non-zero |
| MarketRiskAnalysis.MetricsPass | market_risk_analysis.py:171-205 | one pass over the requested symbols keeps the table a valid insertion-ordered dictionary (each key once, order listing exactly the keys) |
| MarketRiskAnalysis.MetricsTable.Put | market_risk_analysis.py:205 | storing a symbol's metrics sets its entry and appends it to the insertion order only if it is new |
| MarketRiskAnalysis.MetricsPassKeys | market_risk_analysis.py:171-205 | after a pass the keys are the old keys plus exactly the requested symbols that succeed |
| MarketRiskAnalysis.MetricsPassNewValues | market_risk_analysis.py:171-205 | every requested symbol that succeeds holds its freshly computed metrics |
| MarketRiskAnalysis.MetricsPassKeptValues | market_risk_analysis.py:171-205 | every other entry keeps its old metrics |
| MarketRiskAnalysis.MetricsPassOrder | market_risk_analysis.py:171-205 | the insertion order is the old order followed by the new succeeding symbols in request order, each once |
| MarketRiskAnalysis.MetricsPassFromEmpty | market_risk_analysis.py:171-205 | starting from no metrics, the order is the succeeding requested symbols, without repeats |
| MarketRiskAnalysis.LengthMismatchOmitted | market_risk_analysis.py:123-131 | a symbol whose returns differ in length from the market's gets no entry |
| MarketRiskAnalysis.SingleRowOmitted | market_risk_analysis.py:162-165 | a symbol whose table has a single row has empty returns and gets no entry |
| MarketRiskAnalysis.MarketRiskAnalyzer.CalculateAllMetrics | market_risk_analysis.py:167-207 | the new metrics table is one metrics pass over the requested symbols from the old table |
| MarketRiskAnalysis.Cell | market_risk_analysis.py:248-256 | a summary cell is absent iff the metric is absent or 0; otherwise it is the metric times its scale |
| MarketRiskAnalysis.SummaryRowFor | market_risk_analysis.py:246-256 | a row carries the symbol and total return in percent; each other cell is absent iff its metric is absent or 0, and otherwise holds the metric scaled: volatility, VaR and drawdown times 100, beta and Sharpe as they are |
| MarketRiskAnalysis.RisingPricesShowNoDrawdown | market_risk_analysis.py:231-255 | a symbol whose prices never fall gets metrics, and its drawdown cell is absent |
| MarketRiskAnalysis.MarketRiskAnalyzer.GenerateSummaryReport | market_risk_analysis.py:240-258 | None iff there are no metrics; otherwise one row per stored symbol, in insertion order |
| Text.Strip | dashboard.py:58-61 | the result has no whitespace at either end; it is empty iff the text is all whitespace; text already without such whitespace is unchanged |
| Text.StripPadded | dashboard.py:58-61 | stripping removes exactly the whitespace padding around a non-blank core |
| Text.Upper | dashboard.py:61 | upper-casing keeps the length, maps each character, and keeps stripped text stripped |
| Text.UpperIdempotent | dashboard.py:61 | upper-casing twice is upper-casing once |
| Text.Lines | dashboard.py:58 | splitting at newlines gives at least one piece, and no piece contains a newline |
| Text.Join | dashboard.py:56 | joining puts exactly one newline between each two lines: the length is the total line length plus the number of lines minus 1 |
| Text.JoinLines | dashboard.py:56-58 | joining the lines of a split with newlines gives the text back |
| Text.LinesJoin | dashboard.py:56-58 | splitting newline-free lines after joining them gives the lines back |
| FloatText.ParseFloat | dashboard.py:197-199 | a string that parses as a number contains no '%' |
| FloatText.ParseRender | dashboard.py:197-199 | float() reads every rendered decimal back as its value |
| Dashboard.CleanLine | dashboard.py:61 | a line gives no symbol iff it is blank; otherwise exactly one symbol, the line stripped and upper-cased, which is non-empty, stripped and upper-case |
| Dashboard.CleanLines | dashboard.py:61 | every kept symbol is non-empty, stripped and upper-case; there are no more symbols than lines |
| Dashboard.CleanLinesMembers | dashboard.py:61 | a symbol is kept iff it is the stripped, upper-cased text of some non-blank line |
| Dashboard.CleanLinesAppend | dashboard.py:61 | cleaning works line by line, so line order is kept and repeats are not removed |
| Dashboard.ParseSymbols | dashboard.py:54-61 | every parsed symbol is non-empty, stripped and upper-case |
| Dashboard.ParsedSymbolsAreLines | dashboard.py:54-61 | a symbol is parsed iff it is the stripped, upper-cased text of a non-blank line of the stripped text box |
| Dashboard.ParseJoinedLines | dashboard.py:54-61 | for text that is newline-joined lines, the symbols are exactly the cleaned lines |
| Dashboard.HeadlineAverage | dashboard.py:122-135 | ZeroDivisionError iff no symbols were requested; otherwise the card times the number of requested symbols is the sum of the contributing metrics |
| Dashboard.Contributions | dashboard.py:122-135 | the summands of a card are at most one per requested symbol |
| Dashboard.FullContributions | dashboard.py:122-135 | there is one summand per requested symbol iff every requested symbol contributes |
| Dashboard.AverageOfFullPortfolio | dashboard.py:122-135 | when every requested symbol contributes, the card is the ordinary mean |
| Dashboard.AbsentSymbolSum | dashboard.py:122-135 | requesting one more symbol without metrics keeps the sum and divides by one more |
| Dashboard.AbsentSymbolDilutes | dashboard.py:122-135 | such a symbol scales the card by n/(n+1) |
| Dashboard.HalfPortfolioVolatility | dashboard.py:126 | one symbol with volatility 0.2 and one without metrics show an average of 0.1 |
| Dashboard.PriceTraces | dashboard.py:143-173 | each trace is a requested symbol with a table and a price column (adjusted close first), carrying that column; every such symbol is drawn |
| Dashboard.PriceTracesStep | dashboard.py:143-173 | one more requested symbol appends exactly its trace, when it has a price column, to the earlier traces, so traces follow request order with repeats kept |
| Dashboard.EmptyTableDrawnWithoutReturns | dashboard.py:143-162 | a requested symbol whose table has a price column but no rows is drawn, yet has no returns |
| Dashboard.RemoveChar | dashboard.py:197 | removing a character leaves no occurrence of it, keeps every other character with its multiplicity, never lengthens the text, and leaves text without it unchanged |
| Dashboard.RemoveCharAppend | dashboard.py:197 | removal works piecewise on a concatenation, so the kept characters stay in order |
| Dashboard.VolatilityNumber | dashboard.py:192-201 | a missing cell reads as nothing, a number as itself, and text without '%' as it does for beta |
| Dashboard.BetaNumber | dashboard.py:211-214 | a missing cell reads as nothing, a number as itself, and text containing '%' as nothing |
| Dashboard.Band | dashboard.py:201-220 | red iff above the high threshold, orange iff above the medium threshold and not above high, green otherwise |
| Dashboard.BandMonotone | dashboard.py:201-220 | a larger value never gets a less risky colour |
| Dashboard.ColorVolatility | dashboard.py:191-208 | no style iff the cell is missing or unreadable once '%' is removed; red above 30, orange above 20, green otherwise |
| Dashboard.ColorBeta | dashboard.py:210-222 | no style iff the cell is missing or unreadable; red above 1.2, orange above 0.8, green otherwise |
| Dashboard.VolatilityPercentText | dashboard.py:196-199 | volatility text with a trailing '%' gets the colour of its number |
| Dashboard.BetaText | dashboard.py:213-214 | beta text gets the colour of its number, but text with a '%' gets no style |
| Dashboard.ChartSymbols | dashboard.py:236-239 | the chart's symbols are exactly the requested symbols with a truthy metric, one per card summand |
| Dashboard.BarSeries | dashboard.py:233-239 | the bar symbols are the chart symbols; the values are the card's summands times the chart scale (100 for volatility, 1 for beta) |
| Dashboard.ChartMatchesContributions | dashboard.py:256-259 | the k-th bar's symbol contributes, and its metric is the card's k-th summand |
| Dashboard.GridCell | dashboard.py:286-287 | row and column both lie in {1, 2} and determine the position |
| Dashboard.GridCellsDistinct | dashboard.py:286-287 | distinct positions get distinct cells |
| Dashboard.HistogramPlacements | dashboard.py:284-287 | at most four histograms, each for one of the first four requested symbols with returns, in its position's cell; no two share a cell; every such symbol gets one |
| Dashboard.PlacementsFrom | dashboard.py:284-287 | each histogram from a position on is for the shown symbol at its cell's position, which has returns; cell positions strictly increase |
| Dashboard.PlacementsComplete | dashboard.py:284-285 | every shown symbol with returns gets a histogram |

## Left out

- Downloading prices (`fetch_data`, market_risk_analysis.py:29-54) is network I/O. The constructor instead takes the downloaded tables as `data`, keyed by symbol plus `"market"`. Dates, `market_index`, `start_date` and `end_date` are not modelled.
- `run_analysis`, `main`, `export_data` and the dashboard's CSV/Excel export, `print` logging and the Streamlit/Plotly rendering are I/O or UI.
- Inside those, the price chart is modelled only as the list of traces it draws, and the bar charts only as their series.
- The correlation matrix (dashboard.py:306-307) is library numerics.
- config.py is not imported by the core and is not part of this model. `TradingDays` and `RiskFreeRate` are the default arguments of `calculate_volatility` and `calculate_sharpe_ratio` (market_risk_analysis.py:96, 133). `VarConfidence` is the literal passed to `calculate_var` (market_risk_analysis.py:198).
- Square root is not computed. Volatility and Sharpe take a `root` function satisfying `root(x) >= 0` and `root(x)^2 == x`.
- Floating-point rounding, overflow, NaN and infinities are not modelled (reals throughout).
  - Calculators that would produce NaN or inf, without raising, carry preconditions instead:
    - volatility needs at least two returns (`std` of one value is NaN);
    - Sharpe needs at least two returns that are not all equal (a zero deviation divides to inf or NaN);
    - beta excludes an empty market series beside an equally empty symbol series (`np.cov` and `np.var` of nothing are NaN);
    - maximum drawdown needs at least one price (`min` of nothing is NaN).
  - Prices are assumed positive.
  - The metrics pass requires every requested symbol's returns to satisfy `NoNaN` (`MetricsComputable`): they meet the volatility and Sharpe conditions, or a calculator raises before a NaN is stored. Empty returns, from a one-row table, are allowed because `np.percentile` raises on them. Returns whose length differs from the market's (a single return beside a longer market series, say) are allowed because `np.cov` raises. In both cases the symbol is skipped.
- `MarketRiskAnalysis.SummaryRowFor`: `round(x, 2)` / `round(x, 3)` is not modelled, because rounding of reals has no counterpart here. The contract states the unrounded scaled values.
- `MarketRiskAnalysis.MetricsFor` models the two exceptions that can occur on its inputs: IndexError from `np.percentile` on empty returns, and ValueError from `np.cov` on a length mismatch with the market. `CalculateVar` and `TotalReturn` also model their other raising cases (a percentile outside [0, 100], `iloc` on no prices), which the pass cannot reach. Any other library exception is not modelled.
- `MarketRiskAnalysis.MarketRiskAnalyzer.CalculateAllMetrics` requires the returns table to have been built from `data` (`Consistent`). The model does not cover returns edited by hand between the two calls.
- The dashboard's risk-free-rate slider (dashboard.py:82) is never passed to the analyzer. The Sharpe ratio therefore always uses 0.02, as in the code.
- Session state and the "Run analysis" button flow of the dashboard are not modelled.
- `FloatText.ParseFloat` covers only plain decimals: optional whitespace and sign, digits, and an optional point. Exponents, `inf`/`nan`, underscores and non-ASCII digits are not modelled. Anything outside that subset is treated as unreadable.
- `Text.Upper` upper-cases only ASCII letters. Other characters are kept as they are.
- `Dashboard.ColorVolatility` and `Dashboard.ColorBeta` treat any text cell as a string. The Python type checks on `val` (`TypeError`) have no counterpart, because cells here are only missing, numbers or text.
