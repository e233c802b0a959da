/**
 * The risk-metrics engine: a `MarketRiskAnalyzer` holds the downloaded
 * price tables, fills in the daily return series, computes the per-symbol
 * risk metrics and produces the summary report.
 */
module MarketRiskAnalysis {
  import opened Wrappers
  import opened Stats
  import opened Prices

  /** The key under which the market index's table and returns are stored. */
  const MarketKey: string := "market"
  /** The defaults `calculate_all_metrics` calls the calculators with. */
  const TradingDays: nat := 252
  const RiskFreeRate: real := 0.02
  const VarConfidence: real := 0.05

  /** `root` is the square root on the non-negative reals (numpy's `sqrt`). */
  ghost predicate IsRoot(root: real -> real)
  {
    forall x :: 0.0 <= x ==> 0.0 <= root(x) && root(x) * root(x) == x
  }

  /** The metrics of one symbol; `None` is Python's `None`. */
  datatype RiskMetrics = RiskMetrics(
    volatility: Option<real>,
    beta: Option<real>,
    sharpeRatio: Option<real>,
    var5: Option<real>,
    totalReturn: real,
    maxDrawdown: Option<real>)

  /**
   * An insertion-ordered dictionary from symbol to metrics (a Python dict):
   * `order` lists the keys in the order they were first inserted.
   */
  datatype MetricsTable = MetricsTable(order: seq<string>, entries: map<string, RiskMetrics>)
  {
    ghost predicate Valid()
    {
      && (forall i, j :: 0 <= i < j < |order| ==> order[i] != order[j])
      && (forall k :: k in entries <==> k in order)
    }

    /** `d[k] = v`: a new key goes last, an existing key keeps its place. */
    function Put(k: string, v: RiskMetrics): (t: MetricsTable)
      requires Valid()
      ensures t.Valid()
      ensures t.entries == entries[k := v]
      ensures t.order == if k in entries then order else order + [k]
    {
      if k in entries then MetricsTable(order, entries[k := v])
      else MetricsTable(order + [k], entries[k := v])
    }
  }

  /** One row of the summary report; percentages are the metric times 100. */
  datatype SummaryRow = SummaryRow(
    symbol: string,
    totalReturnPct: real,
    volatilityPct: Option<real>,
    beta: Option<real>,
    sharpeRatio: Option<real>,
    var5Pct: Option<real>,
    maxDrawdownPct: Option<real>)

  lemma {:induction false} RootFacts(root: real -> real, x: real)
    requires IsRoot(root) && 0.0 <= x
    ensures 0.0 <= root(x) && root(x) * root(x) == x
    ensures root(x) == 0.0 <==> x == 0.0
  {
    var y := root(x);
    if x == 0.0 {
      SquareZero(y, x);
    }
  }

  // -----------------------------------------------------------------------
  // Daily returns

  ghost predicate FramesWellFormed(data: map<string, Frame>)
  {
    forall k :: k in data ==> WellFormed(data[k])
  }

  /**
   * The returns `calculate_returns` stores for the table `f` under `key`:
   * none for an empty table or one without a price column.
   */
  function ReturnsFor(f: Frame, key: string): (r: Option<seq<real>>)
    requires WellFormed(f)
    ensures r.Some? <==> !IsEmpty(f) && PriceColumn(f, key).Some?
    ensures r.Some? ==> r.value == PctChange(PriceSeries(f, key)) && |r.value| == f.rows - 1
  {
    if IsEmpty(f) then None
    else
      match PriceColumn(f, key)
      case None => None
      case Some(c) => Some(PctChange(f.columns[c]))
  }

  /** What `calculate_returns` stores for the keys `keys` of `data`. */
  function ReturnsOf(data: map<string, Frame>, keys: set<string>): (r: map<string, seq<real>>)
    requires FramesWellFormed(data) && keys <= data.Keys
    ensures forall k :: k in r <==> k in keys && ReturnsFor(data[k], k).Some?
    ensures forall k :: k in r ==> ReturnsFor(data[k], k) == Some(r[k])
  {
    map k | k in keys && ReturnsFor(data[k], k).Some? :: ReturnsFor(data[k], k).value
  }

  /** Everything one `calculate_returns` pass stores, by key. */
  function ReturnsTable(data: map<string, Frame>): (r: map<string, seq<real>>)
    requires FramesWellFormed(data)
    ensures forall k :: k in r <==> k in data && ReturnsFor(data[k], k).Some?
    ensures forall k :: k in r ==> ReturnsFor(data[k], k) == Some(r[k])
  {
    ReturnsOf(data, data.Keys)
  }

  /** Visiting one more key adds its returns, if it has any, and nothing else. */
  lemma {:induction false} ReturnsOfStep(data: map<string, Frame>, keys: set<string>, k: string)
    requires FramesWellFormed(data) && keys <= data.Keys && k in data
    ensures ReturnsOf(data, keys + {k}) ==
      match ReturnsFor(data[k], k)
      case None => ReturnsOf(data, keys)
      case Some(r) => ReturnsOf(data, keys)[k := r]
  {
  }

  /** Every stored return series is the one its table yields. */
  ghost predicate Consistent(data: map<string, Frame>, rets: map<string, seq<real>>)
  {
    && FramesWellFormed(data)
    && forall k :: k in rets ==> k in data && ReturnsFor(data[k], k) == Some(rets[k])
  }

  /**
   * The stored series has one entry fewer than the table has rows, and
   * compounding it from the first price gives back every price.
   */
  lemma {:induction false} ReturnsRebuildPrices(f: Frame, key: string)
    requires WellFormed(f) && ReturnsFor(f, key).Some?
    ensures var p, r := PriceSeries(f, key), ReturnsFor(f, key).value;
      && |r| == |p| - 1
      && forall t :: 0 <= t < |p| ==> p[t] == p[0] * Growth(r[..t])
  {
    var p := PriceSeries(f, key);
    forall t | 0 <= t < |p| ensures p[t] == p[0] * Growth(PctChange(p)[..t]) {
      Compounding(p, t);
    }
  }

  /**
   * With a two-level column index the market table is looked up under the
   * ticker "market", which is not the index's own ticker: unless a column
   * carries that literal ticker, the market gets no returns.
   */
  lemma {:induction false} MultiLevelMarketHasNoReturns(data: map<string, Frame>)
    requires FramesWellFormed(data) && MarketKey in data && data[MarketKey].multiLevel
    requires forall c :: c in data[MarketKey].columns ==> c.Tagged? && c.ticker != MarketKey
    ensures MarketKey !in ReturnsTable(data)
  {
    var f := data[MarketKey];
    assert Label(f, AdjClose, MarketKey) !in f.columns;
    assert Label(f, Close, MarketKey) !in f.columns;
  }

  // -----------------------------------------------------------------------
  // The metric calculators

  /** The facts behind `CalculateVolatility`'s contract. */
  lemma {:induction false} ScaledDeviation(r: seq<real>, period: nat, root: real -> real)
    requires IsRoot(root) && |r| >= 2
    ensures var v := root(SampleVariance(r)) * root(period as real);
      && v >= 0.0 && v * v == SampleVariance(r) * period as real
      && (period > 0 ==> (v == 0.0 <==> Constant(r)))
  {
    var daily := root(SampleVariance(r));
    var scale := root(period as real);
    RootFacts(root, SampleVariance(r));
    RootFacts(root, period as real);
    ProductNonNegative(daily, scale);
    SquareOfProduct(daily, scale);
    if daily > 0.0 && scale > 0.0 {
      ProductPositive(daily, scale, daily * scale);
    }
  }

  /**
   * `calculate_volatility`: the sample standard deviation of the returns
   * times sqrt(period); its square is the sample variance times the period.
   */
  function CalculateVolatility(rets: map<string, seq<real>>, symbol: string, period: nat, root: real -> real)
    : (v: Option<real>)
    requires IsRoot(root)
    requires symbol in rets ==> |rets[symbol]| >= 2
    ensures v.None? <==> symbol !in rets
    ensures v.Some? ==> v.value >= 0.0 && v.value * v.value == SampleVariance(rets[symbol]) * period as real
    ensures v.Some? && period > 0 ==> (v.value == 0.0 <==> Constant(rets[symbol]))
  {
    if symbol in rets then
      var r := rets[symbol];
      ScaledDeviation(r, period, root);
      Some(root(SampleVariance(r)) * root(period as real))
    else
      None
  }

  /**
   * `calculate_beta`: the sample covariance (N-1) of the symbol's and the
   * market's returns, paired by position, over the market's population
   * variance (N). Series of different lengths make `np.cov` raise; a zero
   * market variance gives `None`.
   */
  function CalculateBeta(rets: map<string, seq<real>>, symbol: string): (b: Result<Option<real>>)
    requires symbol in rets && MarketKey in rets && |rets[symbol]| == |rets[MarketKey]| ==> |rets[MarketKey]| >= 1
    ensures symbol !in rets || MarketKey !in rets ==> b == Ok(None)
    ensures symbol in rets && MarketKey in rets ==>
      var x, m := rets[symbol], rets[MarketKey];
      && (|x| != |m| <==> b == Raised(ValueError))
      && (|x| == |m| ==> b.Ok? && (b.value.None? <==> PopulationVariance(m) == 0.0))
      && (b.Ok? && b.value.Some? ==>
            |x| == |m| >= 2 && b.value.value * PopulationVariance(m) == SampleCovariance(x, m))
  {
    if symbol in rets && MarketKey in rets then
      var x, m := rets[symbol], rets[MarketKey];
      if |x| != |m| then Raised(ValueError)
      else
        var variance := PopulationVariance(m);
        if variance != 0.0 then Ok(Some(SampleCovariance(x, m) / variance))
        else Ok(None)
    else
      Ok(None)
  }

  /**
   * Beta of a series against itself (in particular of the market against
   * itself) is N/(N-1), not 1: the covariance divides by N-1, the variance
   * by N.
   */
  lemma {:induction false} BetaAgainstItself(rets: map<string, seq<real>>, symbol: string)
    requires symbol in rets && MarketKey in rets && rets[symbol] == rets[MarketKey]
    requires |rets[MarketKey]| >= 1 && !Constant(rets[MarketKey])
    ensures var n := |rets[MarketKey]| as real;
      n > 1.0 && CalculateBeta(rets, symbol) == Ok(Some(n / (n - 1.0)))
  {
    var m := rets[MarketKey];
    var n := |m| as real;
    assert |m| >= 2;
    var d := SqDev(m, Mean(m));
    SqDevAtMeanZeroIffConstant(m);
    CoDevSelf(m, Mean(m));
    assert SampleCovariance(m, m) == d / (n - 1.0);
    assert PopulationVariance(m) == d / n;
    SampleOverPopulation(d, n);
  }

  /**
   * `calculate_sharpe_ratio`: sqrt(period) times the mean over the standard
   * deviation of the excess returns r - riskFreeRate/period. The shift does
   * not change the deviation, so the ratio times the returns' own deviation
   * is sqrt(period) times the mean excess, and its sign is that of the mean
   * excess.
   */
  function CalculateSharpe(rets: map<string, seq<real>>, symbol: string, riskFreeRate: real, period: nat,
                           root: real -> real): (s: Option<real>)
    requires IsRoot(root) && period > 0
    requires symbol in rets ==> |rets[symbol]| >= 2 && !Constant(rets[symbol])
    ensures s.None? <==> symbol !in rets
    ensures s.Some? ==>
      var r := rets[symbol];
      var meanExcess := Mean(r) - riskFreeRate / period as real;
      && s.value * root(SampleVariance(r)) == root(period as real) * meanExcess
      && (s.value > 0.0 <==> meanExcess > 0.0)
      && (s.value == 0.0 <==> meanExcess == 0.0)
  {
    if symbol in rets then
      var r := rets[symbol];
      var excess := Shift(r, riskFreeRate / period as real);
      SampleVarianceShift(r, riskFreeRate / period as real);
      MeanShift(r, riskFreeRate / period as real);
        RootFacts(root, SampleVariance(r));
      RootFacts(root, period as real);
      ScaledRatio(root(period as real), Mean(excess), root(SampleVariance(excess)));
      Some(root(period as real) * (Mean(excess) / root(SampleVariance(excess))))
    else
      None
  }

  /**
   * `calculate_var`: the percentile at confidence_level * 100 of the
   * returns. numpy raises ValueError for a percentile outside [0, 100] and
   * IndexError for an empty sample; otherwise the value lies between the
   * smallest and the largest return.
   */
  function CalculateVar(rets: map<string, seq<real>>, symbol: string, confidenceLevel: real)
    : (v: Result<Option<real>>)
    ensures symbol !in rets ==> v == Ok(None)
    ensures symbol in rets && !(0.0 <= confidenceLevel * 100.0 <= 100.0) ==> v == Raised(ValueError)
    ensures symbol in rets && 0.0 <= confidenceLevel * 100.0 <= 100.0 ==>
      (rets[symbol] == [] <==> v == Raised(IndexError))
    ensures v.Ok? && v.value.Some? ==>
      symbol in rets && |rets[symbol]| >= 1
      && Min(rets[symbol]) <= v.value.value <= Max(rets[symbol])
    ensures symbol in rets && 0.0 <= confidenceLevel * 100.0 <= 100.0 && rets[symbol] != [] ==>
      v == Ok(Some(Percentile(rets[symbol], confidenceLevel * 100.0)))
  {
    if symbol !in rets then Ok(None)
    else if !(0.0 <= confidenceLevel * 100.0 <= 100.0) then Raised(ValueError)
    else if rets[symbol] == [] then Raised(IndexError)
    else Ok(Some(Percentile(rets[symbol], confidenceLevel * 100.0)))
  }

  /**
   * `calculate_max_drawdown`: the smallest (price - running peak) / peak of
   * the symbol's price column; `None` without a table or a price column.
   */
  function CalculateMaxDrawdown(data: map<string, Frame>, symbol: string): (d: Option<real>)
    requires FramesWellFormed(data)
    requires symbol in data && PriceColumn(data[symbol], symbol).Some? ==> data[symbol].rows >= 1
    ensures d.None? <==> symbol !in data || PriceColumn(data[symbol], symbol).None?
    ensures d.Some? ==>
      && -1.0 < d.value <= 0.0
      && (d.value == 0.0 <==> NonDecreasing(PriceSeries(data[symbol], symbol)))
      && d.value == MaxDrawdown(PriceSeries(data[symbol], symbol))
  {
    if symbol in data then
      match PriceColumn(data[symbol], symbol)
      case None => None
      case Some(c) => Some(MaxDrawdown(data[symbol].columns[c]))
    else
      None
  }

  // -----------------------------------------------------------------------
  // All metrics

  /** At least two returns, not all equal: the standard deviation is a positive number. */
  ghost predicate Computable(r: seq<real>)
  {
    |r| >= 2 && !Constant(r)
  }

  /**
   * The returns of `symbol` give no NaN metric: they are empty (a one-row
   * table, on which `np.percentile` raises), differ in length from the
   * market's (`np.cov` raises), or are computable.
   */
  ghost predicate NoNaN(rets: map<string, seq<real>>, symbol: string)
    requires symbol in rets
  {
    || rets[symbol] == []
    || (MarketKey in rets && |rets[symbol]| != |rets[MarketKey]|)
    || Computable(rets[symbol])
  }

  /** Every requested symbol with returns satisfies `NoNaN`. */
  ghost predicate MetricsComputable(symbols: seq<string>, rets: map<string, seq<real>>)
  {
    forall s :: s in symbols && s in rets ==> NoNaN(rets, s)
  }

  /** Whether one pass gives `symbol` an entry. */
  ghost predicate Succeeds(data: map<string, Frame>, rets: map<string, seq<real>>, symbol: string)
  {
    && symbol in rets && rets[symbol] != []
    && !(MarketKey in rets && |rets[symbol]| != |rets[MarketKey]|)
  }

  /**
   * The body of the `try` in `calculate_all_metrics` for one symbol: `None`
   * when the symbol has no returns, has no price column, or one of the
   * calculators raises. A stored series always has its table and price
   * column, so the symbol is skipped exactly when it has no returns, its
   * returns are empty (`np.percentile` raises IndexError), or `np.cov`
   * raises ValueError on a length mismatch with the market.
   */
  function MetricsFor(data: map<string, Frame>, rets: map<string, seq<real>>, symbol: string,
                      root: real -> real): (m: Option<RiskMetrics>)
    requires IsRoot(root) && Consistent(data, rets)
    requires symbol in rets ==> NoNaN(rets, symbol)
    ensures m.Some? <==> Succeeds(data, rets, symbol)
  {
    if symbol !in rets then None
    else
      assert symbol in data;
      match PriceColumn(data[symbol], symbol)
      case None => None
      case Some(c) =>
        var prices := data[symbol].columns[c];
        var var5 := CalculateVar(rets, symbol, VarConfidence);
        if var5.Raised? then None
        else
          var beta := CalculateBeta(rets, symbol);
          var total := TotalReturn(prices);
          if beta.Raised? || total.Raised? then None
          else
            Some(RiskMetrics(
              CalculateVolatility(rets, symbol, TradingDays, root),
              beta.value,
              CalculateSharpe(rets, symbol, RiskFreeRate, TradingDays, root),
              var5.value,
              total.value,
              CalculateMaxDrawdown(data, symbol)))
  }

  /**
   * A symbol that gets metrics has every metric but beta: a positive
   * volatility, a Sharpe ratio, a 5% VaR between its worst and best daily
   * return, a drawdown in (-1, 0], and a total return equal to its
   * compounded daily returns. Beta is present exactly when the market has
   * returns of non-zero variance.
   */
  lemma {:induction false} MetricsForValues(data: map<string, Frame>, rets: map<string, seq<real>>, symbol: string,
                         root: real -> real)
    requires IsRoot(root) && Consistent(data, rets)
    requires symbol in rets && Computable(rets[symbol])
    requires Succeeds(data, rets, symbol)
    ensures var m, r := MetricsFor(data, rets, symbol, root).value, rets[symbol];
      && m.volatility.Some? && m.volatility.value > 0.0
      && m.sharpeRatio.Some?
      && (m.beta.Some? <==> MarketKey in rets && PopulationVariance(rets[MarketKey]) != 0.0)
      && m.var5.Some? && Min(r) <= m.var5.value <= Max(r)
      && m.totalReturn == Growth(r) - 1.0
      && m.maxDrawdown.Some? && -1.0 < m.maxDrawdown.value <= 0.0
  {
    var f := data[symbol];
    var prices := PriceSeries(f, symbol);
    assert rets[symbol] == PctChange(prices);
    GrowthIsPriceRatio(prices);
  }

  /** One `calculate_all_metrics` pass over `symbols`, starting from `table`. */
  function MetricsPass(table: MetricsTable, symbols: seq<string>, data: map<string, Frame>,
                       rets: map<string, seq<real>>, root: real -> real): (t: MetricsTable)
    requires table.Valid() && IsRoot(root) && Consistent(data, rets)
    requires MetricsComputable(symbols, rets)
    ensures t.Valid()
  {
    if symbols == [] then table
    else
      var init := symbols[..|symbols| - 1];
      var symbol := symbols[|symbols| - 1];
      var t := MetricsPass(table, init, data, rets, root);
      match MetricsFor(data, rets, symbol, root)
      case None => t
      case Some(m) => t.Put(symbol, m)
  }

  /** The symbols of `symbols` that get an entry, in request order, repeats kept. */
  ghost function Successful(symbols: seq<string>, data: map<string, Frame>, rets: map<string, seq<real>>)
    : seq<string>
  {
    if symbols == [] then []
    else
      var rest := Successful(symbols[..|symbols| - 1], data, rets);
      if Succeeds(data, rets, symbols[|symbols| - 1]) then rest + [symbols[|symbols| - 1]] else rest
  }

  /** `order` followed by the elements of `xs` it lacks, first occurrences only. */
  function AppendNew(order: seq<string>, xs: seq<string>): seq<string>
  {
    if xs == [] then order
    else
      var o := AppendNew(order, xs[..|xs| - 1]);
      if xs[|xs| - 1] in o then o else o + [xs[|xs| - 1]]
  }

  /**
   * After a pass, a key is present exactly when it was before or it is a
   * requested symbol that succeeds.
   */
  lemma {:induction false} MetricsPassKeys(table: MetricsTable, symbols: seq<string>, data: map<string, Frame>,
                                           rets: map<string, seq<real>>, root: real -> real)
    requires table.Valid() && IsRoot(root) && Consistent(data, rets)
    requires MetricsComputable(symbols, rets)
    ensures var t := MetricsPass(table, symbols, data, rets, root);
      forall k :: k in t.entries <==> k in table.entries || (k in symbols && Succeeds(data, rets, k))
  {
    if symbols != [] {
      var init := symbols[..|symbols| - 1];
      assert forall s :: s in init ==> s in symbols;
      MetricsPassKeys(table, init, data, rets, root);
      assert forall k :: k in symbols <==> k in init || k == symbols[|symbols| - 1];
    }
  }

  /** After a pass, a requested symbol that succeeds holds its freshly computed metrics. */
  lemma {:induction false} MetricsPassNewValues(table: MetricsTable, symbols: seq<string>, data: map<string, Frame>,
                                                rets: map<string, seq<real>>, root: real -> real)
    requires table.Valid() && IsRoot(root) && Consistent(data, rets)
    requires MetricsComputable(symbols, rets)
    ensures var t := MetricsPass(table, symbols, data, rets, root);
      forall k :: k in symbols && Succeeds(data, rets, k) ==>
        k in t.entries && t.entries[k] == MetricsFor(data, rets, k, root).value
  {
    if symbols != [] {
      var init := symbols[..|symbols| - 1];
      var symbol := symbols[|symbols| - 1];
      assert forall s :: s in init ==> s in symbols;
      MetricsPassNewValues(table, init, data, rets, root);
      var t := MetricsPass(table, init, data, rets, root);
      var m := MetricsFor(data, rets, symbol, root);
      var t' := MetricsPass(table, symbols, data, rets, root);
      assert t' == if m.Some? then t.Put(symbol, m.value) else t;
      forall k | k in symbols && Succeeds(data, rets, k)
        ensures k in t'.entries && t'.entries[k] == MetricsFor(data, rets, k, root).value
      {
        if k != symbol {
          assert k in init;
        }
      }
    }
  }

  /** After a pass, an entry whose key is not a requested symbol that succeeds is unchanged. */
  lemma {:induction false} MetricsPassKeptValues(table: MetricsTable, symbols: seq<string>, data: map<string, Frame>,
                                                 rets: map<string, seq<real>>, root: real -> real)
    requires table.Valid() && IsRoot(root) && Consistent(data, rets)
    requires MetricsComputable(symbols, rets)
    ensures var t := MetricsPass(table, symbols, data, rets, root);
      forall k :: k in table.entries && !(k in symbols && Succeeds(data, rets, k)) ==>
        k in t.entries && t.entries[k] == table.entries[k]
  {
    if symbols != [] {
      var init := symbols[..|symbols| - 1];
      var symbol := symbols[|symbols| - 1];
      assert forall s :: s in init ==> s in symbols;
      MetricsPassKeptValues(table, init, data, rets, root);
      var t := MetricsPass(table, init, data, rets, root);
      var m := MetricsFor(data, rets, symbol, root);
      var t' := MetricsPass(table, symbols, data, rets, root);
      assert m.Some? <==> Succeeds(data, rets, symbol);
      assert t' == if m.Some? then t.Put(symbol, m.value) else t;
      forall k | k in table.entries && !(k in symbols && Succeeds(data, rets, k))
        ensures k in t'.entries && t'.entries[k] == table.entries[k]
      {
        assert !(k in init && Succeeds(data, rets, k));
        assert m.Some? ==> k != symbol;
      }
    }
  }

  /**
   * After a pass, the keys are the old ones, in their old order, followed
   * by the newly successful symbols in request order.
   */
  lemma {:induction false} MetricsPassOrder(table: MetricsTable, symbols: seq<string>, data: map<string, Frame>,
                                            rets: map<string, seq<real>>, root: real -> real)
    requires table.Valid() && IsRoot(root) && Consistent(data, rets)
    requires MetricsComputable(symbols, rets)
    ensures MetricsPass(table, symbols, data, rets, root).order == AppendNew(table.order, Successful(symbols, data, rets))
  {
    if symbols != [] {
      var init := symbols[..|symbols| - 1];
      var symbol := symbols[|symbols| - 1];
      assert forall s :: s in init ==> s in symbols;
      MetricsPassOrder(table, init, data, rets, root);
      var t := MetricsPass(table, init, data, rets, root);
      var o := AppendNew(table.order, Successful(init, data, rets));
      assert t.order == o;
      assert symbol in t.entries <==> symbol in o;
      if Succeeds(data, rets, symbol) {
        assert Successful(symbols, data, rets) == Successful(init, data, rets) + [symbol];
        assert (Successful(init, data, rets) + [symbol])[..|Successful(init, data, rets)|] == Successful(init, data, rets);
      }
    }
  }

  /**
   * Starting from an empty table, the keys are the successful requested
   * symbols in request order; a symbol requested twice appears once.
   */
  lemma {:induction false} MetricsPassFromEmpty(symbols: seq<string>, data: map<string, Frame>,
                             rets: map<string, seq<real>>, root: real -> real)
    requires IsRoot(root) && Consistent(data, rets) && MetricsComputable(symbols, rets)
    ensures MetricsPass(MetricsTable([], map[]), symbols, data, rets, root).order
         == AppendNew([], Successful(symbols, data, rets))
  {
    MetricsPassOrder(MetricsTable([], map[]), symbols, data, rets, root);
  }

  /**
   * A requested symbol whose return series is not as long as the market's
   * makes `np.cov` raise, and the pass leaves it out.
   */
  lemma {:induction false} LengthMismatchOmitted(symbols: seq<string>, data: map<string, Frame>,
                              rets: map<string, seq<real>>, root: real -> real, symbol: string)
    requires IsRoot(root) && Consistent(data, rets) && MetricsComputable(symbols, rets)
    requires symbol in rets && MarketKey in rets && |rets[symbol]| != |rets[MarketKey]|
    ensures symbol !in MetricsPass(MetricsTable([], map[]), symbols, data, rets, root).entries
  {
    MetricsPassKeys(MetricsTable([], map[]), symbols, data, rets, root);
  }

  /**
   * A requested symbol whose table has a single row has no daily returns;
   * `np.percentile` raises on them and the pass leaves the symbol out.
   */
  lemma {:induction false} SingleRowOmitted(symbols: seq<string>, data: map<string, Frame>,
                                            rets: map<string, seq<real>>, root: real -> real, symbol: string)
    requires IsRoot(root) && Consistent(data, rets) && MetricsComputable(symbols, rets)
    requires symbol in rets && data[symbol].rows == 1
    ensures rets[symbol] == []
    ensures symbol !in MetricsPass(MetricsTable([], map[]), symbols, data, rets, root).entries
  {
    MetricsPassKeys(MetricsTable([], map[]), symbols, data, rets, root);
  }

  // -----------------------------------------------------------------------
  // The summary report

  /** `round(x * scale, ...) if x else None`, without the rounding. */
  function Cell(x: Option<real>, scale: real): (c: Option<real>)
    requires scale != 0.0
    ensures c.None? <==> x.None? || x.value == 0.0
    ensures c.Some? ==> c.value / scale == x.value
  {
    if x.Some? && x.value != 0.0 then Some(x.value * scale) else None
  }

  /** The summary row of one entry: a `None` or zero metric leaves its cell empty. */
  function SummaryRowFor(symbol: string, m: RiskMetrics): (row: SummaryRow)
    ensures row.symbol == symbol && row.totalReturnPct == m.totalReturn * 100.0
    ensures row.volatilityPct.None? <==> m.volatility.None? || m.volatility.value == 0.0
    ensures row.beta.None? <==> m.beta.None? || m.beta.value == 0.0
    ensures row.sharpeRatio.None? <==> m.sharpeRatio.None? || m.sharpeRatio.value == 0.0
    ensures row.var5Pct.None? <==> m.var5.None? || m.var5.value == 0.0
    ensures row.maxDrawdownPct.None? <==> m.maxDrawdown.None? || m.maxDrawdown.value == 0.0
    ensures row.volatilityPct.Some? ==> row.volatilityPct.value == m.volatility.value * 100.0
    ensures row.beta.Some? ==> row.beta.value == m.beta.value
    ensures row.sharpeRatio.Some? ==> row.sharpeRatio.value == m.sharpeRatio.value
    ensures row.var5Pct.Some? ==> row.var5Pct.value == m.var5.value * 100.0
    ensures row.maxDrawdownPct.Some? ==> row.maxDrawdownPct.value == m.maxDrawdown.value * 100.0
  {
    SummaryRow(
      symbol,
      m.totalReturn * 100.0,
      Cell(m.volatility, 100.0),
      Cell(m.beta, 1.0),
      Cell(m.sharpeRatio, 1.0),
      Cell(m.var5, 100.0),
      Cell(m.maxDrawdown, 100.0))
  }

  /**
   * A symbol whose prices never fall below an earlier price has a maximum
   * drawdown of exactly 0, which the report shows as an empty cell.
   */
  lemma {:induction false} RisingPricesShowNoDrawdown(data: map<string, Frame>, rets: map<string, seq<real>>, symbol: string,
                                   root: real -> real)
    requires IsRoot(root) && Consistent(data, rets)
    requires symbol in rets && Computable(rets[symbol])
    requires MarketKey in rets ==> |rets[MarketKey]| == |rets[symbol]|
    requires symbol in data && PriceColumn(data[symbol], symbol).Some?
    requires NonDecreasing(PriceSeries(data[symbol], symbol))
    ensures MetricsFor(data, rets, symbol, root).Some?
    ensures SummaryRowFor(symbol, MetricsFor(data, rets, symbol, root).value).maxDrawdownPct == None
  {
  }

  lemma {:induction false} UpdateUnion<K, V>(a: map<K, V>, b: map<K, V>, k: K, v: V)
    ensures (a + b)[k := v] == a + b[k := v]
  {
  }

  // -----------------------------------------------------------------------
  // The analyzer object

  class MarketRiskAnalyzer {
    const portfolioSymbols: seq<string>
    /** numpy's `sqrt`. */
    const root: real -> real
    /** The downloaded tables, by symbol, the market's under `MarketKey`. */
    var data: map<string, Frame>
    var returnSeries: map<string, seq<real>>
    var riskMetrics: MetricsTable

    ghost predicate Valid()
      reads this
    {
      IsRoot(root) && Consistent(data, returnSeries) && riskMetrics.Valid()
    }

    /** A fresh analyzer over already downloaded tables. */
    constructor (portfolioSymbols: seq<string>, data: map<string, Frame>, root: real -> real)
      requires IsRoot(root) && FramesWellFormed(data)
      ensures Valid()
      ensures this.portfolioSymbols == portfolioSymbols && this.data == data && this.root == root
      ensures returnSeries == map[] && riskMetrics == MetricsTable([], map[])
    {
      this.portfolioSymbols := portfolioSymbols;
      this.root := root;
      this.data := data;
      returnSeries := map[];
      riskMetrics := MetricsTable([], map[]);
    }

    /**
     * `calculate_returns`: visit every table and store the returns of its
     * price column; empty tables and tables without a price column are
     * skipped.
     */
    method CalculateReturns()
      requires Valid()
      modifies this`returnSeries
      ensures Valid()
      ensures returnSeries == old(returnSeries) + ReturnsTable(data)
    {
      var pending := data.Keys;
      ghost var visited: set<string> := {};
      while pending != {}
        invariant pending + visited == data.Keys && pending !! visited
        invariant Consistent(data, returnSeries)
        invariant returnSeries == old(returnSeries) + ReturnsOf(data, visited)
        decreases pending
      {
        var symbol :| symbol in pending;
        var frame := data[symbol];
        ReturnsOfStep(data, visited, symbol);
        if !IsEmpty(frame) {
          match PriceColumn(frame, symbol)
          case None =>
          case Some(c) =>
            assert ReturnsFor(frame, symbol) == Some(PctChange(frame.columns[c]));
            UpdateUnion(old(returnSeries), ReturnsOf(data, visited), symbol, PctChange(frame.columns[c]));
            returnSeries := returnSeries[symbol := PctChange(frame.columns[c])];
        }
        pending := pending - {symbol};
        visited := visited + {symbol};
      }
      assert visited == data.Keys;
    }

    /**
     * `calculate_all_metrics`: for every requested symbol in order, store its
     * metrics unless it has none or a calculator raises.
     */
    method CalculateAllMetrics()
      requires Valid() && MetricsComputable(portfolioSymbols, returnSeries)
      modifies this`riskMetrics
      ensures Valid()
      ensures riskMetrics == MetricsPass(old(riskMetrics), portfolioSymbols, data, returnSeries, root)
    {
      var i := 0;
      while i < |portfolioSymbols|
        invariant 0 <= i <= |portfolioSymbols|
        invariant riskMetrics.Valid()
        invariant MetricsComputable(portfolioSymbols[..i], returnSeries)
        invariant riskMetrics == MetricsPass(old(riskMetrics), portfolioSymbols[..i], data, returnSeries, root)
      {
        var symbol := portfolioSymbols[i];
        var done := portfolioSymbols[..i + 1];
        assert done[..i] == portfolioSymbols[..i] && done[i] == symbol;
        assert MetricsComputable(done, returnSeries);
        var metrics := MetricsFor(data, returnSeries, symbol, root);
        if metrics.Some? {
          riskMetrics := riskMetrics.Put(symbol, metrics.value);
        }
        assert riskMetrics == MetricsPass(old(riskMetrics), done, data, returnSeries, root);
        i := i + 1;
      }
      assert portfolioSymbols[..i] == portfolioSymbols;
    }

    /**
     * `generate_summary_report`: `None` when there are no metrics, otherwise
     * one row per entry, in insertion order.
     */
    method GenerateSummaryReport() returns (report: Option<seq<SummaryRow>>)
      requires Valid()
      ensures report.None? <==> riskMetrics.entries == map[]
      ensures report.Some? ==>
        && |report.value| == |riskMetrics.order|
        && forall i :: 0 <= i < |report.value| ==>
             report.value[i] == SummaryRowFor(riskMetrics.order[i], riskMetrics.entries[riskMetrics.order[i]])
    {
      if riskMetrics.entries == map[] {
        return None;
      }
      var rows: seq<SummaryRow> := [];
      var i := 0;
      while i < |riskMetrics.order|
        invariant 0 <= i <= |riskMetrics.order|
        invariant |rows| == i
        invariant forall j :: 0 <= j < i ==>
          rows[j] == SummaryRowFor(riskMetrics.order[j], riskMetrics.entries[riskMetrics.order[j]])
      {
        var symbol := riskMetrics.order[i];
        rows := rows + [SummaryRowFor(symbol, riskMetrics.entries[symbol])];
        i := i + 1;
      }
      report := Some(rows);
    }
  }
}
