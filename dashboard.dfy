/**
 * The computations of the Streamlit dashboard: reading the symbol text
 * box, the four headline averages, the price traces, the colour bands of
 * the summary table, the bar-chart series and the histogram grid.
 */
module Dashboard {
  import opened Wrappers
  import opened Stats
  import opened Prices
  import opened Text
  import opened FloatText
  import opened MarketRiskAnalysis

  // -----------------------------------------------------------------------
  // The symbol text box

  /**
   * Keep the non-blank lines, stripped and upper-cased, in order. Every
   * symbol is one input line, trimmed, and none is empty.
   */
  function CleanLines(lines: seq<string>): (symbols: seq<string>)
    ensures |symbols| <= |lines|
    ensures forall k :: 0 <= k < |symbols| ==> IsSymbol(symbols[k])
  {
    if lines == [] then []
    else
      var head := CleanLine(lines[0]);
      var rest := CleanLines(lines[1..]);
      SymbolsConcat(head, rest);
      head + rest
  }

  lemma {:induction false} SymbolsConcat(a: seq<string>, b: seq<string>)
    requires forall k :: 0 <= k < |a| ==> IsSymbol(a[k])
    requires forall k :: 0 <= k < |b| ==> IsSymbol(b[k])
    ensures forall k :: 0 <= k < |a + b| ==> IsSymbol((a + b)[k])
  {
    forall k | 0 <= k < |a + b| ensures IsSymbol((a + b)[k]) {
      if k < |a| {
        assert (a + b)[k] == a[k];
      } else {
        assert (a + b)[k] == b[k - |a|];
      }
    }
  }

  /** Non-empty, no whitespace at either end, no lower-case ASCII letter. */
  predicate IsSymbol(s: string)
  {
    s != [] && Trimmed(s) && forall i :: 0 <= i < |s| ==> !('a' <= s[i] <= 'z')
  }

  /**
   * One line of the text box: nothing when it is blank, otherwise its
   * stripped, upper-cased text.
   */
  function CleanLine(line: string): (r: seq<string>)
    ensures r == [] <==> AllSpace(line)
    ensures |r| <= 1
    ensures r != [] ==> IsSymbol(r[0]) && r == [Upper(Strip(line))]
  {
    var t := Strip(line);
    if t == [] then [] else [Upper(t)]
  }

  /**
   * Cleaning works line by line: the symbols of two blocks of lines are
   * the symbols of the first followed by those of the second, so order is
   * kept and a repeated line gives a repeated symbol.
   */
  lemma {:induction false} CleanLinesAppend(a: seq<string>, b: seq<string>)
    ensures CleanLines(a + b) == CleanLines(a) + CleanLines(b)
  {
    if a == [] {
      assert a + b == b;
    } else {
      assert (a + b)[1..] == a[1..] + b;
      CleanLinesAppend(a[1..], b);
    }
  }

  /**
   * A symbol comes out of cleaning exactly when it is the stripped,
   * upper-cased text of a non-blank line.
   */
  lemma {:induction false} CleanLinesMembers(lines: seq<string>)
    ensures forall x :: x in CleanLines(lines) <==>
      exists l :: l in lines && !AllSpace(l) && x == Upper(Strip(l))
  {
    if lines != [] {
      CleanLinesMembers(lines[1..]);
      assert lines == [lines[0]] + lines[1..];
      assert CleanLines(lines) == CleanLine(lines[0]) + CleanLines(lines[1..]);
      forall x | x in CleanLines(lines)
        ensures exists l :: l in lines && !AllSpace(l) && x == Upper(Strip(l))
      {
        if x in CleanLine(lines[0]) {
          assert lines[0] in lines;
        } else {
          assert x in CleanLines(lines[1..]);
          var l :| l in lines[1..] && !AllSpace(l) && x == Upper(Strip(l));
          assert l in lines;
        }
      }
      forall x | exists l :: l in lines && !AllSpace(l) && x == Upper(Strip(l))
        ensures x in CleanLines(lines)
      {
        var l :| l in lines && !AllSpace(l) && x == Upper(Strip(l));
        if l == lines[0] {
          assert x in CleanLine(lines[0]);
        } else {
          assert l in lines[1..];
        }
      }
    }
  }

  /** The portfolio symbols typed into the text box, one per line. */
  function ParseSymbols(text: string): (symbols: seq<string>)
    ensures forall k :: 0 <= k < |symbols| ==> IsSymbol(symbols[k])
  {
    CleanLines(Lines(Strip(text)))
  }

  /**
   * A symbol is parsed exactly when it is the stripped, upper-cased text of
   * a non-blank line of the stripped text box.
   */
  lemma {:induction false} ParsedSymbolsAreLines(text: string)
    ensures forall x :: x in ParseSymbols(text) <==>
      exists l :: l in Lines(Strip(text)) && !AllSpace(l) && x == Upper(Strip(l))
  {
    CleanLinesMembers(Lines(Strip(text)));
  }

  /**
   * Text made of newline-separated lines, with no whitespace at its ends,
   * yields the cleaned lines.
   */
  lemma {:induction false} ParseJoinedLines(ls: seq<string>)
    requires |ls| >= 1 && forall k :: 0 <= k < |ls| ==> '\n' !in ls[k]
    requires Trimmed(Join(ls))
    ensures ParseSymbols(Join(ls)) == CleanLines(ls)
  {
    LinesJoin(ls);
  }

  // -----------------------------------------------------------------------
  // The headline averages

  /** The four headline cards. */
  datatype Headline = PortfolioReturn | AvgVolatility | AvgBeta | AvgSharpe

  function MetricOf(m: RiskMetrics, h: Headline): Option<real>
  {
    match h
    case PortfolioReturn => Some(m.totalReturn)
    case AvgVolatility => m.volatility
    case AvgBeta => m.beta
    case AvgSharpe => m.sharpeRatio
  }

  /**
   * Whether an entry adds to the card's sum: every total return does; the
   * other metrics only when truthy (present and non-zero).
   */
  predicate Counted(m: RiskMetrics, h: Headline)
  {
    h == PortfolioReturn || (MetricOf(m, h).Some? && MetricOf(m, h).value != 0.0)
  }

  predicate Contributes(entries: map<string, RiskMetrics>, h: Headline, s: string)
  {
    s in entries && Counted(entries[s], h)
  }

  /**
   * The list comprehension under each card: the metric of every requested
   * symbol that has an entry and counts, in request order, repeats kept.
   */
  function Contributions(symbols: seq<string>, entries: map<string, RiskMetrics>, h: Headline)
    : (xs: seq<real>)
    ensures |xs| <= |symbols|
  {
    if symbols == [] then []
    else
      var init := symbols[..|symbols| - 1];
      var s := symbols[|symbols| - 1];
      Contributions(init, entries, h)
        + (if Contributes(entries, h, s) then [MetricOf(entries[s], h).value] else [])
  }

  /**
   * A card's value: the sum of the contributions over the number of
   * requested symbols, whether or not they have an entry; no symbols at
   * all divides by zero.
   */
  function HeadlineAverage(symbols: seq<string>, entries: map<string, RiskMetrics>, h: Headline)
    : (avg: Result<real>)
    ensures avg.Raised? <==> symbols == []
    ensures avg.Raised? ==> avg.error == ZeroDivisionError
    ensures avg.Ok? ==> avg.value * |symbols| as real == Sum(Contributions(symbols, entries, h))
  {
    if |symbols| == 0 then Raised(ZeroDivisionError)
    else Ok(Sum(Contributions(symbols, entries, h)) / |symbols| as real)
  }

  /**
   * When every requested symbol contributes, the card shows the ordinary
   * mean of their metrics.
   */
  lemma {:induction false} AverageOfFullPortfolio(symbols: seq<string>, entries: map<string, RiskMetrics>, h: Headline)
    requires symbols != [] && forall s :: s in symbols ==> Contributes(entries, h, s)
    ensures |Contributions(symbols, entries, h)| == |symbols|
    ensures HeadlineAverage(symbols, entries, h) == Ok(Mean(Contributions(symbols, entries, h)))
  {
    FullContributions(symbols, entries, h);
  }

  /** There is one summand per requested symbol exactly when every requested symbol contributes. */
  lemma {:induction false} FullContributions(symbols: seq<string>, entries: map<string, RiskMetrics>, h: Headline)
    ensures |Contributions(symbols, entries, h)| == |symbols| <==> forall s :: s in symbols ==> Contributes(entries, h, s)
  {
    if symbols != [] {
      var init := symbols[..|symbols| - 1];
      var s := symbols[|symbols| - 1];
      assert forall x :: x in symbols <==> x in init || x == s;
      FullContributions(init, entries, h);
    }
  }

  /**
   * Requesting one more symbol that has no entry leaves the sum as it was
   * and grows the divisor: the card is diluted by n / (n + 1).
   */
  lemma {:induction false} AbsentSymbolDilutes(symbols: seq<string>, entries: map<string, RiskMetrics>, h: Headline, s: string)
    requires symbols != [] && s !in entries
    ensures var n := |symbols| as real;
      HeadlineAverage(symbols + [s], entries, h).value * (n + 1.0)
        == HeadlineAverage(symbols, entries, h).value * n
  {
    AbsentSymbolSum(symbols, entries, h, s);
    var total := Sum(Contributions(symbols, entries, h));
    var n := |symbols| as real;
    Unscale(total, n + 1.0);
    Unscale(total, n);
  }

  lemma {:induction false} AbsentSymbolSum(symbols: seq<string>, entries: map<string, RiskMetrics>,
                                           h: Headline, s: string)
    requires s !in entries
    ensures HeadlineAverage(symbols + [s], entries, h)
      == Ok(Sum(Contributions(symbols, entries, h)) / (|symbols| as real + 1.0))
  {
    AbsentSymbolAddsNothing(symbols, entries, h, s);
    assert |symbols + [s]| as real == |symbols| as real + 1.0;
  }

  lemma {:induction false} AbsentSymbolAddsNothing(symbols: seq<string>, entries: map<string, RiskMetrics>,
                                                   h: Headline, s: string)
    requires s !in entries
    ensures Contributions(symbols + [s], entries, h) == Contributions(symbols, entries, h)
  {
    var longer := symbols + [s];
    assert longer[..|longer| - 1] == symbols && longer[|longer| - 1] == s;
  }

  /**
   * Two requested symbols, one with a volatility of 0.2 and one without
   * metrics: the card shows 0.1, not 0.2.
   */
  lemma {:induction false} HalfPortfolioVolatility(m: RiskMetrics)
    requires m.volatility == Some(0.2)
    ensures HeadlineAverage(["A", "B"], map["A" := m], AvgVolatility) == Ok(0.1)
  {
    var symbols := ["A", "B"];
    assert symbols[..1] == ["A"] && symbols[..1][..0] == [];
    assert "B" !in map["A" := m];
    assert Contributions(["A"], map["A" := m], AvgVolatility) == [0.2];
    assert Contributions(symbols, map["A" := m], AvgVolatility) == [0.2];
    assert Sum([0.2]) == 0.2;
  }

  // -----------------------------------------------------------------------
  // The price chart

  /** One line of the price chart: a symbol and its price column. */
  datatype Trace = Trace(name: string, prices: seq<real>)

  /**
   * One trace per requested symbol that has a table with an adjusted-close
   * or close column (adjusted close preferred), in request order. Unlike
   * `calculate_returns`, an empty table is not skipped.
   */
  function PriceTraces(portfolio: seq<string>, data: map<string, Frame>): (traces: seq<Trace>)
    requires FramesWellFormed(data)
    ensures forall k :: 0 <= k < |traces| ==>
      var s := traces[k].name;
      && s in portfolio && s in data && PriceColumn(data[s], s).Some?
      && traces[k].prices == PriceSeries(data[s], s)
    ensures forall s :: s in portfolio && s in data && PriceColumn(data[s], s).Some? ==>
      exists k :: 0 <= k < |traces| && traces[k].name == s
  {
    if portfolio == [] then []
    else
      var init := portfolio[..|portfolio| - 1];
      var s := portfolio[|portfolio| - 1];
      var rest := PriceTraces(init, data);
      assert forall x :: x in portfolio <==> x in init || x == s;
      if s in data && PriceColumn(data[s], s).Some? then
        var traces := rest + [Trace(s, data[s].columns[PriceColumn(data[s], s).value])];
        assert traces[|rest|].name == s;
        assert forall k :: 0 <= k < |rest| ==> traces[k] == rest[k];
        traces
      else
        rest
  }

  /**
   * The chart is built symbol by symbol: the traces for one more requested
   * symbol are the earlier traces, followed by that symbol's trace when it
   * has a price column, so the traces follow request order, repeats kept.
   */
  lemma {:induction false} PriceTracesStep(portfolio: seq<string>, i: nat, data: map<string, Frame>)
    requires FramesWellFormed(data) && i < |portfolio|
    ensures var s := portfolio[i];
      PriceTraces(portfolio[..i + 1], data) == PriceTraces(portfolio[..i], data)
        + (if s in data && PriceColumn(data[s], s).Some? then [Trace(s, PriceSeries(data[s], s))] else [])
  {
    var prefix := portfolio[..i + 1];
    assert prefix[..|prefix| - 1] == portfolio[..i] && prefix[|prefix| - 1] == portfolio[i];
  }

  /**
   * A requested symbol whose table has a price column but no rows is drawn
   * (as an empty line) yet gets no returns.
   */
  lemma {:induction false} EmptyTableDrawnWithoutReturns(portfolio: seq<string>, data: map<string, Frame>, s: string)
    requires FramesWellFormed(data) && s in portfolio && s in data
    requires data[s].rows == 0 && PriceColumn(data[s], s).Some?
    ensures exists k :: 0 <= k < |PriceTraces(portfolio, data)| && PriceTraces(portfolio, data)[k].name == s
    ensures s !in ReturnsTable(data)
  {
    assert IsEmpty(data[s]);
    assert ReturnsFor(data[s], s).None?;
    var traces := PriceTraces(portfolio, data);
    assert exists k :: 0 <= k < |traces| && traces[k].name == s;
  }

  // -----------------------------------------------------------------------
  // The colour bands of the summary table

  /** A cell of the summary table: missing (NaN), a number, or text. */
  datatype CellValue = Missing | Number(x: real) | Str(s: string)

  const HighStyle: string := "background-color: #ffcdd2"
  const MediumStyle: string := "background-color: #fff3e0"
  const LowStyle: string := "background-color: #c8e6c9"
  const NoStyle: string := ""

  /** `str.replace(c, '')`: every `c` goes, every other character stays. */
  function RemoveChar(s: string, c: char): (r: string)
    ensures |r| <= |s| && c !in r
    ensures c !in s ==> r == s
    ensures forall x :: x != c ==> multiset(r)[x] == multiset(s)[x]
  {
    if s == [] then []
    else
      var r := (if s[0] == c then [] else [s[0]]) + RemoveChar(s[1..], c);
      assert s == [s[0]] + s[1..];
      assert multiset(s) == multiset([s[0]]) + multiset(s[1..]);
      r
  }

  /** Removal works piecewise, so the kept characters stay in their order. */
  lemma {:induction false} RemoveCharAppend(a: string, b: string, c: char)
    ensures RemoveChar(a + b, c) == RemoveChar(a, c) + RemoveChar(b, c)
  {
    if a == [] {
      assert a + b == b;
    } else {
      assert (a + b)[0] == a[0] && (a + b)[1..] == a[1..] + b;
      RemoveCharAppend(a[1..], b, c);
    }
  }

  /**
   * The number a volatility cell is read as: text has every '%' removed
   * first, so text without '%' reads as it does for beta.
   */
  function VolatilityNumber(v: CellValue): (x: Option<real>)
    ensures v.Missing? ==> x.None?
    ensures v.Number? ==> x == Some(v.x)
    ensures v.Str? && '%' !in v.s ==> x == BetaNumber(v)
  {
    match v
    case Missing => None
    case Number(x) => Some(x)
    case Str(s) => ParseFloat(RemoveChar(s, '%'))
  }

  /** The number a beta cell is read as: text is parsed as it is, so text with a '%' is unreadable. */
  function BetaNumber(v: CellValue): (x: Option<real>)
    ensures v.Missing? ==> x.None?
    ensures v.Number? ==> x == Some(v.x)
    ensures v.Str? && '%' in v.s ==> x.None?
  {
    match v
    case Missing => None
    case Number(x) => Some(x)
    case Str(s) => ParseFloat(s)
  }

  /** Red above `high`, orange above `medium`, green otherwise. */
  function Band(x: real, high: real, medium: real): (style: string)
    requires medium < high
    ensures style == HighStyle <==> x > high
    ensures style == MediumStyle <==> medium < x <= high
    ensures style == LowStyle <==> x <= medium
  {
    assert HighStyle[21] != MediumStyle[21] && HighStyle[21] != LowStyle[21] && MediumStyle[21] != LowStyle[21];
    if x > high then HighStyle else if x > medium then MediumStyle else LowStyle
  }

  /** `color_volatility`: no style for a missing or unreadable cell; red above 30, orange above 20, else green. */
  function ColorVolatility(v: CellValue): (style: string)
    ensures style == NoStyle <==> VolatilityNumber(v).None?
    ensures style == HighStyle <==> VolatilityNumber(v).Some? && VolatilityNumber(v).value > 30.0
    ensures style == MediumStyle <==> VolatilityNumber(v).Some? && 20.0 < VolatilityNumber(v).value <= 30.0
    ensures style == LowStyle <==> VolatilityNumber(v).Some? && VolatilityNumber(v).value <= 20.0
  {
    match VolatilityNumber(v)
    case None => NoStyle
    case Some(x) => Band(x, 30.0, 20.0)
  }

  /** `color_beta`: no style for a missing or unreadable cell; red above 1.2, orange above 0.8, else green. */
  function ColorBeta(v: CellValue): (style: string)
    ensures style == NoStyle <==> BetaNumber(v).None?
    ensures style == HighStyle <==> BetaNumber(v).Some? && BetaNumber(v).value > 1.2
    ensures style == MediumStyle <==> BetaNumber(v).Some? && 0.8 < BetaNumber(v).value <= 1.2
    ensures style == LowStyle <==> BetaNumber(v).Some? && BetaNumber(v).value <= 0.8
  {
    match BetaNumber(v)
    case None => NoStyle
    case Some(x) => Band(x, 1.2, 0.8)
  }

  /** Green, orange and red in increasing order of risk. */
  function Rank(style: string): nat
  {
    if style == HighStyle then 2 else if style == MediumStyle then 1 else 0
  }

  /** A larger number never gets a less risky band. */
  lemma {:induction false} BandMonotone(x: real, y: real, high: real, medium: real)
    requires medium < high && x <= y
    ensures Rank(Band(x, high, medium)) <= Rank(Band(y, high, medium))
  {
    assert HighStyle != MediumStyle by {
      assert HighStyle[21] != MediumStyle[21];
    }
  }

  /** Volatility text with a trailing '%' is coloured like the number itself. */
  lemma {:induction false} VolatilityPercentText(d: Decimal)
    requires d.Valid()
    ensures ColorVolatility(Str(Render(d) + "%")) == ColorVolatility(Number(d.Value()))
  {
    var s := Render(d);
    RemoveTrailing(s, '%');
    ParseRender(d);
  }

  /** Beta text is read as the number it spells, but a '%' makes it unreadable. */
  lemma {:induction false} BetaText(d: Decimal)
    requires d.Valid()
    ensures ColorBeta(Str(Render(d))) == ColorBeta(Number(d.Value()))
    ensures ColorBeta(Str(Render(d) + "%")) == NoStyle
  {
    ParseRender(d);
    assert '%' in Render(d) + "%" by {
      assert (Render(d) + "%")[|Render(d)|] == '%';
    }
  }

  lemma {:induction false} RemoveTrailing(s: string, c: char)
    requires c !in s
    ensures RemoveChar(s + [c], c) == s
  {
    if s == [] {
      assert [] + [c] == [c];
      assert [c][1..] == [];
    } else {
      assert (s + [c])[1..] == s[1..] + [c];
      RemoveTrailing(s[1..], c);
      assert [s[0]] + s[1..] == s;
    }
  }

  // -----------------------------------------------------------------------
  // The bar charts

  /** The requested symbols that contribute to the card, in request order, repeats kept. */
  function ChartSymbols(portfolio: seq<string>, entries: map<string, RiskMetrics>, h: Headline)
    : (symbols: seq<string>)
    ensures forall s :: s in symbols <==> s in portfolio && Contributes(entries, h, s)
    ensures |symbols| == |Contributions(portfolio, entries, h)|
  {
    if portfolio == [] then []
    else
      var init := portfolio[..|portfolio| - 1];
      var s := portfolio[|portfolio| - 1];
      assert forall x :: x in portfolio <==> x in init || x == s;
      ChartSymbols(init, entries, h) + (if Contributes(entries, h, s) then [s] else [])
  }

  /** Volatility bars are in percent; beta bars are plain. */
  function ChartScale(h: Headline): real
  {
    if h == AvgVolatility then 100.0 else 1.0
  }

  /** Every value times the chart's scale. */
  function Scaled(xs: seq<real>, c: real): (ys: seq<real>)
    ensures |ys| == |xs|
    ensures forall k :: 0 <= k < |xs| ==> ys[k] == c * xs[k]
  {
    seq(|xs|, k requires 0 <= k < |xs| => c * xs[k])
  }

  /**
   * The bar chart of the volatility or beta card: one bar per requested
   * symbol with a truthy metric, in request order; the bars are the card's
   * summands times the chart's scale (see `ChartMatchesContributions` for
   * what each bar reads).
   */
  method BarSeries(portfolio: seq<string>, entries: map<string, RiskMetrics>, h: Headline)
    returns (symbols: seq<string>, values: seq<real>)
    requires h == AvgVolatility || h == AvgBeta
    ensures symbols == ChartSymbols(portfolio, entries, h)
    ensures values == Scaled(Contributions(portfolio, entries, h), ChartScale(h))
  {
    symbols := [];
    values := [];
    var i := 0;
    while i < |portfolio|
      invariant 0 <= i <= |portfolio|
      invariant symbols == ChartSymbols(portfolio[..i], entries, h)
      invariant values == Scaled(Contributions(portfolio[..i], entries, h), ChartScale(h))
    {
      var symbol := portfolio[i];
      BarStep(portfolio, i, entries, h);
      if Contributes(entries, h, symbol) {
        values := values + [ChartScale(h) * MetricOf(entries[symbol], h).value];
        symbols := symbols + [symbol];
      }
      i := i + 1;
    }
    assert portfolio[..i] == portfolio;
  }

  lemma {:induction false} ScaledAppend(xs: seq<real>, x: real, c: real)
    ensures Scaled(xs + [x], c) == Scaled(xs, c) + [c * x]
  {
    var l, r := Scaled(xs + [x], c), Scaled(xs, c) + [c * x];
    forall k | 0 <= k < |l| ensures l[k] == r[k] {
      if k < |xs| {
        assert (xs + [x])[k] == xs[k];
      }
    }
  }

  /** Reading one more requested symbol adds at most its own bar. */
  lemma {:induction false} BarStep(portfolio: seq<string>, i: nat, entries: map<string, RiskMetrics>, h: Headline)
    requires i < |portfolio|
    ensures var s, c := portfolio[i], ChartScale(h);
      && Scaled(Contributions(portfolio[..i + 1], entries, h), c) == Scaled(Contributions(portfolio[..i], entries, h), c)
           + (if Contributes(entries, h, s) then [c * MetricOf(entries[s], h).value] else [])
      && ChartSymbols(portfolio[..i + 1], entries, h) == ChartSymbols(portfolio[..i], entries, h)
           + (if Contributes(entries, h, s) then [s] else [])
  {
    var prefix := portfolio[..i + 1];
    var s := portfolio[i];
    assert prefix[..i] == portfolio[..i] && prefix[i] == s;
    if Contributes(entries, h, s) {
      ScaledAppend(Contributions(portfolio[..i], entries, h), MetricOf(entries[s], h).value, ChartScale(h));
    }
  }

  /**
   * The bars and the card read the same entries: the k-th bar's symbol
   * contributes to the card, and its metric is the card's k-th summand.
   */
  lemma {:induction false} ChartMatchesContributions(portfolio: seq<string>, entries: map<string, RiskMetrics>,
                                                     h: Headline)
    ensures var symbols, xs := ChartSymbols(portfolio, entries, h), Contributions(portfolio, entries, h);
      forall k :: 0 <= k < |symbols| ==>
        Contributes(entries, h, symbols[k]) && xs[k] == MetricOf(entries[symbols[k]], h).value
  {
    if portfolio != [] {
      var init := portfolio[..|portfolio| - 1];
      var s := portfolio[|portfolio| - 1];
      ChartMatchesContributions(init, entries, h);
      var symbols, xs := ChartSymbols(portfolio, entries, h), Contributions(portfolio, entries, h);
      var n := |ChartSymbols(init, entries, h)|;
      assert forall k :: 0 <= k < n ==>
        symbols[k] == ChartSymbols(init, entries, h)[k] && xs[k] == Contributions(init, entries, h)[k];
      if Contributes(entries, h, s) {
        assert symbols[n] == s && xs[n] == MetricOf(entries[s], h).value;
      }
    }
  }

  // -----------------------------------------------------------------------
  // The histogram grid

  /** The (row, column) of the i-th histogram in the 2 x 2 grid, read row by row. */
  function GridCell(i: nat): (cell: (nat, nat))
    requires i < 4
    ensures 1 <= cell.0 <= 2 && 1 <= cell.1 <= 2
    ensures (cell.0 - 1) * 2 + (cell.1 - 1) == i
  {
    (i / 2 + 1, i % 2 + 1)
  }

  /** Distinct positions get distinct cells. */
  lemma {:induction false} GridCellsDistinct(i: nat, j: nat)
    requires i < 4 && j < 4 && i != j
    ensures GridCell(i) != GridCell(j)
  {
  }

  datatype Placement = Placement(symbol: string, row: nat, col: nat)

  function CellIndex(p: Placement): int
  {
    (p.row - 1) * 2 + (p.col - 1)
  }

  /** The histograms for positions `i` onwards of the first four symbols. */
  function PlacementsFrom(shown: seq<string>, rets: map<string, seq<real>>, i: nat): (ps: seq<Placement>)
    requires |shown| <= 4 && i <= |shown|
    ensures forall k :: 0 <= k < |ps| ==>
      && 1 <= ps[k].row <= 2 && 1 <= ps[k].col <= 2
      && i <= CellIndex(ps[k]) < |shown|
      && shown[CellIndex(ps[k])] == ps[k].symbol && ps[k].symbol in rets
    ensures forall k, l :: 0 <= k < l < |ps| ==> CellIndex(ps[k]) < CellIndex(ps[l])
    decreases |shown| - i
  {
    if i == |shown| then []
    else
      var rest := PlacementsFrom(shown, rets, i + 1);
      if shown[i] in rets then
        var cell := GridCell(i);
        var ps := [Placement(shown[i], cell.0, cell.1)] + rest;
        assert CellIndex(ps[0]) == i;
        assert forall k :: 1 <= k < |ps| ==> ps[k] == rest[k - 1];
        ps
      else
        rest
  }

  /** Some placement sits in the cell of position `j`. */
  predicate HasCell(ps: seq<Placement>, j: nat)
  {
    exists k :: 0 <= k < |ps| && CellIndex(ps[k]) == j
  }

  /** Every shown symbol with returns gets its histogram. */
  lemma {:induction false} PlacementsComplete(shown: seq<string>, rets: map<string, seq<real>>, i: nat, j: nat)
    requires |shown| <= 4 && i <= j < |shown| && shown[j] in rets
    ensures HasCell(PlacementsFrom(shown, rets, i), j)
    decreases |shown| - i
  {
    var ps := PlacementsFrom(shown, rets, i);
    var rest := PlacementsFrom(shown, rets, i + 1);
    if j == i {
      assert CellIndex(ps[0]) == j;
    } else {
      PlacementsComplete(shown, rets, i + 1, j);
      var k :| 0 <= k < |rest| && CellIndex(rest[k]) == j;
      if shown[i] in rets {
        assert ps[k + 1] == rest[k];
      } else {
        assert ps[k] == rest[k];
      }
    }
  }

  /**
   * The returns histograms: the first four requested symbols, each with
   * returns, in the cell of its position; no two share a cell.
   */
  function HistogramPlacements(portfolio: seq<string>, rets: map<string, seq<real>>): (ps: seq<Placement>)
    ensures |ps| <= 4
    ensures forall k :: 0 <= k < |ps| ==>
      && 1 <= ps[k].row <= 2 && 1 <= ps[k].col <= 2
      && 0 <= CellIndex(ps[k]) < |portfolio| && portfolio[CellIndex(ps[k])] == ps[k].symbol
      && ps[k].symbol in rets
    ensures forall k, l :: 0 <= k < l < |ps| ==> ps[k].row != ps[l].row || ps[k].col != ps[l].col
    ensures forall j :: 0 <= j < |portfolio| && j < 4 && portfolio[j] in rets ==> HasCell(ps, j)
  {
    var shown := if |portfolio| <= 4 then portfolio else portfolio[..4];
    var ps := PlacementsFrom(shown, rets, 0);
    assert forall j :: 0 <= j < |shown| ==> shown[j] == portfolio[j];
    PlacementsAtMostFour(ps, |shown|);
    forall j | 0 <= j < |shown| && shown[j] in rets ensures HasCell(ps, j) {
      PlacementsComplete(shown, rets, 0, j);
    }
    ps
  }

  /** Strictly increasing cell indices below n number at most n. */
  lemma {:induction false} PlacementsAtMostFour(ps: seq<Placement>, n: nat)
    requires forall k :: 0 <= k < |ps| ==> 0 <= CellIndex(ps[k]) < n
    requires forall k, l :: 0 <= k < l < |ps| ==> CellIndex(ps[k]) < CellIndex(ps[l])
    ensures |ps| <= n
  {
    if ps != [] {
      var last := ps[|ps| - 1];
      PlacementsAtMostFour(ps[..|ps| - 1], CellIndex(last));
    }
  }
}
