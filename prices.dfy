/**
 * A downloaded price table, the choice of its price column, daily simple
 * returns, total return and maximum drawdown.
 */
module Prices {
  import opened Wrappers
  import opened Stats

  /** A column label: a plain name, or a (field, ticker) pair of a two-level index. */
  datatype Column = Named(name: string) | Tagged(name: string, ticker: string)

  /**
   * A downloaded table of daily observations: whether its column index has
   * two levels, how many rows it has, and its columns.
   */
  datatype Frame = Frame(multiLevel: bool, rows: nat, columns: map<Column, seq<real>>)

  const AdjClose: string := "Adj Close"
  const Close: string := "Close"

  /** pandas `DataFrame.empty`: no rows or no columns. */
  predicate IsEmpty(f: Frame)
  {
    f.rows == 0 || |f.columns| == 0
  }

  /** Every column has one entry per row, and every closing price is positive. */
  ghost predicate WellFormed(f: Frame)
  {
    forall c :: c in f.columns ==>
      && |f.columns[c]| == f.rows
      && (c.name == AdjClose || c.name == Close ==> Positive(f.columns[c]))
  }

  ghost predicate NonDecreasing(p: seq<real>)
  {
    forall i, j :: 0 <= i <= j < |p| ==> p[i] <= p[j]
  }

  /** The label of `field` for `symbol`, in the shape of the frame's column index. */
  function Label(f: Frame, field: string, symbol: string): Column
  {
    if f.multiLevel then Tagged(field, symbol) else Named(field)
  }

  /**
   * The price column of `symbol`: the adjusted close when the frame has one,
   * otherwise the raw close, otherwise none.
   */
  function PriceColumn(f: Frame, symbol: string): (c: Option<Column>)
    ensures c.Some? <==> Label(f, AdjClose, symbol) in f.columns || Label(f, Close, symbol) in f.columns
    ensures c.Some? ==> c.value in f.columns && (c.value.name == AdjClose || c.value.name == Close)
    ensures c.Some? ==> c.value == Label(f, c.value.name, symbol)
    ensures Label(f, AdjClose, symbol) in f.columns ==> c.value.name == AdjClose
  {
    if Label(f, AdjClose, symbol) in f.columns then Some(Label(f, AdjClose, symbol))
    else if Label(f, Close, symbol) in f.columns then Some(Label(f, Close, symbol))
    else None
  }

  /** The selected price column of `symbol`, which must exist. */
  function PriceSeries(f: Frame, symbol: string): (p: seq<real>)
    requires WellFormed(f) && PriceColumn(f, symbol).Some?
    ensures Positive(p) && |p| == f.rows
  {
    f.columns[PriceColumn(f, symbol).value]
  }

  /** pandas `pct_change().dropna()`: the simple return between consecutive prices. */
  function PctChange(p: seq<real>): (r: seq<real>)
    requires Positive(p)
    ensures |r| == if p == [] then 0 else |p| - 1
  {
    if |p| <= 1 then []
    else seq(|p| - 1, i requires 0 <= i < |p| - 1 => p[i + 1] / p[i] - 1.0)
  }

  /** The growth factor of a run of simple returns: the product of (1 + r). */
  function Growth(r: seq<real>): real
  {
    if r == [] then 1.0 else Growth(r[..|r| - 1]) * (1.0 + r[|r| - 1])
  }

  /** Compounding the daily returns from the first price rebuilds every later price. */
  lemma {:induction false} Compounding(p: seq<real>, t: nat)
    requires Positive(p) && t < |p|
    ensures p[t] == p[0] * Growth(PctChange(p)[..t])
  {
    if t > 0 {
      var r := PctChange(p);
      Compounding(p, t - 1);
      assert r[..t][..t - 1] == r[..t - 1];
      var g := Growth(r[..t - 1]);
      var step := 1.0 + r[t - 1];
      assert step == p[t] / p[t - 1];
      calc {
        p[0] * Growth(r[..t]);
        p[0] * (g * step);
        (p[0] * g) * step;
        p[t - 1] * (p[t] / p[t - 1]);
        p[t];
      }
    }
  }

  /**
   * Total return of a price series (last / first - 1): the compounded daily
   * returns, 0 for a single price, and IndexError when there are no prices.
   */
  function TotalReturn(p: seq<real>): (r: Result<real>)
    requires Positive(p)
    ensures r.Raised? <==> p == []
    ensures r.Raised? ==> r.error == IndexError
    ensures r.Ok? ==> r.value == Growth(PctChange(p)) - 1.0
    ensures |p| == 1 ==> r == Ok(0.0)
  {
    if p == [] then Raised(IndexError)
    else
      GrowthIsPriceRatio(p);
      Ok(p[|p| - 1] / p[0] - 1.0)
  }

  /** The daily returns compound to the ratio of the last price to the first. */
  lemma {:induction false} GrowthIsPriceRatio(p: seq<real>)
    requires |p| >= 1 && Positive(p)
    ensures Growth(PctChange(p)) == p[|p| - 1] / p[0]
  {
    var r := PctChange(p);
    Compounding(p, |p| - 1);
    assert r[..|p| - 1] == r;
    var g := Growth(r);
    assert p[|p| - 1] == p[0] * g;
    DivideOut(p[|p| - 1], p[0], g);
  }

  /** pandas `expanding().max()`: the running peak, scanned left to right. */
  function Peaks(p: seq<real>): (pk: seq<real>)
    ensures |pk| == |p|
    ensures forall t :: 0 <= t < |p| ==> pk[t] == Max(p[..t + 1])
  {
    if p == [] then []
    else
      var init := p[..|p| - 1];
      var prev := Peaks(init);
      var last := p[|p| - 1];
      assert forall t :: 0 <= t < |init| ==> prev[t] == Max(p[..t + 1]) by {
        forall t | 0 <= t < |init| ensures prev[t] == Max(p[..t + 1]) {
          assert init[..t + 1] == p[..t + 1];
        }
      }
      assert p[..|p|] == p;
      if prev == [] then [last]
      else
        assert p[..|p|][..|p| - 1] == init[..|init|];
        prev + [if last > prev[|prev| - 1] then last else prev[|prev| - 1]]
  }

  /** The running peak of positive prices is positive and bounds the price. */
  lemma {:induction false} PeaksBound(p: seq<real>)
    requires Positive(p)
    ensures forall t :: 0 <= t < |p| ==> 0.0 < p[t] <= Peaks(p)[t]
  {
    forall t | 0 <= t < |p| ensures 0.0 < p[t] <= Peaks(p)[t] {
      assert p[..t + 1][t] == p[t];
    }
  }

  /**
   * The drawdown (x - y) / y of a price x at or below its peak y: in
   * (-1, 0], and 0 exactly at the peak.
   */
  function Drawdown(x: real, y: real): (d: real)
    requires 0.0 < x <= y
    ensures -1.0 < d <= 0.0
    ensures d * y == x - y
    ensures d == 0.0 <==> x == y
  {
    var d := (x - y) / y;
    assert d * y == x - y;
    if d > 0.0 then
      ProductPositive(d, y, d * y);
      d
    else if d <= -1.0 then
      ProductNonNegative(-d - 1.0, y);
      d
    else
      d
  }

  /** The drawdown of every price against its running peak. */
  function Drawdowns(p: seq<real>): (dd: seq<real>)
    requires Positive(p)
    ensures |dd| == |p|
    ensures forall t :: 0 <= t < |p| ==> -1.0 < dd[t] <= 0.0
    ensures forall t :: 0 <= t < |p| ==> (dd[t] == 0.0 <==> p[t] == Peaks(p)[t])
    ensures forall t :: 0 <= t < |p| ==> Peaks(p)[t] > 0.0 && dd[t] == (p[t] - Peaks(p)[t]) / Peaks(p)[t]
  {
    var pk := Peaks(p);
    PeaksBound(p);
    seq(|p|, t requires 0 <= t < |p| => Drawdown(p[t], pk[t]))
  }

  /**
   * The maximum drawdown: the smallest drawdown. For positive prices it lies
   * in (-1, 0], and it is 0 exactly when no price falls below an earlier one.
   */
  function MaxDrawdown(p: seq<real>): (d: real)
    requires |p| >= 1 && Positive(p)
    ensures -1.0 < d <= 0.0
    ensures d == 0.0 <==> NonDecreasing(p)
    ensures d == Min(Drawdowns(p)) && d in Drawdowns(p)
    ensures forall t :: 0 <= t < |p| ==> d <= Drawdowns(p)[t]
  {
    var dd := Drawdowns(p);
    DrawdownsFacts(p);
    Min(dd)
  }

  /** Rising prices are always at their peak. */
  lemma {:induction false} RisingAtPeak(p: seq<real>, t: nat)
    requires NonDecreasing(p) && t < |p|
    ensures p[t] == Peaks(p)[t]
  {
    var m := Max(p[..t + 1]);
    var i :| 0 <= i < t + 1 && p[..t + 1][i] == m;
    assert p[..t + 1][i] == p[i];
    assert p[..t + 1][t] == p[t];
  }

  lemma {:induction false} DrawdownsFacts(p: seq<real>)
    requires |p| >= 1 && Positive(p)
    ensures forall t :: 0 <= t < |p| ==> -1.0 < Drawdowns(p)[t] <= 0.0
    ensures Min(Drawdowns(p)) == 0.0 <==> NonDecreasing(p)
  {
    if NonDecreasing(p) {
      RisingHasNoDrawdown(p);
    }
    if Min(Drawdowns(p)) == 0.0 {
      NoDrawdownIsRising(p);
    }
  }

  lemma {:induction false} RisingHasNoDrawdown(p: seq<real>)
    requires |p| >= 1 && Positive(p) && NonDecreasing(p)
    ensures Min(Drawdowns(p)) == 0.0
  {
    var dd := Drawdowns(p);
    forall t | 0 <= t < |p| ensures dd[t] == 0.0 {
      RisingAtPeak(p, t);
    }
    var i :| 0 <= i < |dd| && dd[i] == Min(dd);
  }

  lemma {:induction false} NoDrawdownIsRising(p: seq<real>)
    requires |p| >= 1 && Positive(p) && Min(Drawdowns(p)) == 0.0
    ensures NonDecreasing(p)
  {
    var pk := Peaks(p);
    var dd := Drawdowns(p);
    forall i, j | 0 <= i <= j < |p| ensures p[i] <= p[j] {
      assert dd[j] >= Min(dd);
      assert p[j] == pk[j] == Max(p[..j + 1]);
      assert p[..j + 1][i] == p[i];
    }
  }
}
