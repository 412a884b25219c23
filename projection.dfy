/**
 * The projection engine of the profit prediction calculator:
 * ProfitPredictionCalculator::perform_calculations and the integer form of
 * the break-even month that store_calculation persists.
 *
 * Money values are reals. The unrounded running quantities are given by the
 * recurrences Revenue, Profit, Cumulative and Net; the values the engine
 * records are their images under Round2.
 */
module Projection {

  /** The fixed projection horizon, in months. */
  const Months: nat := 6

  /** The sanitized request data the engine reads. */
  datatype Inputs = Inputs(
    initialInvestment: real,
    monthlyRevenue: real,
    monthlyCosts: real,
    growthRate: real)

  /** One row of the projection table. */
  datatype MonthProjection = MonthProjection(
    month: nat,
    revenue: real,
    costs: real,
    profit: real,
    cumulativeProfit: real,
    netProfit: real)

  /** The break-even month, or the 'Not within 6 months' sentinel. */
  datatype BreakEven = Month(month: nat) | NotWithin6

  datatype Summary = Summary(
    initialInvestment: real,
    totalRevenue6m: real,
    totalCosts6m: real,
    growthRate: real)

  /** What perform_calculations returns. */
  datatype Calculation = Calculation(
    roi: real,
    totalProfit: real,
    breakEven: BreakEven,
    projections: seq<MonthProjection>,
    summary: Summary)

  function Pow(r: real, n: nat): real
  {
    if n == 0 then 1.0 else r * Pow(r, n - 1)
  }

  /** A whole number of cents. */
  predicate OnCentGrid(x: real)
  {
    (x * 100.0).Floor as real == x * 100.0
  }

  /**
   * PHP round($x, 2): to two fractional digits, halves away from zero.
   * The result is a whole number of cents, never more than half a cent away
   * from x, and never of the opposite sign. A tie goes away from zero, which
   * makes the result the only one with these properties.
   */
  function Round2(x: real): (r: real)
    ensures OnCentGrid(r)
    ensures -1.0 / 200.0 <= r - x <= 1.0 / 200.0
    ensures x >= 0.0 ==> -1.0 / 200.0 < r - x
    ensures x < 0.0 ==> r - x < 1.0 / 200.0
    ensures x >= 0.0 ==> r >= 0.0
    ensures x <= 0.0 ==> r <= 0.0
  {
    if x >= 0.0 then
      var n := (x * 100.0 + 0.5).Floor;
      assert (n as real / 100.0) * 100.0 == n as real;
      FloorOfWhole(n);
      n as real / 100.0
    else
      var n := ((-x) * 100.0 + 0.5).Floor;
      assert -(n as real / 100.0) * 100.0 == (-n) as real;
      FloorOfWhole(-n);
      -(n as real / 100.0)
  }

  /** Sums and differences of whole numbers of cents are whole numbers of cents. */
  lemma {:induction false} GridClosed(a: real, b: real)
    requires OnCentGrid(a) && OnCentGrid(b)
    ensures OnCentGrid(a + b) && OnCentGrid(a - b)
  {
    var m, n := (a * 100.0).Floor, (b * 100.0).Floor;
    assert a * 100.0 == m as real;
    assert b * 100.0 == n as real;
    assert (a + b) * 100.0 == (m + n) as real;
    assert (a - b) * 100.0 == (m - n) as real;
    FloorOfWhole(m + n);
    FloorOfWhole(m - n);
  }

  lemma {:induction false} FloorOfWhole(k: int)
    ensures (k as real).Floor == k
  {
  }

  /** Rounding a whole number of cents changes nothing. */
  lemma {:induction false} Round2OnGrid(x: real)
    requires OnCentGrid(x)
    ensures Round2(x) == x
  {
    var m := (x * 100.0).Floor;
    if x >= 0.0 {
      assert (x * 100.0 + 0.5).Floor == m;
    } else {
      assert ((-x) * 100.0 + 0.5).Floor == -m;
    }
  }

  /** A whole number of cents within three half-cents of 0 is within one cent of it. */
  lemma {:induction false} GridNearZero(x: real)
    requires OnCentGrid(x) && -3.0 / 200.0 <= x <= 3.0 / 200.0
    ensures -1.0 / 100.0 <= x <= 1.0 / 100.0
  {
    var m := (x * 100.0).Floor;
    assert -1 <= m <= 1;
  }

  /** (1 + growth_rate / 100) ^ (i - 1): no growth in month 1. */
  function Multiplier(d: Inputs, i: nat): real
    requires 1 <= i
  {
    Pow(1.0 + d.growthRate / 100.0, i - 1)
  }

  /** Unrounded revenue of month i. */
  function Revenue(d: Inputs, i: nat): real
    requires 1 <= i
  {
    d.monthlyRevenue * Multiplier(d, i)
  }

  /** Unrounded profit of month i; costs are flat. */
  function Profit(d: Inputs, i: nat): real
    requires 1 <= i
  {
    Revenue(d, i) - d.monthlyCosts
  }

  /** Unrounded running total of the profits of months 1..i. */
  function Cumulative(d: Inputs, i: nat): real
  {
    if i == 0 then 0.0 else Cumulative(d, i - 1) + Profit(d, i)
  }

  /** Unrounded net profit after month i, against the initial investment. */
  function Net(d: Inputs, i: nat): real
  {
    Cumulative(d, i) - d.initialInvestment
  }

  /**
   * The value of $break_even_month after the first k months of the loop:
   * 0 until some month has a strictly positive net profit, then that month.
   */
  function BreakEvenAfter(d: Inputs, k: nat): nat
  {
    if k == 0 then 0
    else
      var before := BreakEvenAfter(d, k - 1);
      if before == 0 && Net(d, k) > 0.0 then k else before
  }

  /** `$break_even_month ?: 'Not within 6 months'`. */
  function ToBreakEven(m: nat): (b: BreakEven)
    ensures b == NotWithin6 <==> m == 0
    ensures b.Month? ==> b.month == m
  {
    if m == 0 then NotWithin6 else Month(m)
  }

  /**
   * The break_even_month column that store_calculation writes: the month
   * when it is numeric, 0 for the sentinel string.
   */
  function StoredBreakEven(b: BreakEven): (n: int)
    ensures b.NotWithin6? ==> n == 0
    ensures b.Month? ==> n == b.month
  {
    match b
    case Month(m) => m
    case NotWithin6 => 0
  }

  /** The row recorded for month i. */
  function Record(d: Inputs, i: nat): MonthProjection
    requires 1 <= i
  {
    MonthProjection(i, Round2(Revenue(d, i)), d.monthlyCosts, Round2(Profit(d, i)),
                    Round2(Cumulative(d, i)), Round2(Net(d, i)))
  }

  /** The $projections array after the first k months of the loop. */
  function RecordsUpTo(d: Inputs, k: nat): seq<MonthProjection>
  {
    if k == 0 then [] else RecordsUpTo(d, k - 1) + [Record(d, k)]
  }

  /** array_sum(array_column($projections, 'revenue')). */
  function SumRevenue(ps: seq<MonthProjection>): real
  {
    if ps == [] then 0.0 else SumRevenue(ps[..|ps| - 1]) + ps[|ps| - 1].revenue
  }

  /** Unrounded total profit: cumulative profit after the horizon minus the investment. */
  function TotalProfit(d: Inputs): real
  {
    Cumulative(d, Months) - d.initialInvestment
  }

  /** Unrounded ROI; the division is skipped unless the investment is positive. */
  function Roi(d: Inputs): real
  {
    if d.initialInvestment > 0.0 then TotalProfit(d) / d.initialInvestment * 100.0 else 0.0
  }

  /** The specification of perform_calculations. */
  function Calculate(d: Inputs): Calculation
  {
    var ps := RecordsUpTo(d, Months);
    Calculation(
      Round2(Roi(d)),
      Round2(TotalProfit(d)),
      ToBreakEven(BreakEvenAfter(d, Months)),
      ps,
      Summary(d.initialInvestment, Round2(SumRevenue(ps)), Round2(d.monthlyCosts * 6.0), d.growthRate))
  }

  /** True of a break-even value that names the first month of 1..k with a positive net profit. */
  ghost predicate IsFirstBreakEven(d: Inputs, k: nat, m: nat)
  {
    && (m == 0 <==> forall j :: 1 <= j <= k ==> Net(d, j) <= 0.0)
    && (m != 0 ==> 1 <= m <= k && Net(d, m) > 0.0 && forall j :: 1 <= j < m ==> Net(d, j) <= 0.0)
  }

  /**
   * One pass of the loop body of perform_calculations for month i: grow the
   * revenue, subtract the flat costs, add to the running total, compare
   * with the investment and build the row.
   */
  method ProjectMonth(d: Inputs, i: nat, cumulativeBefore: real)
    returns (row: MonthProjection, cumulative: real, net: real)
    requires 1 <= i
    requires cumulativeBefore == Cumulative(d, i - 1)
    ensures cumulative == Cumulative(d, i)
    ensures net == Net(d, i)
    ensures row == Record(d, i)
  {
    var multiplier := Pow(1.0 + d.growthRate / 100.0, i - 1);
    assert multiplier == Multiplier(d, i);
    var revenue := d.monthlyRevenue * multiplier;
    assert revenue == Revenue(d, i);
    var profit := revenue - d.monthlyCosts;
    cumulative := cumulativeBefore + profit;
    net := cumulative - d.initialInvestment;
    row := MonthProjection(i, Round2(revenue), d.monthlyCosts, Round2(profit), Round2(cumulative), Round2(net));
  }

  /**
   * perform_calculations: a loop over months 1..6 that compounds revenue,
   * accumulates profit, remembers the first month with a positive net
   * profit and appends one row per month, followed by ROI and the summary.
   */
  method PerformCalculations(d: Inputs) returns (c: Calculation)
    ensures c == Calculate(d)
    ensures |c.projections| == Months
    ensures forall k :: 0 <= k < Months ==> c.projections[k].month == k + 1
    ensures c.breakEven.Month? <==> exists j :: 1 <= j <= Months && Net(d, j) > 0.0
    ensures c.breakEven.Month? ==> 1 <= c.breakEven.month <= Months && Net(d, c.breakEven.month) > 0.0
    ensures c.breakEven.Month? ==> forall j :: 1 <= j < c.breakEven.month ==> Net(d, j) <= 0.0
  {
    var projections: seq<MonthProjection> := [];
    var cumulative := 0.0;
    var breakEven: nat := 0;
    var i: nat := 1;
    while i <= Months
      invariant 1 <= i <= Months + 1
      invariant cumulative == Cumulative(d, i - 1)
      invariant breakEven == BreakEvenAfter(d, i - 1)
      invariant projections == RecordsUpTo(d, i - 1)
    {
      var row, net;
      row, cumulative, net := ProjectMonth(d, i, cumulative);
      if breakEven == 0 && net > 0.0 {
        breakEven := i;
      }
      projections := projections + [row];
      i := i + 1;
    }
    var totalProfit := cumulative - d.initialInvestment;
    var roi := if d.initialInvestment > 0.0 then totalProfit / d.initialInvestment * 100.0 else 0.0;
    c := Calculation(
      Round2(roi),
      Round2(totalProfit),
      ToBreakEven(breakEven),
      projections,
      Summary(d.initialInvestment, Round2(SumRevenue(projections)), Round2(d.monthlyCosts * 6.0), d.growthRate));
    HorizonShape(d);
    BreakEvenIsFirst(d, Months);
  }

  // ---------------------------------------------------------------------
  // The projection rows
  // ---------------------------------------------------------------------

  lemma {:induction false} RecordsUpToAt(d: Inputs, k: nat)
    ensures |RecordsUpTo(d, k)| == k
    ensures forall j :: 0 <= j < k ==> RecordsUpTo(d, k)[j] == Record(d, j + 1)
  {
    if k > 0 {
      RecordsUpToAt(d, k - 1);
    }
  }

  /**
   * Exactly six rows, numbered 1..6 in ascending order; every row holds the
   * rounded unrounded-quantities of its month, and the costs column is the
   * input monthly costs, neither grown nor rounded.
   */
  lemma {:induction false} HorizonShape(d: Inputs)
    ensures var ps := Calculate(d).projections;
      && |ps| == Months
      && (forall k :: 0 <= k < Months ==> ps[k].month == k + 1)
      && (forall j, k :: 0 <= j < k < Months ==> ps[j].month < ps[k].month)
      && (forall k :: 0 <= k < Months ==> ps[k].costs == d.monthlyCosts)
      && (forall k :: 0 <= k < Months ==>
            && ps[k].revenue == Round2(Revenue(d, k + 1))
            && ps[k].profit == Round2(Profit(d, k + 1))
            && ps[k].cumulativeProfit == Round2(Cumulative(d, k + 1))
            && ps[k].netProfit == Round2(Net(d, k + 1)))
  {
    RecordsUpToAt(d, Months);
  }

  /** The row of month k + 1, as the specification functions give it. */
  lemma {:induction false} RowOf(d: Inputs, k: nat)
    requires k < Months
    ensures |Calculate(d).projections| == Months
    ensures Calculate(d).projections[k] == Record(d, k + 1)
  {
    RecordsUpToAt(d, Months);
  }

  // ---------------------------------------------------------------------
  // Growth
  // ---------------------------------------------------------------------

  lemma {:induction false} PowOne(n: nat)
    ensures Pow(1.0, n) == 1.0
  {
    if n > 0 {
      PowOne(n - 1);
    }
  }

  lemma {:induction false} PowZero(n: nat)
    requires n >= 1
    ensures Pow(0.0, n) == 0.0
  {
  }

  lemma {:induction false} PowAtLeastOne(r: real, n: nat)
    requires r >= 1.0
    ensures Pow(r, n) >= 1.0
  {
    if n > 0 {
      PowAtLeastOne(r, n - 1);
      assert r * Pow(r, n - 1) >= 1.0 * Pow(r, n - 1);
    }
  }

  /** Month 1 is never grown: its revenue is the base monthly revenue. */
  lemma {:induction false} FirstMonthRevenue(d: Inputs)
    ensures Revenue(d, 1) == d.monthlyRevenue
    ensures Calculate(d).projections[0].revenue == Round2(d.monthlyRevenue)
  {
    HorizonShape(d);
  }

  /** Without growth every month has the base revenue and the same profit. */
  lemma {:induction false} NoGrowthIsFlat(d: Inputs)
    requires d.growthRate == 0.0
    ensures forall i :: 1 <= i <= Months ==> Revenue(d, i) == d.monthlyRevenue
    ensures forall i :: 1 <= i <= Months ==> Profit(d, i) == d.monthlyRevenue - d.monthlyCosts
    ensures forall i :: 0 <= i <= Months ==> Cumulative(d, i) == (i as real) * (d.monthlyRevenue - d.monthlyCosts)
    ensures var ps := Calculate(d).projections;
      |ps| == Months &&
      forall k :: 0 <= k < Months ==> ps[k].revenue == ps[0].revenue && ps[k].profit == ps[0].profit
  {
    forall i | 1 <= i <= Months
      ensures Revenue(d, i) == d.monthlyRevenue
    {
      PowOne(i - 1);
    }
    forall i | 0 <= i <= Months
      ensures Cumulative(d, i) == (i as real) * (d.monthlyRevenue - d.monthlyCosts)
    {
      NoGrowthCumulative(d, i);
    }
    HorizonShape(d);
  }

  /** A growth rate of -100 wipes out revenue from month 2 on. */
  lemma {:induction false} FullDeclineZeroesRevenue(d: Inputs, i: nat)
    requires d.growthRate == -100.0
    requires 2 <= i
    ensures Revenue(d, i) == 0.0
  {
    PowZero(i - 1);
  }

  /** With a non-negative growth rate (as the validator demands) revenue never shrinks. */
  lemma {:induction false} RevenueNondecreasing(d: Inputs, i: nat)
    requires d.growthRate >= 0.0 && d.monthlyRevenue >= 0.0
    requires 1 <= i
    ensures Revenue(d, i) <= Revenue(d, i + 1)
  {
    var r := 1.0 + d.growthRate / 100.0;
    PowAtLeastOne(r, i - 1);
    var p := Pow(r, i - 1);
    assert Pow(r, i) == r * p;
    assert r * p >= p;
    assert d.monthlyRevenue * (r * p) >= d.monthlyRevenue * p;
  }

  // ---------------------------------------------------------------------
  // Running totals
  // ---------------------------------------------------------------------

  /** Sum of r^k for k < n. */
  function GeometricSum(r: real, n: nat): real
  {
    if n == 0 then 0.0 else GeometricSum(r, n - 1) + Pow(r, n - 1)
  }

  lemma {:induction false} GeometricSumClosed(r: real, n: nat)
    ensures (r - 1.0) * GeometricSum(r, n) == Pow(r, n) - 1.0
  {
    if n > 0 {
      GeometricSumClosed(r, n - 1);
      var g, p := GeometricSum(r, n - 1), Pow(r, n - 1);
      assert GeometricSum(r, n) == g + p;
      assert Pow(r, n) == r * p;
      assert (r - 1.0) * (g + p) == (r - 1.0) * g + (r * p - p);
    }
  }

  /**
   * Closed form of the running total: base revenue times a geometric sum of
   * the growth factor, less i months of flat costs.
   */
  lemma {:induction false} CumulativeClosedForm(d: Inputs, i: nat)
    ensures Cumulative(d, i)
         == d.monthlyRevenue * GeometricSum(1.0 + d.growthRate / 100.0, i) - (i as real) * d.monthlyCosts
  {
    CumulativeIsRevenueLessCosts(d, i);
    RevenueSumGeometric(d, i);
  }

  /**
   * The closed form without the sum: with growth factor r, (r - 1) times the
   * running profit plus i months of costs is the base revenue times r^i - 1.
   */
  lemma {:induction false} CumulativeGeometric(d: Inputs, i: nat)
    ensures var r := 1.0 + d.growthRate / 100.0;
      (r - 1.0) * (Cumulative(d, i) + (i as real) * d.monthlyCosts) == d.monthlyRevenue * (Pow(r, i) - 1.0)
  {
    var r := 1.0 + d.growthRate / 100.0;
    CumulativeClosedForm(d, i);
    GeometricSumClosed(r, i);
    ScaleBoth(Cumulative(d, i) + (i as real) * d.monthlyCosts, d.monthlyRevenue, GeometricSum(r, i), r - 1.0, Pow(r, i) - 1.0);
  }

  lemma {:induction false} ScaleBoth(x: real, a: real, g: real, k: real, q: real)
    requires x == a * g
    requires k * g == q
    ensures k * x == a * q
  {
    assert k * (a * g) == a * (k * g);
  }

  /** The running total is the unrounded revenue of months 1..i less i months of costs. */
  lemma {:induction false} CumulativeIsRevenueLessCosts(d: Inputs, i: nat)
    ensures Cumulative(d, i) == RevenueSum(d, i) - (i as real) * d.monthlyCosts
  {
    if i > 0 {
      CumulativeIsRevenueLessCosts(d, i - 1);
      CostStep(Cumulative(d, i - 1), RevenueSum(d, i - 1), Revenue(d, i), d.monthlyCosts, i);
    }
  }

  lemma {:induction false} CostStep(before: real, s: real, x: real, c: real, i: nat)
    requires i >= 1
    requires before == s - ((i - 1) as real) * c
    ensures before + (x - c) == (s + x) - (i as real) * c
  {
    assert (i as real) * c == ((i - 1) as real) * c + c;
  }

  /** The unrounded revenue of months 1..i is the base revenue times a geometric sum. */
  lemma {:induction false} RevenueSumGeometric(d: Inputs, i: nat)
    ensures RevenueSum(d, i) == d.monthlyRevenue * GeometricSum(1.0 + d.growthRate / 100.0, i)
  {
    if i > 0 {
      RevenueSumGeometric(d, i - 1);
      var r := 1.0 + d.growthRate / 100.0;
      assert RevenueSum(d, i) == RevenueSum(d, i - 1) + d.monthlyRevenue * Pow(r, i - 1);
      assert GeometricSum(r, i) == GeometricSum(r, i - 1) + Pow(r, i - 1);
      ScaleStep(RevenueSum(d, i - 1), d.monthlyRevenue, GeometricSum(r, i - 1), Pow(r, i - 1));
    }
  }

  lemma {:induction false} ScaleStep(s: real, a: real, g: real, p: real)
    requires s == a * g
    ensures s + a * p == a * (g + p)
  {
  }

  /**
   * Because every column is rounded separately from unrounded totals, the
   * recorded cumulative profit of a month equals the previous one plus the
   * recorded profit only within a cent: three half-cents of rounding error,
   * on a difference that is itself a whole number of cents.
   */
  lemma {:induction false} RecordedCumulativeWithinRounding(d: Inputs, k: nat)
    requires 1 <= k < Months
    ensures var ps := Calculate(d).projections;
      |ps| == Months &&
      -1.0 / 100.0 <= ps[k].cumulativeProfit - (ps[k - 1].cumulativeProfit + ps[k].profit) <= 1.0 / 100.0
  {
    RowOf(d, k);
    RowOf(d, k - 1);
    var a, b, c := Round2(Cumulative(d, k + 1)), Round2(Cumulative(d, k)), Round2(Profit(d, k + 1));
    GridClosed(b, c);
    GridClosed(a, b + c);
    assert Cumulative(d, k + 1) == Cumulative(d, k) + Profit(d, k + 1);
    GridNearZero(a - (b + c));
  }

  // ---------------------------------------------------------------------
  // Break-even
  // ---------------------------------------------------------------------

  /** After k months the break-even value is the first month of 1..k with a positive net profit, or 0. */
  lemma {:induction false} BreakEvenIsFirst(d: Inputs, k: nat)
    ensures IsFirstBreakEven(d, k, BreakEvenAfter(d, k))
  {
    if k > 0 {
      BreakEvenIsFirst(d, k - 1);
    }
  }

  /** Once set, a later month never overwrites the break-even month. */
  lemma {:induction false} BreakEvenStable(d: Inputs, k: nat, l: nat)
    requires k <= l
    requires BreakEvenAfter(d, k) != 0
    ensures BreakEvenAfter(d, l) == BreakEvenAfter(d, k)
  {
    if k < l {
      BreakEvenStable(d, k, l - 1);
    }
  }

  /** The break-even value of the result, both ways round. */
  lemma {:induction false} BreakEvenResult(d: Inputs, m: nat)
    ensures Calculate(d).breakEven == Month(m)
        <==> 1 <= m <= Months && Net(d, m) > 0.0 && forall j :: 1 <= j < m ==> Net(d, j) <= 0.0
    ensures Calculate(d).breakEven == NotWithin6 <==> forall j :: 1 <= j <= Months ==> Net(d, j) <= 0.0
  {
    BreakEvenIsFirst(d, Months);
    var b := BreakEvenAfter(d, Months);
    if 1 <= m <= Months && Net(d, m) > 0.0 && (forall j :: 1 <= j < m ==> Net(d, j) <= 0.0) {
      assert b != 0;
      assert Net(d, b) > 0.0 && Net(d, m) > 0.0;
    }
  }

  // ---------------------------------------------------------------------
  // ROI, totals and the summary
  // ---------------------------------------------------------------------

  /** ROI is 0 without a positive investment; otherwise total profit over investment, in percent. */
  lemma {:induction false} RoiCases(d: Inputs)
    ensures Calculate(d).totalProfit == Round2(Cumulative(d, Months) - d.initialInvestment)
    ensures d.initialInvestment <= 0.0 ==> Calculate(d).roi == 0.0
    ensures d.initialInvestment > 0.0 ==>
      Calculate(d).roi == Round2((Cumulative(d, Months) - d.initialInvestment) / d.initialInvestment * 100.0)
    ensures d.initialInvestment > 0.0 ==> (Roi(d) > 0.0 <==> TotalProfit(d) > 0.0)
    ensures d.initialInvestment > 0.0 ==> (Roi(d) == 0.0 <==> TotalProfit(d) == 0.0)
    ensures d.initialInvestment > 0.0 ==> (Roi(d) < 0.0 <==> TotalProfit(d) < 0.0)
  {
    if d.initialInvestment > 0.0 {
      var t := TotalProfit(d);
      var q := t / d.initialInvestment;
      assert q * d.initialInvestment == t;
      if t > 0.0 {
        assert q > 0.0;
      } else if t == 0.0 {
        assert q == 0.0;
      } else {
        assert q < 0.0;
      }
    }
  }

  /** A positive total profit means some month of the horizon broke even. */
  lemma {:induction false} ProfitableMeansBreakEven(d: Inputs)
    requires TotalProfit(d) > 0.0
    ensures Calculate(d).breakEven.Month?
  {
    BreakEvenIsFirst(d, Months);
    assert Net(d, Months) > 0.0;
  }

  /** Revenue total of the rows is the sum of the rounded monthly revenues. */
  lemma {:induction false} SumRevenueOfRecords(d: Inputs, k: nat)
    ensures SumRevenue(RecordsUpTo(d, k)) == RoundedRevenueSum(d, k)
    ensures -(k as real) / 200.0 <= SumRevenue(RecordsUpTo(d, k)) - RevenueSum(d, k) <= (k as real) / 200.0
  {
    if k > 0 {
      SumRevenueOfRecords(d, k - 1);
      RecordsUpToAt(d, k - 1);
      assert RecordsUpTo(d, k)[..k - 1] == RecordsUpTo(d, k - 1);
    }
  }

  /** Sum of the unrounded revenues of months 1..k. */
  function RevenueSum(d: Inputs, k: nat): real
  {
    if k == 0 then 0.0 else RevenueSum(d, k - 1) + Revenue(d, k)
  }

  /** Sum of the rounded revenues of months 1..k. */
  function RoundedRevenueSum(d: Inputs, k: nat): real
  {
    if k == 0 then 0.0 else RoundedRevenueSum(d, k - 1) + Round2(Revenue(d, k))
  }

  /**
   * total_revenue_6m sums the already rounded monthly revenues, so it is
   * a whole number of cents that the outer round leaves alone, within six
   * half-cents of the unrounded six-month revenue;
   * total_costs_6m is six months of flat costs.
   */
  lemma {:induction false} SummaryTotals(d: Inputs)
    ensures Calculate(d).summary.totalRevenue6m == Round2(RoundedRevenueSum(d, Months))
    ensures Calculate(d).summary.totalRevenue6m == RoundedRevenueSum(d, Months)
    ensures -6.0 / 200.0 <= Calculate(d).summary.totalRevenue6m - RevenueSum(d, Months) <= 6.0 / 200.0
    ensures Calculate(d).summary.totalCosts6m == Round2(d.monthlyCosts * 6.0)
    ensures Calculate(d).summary.initialInvestment == d.initialInvestment
    ensures Calculate(d).summary.growthRate == d.growthRate
  {
    SumRevenueOfRecords(d, Months);
    RoundedRevenueSumOnGrid(d, Months);
    Round2OnGrid(RoundedRevenueSum(d, Months));
  }

  /** A sum of rounded revenues is a whole number of cents. */
  lemma {:induction false} RoundedRevenueSumOnGrid(d: Inputs, k: nat)
    ensures OnCentGrid(RoundedRevenueSum(d, k))
  {
    if k == 0 {
      assert (0.0 * 100.0).Floor == 0;
    } else {
      RoundedRevenueSumOnGrid(d, k - 1);
      GridClosed(RoundedRevenueSum(d, k - 1), Round2(Revenue(d, k)));
    }
  }

  // ---------------------------------------------------------------------
  // The persisted break-even value
  // ---------------------------------------------------------------------

  /** The stored integer determines the break-even value and back. */
  lemma {:induction false} StoredBreakEvenRoundTrip(m: nat)
    ensures StoredBreakEven(ToBreakEven(m)) == m
  {
  }

  /** The stored column of a calculation lies in 0..6 and is 0 exactly for the sentinel. */
  lemma {:induction false} StoredBreakEvenOfResult(d: Inputs)
    ensures 0 <= StoredBreakEven(Calculate(d).breakEven) <= Months
    ensures StoredBreakEven(Calculate(d).breakEven) == 0 <==> Calculate(d).breakEven == NotWithin6
    ensures StoredBreakEven(Calculate(d).breakEven) == BreakEvenAfter(d, Months)
  {
    BreakEvenIsFirst(d, Months);
  }

  // ---------------------------------------------------------------------
  // Worked inputs
  // ---------------------------------------------------------------------

  /**
   * Investment 10000, revenue 3000, costs 2000, growth 5%: month 1 nets
   * -9000, month 6 earns 3828.84, and the six months together recover only
   * 8405.74 of the investment, so no month breaks even.
   */
  lemma {:induction false} SteadyGrowthNeverBreaksEven(d: Inputs)
    requires d == Inputs(10000.0, 3000.0, 2000.0, 5.0)
    ensures Calculate(d).projections[0] == MonthProjection(1, 3000.0, 2000.0, 1000.0, 1000.0, -9000.0)
    ensures Calculate(d).projections[5].revenue == 3828.84
    ensures Cumulative(d, Months) == 8405.7384375
    ensures Calculate(d).breakEven == NotWithin6
  {
    SteadyGrowthTotals(d);
    RowOf(d, 0);
    RowOf(d, 5);
    SteadyGrowthRounding();
    BreakEvenResult(d, 0);
  }

  /** The unrounded values of the steady-growth inputs, month by month. */
  lemma {:induction false} SteadyGrowthTotals(d: Inputs)
    requires d == Inputs(10000.0, 3000.0, 2000.0, 5.0)
    ensures Revenue(d, 1) == 3000.0 && Profit(d, 1) == 1000.0
    ensures Cumulative(d, 1) == 1000.0 && Net(d, 1) == -9000.0
    ensures Revenue(d, 6) == 3828.8446875
    ensures Cumulative(d, Months) == 8405.7384375
    ensures forall j :: 1 <= j <= Months ==> Net(d, j) <= 0.0
  {
    var r := 1.05;
    assert Pow(r, 0) == 1.0;
    assert Pow(r, 1) == 1.05;
    assert Pow(r, 2) == 1.1025;
    assert Pow(r, 3) == 1.157625;
    assert Pow(r, 4) == 1.21550625;
    assert Pow(r, 5) == 1.2762815625;
    assert Cumulative(d, 1) == 1000.0;
    assert Cumulative(d, 2) == 2150.0;
    assert Cumulative(d, 3) == 3457.5;
    assert Cumulative(d, 4) == 4930.375;
    assert Cumulative(d, 5) == 6576.89375;
    assert Revenue(d, 6) == 3828.8446875;
    assert Cumulative(d, 6) == 8405.7384375;
  }

  lemma {:induction false} SteadyGrowthRounding()
    ensures Round2(3000.0) == 3000.0 && Round2(1000.0) == 1000.0 && Round2(-9000.0) == -9000.0
    ensures Round2(3828.8446875) == 3828.84
  {
  }

  /** Without growth the running total is i months of the flat margin. */
  lemma {:induction false} NoGrowthCumulative(d: Inputs, i: nat)
    requires d.growthRate == 0.0
    ensures Cumulative(d, i) == (i as real) * (d.monthlyRevenue - d.monthlyCosts)
  {
    if i > 0 {
      NoGrowthCumulative(d, i - 1);
      PowOne(i - 1);
      assert Profit(d, i) == d.monthlyRevenue - d.monthlyCosts;
      MarginStep(Cumulative(d, i - 1), d.monthlyRevenue - d.monthlyCosts, i);
    }
  }

  lemma {:induction false} MarginStep(before: real, m: real, i: nat)
    requires i >= 1
    requires before == ((i - 1) as real) * m
    ensures before + m == (i as real) * m
  {
  }

  /**
   * No investment, no growth and revenue equal to costs (for example 0, 1000,
   * 1000, 0%): every month's profit and net profit is exactly 0, which is not
   * a break-even, and ROI is 0.
   */
  lemma {:induction false} ZeroMarginNeverBreaksEven(d: Inputs)
    requires d.initialInvestment == 0.0 && d.growthRate == 0.0 && d.monthlyRevenue == d.monthlyCosts
    ensures |Calculate(d).projections| == Months
    ensures forall k :: 0 <= k < Months ==>
      Calculate(d).projections[k].profit == 0.0 && Calculate(d).projections[k].netProfit == 0.0
    ensures Calculate(d).breakEven == NotWithin6
    ensures Calculate(d).roi == 0.0
  {
    RowOf(d, 0);
    forall k | 0 <= k < Months
      ensures Calculate(d).projections[k].profit == 0.0 && Calculate(d).projections[k].netProfit == 0.0
    {
      RowOf(d, k);
      ZeroMarginRow(d, k + 1);
    }
    ZeroMarginNoBreakEven(d);
  }

  /** With a zero margin and no investment, month i shows no profit and no net profit. */
  lemma {:induction false} ZeroMarginRow(d: Inputs, i: nat)
    requires d.initialInvestment == 0.0 && d.growthRate == 0.0 && d.monthlyRevenue == d.monthlyCosts
    requires 1 <= i
    ensures Record(d, i).profit == 0.0 && Record(d, i).netProfit == 0.0
  {
    PowOne(i - 1);
    assert Profit(d, i) == 0.0;
    NoGrowthCumulative(d, i);
    assert Net(d, i) == 0.0;
  }

  lemma {:induction false} ZeroMarginNoBreakEven(d: Inputs)
    requires d.initialInvestment == 0.0 && d.growthRate == 0.0 && d.monthlyRevenue == d.monthlyCosts
    ensures Calculate(d).breakEven == NotWithin6
  {
    forall i | 0 <= i <= Months ensures Net(d, i) == 0.0 {
      NoGrowthCumulative(d, i);
    }
    BreakEvenResult(d, 0);
  }

  /**
   * A growth rate of -100 keeps month 1 at the base revenue and zeroes every
   * later month (with revenue 500, month 1 shows 500.00 and the rest 0.00).
   */
  lemma {:induction false} FullDeclineKeepsOnlyFirstMonth(d: Inputs)
    requires d.growthRate == -100.0
    ensures |Calculate(d).projections| == Months
    ensures Calculate(d).projections[0].revenue == Round2(d.monthlyRevenue)
    ensures forall k :: 1 <= k < Months ==> Calculate(d).projections[k].revenue == 0.0
  {
    RowOf(d, 0);
    FirstMonthRevenue(d);
    forall k | 1 <= k < Months ensures Calculate(d).projections[k].revenue == 0.0 {
      RowOf(d, k);
      FullDeclineZeroesRevenue(d, k + 1);
    }
  }
}
