/**
 The calculator: its construction (default start date) and `calculate_returns`,
 which resamples the frame for the timeframe, restricts it to the window and
 runs the purchase pass.

 A start date arrives already parsed into a day number; `None` stands for both
 an absent and an empty start string, which the source treats alike.
 */
module Calculator {
  import opened Frame
  import opened Resampling
  import opened Windowing
  import opened Accumulation

  datatype DcaCalculator = DcaCalculator(
    amount: real,
    timeframe: string,
    data: seq<Row>,
    start: Option<int>,
    years: Option<int>)

  /** Construction: the start date is the given one, or else the frame's
      earliest index date; an empty frame has no earliest date (pandas' "not a
      time"), modelled as `None`. */
  function NewCalculator(amount: real, timeframe: string, data: seq<Row>, startDate: Option<int>, years: Option<int>): (c: DcaCalculator)
    ensures c.amount == amount && c.timeframe == timeframe && c.data == data && c.years == years
    ensures startDate.Some? ==> c.start == startDate
    ensures startDate.None? && |data| > 0 ==>
      && c.start.Some?
      && (exists i :: 0 <= i < |data| && data[i].date == c.start.value)
      && (forall i :: 0 <= i < |data| ==> c.start.value <= data[i].date)
    ensures startDate.None? && |data| == 0 ==> c.start.None?
  {
    var start := if startDate.Some? then startDate else if |data| > 0 then Some(MinDate(data)) else None;
    DcaCalculator(amount, timeframe, data, start, years)
  }

  /** The frame after resampling for the calculator's timeframe. */
  function ResampledFrame(c: DcaCalculator, cal: Calendar): (r: seq<Row>)
  {
    Resampled(cal, ParseTimeframe(c.timeframe), c.data)
  }

  /** The frame the purchase pass walks: resampled, then windowed. */
  function Windowed(c: DcaCalculator, cal: Calendar): (w: seq<Row>)
  {
    Window(ResampledFrame(c, cal), c.start, c.years, cal.addYears)
  }

  /** `calculate_returns`: one pass over the windowed frame that skips rows
      with a missing price, buys `amount / price` units at every other row and
      emits the value of all units held at that row's price. The `i`-th point
      carries the date of the `i`-th row with a present price and the units
      bought up to and including it, valued at its price. */
  method CalculateReturns(c: DcaCalculator, cal: Calendar) returns (points: seq<ReturnPoint>)
    requires PositivePrices(c.data)
    ensures PositivePrices(Windowed(c, cal))
    ensures points == Trajectory(Purchases(Windowed(c, cal)), c.amount)
    ensures |points| == |PresentFrom(Windowed(c, cal), 0)|
  {
    var tf := ParseTimeframe(c.timeframe);
    var resampled := Resampled(cal, tf, c.data);
    var windowed := Window(resampled, c.start, c.years, cal.addYears);
    points := Run(windowed, c.amount);
    TrajectoryFollowsPresentRows(windowed, c.amount);
  }

  /** The amount invested in total: the per-period amount times the number of
      points emitted. */
  function TotalInvested(amount: real, points: seq<ReturnPoint>): (total: real)
    ensures points == [] ==> total == 0.0
    ensures amount >= 0.0 ==> total >= 0.0
  {
    amount * |points| as real
  }

  /** Every further return adds one period's amount to the total invested. */
  lemma InvestedGrowsByAmount(amount: real, points: seq<ReturnPoint>, p: ReturnPoint)
    ensures TotalInvested(amount, points + [p]) == TotalInvested(amount, points) + amount
  {
    var k := |points| as real;
    assert |points + [p]| as real == k + 1.0;
    assert amount * (k + 1.0) == amount * k + amount;
  }

  /** The total invested is what the purchases behind the returns cost: the
      units bought at each, valued at the price paid. */
  lemma TotalInvestedIsSpent(rows: seq<Row>, amount: real)
    requires PositivePrices(rows)
    ensures TotalInvested(amount, Trajectory(Purchases(rows), amount)) == Spent(Purchases(rows), amount)
  {
    var ps := Purchases(rows);
    var total := TotalInvested(amount, Trajectory(ps, amount));
    assert total == amount * |ps| as real;
    SpentPerPurchase(ps, amount);
  }

  /** Returns are in strictly increasing date order when the frame is. */
  lemma ReturnsChronological(c: DcaCalculator, cal: Calendar)
    requires ValidBinning(cal.week) && ValidBinning(cal.month) && ValidBinning(cal.year)
    requires Chronological(c.data) && PositivePrices(c.data)
    ensures var points := Trajectory(Purchases(Windowed(c, cal)), c.amount);
      forall i, j :: 0 <= i < j < |points| ==> points[i].date < points[j].date
  {
    var w := Windowed(c, cal);
    assert Chronological(w);
    PurchasesArePresentRows(w);
  }

  /** Without a start date the start is the earliest date, which no row of the
      resampled frame precedes: the lower bound of the window drops nothing. */
  lemma DefaultStartDropsNothing(amount: real, timeframe: string, data: seq<Row>, years: Option<int>, cal: Calendar)
    requires ValidBinning(cal.week) && ValidBinning(cal.month) && ValidBinning(cal.year)
    requires |data| > 0
    ensures var c := NewCalculator(amount, timeframe, data, None, years);
      && c.start.Some?
      && Window(ResampledFrame(c, cal), c.start, None, cal.addYears) == ResampledFrame(c, cal)
  {
    var c := NewCalculator(amount, timeframe, data, None, years);
    var r := ResampledFrame(c, cal);
    var start := c.start.value;
    assert start <= data[0].date;
    match ParseTimeframe(timeframe) {
      case Day =>
      case Week => ResampleLabelsFromFirstDate(data, cal.week);
      case Month => ResampleLabelsFromFirstDate(data, cal.month);
      case Year => ResampleLabelsFromFirstDate(data, cal.year);
    }
    assert forall i :: 0 <= i < |r| ==> start <= r[i].date;
    EarlyStartKeepsAll(r, start, cal.addYears);
  }

  /** A start after every label of the resampled frame gives no points and
      nothing invested. */
  lemma LateStartGivesNothing(c: DcaCalculator, cal: Calendar)
    requires c.start.Some?
    requires forall i :: 0 <= i < |ResampledFrame(c, cal)| ==> ResampledFrame(c, cal)[i].date < c.start.value
    requires PositivePrices(Windowed(c, cal))
    ensures var points := Trajectory(Purchases(Windowed(c, cal)), c.amount);
      points == [] && TotalInvested(c.amount, points) == 0.0
  {
  }

  /** A negative horizon ends the window before its start: no returns. */
  lemma NegativeHorizonGivesNothing(c: DcaCalculator, cal: Calendar)
    requires ValidAddYears(cal.addYears)
    requires c.start.Some? && c.years.Some? && c.years.value < 0
    requires PositivePrices(c.data)
    ensures var points := Trajectory(Purchases(Windowed(c, cal)), c.amount);
      points == [] && TotalInvested(c.amount, points) == 0.0
  {
    NegativeHorizonIsEmpty(ResampledFrame(c, cal), c.start.value, c.years.value, cal.addYears);
  }

  /** When every present price of a frame is the same, the last point is
      worth exactly the total invested. */
  lemma ConstantPriceBreaksEven(rows: seq<Row>, amount: real, price: real)
    requires price > 0.0
    requires forall i :: 0 <= i < |rows| && Price(rows[i].close).Some? ==> Price(rows[i].close).value == price
    ensures PositivePrices(rows)
    ensures var t := Trajectory(Purchases(rows), amount);
      |t| > 0 ==> t[|t| - 1].value == TotalInvested(amount, t)
  {
    ConstantPriceTrajectory(rows, amount, price);
  }
}
