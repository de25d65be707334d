/**
 Reduction of a daily frame to one row per period (`resample(...).first()`).

 The calendar is abstract: a `Binning` maps each date to the index of its
 period (`period`) and each period index to the date that labels it, the
 period's end (`endOf`). Weekly, monthly and yearly binnings are parameters of
 the model.
 */
module Resampling {
  import opened Frame

  datatype Binning = Binning(period: int -> int, endOf: int -> int)

  /** What the model needs of a calendar: later dates never fall in earlier
      periods, period labels strictly increase, and a period is labelled by a
      date no earlier than any date it contains. */
  ghost predicate ValidBinning(b: Binning)
  {
    && (forall x, y :: x <= y ==> b.period(x) <= b.period(y))
    && (forall p, q :: p < q ==> b.endOf(p) < b.endOf(q))
    && (forall d :: d <= b.endOf(b.period(d)))
  }

  datatype Timeframe = Day | Week | Month | Year

  /** The calendar in force: one binning per resampled timeframe and the
      year offset used for the accumulation horizon. */
  datatype Calendar = Calendar(week: Binning, month: Binning, year: Binning, addYears: (int, int) -> int)

  /** The timeframe a request string selects; every string other than "week",
      "month" and "day" selects yearly resampling. */
  function ParseTimeframe(s: string): (tf: Timeframe)
    ensures tf == Day <==> s == "day"
    ensures tf == Week <==> s == "week"
    ensures tf == Month <==> s == "month"
    ensures tf == Year <==> s != "day" && s != "week" && s != "month"
  {
    if s == "week" then Week
    else if s == "month" then Month
    else if s == "day" then Day
    else Year
  }

  /** The first present value in column `j` among the rows whose date falls in
      period `p`, or `None` when the period has no such value. */
  function FirstIn(rows: seq<Row>, b: Binning, p: int, j: nat): (r: Option<real>)
    ensures r.None? <==>
      forall k :: 0 <= k < |rows| && b.period(rows[k].date) == p ==> Cell(rows[k].close, j).None?
    ensures r.Some? ==>
      exists k :: 0 <= k < |rows| && b.period(rows[k].date) == p && Cell(rows[k].close, j) == r
        && forall k' :: 0 <= k' < k && b.period(rows[k'].date) == p ==> Cell(rows[k'].close, j).None?
  {
    if |rows| == 0 then None
    else if b.period(rows[0].date) == p && Cell(rows[0].close, j).Some? then Cell(rows[0].close, j)
    else
      var r := FirstIn(rows[1..], b, p, j);
      assert forall k :: 1 <= k < |rows| ==> rows[1..][k - 1] == rows[k];
      r
  }

  /** The close of period `p`, shaped like `shape`: every column takes its own
      first present value within the period. */
  function PeriodClose(rows: seq<Row>, b: Binning, p: int, shape: Close): (c: Close)
    ensures Width(c) == Width(shape)
    ensures Price(c) == FirstIn(rows, b, p, 0)
    ensures forall j :: 0 <= j < Width(shape) ==> Cell(c, j) == FirstIn(rows, b, p, j)
  {
    match shape
    case Scalar(_) => Scalar(FirstIn(rows, b, p, 0))
    case Multi(vs) => Multi(seq(|vs|, j requires 0 <= j => FirstIn(rows, b, p, j)))
  }

  /** `resample(rule).first()`: one row for every period from that of the first
      row to that of the last, empty periods included. */
  function Resample(rows: seq<Row>, b: Binning): (r: seq<Row>)
    ensures |rows| == 0 ==> r == []
    ensures |r| > 0 ==> |rows| > 0 && r[0].date == b.endOf(b.period(rows[0].date))
  {
    if |rows| == 0 then []
    else
      var lo := b.period(rows[0].date);
      var hi := b.period(rows[|rows| - 1].date);
      if hi < lo then []
      else seq(hi - lo + 1, i requires 0 <= i => Row(b.endOf(lo + i), PeriodClose(rows, b, lo + i, rows[0].close)))
  }

  /** The frame the calculator works on for a timeframe: "day" leaves the frame
      as it is, the others resample it. */
  function Resampled(cal: Calendar, tf: Timeframe, rows: seq<Row>): (r: seq<Row>)
    ensures tf == Day ==> r == rows
    ensures PositivePrices(rows) ==> PositivePrices(r)
    ensures ValidBinning(cal.week) && ValidBinning(cal.month) && ValidBinning(cal.year) && Chronological(rows) ==> Chronological(r)
  {
    if tf == Day then rows
    else
      var b := match tf
        case Week => cal.week
        case Month => cal.month
        case _ => cal.year;
      ResampleKeeps(rows, b);
      Resample(rows, b)
  }

  /** With the "day" timeframe the frame passes through row for row. */
  lemma DayIsIdentity(cal: Calendar, rows: seq<Row>)
    ensures Resampled(cal, ParseTimeframe("day"), rows) == rows
  {
  }

  /** Every timeframe string other than "week", "month" and "day" resamples
      with the yearly binning. */
  lemma OtherTimeframesAreYearly(cal: Calendar, s: string, rows: seq<Row>)
    requires s != "week" && s != "month" && s != "day"
    ensures Resampled(cal, ParseTimeframe(s), rows) == Resample(rows, cal.year)
  {
  }

  /** The shape of a resampled frame: exactly one row per period between the
      first and the last row's period, labelled by consecutive period labels,
      whose close is the first present close of that period (missing when the
      period has none). */
  lemma ResampleRows(rows: seq<Row>, b: Binning)
    requires ValidBinning(b) && Chronological(rows) && |rows| > 0
    ensures |Resample(rows, b)| == b.period(rows[|rows| - 1].date) - b.period(rows[0].date) + 1
    ensures forall i :: 0 <= i < |Resample(rows, b)| ==>
      && Resample(rows, b)[i].date == b.endOf(b.period(rows[0].date) + i)
      && Price(Resample(rows, b)[i].close) == FirstIn(rows, b, b.period(rows[0].date) + i, 0)
  {
    assert rows[0].date <= rows[|rows| - 1].date;
    forall i | 0 <= i < |Resample(rows, b)|
      ensures Resample(rows, b)[i].date == b.endOf(b.period(rows[0].date) + i)
      ensures Price(Resample(rows, b)[i].close) == FirstIn(rows, b, b.period(rows[0].date) + i, 0)
    {
      ResampleAt(rows, b, i);
    }
  }

  /** Row `i` of a resampled frame stands for the `i`-th period after the
      first row's: it is labelled by that period's end, has the shape of the
      input's closes, and each of its columns holds that column's first
      present value in the period. */
  lemma PeriodAt(rows: seq<Row>, b: Binning, i: int)
    requires 0 <= i < |Resample(rows, b)|
    ensures |rows| > 0
    ensures var p := b.period(rows[0].date) + i;
      && Resample(rows, b)[i].date == b.endOf(p)
      && Width(Resample(rows, b)[i].close) == Width(rows[0].close)
      && forall j :: 0 <= j < Width(rows[0].close) ==> Cell(Resample(rows, b)[i].close, j) == FirstIn(rows, b, p, j)
  {
    ResampleAt(rows, b, i);
  }

  /** Unfolding of `Resample` at one index. */
  lemma ResampleAt(rows: seq<Row>, b: Binning, i: int)
    requires 0 <= i < |Resample(rows, b)|
    ensures |rows| > 0
    ensures Resample(rows, b)[i] == Row(b.endOf(b.period(rows[0].date) + i), PeriodClose(rows, b, b.period(rows[0].date) + i, rows[0].close))
  {
  }

  /** Resampled labels strictly increase. */
  lemma ResampleChronological(rows: seq<Row>, b: Binning)
    requires ValidBinning(b)
    ensures Chronological(Resample(rows, b))
  {
  }

  /** Every period that holds a row of the input is represented in the output. */
  lemma ResampleCoversEveryRow(rows: seq<Row>, b: Binning, k: int)
    requires ValidBinning(b) && Chronological(rows) && 0 <= k < |rows|
    ensures exists i :: 0 <= i < |Resample(rows, b)| && Resample(rows, b)[i].date == b.endOf(b.period(rows[k].date))
  {
    var lo := b.period(rows[0].date);
    var hi := b.period(rows[|rows| - 1].date);
    var p := b.period(rows[k].date);
    assert lo <= p <= hi;
    assert Resample(rows, b)[p - lo].date == b.endOf(p);
  }

  /** No resampled label precedes the frame's first date. */
  lemma ResampleLabelsFromFirstDate(rows: seq<Row>, b: Binning)
    requires ValidBinning(b) && |rows| > 0
    ensures forall i :: 0 <= i < |Resample(rows, b)| ==> rows[0].date <= Resample(rows, b)[i].date
  {
  }

  /** Resampling keeps present prices positive, and keeps a sorted frame
      sorted under a valid binning. */
  lemma ResampleKeeps(rows: seq<Row>, b: Binning)
    ensures PositivePrices(rows) ==> PositivePrices(Resample(rows, b))
    ensures ValidBinning(b) && Chronological(rows) ==> Chronological(Resample(rows, b))
  {
    if PositivePrices(rows) {
      ResamplePositive(rows, b);
    }
    if ValidBinning(b) {
      ResampleChronological(rows, b);
    }
  }

  /** Resampling keeps prices positive: each resampled price is some input price. */
  lemma ResamplePositive(rows: seq<Row>, b: Binning)
    requires PositivePrices(rows)
    ensures PositivePrices(Resample(rows, b))
  {
    var r := Resample(rows, b);
    forall i | 0 <= i < |r| && Price(r[i].close).Some?
      ensures Price(r[i].close).value > 0.0
    {
      PeriodAt(rows, b, i);
    }
  }
}
