/**
 The data the calculator works on: a date-indexed price frame reduced to its
 "Close" column, and the return points the accumulation emits.

 Dates are day numbers. A close cell is either a plain scalar (one "Close"
 column) or a non-empty group of values (a frame whose columns are grouped per
 ticker, where selecting "Close" yields one value per ticker). A missing value
 is `None`.
 */
module Frame {

  datatype Option<+T> = None | Some(value: T)

  /** The values under "Close" when the column is grouped; never empty, since
      selecting an existing column group yields at least one column. */
  type Columns = s: seq<Option<real>> | |s| > 0 witness [None]

  datatype Close = Scalar(value: Option<real>) | Multi(values: Columns)

  /** One row of the frame: its index date and its close. */
  datatype Row = Row(date: int, close: Close)

  /** One emitted record: the period's date and the portfolio value then. */
  datatype ReturnPoint = ReturnPoint(date: int, value: real)

  /** The value in column `j` of a close cell; a scalar is a one-column cell. */
  function Cell(c: Close, j: nat): (v: Option<real>)
  {
    match c
    case Scalar(v) => if j == 0 then v else None
    case Multi(vs) => if j < |vs| then vs[j] else None
  }

  /** The number of columns a close cell carries. */
  function Width(c: Close): (w: nat)
  {
    match c
    case Scalar(_) => 1
    case Multi(vs) => |vs|
  }

  /** The price the accumulation reads from a close: a scalar as it is, a
      grouped close collapsed to its first element. */
  function Price(c: Close): (p: Option<real>)
    ensures p == Cell(c, 0)
    ensures c.Multi? ==> p == c.values[0]
  {
    match c
    case Scalar(v) => v
    case Multi(vs) => vs[0]
  }

  /** Index dates strictly increase: the frame is sorted with no duplicates. */
  ghost predicate Chronological(rows: seq<Row>)
  {
    forall i, j :: 0 <= i < j < |rows| ==> rows[i].date < rows[j].date
  }

  /** Every price that is present is strictly positive. */
  ghost predicate PositivePrices(rows: seq<Row>)
  {
    forall i :: 0 <= i < |rows| && Price(rows[i].close).Some? ==> Price(rows[i].close).value > 0.0
  }

  /** The smallest index date of a non-empty frame (`index.min()`). */
  function MinDate(rows: seq<Row>): (m: int)
    requires |rows| > 0
    ensures exists i :: 0 <= i < |rows| && rows[i].date == m
    ensures forall i :: 0 <= i < |rows| ==> m <= rows[i].date
  {
    if |rows| == 1 then rows[0].date
    else
      var rest := MinDate(rows[1..]);
      assert forall i :: 1 <= i < |rows| ==> rows[1..][i - 1] == rows[i];
      if rows[0].date <= rest then rows[0].date else rest
  }
}
