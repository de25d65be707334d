/**
 Restriction of the resampled frame to the requested dates. The bounds apply
 to the row labels (period ends after resampling), never to the dates of the
 observations a period's close was taken from.

 The start is an optional date: `None` stands for pandas' "not a time", which
 only arises as the minimum of an empty frame and compares false with every
 date, so such a window keeps nothing.
 */
module Windowing {
  import opened Frame

  /** `sub` is `rows` with some rows left out: the rows it keeps appear in
      `rows` in the same order. */
  ghost predicate SubsequenceOf(sub: seq<Row>, rows: seq<Row>)
  {
    if |sub| == 0 then true
    else if |rows| == 0 then false
    else (sub[0] == rows[0] && SubsequenceOf(sub[1..], rows[1..])) || SubsequenceOf(sub, rows[1..])
  }

  /** Leaving rows out twice is leaving rows out once. */
  lemma {:induction false} SubsequenceTransitive(a: seq<Row>, b: seq<Row>, c: seq<Row>)
    requires SubsequenceOf(a, b) && SubsequenceOf(b, c)
    ensures SubsequenceOf(a, c)
    decreases |c|
  {
    if |a| > 0 && |c| > 0 {
      if b[0] == c[0] && SubsequenceOf(b[1..], c[1..]) {
        if a[0] == b[0] && SubsequenceOf(a[1..], b[1..]) {
          SubsequenceTransitive(a[1..], b[1..], c[1..]);
        } else {
          SubsequenceTransitive(a, b[1..], c[1..]);
        }
      } else {
        SubsequenceTransitive(a, b, c[1..]);
      }
    }
  }

  /** The rows whose date satisfies `keep`, in their original order. */
  function Select(rows: seq<Row>, keep: int -> bool): (r: seq<Row>)
    ensures |r| <= |rows|
    ensures SubsequenceOf(r, rows)
    ensures forall x :: x in r <==> x in rows && keep(x.date)
    ensures Chronological(rows) ==> Chronological(r)
    ensures (forall i :: 0 <= i < |rows| ==> !keep(rows[i].date)) ==> r == []
  {
    if |rows| == 0 then []
    else
      var rest := Select(rows[1..], keep);
      assert rows == [rows[0]] + rows[1..];
      assert forall x :: x in rows <==> x == rows[0] || x in rows[1..];
      if keep(rows[0].date) then
        var r := [rows[0]] + rest;
        assert r[1..] == rest;
        r
      else rest
  }

  /** Python truthiness of the optional horizon: `None` and `0` are false. */
  predicate Truthy(years: Option<int>)
  {
    years.Some? && years.value != 0
  }

  /** Whether a row label lies inside the window: on or after the start and,
      when the horizon is truthy, on or before the start moved forward by that
      many years. Both bounds are inclusive. */
  predicate InWindow(d: int, start: Option<int>, years: Option<int>, addYears: (int, int) -> int)
  {
    && start.Some?
    && start.value <= d
    && (Truthy(years) ==> d <= addYears(start.value, years.value))
  }

  /** What the model needs of the year offset: a positive number of years
      moves a date no earlier, a negative one moves it strictly earlier. */
  ghost predicate ValidAddYears(addYears: (int, int) -> int)
  {
    forall s, y :: (y > 0 ==> s <= addYears(s, y)) && (y < 0 ==> addYears(s, y) < s)
  }

  /** Drop rows before the start, then, when the horizon is truthy, rows after
      its end. */
  function Window(rows: seq<Row>, start: Option<int>, years: Option<int>, addYears: (int, int) -> int): (r: seq<Row>)
    ensures SubsequenceOf(r, rows)
    ensures forall x :: x in r <==> x in rows && InWindow(x.date, start, years, addYears)
    ensures Chronological(rows) ==> Chronological(r)
    ensures PositivePrices(rows) ==> PositivePrices(r)
    ensures |r| <= |rows|
    ensures (forall i :: 0 <= i < |rows| ==> !InWindow(rows[i].date, start, years, addYears)) ==> r == []
  {
    var lower := Select(rows, d => start.Some? && start.value <= d);
    if Truthy(years) && start.Some? then
      var end := addYears(start.value, years.value);
      var upper := Select(lower, d => d <= end);
      SubsequenceTransitive(upper, lower, rows);
      upper
    else lower
  }

  /** A selection keeps every passing row as often as the frame holds it, and
      no other row. */
  lemma {:induction false} SelectCounts(rows: seq<Row>, keep: int -> bool)
    ensures forall x :: multiset(Select(rows, keep))[x] == if keep(x.date) then multiset(rows)[x] else 0
  {
    if |rows| > 0 {
      SelectCounts(rows[1..], keep);
      assert rows == [rows[0]] + rows[1..];
    }
  }

  /** The window keeps every row inside it as often as the frame holds it,
      and no other row. */
  lemma WindowCounts(rows: seq<Row>, start: Option<int>, years: Option<int>, addYears: (int, int) -> int)
    ensures var r := Window(rows, start, years, addYears);
      forall x :: multiset(r)[x] == if InWindow(x.date, start, years, addYears) then multiset(rows)[x] else 0
  {
    var lower := Select(rows, d => start.Some? && start.value <= d);
    SelectCounts(rows, d => start.Some? && start.value <= d);
    if Truthy(years) && start.Some? {
      var end := addYears(start.value, years.value);
      SelectCounts(lower, d => d <= end);
    }
  }

  /** Selecting rows that all pass the test changes nothing. */
  lemma {:induction false} SelectAllKept(rows: seq<Row>, keep: int -> bool)
    requires forall i :: 0 <= i < |rows| ==> keep(rows[i].date)
    ensures Select(rows, keep) == rows
  {
    if |rows| > 0 {
      SelectAllKept(rows[1..], keep);
    }
  }

  /** Applying the window twice is the same as applying it once. */
  lemma WindowIdempotent(rows: seq<Row>, start: Option<int>, years: Option<int>, addYears: (int, int) -> int)
    ensures Window(Window(rows, start, years, addYears), start, years, addYears) == Window(rows, start, years, addYears)
  {
    var w := Window(rows, start, years, addYears);
    assert forall i :: 0 <= i < |w| ==> w[i] in w;
    SelectAllKept(w, d => start.Some? && start.value <= d);
    if Truthy(years) && start.Some? {
      var end := addYears(start.value, years.value);
      SelectAllKept(w, d => d <= end);
    }
  }

  /** A horizon of `None` or `0` sets no upper bound: the window is the
      lower-bound filter alone. */
  lemma NoHorizonNoUpperBound(rows: seq<Row>, start: Option<int>, years: Option<int>, addYears: (int, int) -> int)
    requires !Truthy(years)
    ensures Window(rows, start, years, addYears) == Select(rows, d => start.Some? && start.value <= d)
  {
  }

  /** A start on or before every row label drops nothing at the lower bound. */
  lemma EarlyStartKeepsAll(rows: seq<Row>, start: int, addYears: (int, int) -> int)
    requires forall i :: 0 <= i < |rows| ==> start <= rows[i].date
    ensures Window(rows, Some(start), None, addYears) == rows
  {
    SelectAllKept(rows, d => Some(start).Some? && Some(start).value <= d);
  }

  /** A start after every row label leaves the window empty. */
  lemma LateStartKeepsNothing(rows: seq<Row>, start: int, years: Option<int>, addYears: (int, int) -> int)
    requires forall i :: 0 <= i < |rows| ==> rows[i].date < start
    ensures Window(rows, Some(start), years, addYears) == []
  {
  }

  /** A negative horizon moves the end before the start: nothing is kept. */
  lemma NegativeHorizonIsEmpty(rows: seq<Row>, start: int, years: int, addYears: (int, int) -> int)
    requires ValidAddYears(addYears) && years < 0
    ensures Window(rows, Some(start), Some(years), addYears) == []
  {
    assert addYears(start, years) < start;
  }

  /** With a positive horizon, a row labelled exactly at the start is kept. */
  lemma PositiveHorizonKeepsStart(rows: seq<Row>, start: int, years: int, addYears: (int, int) -> int, k: nat)
    requires ValidAddYears(addYears) && years > 0
    requires k < |rows| && rows[k].date == start
    ensures rows[k] in Window(rows, Some(start), Some(years), addYears)
  {
    assert start <= addYears(start, years);
  }
}
