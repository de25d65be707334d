/**
 The purchase pass: walk the windowed rows in order, skip rows whose price is
 missing, buy `amount / price` units at every other row and emit the value of
 all units held, priced at that row.

 Prices are reals; the model does not reproduce floating-point rounding.
 */
module Accumulation {
  import opened Frame

  /** One purchase: the date of a row with a present price, and that price. */
  datatype Purchase = Purchase(date: int, price: real)

  /** The rows that lead to a purchase, in order. */
  function Purchases(rows: seq<Row>): (ps: seq<Purchase>)
    ensures |ps| <= |rows|
    ensures (forall i :: 0 <= i < |rows| ==> Price(rows[i].close).Some?) ==> |ps| == |rows|
    ensures (forall i :: 0 <= i < |rows| ==> Price(rows[i].close).None?) ==> ps == []
    ensures PositivePrices(rows) ==> PositivePurchases(ps)
  {
    if |rows| == 0 then []
    else
      var rest := Purchases(rows[1..]);
      assert forall k :: 1 <= k < |rows| ==> rows[1..][k - 1] == rows[k];
      match Price(rows[0].close)
      case None => rest
      case Some(p) => [Purchase(rows[0].date, p)] + rest
  }

  /** The positions, from `from` on, of the rows whose price is present, in
      increasing order: every such row appears, and no other. */
  function PresentFrom(rows: seq<Row>, from: nat): (idx: seq<int>)
    requires from <= |rows|
    ensures forall i :: 0 <= i < |idx| ==> from <= idx[i] < |rows| && Price(rows[idx[i]].close).Some?
    ensures forall i, j :: 0 <= i < j < |idx| ==> idx[i] < idx[j]
    ensures forall k :: from <= k < |rows| && Price(rows[k].close).Some? ==> k in idx
    decreases |rows| - from
  {
    if from == |rows| then []
    else if Price(rows[from].close).Some? then [from] + PresentFrom(rows, from + 1)
    else PresentFrom(rows, from + 1)
  }

  ghost predicate PositivePurchases(ps: seq<Purchase>)
  {
    forall i :: 0 <= i < |ps| ==> ps[i].price > 0.0
  }

  /** Units bought by investing `amount` at each purchase. */
  function Units(ps: seq<Purchase>, amount: real): (u: real)
    requires PositivePurchases(ps)
  {
    if |ps| == 0 then 0.0 else amount / ps[0].price + Units(ps[1..], amount)
  }

  /** The value of `units` at `price`. */
  function Worth(units: real, price: real): (w: real)
  {
    units * price
  }

  /** The trajectory by definition: the `i`-th point carries the `i`-th
      purchase's date and the units bought up to and including it, valued at
      its price. */
  function Trajectory(ps: seq<Purchase>, amount: real): (r: seq<ReturnPoint>)
    requires PositivePurchases(ps)
    ensures |r| == |ps|
    ensures forall i :: 0 <= i < |r| ==> r[i].date == ps[i].date
  {
    seq(|ps|, i requires 0 <= i < |ps| => ReturnPoint(ps[i].date, Worth(Units(ps[..i + 1], amount), ps[i].price)))
  }

  /** The single left-to-right pass, starting from `units` already held. */
  function Accumulate(rows: seq<Row>, amount: real, units: real): (r: seq<ReturnPoint>)
    requires PositivePrices(rows)
    ensures |r| <= |rows|
  {
    if |rows| == 0 then []
    else
      assert forall k :: 1 <= k < |rows| ==> rows[1..][k - 1] == rows[k];
      var price := Price(rows[0].close);
      if price.None? then Accumulate(rows[1..], amount, units)
      else
        var held := units + amount / price.value;
        [ReturnPoint(rows[0].date, Worth(held, price.value))] + Accumulate(rows[1..], amount, held)
  }

  /** The pass as a loop: one left-to-right walk holding only the running
      units, appending a point at every row with a present price. */
  method Run(rows: seq<Row>, amount: real) returns (points: seq<ReturnPoint>)
    requires PositivePrices(rows)
    ensures points == Trajectory(Purchases(rows), amount)
  {
    points := [];
    var units := 0.0;
    var i := 0;
    while i < |rows|
      invariant 0 <= i <= |rows|
      invariant PositivePrices(rows[i..])
      invariant points + Accumulate(rows[i..], amount, units) == Accumulate(rows, amount, 0.0)
    {
      assert rows[i..][1..] == rows[i + 1..];
      AccumulateStep(rows[i..], amount, units);
      var price := Price(rows[i].close);
      if price.Some? {
        units := units + amount / price.value;
        points := points + [ReturnPoint(rows[i].date, Worth(units, price.value))];
      }
      i := i + 1;
    }
    assert rows[i..] == [];
    AccumulateIsTrajectory(rows, amount);
  }

  /** One step of the pass: a row with a missing price emits nothing and
      leaves the units held as they were; a row priced `p` adds
      `amount / p` units and emits their total value at `p`. */
  lemma AccumulateStep(rows: seq<Row>, amount: real, units: real)
    requires PositivePrices(rows) && |rows| > 0
    ensures PositivePrices(rows[1..])
    ensures Price(rows[0].close).None? ==>
      Accumulate(rows, amount, units) == Accumulate(rows[1..], amount, units)
    ensures Price(rows[0].close).Some? ==>
      var p := Price(rows[0].close).value;
      var held := units + amount / p;
      Accumulate(rows, amount, units) == [ReturnPoint(rows[0].date, Worth(held, p))] + Accumulate(rows[1..], amount, held)
  {
  }

  /** Units are additive over concatenation. */
  lemma {:induction false} UnitsAppend(xs: seq<Purchase>, ys: seq<Purchase>, amount: real)
    requires PositivePurchases(xs) && PositivePurchases(ys)
    ensures PositivePurchases(xs + ys)
    ensures Units(xs + ys, amount) == Units(xs, amount) + Units(ys, amount)
  {
    if |xs| == 0 {
      assert xs + ys == ys;
    } else {
      assert (xs + ys)[1..] == xs[1..] + ys;
      UnitsAppend(xs[1..], ys, amount);
    }
  }

  /** Units bought up to the `i`-th purchase after a first one. */
  lemma UnitsOfConsPrefix(first: Purchase, rest: seq<Purchase>, amount: real, i: nat)
    requires first.price > 0.0 && PositivePurchases(rest) && i <= |rest|
    ensures PositivePurchases(([first] + rest)[..i + 1])
    ensures Units(([first] + rest)[..i + 1], amount) == amount / first.price + Units(rest[..i], amount)
  {
    assert ([first] + rest)[..i + 1][1..] == rest[..i];
  }

  /** The pass emits one point per purchase. */
  lemma {:induction false} AccumulateLength(rows: seq<Row>, amount: real, units: real)
    requires PositivePrices(rows)
    ensures |Accumulate(rows, amount, units)| == |Purchases(rows)|
  {
    if |rows| > 0 {
      assert forall k :: 1 <= k < |rows| ==> rows[1..][k - 1] == rows[k];
      var price := Price(rows[0].close);
      var held := if price.None? then units else units + amount / price.value;
      AccumulateLength(rows[1..], amount, held);
    }
  }

  /** The `i`-th point of the pass, started with `units` already held, carries
      the `i`-th purchase's date and the units held after it, valued at its
      price. */
  lemma {:induction false} AccumulateAt(rows: seq<Row>, amount: real, units: real, i: nat)
    requires PositivePrices(rows)
    requires i < |Purchases(rows)|
    ensures i < |Accumulate(rows, amount, units)|
    ensures Accumulate(rows, amount, units)[i].date == Purchases(rows)[i].date
    ensures Accumulate(rows, amount, units)[i].value
            == Worth(units + Units(Purchases(rows)[..i + 1], amount), Purchases(rows)[i].price)
  {
    AccumulateLength(rows, amount, units);
    assert forall k :: 1 <= k < |rows| ==> rows[1..][k - 1] == rows[k];
    var ps := Purchases(rows);
    var rest := Purchases(rows[1..]);
    var price := Price(rows[0].close);
    if price.None? {
      AccumulateAt(rows[1..], amount, units, i);
    } else {
      var p := price.value;
      var held := units + amount / p;
      var first := Purchase(rows[0].date, p);
      assert ps == [first] + rest;
      var acc := Accumulate(rows, amount, units);
      var tail := Accumulate(rows[1..], amount, held);
      UnitsOfConsPrefix(first, rest, amount, i);
      if i == 0 {
        assert acc[0] == ReturnPoint(rows[0].date, Worth(held, p));
        assert rest[..0] == [];
      } else {
        assert acc[1..] == tail;
        AccumulateAt(rows[1..], amount, held, i - 1);
        var before := Units(rest[..i], amount);
        assert held + before == units + Units(ps[..i + 1], amount);
        assert acc[i] == tail[i - 1];
        assert tail[i - 1].value == Worth(held + before, rest[i - 1].price);
      }
    }
  }

  /** The pass from nothing held is the trajectory of the present rows. */
  lemma AccumulateIsTrajectory(rows: seq<Row>, amount: real)
    requires PositivePrices(rows)
    ensures Accumulate(rows, amount, 0.0) == Trajectory(Purchases(rows), amount)
  {
    AccumulateLength(rows, amount, 0.0);
    var ps := Purchases(rows);
    var r := Accumulate(rows, amount, 0.0);
    var t := Trajectory(ps, amount);
    forall i | 0 <= i < |r|
      ensures r[i] == t[i]
    {
      AccumulateAt(rows, amount, 0.0, i);
      var u := Units(ps[..i + 1], amount);
      assert 0.0 + u == u;
    }
  }

  /** From row `from` on, there are as many purchases as rows with a present
      price. */
  lemma {:induction false} PurchasesFromCount(rows: seq<Row>, from: nat)
    requires from <= |rows|
    ensures |Purchases(rows[from..])| == |PresentFrom(rows, from)|
    decreases |rows| - from
  {
    if from < |rows| {
      PurchasesFromCount(rows, from + 1);
      assert rows[from..][1..] == rows[from + 1..];
    }
  }

  /** From row `from` on, the `i`-th purchase is the `i`-th row with a present
      price: its date and its price. */
  lemma {:induction false} PurchaseFromAt(rows: seq<Row>, from: nat, i: nat)
    requires from <= |rows| && i < |PresentFrom(rows, from)|
    ensures i < |Purchases(rows[from..])|
    ensures var k := PresentFrom(rows, from)[i];
      Purchases(rows[from..])[i] == Purchase(rows[k].date, Price(rows[k].close).value)
    decreases |rows| - from
  {
    PurchasesFromCount(rows, from);
    assert rows[from..][0] == rows[from];
    assert rows[from..][1..] == rows[from + 1..];
    var price := Price(rows[from].close);
    if price.None? {
      PurchaseFromAt(rows, from + 1, i);
    } else if i > 0 {
      PurchaseFromAt(rows, from + 1, i - 1);
    }
  }

  /** The purchases are, in order, exactly the rows whose price is present:
      the trajectory's dates are the labels of those rows, an in-order
      subsequence of the rows' labels. */
  lemma PurchasesArePresentRows(rows: seq<Row>)
    ensures var ps := Purchases(rows);
      var idx := PresentFrom(rows, 0);
      && |ps| == |idx|
      && forall i :: 0 <= i < |ps| ==> ps[i] == Purchase(rows[idx[i]].date, Price(rows[idx[i]].close).value)
  {
    assert rows[0..] == rows;
    PurchasesFromCount(rows, 0);
    forall i | 0 <= i < |PresentFrom(rows, 0)|
      ensures Purchases(rows)[i] == Purchase(rows[PresentFrom(rows, 0)[i]].date, Price(rows[PresentFrom(rows, 0)[i]].close).value)
    {
      PurchaseFromAt(rows, 0, i);
    }
  }

  /** Purchases distribute over concatenation of frames. */
  lemma {:induction false} PurchasesAppend(xs: seq<Row>, ys: seq<Row>)
    ensures Purchases(xs + ys) == Purchases(xs) + Purchases(ys)
  {
    if |xs| == 0 {
      assert xs + ys == ys;
    } else {
      assert (xs + ys)[0] == xs[0];
      assert (xs + ys)[1..] == xs[1..] + ys;
      PurchasesAppend(xs[1..], ys);
    }
  }

  /** The pass sees nothing of a frame but its purchases: two frames with the
      same purchases yield the same points. */
  lemma AccumulateDependsOnPurchases(rows: seq<Row>, other: seq<Row>, amount: real, units: real)
    requires PositivePrices(rows) && PositivePrices(other)
    requires Purchases(rows) == Purchases(other)
    ensures Accumulate(rows, amount, units) == Accumulate(other, amount, units)
  {
    AccumulateLength(rows, amount, units);
    AccumulateLength(other, amount, units);
    forall i | 0 <= i < |Purchases(rows)|
      ensures Accumulate(rows, amount, units)[i] == Accumulate(other, amount, units)[i]
    {
      AccumulateAt(rows, amount, units, i);
      AccumulateAt(other, amount, units, i);
    }
  }

  /** A row whose price is missing is skipped without trace: removing it
      changes no point of the trajectory. */
  lemma MissingRowIgnored(rows: seq<Row>, k: nat, amount: real, units: real)
    requires PositivePrices(rows)
    requires k < |rows| && Price(rows[k].close).None?
    ensures PositivePrices(rows[..k] + rows[k + 1..])
    ensures Accumulate(rows[..k] + rows[k + 1..], amount, units) == Accumulate(rows, amount, units)
  {
    var rest := rows[..k] + rows[k + 1..];
    assert rows == rows[..k] + ([rows[k]] + rows[k + 1..]);
    PurchasesAppend(rows[..k], [rows[k]] + rows[k + 1..]);
    PurchasesAppend([rows[k]], rows[k + 1..]);
    PurchasesAppend(rows[..k], rows[k + 1..]);
    assert [rows[k]][1..] == [];
    assert Purchases([rows[k]]) == [];
    assert forall i :: 0 <= i < |rest| ==> rest[i] in rows;
    AccumulateDependsOnPurchases(rest, rows, amount, units);
  }

  /** The trajectory of a frame has one point per row with a present price,
      dated with that row's label, in the rows' order. */
  lemma TrajectoryFollowsPresentRows(rows: seq<Row>, amount: real)
    requires PositivePrices(rows)
    ensures var t := Trajectory(Purchases(rows), amount);
      var idx := PresentFrom(rows, 0);
      && |t| == |idx|
      && forall i :: 0 <= i < |t| ==> t[i].date == rows[idx[i]].date
  {
    PurchasesArePresentRows(rows);
  }

  /** When every present price of a frame is the same, the `k`-th point of its
      trajectory (counting from one) is worth `k` times the amount. */
  lemma ConstantPriceTrajectory(rows: seq<Row>, amount: real, price: real)
    requires price > 0.0
    requires forall i :: 0 <= i < |rows| && Price(rows[i].close).Some? ==> Price(rows[i].close).value == price
    ensures PositivePrices(rows)
    ensures var t := Trajectory(Purchases(rows), amount);
      forall i :: 0 <= i < |t| ==> t[i].value == (i + 1) as real * amount
  {
    var ps := Purchases(rows);
    PurchasesArePresentRows(rows);
    var idx := PresentFrom(rows, 0);
    assert forall i :: 0 <= i < |ps| ==> ps[i].price == Price(rows[idx[i]].close).value;
    ConstantPriceValue(ps, amount, price);
  }

  /** With a positive amount, the units held strictly increase from one
      purchase to the next. */
  lemma UnitsIncrease(ps: seq<Purchase>, amount: real, i: nat, j: nat)
    requires PositivePurchases(ps) && amount > 0.0
    requires i < j <= |ps|
    ensures Units(ps[..i], amount) < Units(ps[..j], amount)
  {
    assert ps[..j] == ps[..i] + ps[i..j];
    UnitsAppend(ps[..i], ps[i..j], amount);
    UnitsPositive(ps[i..j], amount);
  }

  lemma {:induction false} UnitsPositive(ps: seq<Purchase>, amount: real)
    requires PositivePurchases(ps) && amount > 0.0 && |ps| > 0
    ensures Units(ps, amount) > 0.0
  {
    assert amount / ps[0].price > 0.0;
    if |ps| > 1 {
      UnitsPositive(ps[1..], amount);
    }
  }

  /** At a constant price the units held are the purchase count times
      `amount / price`. */
  lemma {:induction false} UnitsAtConstantPrice(ps: seq<Purchase>, amount: real, price: real)
    requires price > 0.0
    requires forall i :: 0 <= i < |ps| ==> ps[i].price == price
    ensures PositivePurchases(ps)
    ensures Units(ps, amount) == |ps| as real * (amount / price)
  {
    if |ps| > 0 {
      UnitsAtConstantPrice(ps[1..], amount, price);
    }
  }

  /** At a constant price the `k`-th point (counting from one) is worth `k`
      times the amount invested per period. */
  lemma ConstantPriceValue(ps: seq<Purchase>, amount: real, price: real)
    requires price > 0.0
    requires forall i :: 0 <= i < |ps| ==> ps[i].price == price
    ensures PositivePurchases(ps)
    ensures forall i :: 0 <= i < |ps| ==> Trajectory(ps, amount)[i].value == (i + 1) as real * amount
  {
    forall i | 0 <= i < |ps|
      ensures Trajectory(ps, amount)[i].value == (i + 1) as real * amount
    {
      UnitsAtConstantPrice(ps[..i + 1], amount, price);
      var k := (i + 1) as real;
      assert (k * (amount / price)) * price == k * ((amount / price) * price);
    }
  }

  /** The money spent over a run of purchases: at each one, the units bought
      valued at the price paid for them. */
  function Spent(ps: seq<Purchase>, amount: real): (total: real)
    requires PositivePurchases(ps)
    ensures |ps| == 0 ==> total == 0.0
  {
    if |ps| == 0 then 0.0 else Worth(amount / ps[0].price, ps[0].price) + Spent(ps[1..], amount)
  }

  /** Each purchase costs exactly the amount invested per period. */
  lemma {:induction false} SpentPerPurchase(ps: seq<Purchase>, amount: real)
    requires PositivePurchases(ps)
    ensures Spent(ps, amount) == amount * |ps| as real
  {
    if |ps| > 0 {
      SpentPerPurchase(ps[1..], amount);
      assert Worth(amount / ps[0].price, ps[0].price) == amount;
      var k := |ps[1..]| as real;
      assert amount * (k + 1.0) == amount + amount * k;
    }
  }
}
