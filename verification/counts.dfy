/** Inbound/outbound unit counts and the outflow-to-inflow ratio computed from
    them. Ratios are exact rationals; a zero inbound count gives no ratio
    instead of a division error. */
module Counts {
  import opened Options

  datatype Units = Units(unitsIn: nat, unitsOut: nat)

  const NoUnits := Units(0, 0)

  function Plus(a: Units, b: Units): Units {
    Units(a.unitsIn + b.unitsIn, a.unitsOut + b.unitsOut)
  }

  /** Sums of unit counts can be regrouped. */
  lemma PlusRegroup(a: Units, b: Units, c: Units)
    ensures Plus(a, Plus(b, c)) == Plus(Plus(a, b), c)
  {
  }

  /** Outflow divided by inflow, undefined exactly when inflow is zero. */
  function Ratio(u: Units): (r: Option<real>)
    ensures r.None? <==> u.unitsIn == 0
    ensures r.Some? ==> r.value * u.unitsIn as real == u.unitsOut as real
    ensures r.Some? ==> r.value >= 0.0
  {
    if u.unitsIn == 0 then None else Some(u.unitsOut as real / u.unitsIn as real)
  }

  /** The ratio as the per-carrier breakdown shows it: zero when inflow is
      zero, the true ratio otherwise. */
  function ShownRatio(u: Units): (r: real)
    ensures u.unitsIn == 0 ==> r == 0.0
    ensures u.unitsIn > 0 ==> r * u.unitsIn as real == u.unitsOut as real
  {
    if u.unitsIn != 0 then u.unitsOut as real / u.unitsIn as real else 0.0
  }

  /** The shown ratio is the undefined-aware ratio with "undefined" replaced
      by zero, so the two can disagree only where inflow is zero. */
  lemma ShownRatioIsRatioOrZero(u: Units)
    ensures ShownRatio(u) == Ratio(u).GetOr(0.0)
  {
  }

  /** Comparing two defined ratios is comparing cross products of counts. */
  lemma RatioLessByCounts(a: Units, b: Units)
    requires a.unitsIn > 0 && b.unitsIn > 0
    ensures Ratio(a).value < Ratio(b).value <==> a.unitsOut * b.unitsIn < b.unitsOut * a.unitsIn
  {
    var x, y := Ratio(a).value, Ratio(b).value;
    var ia, ib := a.unitsIn as real, b.unitsIn as real;
    var k := ia * ib;
    var p, q := a.unitsOut * b.unitsIn, b.unitsOut * a.unitsIn;
    assert p as real == a.unitsOut as real * ib;
    assert q as real == b.unitsOut as real * ia;
    assert p as real == x * k;
    assert q as real == y * k;
    ScaleKeepsOrder(x, y, k);
  }

  lemma ScaleKeepsOrder(x: real, y: real, k: real)
    requires k > 0.0
    ensures x < y <==> x * k < y * k
  {
  }
}
