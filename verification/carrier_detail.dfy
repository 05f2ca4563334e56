/** The per-carrier breakdown shown for an alerted port: one line for each
    carrier the port has this week, with last week's counts (zero when the
    carrier had no rows last week), the two ratios shown as zero when inflow
    is zero, their difference and a falling/steady marker. */
module CarrierDetail {
  import opened Options
  import opened Counts
  import opened Tables
  import opened Summary

  /** The marker beside a line's delta: falling when the ratio went down. */
  datatype Marker = Falling | Steady

  datatype CarrierLine = CarrierLine(carrier: string, unitsThis: Units, unitsLast: Units) {

    function RatioThis(): real {
      ShownRatio(unitsThis)
    }

    function RatioLast(): real {
      ShownRatio(unitsLast)
    }

    function Delta(): real {
      RatioThis() - RatioLast()
    }

    function Mark(): Marker {
      if Delta() < 0.0 then Falling else Steady
    }
  }

  /** The carriers that port `p` has in a summary. */
  function CarriersAt(t: Table<GroupKey>, p: string): set<string> {
    set e | e in t && e.key.port == p :: e.key.carrier
  }

  function LineCarriers(lines: seq<CarrierLine>): set<string> {
    set l | l in lines :: l.carrier
  }

  predicate CarriersDistinct(lines: seq<CarrierLine>) {
    forall i, j :: 0 <= i < j < |lines| ==> lines[i].carrier != lines[j].carrier
  }

  /** A key absent from the first `i` entries is looked up in the rest. */
  lemma {:induction false} FindSkip(t: Table<GroupKey>, i: nat, k: GroupKey)
    requires i <= |t| && k !in KeySet(t[..i])
    ensures Find(t, k) == Find(t[i..], k)
    decreases i
  {
    if i > 0 {
      assert t[0] in t[..i];
      assert KeySet(t[1..][..i - 1]) <= KeySet(t[..i]) by {
        assert forall e :: e in t[1..][..i - 1] ==> e in t[..i];
      }
      assert t[1..][i - 1..] == t[i..];
      FindSkip(t[1..], i - 1, k);
    }
  }

  lemma CarriersAtSnoc(t: Table<GroupKey>, i: nat, p: string)
    requires i < |t|
    ensures CarriersAt(t[..i + 1], p) ==
      CarriersAt(t[..i], p) + (if t[i].key.port == p then {t[i].key.carrier} else {})
  {
    assert t[..i + 1] == t[..i] + [t[i]];
  }

  /** The lines for the entries of `thisWeek` from index `i` on, skipping
      carriers in `seen` (the port's carriers among the first `i`
      entries). */
  function LinesFrom(thisWeek: Table<GroupKey>, lastWeek: Table<GroupKey>, p: string, i: nat, seen: set<string>)
    : (lines: seq<CarrierLine>)
    requires i <= |thisWeek|
    requires seen == CarriersAt(thisWeek[..i], p)
    ensures CarriersDistinct(lines)
    ensures forall c :: c in LineCarriers(lines) <==> c in CarriersAt(thisWeek, p) && c !in seen
    ensures forall l :: l in lines ==>
      Find(thisWeek, GroupKey(p, l.carrier)) == Some(l.unitsThis) &&
      l.unitsLast == FindOr0(lastWeek, GroupKey(p, l.carrier))
    decreases |thisWeek| - i
  {
    if i == |thisWeek| then
      assert thisWeek[..i] == thisWeek;
      []
    else
      var e := thisWeek[i];
      CarriersAtSnoc(thisWeek, i, p);
      if e.key.port == p && e.key.carrier !in seen then
        var rest := LinesFrom(thisWeek, lastWeek, p, i + 1, seen + {e.key.carrier});
        var line := CarrierLine(e.key.carrier, e.units, FindOr0(lastWeek, e.key));
        assert e.key !in KeySet(thisWeek[..i]);
        FindSkip(thisWeek, i, e.key);
        assert thisWeek[i..][0] == e;
        assert e in thisWeek;
        var lines := [line] + rest;
        assert forall l :: l in lines <==> l == line || l in rest;
        lines
      else
        LinesFrom(thisWeek, lastWeek, p, i + 1, seen)
  }

  /** The breakdown for port `p`: one line per distinct carrier of `p` in
      this week's summary, carrying this week's counts for it and last week's
      counts, or zero counts when last week has no such carrier. */
  function CarrierLines(thisWeek: Table<GroupKey>, lastWeek: Table<GroupKey>, p: string)
    : (lines: seq<CarrierLine>)
    ensures CarriersDistinct(lines)
    ensures LineCarriers(lines) == CarriersAt(thisWeek, p)
    ensures forall l :: l in lines ==> Find(thisWeek, GroupKey(p, l.carrier)) == Some(l.unitsThis)
    ensures forall l :: l in lines ==> l.unitsLast == FindOr0(lastWeek, GroupKey(p, l.carrier))
    ensures forall l :: l in lines && Find(lastWeek, GroupKey(p, l.carrier)).None? ==>
      l.unitsLast == NoUnits
    ensures forall l :: l in lines ==>
      if GroupKey(p, l.carrier) in KeySet(lastWeek)
      then Find(lastWeek, GroupKey(p, l.carrier)) == Some(l.unitsLast)
      else l.unitsLast == NoUnits
  {
    assert thisWeek[..0] == [];
    var lines := LinesFrom(thisWeek, lastWeek, p, 0, {});
    forall l | l in lines {
      FindInKeys(lastWeek, GroupKey(p, l.carrier));
    }
    lines
  }

  /** The falling marker in whole numbers: last week had a positive shown
      ratio, and this week's ratio is smaller (a zero inflow this week shows
      as ratio 0). */
  lemma MarkByCounts(l: CarrierLine)
    ensures l.Mark() == Falling <==>
      l.unitsLast.unitsIn > 0 &&
      if l.unitsThis.unitsIn > 0 then
        l.unitsThis.unitsOut * l.unitsLast.unitsIn < l.unitsLast.unitsOut * l.unitsThis.unitsIn
      else l.unitsLast.unitsOut > 0
  {
    var a, b := l.unitsThis, l.unitsLast;
    ShownRatioIsRatioOrZero(a);
    ShownRatioIsRatioOrZero(b);
    if a.unitsIn > 0 && b.unitsIn > 0 {
      RatioLessByCounts(a, b);
    } else if b.unitsIn > 0 {
      assert l.RatioThis() == 0.0;
      assert l.RatioLast() * b.unitsIn as real == b.unitsOut as real;
      if b.unitsOut > 0 {
        assert l.RatioLast() > 0.0;
      } else {
        assert l.RatioLast() == 0.0;
      }
    }
  }
}
