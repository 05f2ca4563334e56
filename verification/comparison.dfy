/** Port-level comparison of the two weeks: carrier counts are summed per
    port, the two weeks are joined on port, and ports whose current ratio is
    below the threshold are alerted. */
module Comparison {
  import opened Options
  import opened Counts
  import opened Tables
  import opened Windowing
  import opened Summary

  type Port = string

  /** Alert threshold on this week's outflow-to-inflow ratio (exactly 4/5). */
  const AlertThreshold: real := 0.8

  /** The ports that occur in a summary. */
  function PortsOf(s: Table<GroupKey>): set<Port> {
    set e | e in s :: e.key.port
  }

  /** What one summary entry contributes to port `p`. */
  function PortShare(e: Entry<GroupKey>, p: Port): Units {
    if e.key.port == p then e.units else NoUnits
  }

  /** Sum of the units of every summary entry of port `p`. */
  function PortTotal(s: Table<GroupKey>, p: Port): Units {
    if |s| == 0 then NoUnits else Plus(PortShare(s[0], p), PortTotal(s[1..], p))
  }

  lemma {:induction false} PortTotalAppend(a: Table<GroupKey>, b: Table<GroupKey>, p: Port)
    ensures PortTotal(a + b, p) == Plus(PortTotal(a, p), PortTotal(b, p))
    decreases |a|
  {
    if |a| == 0 {
      assert a + b == b;
    } else {
      var ab := a + b;
      assert ab[0] == a[0];
      assert ab[1..] == a[1..] + b;
      PortTotalAppend(a[1..], b, p);
      var h := PortShare(a[0], p);
      assert PortTotal(ab, p) == Plus(h, PortTotal(a[1..] + b, p));
      assert PortTotal(a, p) == Plus(h, PortTotal(a[1..], p));
    }
  }

  /** Adding units to a group adds them to that group's port and to no
      other. */
  lemma {:induction false} PortTotalAdd(t: Table<GroupKey>, k: GroupKey, u: Units, p: Port)
    requires Distinct(t)
    ensures PortTotal(Add(t, k, u), p) == Plus(PortTotal(t, p), PortShare(Entry(k, u), p))
    decreases |t|
  {
    if |t| > 0 {
      AddStep(t, k, u);
      if t[0].key == k {
        PortTotalAbsorb(t[0], t[1..], u, p);
      } else {
        PortTotalAdd(t[1..], k, u, p);
        PortTotalKeep(t[0], t[1..], Add(t[1..], k, u), PortShare(Entry(k, u), p), p);
      }
    }
  }

  /** The case where the first entry is not the group that takes the units. */
  lemma {:induction false} PortTotalKeep(e: Entry<GroupKey>, before: Table<GroupKey>, after: Table<GroupKey>, share: Units, p: Port)
    ensures PortTotal(after, p) == Plus(PortTotal(before, p), share) ==>
      PortTotal([e] + after, p) == Plus(PortTotal([e] + before, p), share)
  {
    PortTotalCons(e, after, p);
    PortTotalCons(e, before, p);
    PlusRegroup(PortShare(e, p), PortTotal(before, p), share);
  }

  /** The case where the first entry is the group that takes the units. */
  lemma {:induction false} PortTotalAbsorb(e: Entry<GroupKey>, rest: Table<GroupKey>, u: Units, p: Port)
    ensures PortTotal([Entry(e.key, Plus(e.units, u))] + rest, p) ==
      Plus(PortTotal([e] + rest, p), PortShare(Entry(e.key, u), p))
  {
    PortTotalCons(Entry(e.key, Plus(e.units, u)), rest, p);
    PortTotalCons(e, rest, p);
  }

  lemma {:induction false} PortTotalCons(e: Entry<GroupKey>, t: Table<GroupKey>, p: Port)
    ensures PortTotal([e] + t, p) == Plus(PortShare(e, p), PortTotal(t, p))
  {
    assert ([e] + t)[1..] == t;
  }

  /** Groups a summary by port, summing inbound and outbound units over the
      port's carriers. */
  function RollUp(s: Table<GroupKey>): (r: Table<Port>)
    ensures Distinct(r)
    ensures KeySet(r) == PortsOf(s)
    ensures forall p :: FindOr0(r, p) == PortTotal(s, p)
    ensures Total(r) == Total(s)
  {
    if |s| == 0 then []
    else
      SnocQueries(s);
      Add(RollUp(s[..|s| - 1]), s[|s| - 1].key.port, s[|s| - 1].units)
  }

  /** How the summary queries read on a summary with one more entry at the
      end. */
  lemma SnocQueries(s: Table<GroupKey>)
    requires |s| > 0
    ensures PortsOf(s) == PortsOf(s[..|s| - 1]) + {s[|s| - 1].key.port}
    ensures Total(s) == Plus(Total(s[..|s| - 1]), s[|s| - 1].units)
    ensures forall p :: PortTotal(s, p) == Plus(PortTotal(s[..|s| - 1], p), PortShare(s[|s| - 1], p))
  {
    SnocPorts(s);
    SnocTotal(s);
    forall p
      ensures PortTotal(s, p) == Plus(PortTotal(s[..|s| - 1], p), PortShare(s[|s| - 1], p))
    {
      SnocPortTotal(s, p);
    }
  }

  lemma SnocPorts(s: Table<GroupKey>)
    requires |s| > 0
    ensures PortsOf(s) == PortsOf(s[..|s| - 1]) + {s[|s| - 1].key.port}
  {
    assert s == s[..|s| - 1] + [s[|s| - 1]];
  }

  lemma SnocTotal(s: Table<GroupKey>)
    requires |s| > 0
    ensures Total(s) == Plus(Total(s[..|s| - 1]), s[|s| - 1].units)
  {
    var init, e := s[..|s| - 1], s[|s| - 1];
    assert s == init + [e];
    assert Total([e]) == e.units by {
      assert [e][1..] == [];
    }
    TotalAppend(init, [e]);
  }

  lemma SnocPortTotal(s: Table<GroupKey>, p: Port)
    requires |s| > 0
    ensures PortTotal(s, p) == Plus(PortTotal(s[..|s| - 1], p), PortShare(s[|s| - 1], p))
  {
    var init, e := s[..|s| - 1], s[|s| - 1];
    assert s == init + [e];
    var single := [e];
    assert single[1..] == [];
    assert PortTotal(single[1..], p) == NoUnits;
    assert PortTotal(single, p) == Plus(PortShare(e, p), NoUnits);
    PortTotalAppend(init, single, p);
  }

  lemma {:induction false} TotalAppend<K>(a: Table<K>, b: Table<K>)
    ensures Total(a + b) == Plus(Total(a), Total(b))
    decreases |a|
  {
    if |a| == 0 {
      assert a + b == b;
    } else {
      var ab := a + b;
      assert ab[0] == a[0];
      assert ab[1..] == a[1..] + b;
      TotalAppend(a[1..], b);
      assert Total(ab) == Plus(a[0].units, Total(a[1..] + b));
    }
  }

  /** Number of rows of `w` at port `p` with movement `m`. */
  function PortCount(w: seq<Tagged>, p: Port, m: Movement): nat {
    if |w| == 0 then 0
    else
      var t := w[|w| - 1];
      PortCount(w[..|w| - 1], p, m) + (if t.row.port == p && t.move == m then 1 else 0)
  }

  /** A port's summed summary units are its numbers of inbound and outbound
      rows in the week's subset, whichever carrier they went with. */
  lemma {:induction false} SummaryPortTotal(w: seq<Tagged>, p: Port)
    ensures PortTotal(Summarize(w), p) == Units(PortCount(w, p, In), PortCount(w, p, Out))
    decreases |w|
  {
    if |w| > 0 {
      var init, t := w[..|w| - 1], w[|w| - 1];
      var s', k, u := Summarize(init), KeyOf(t.row), UnitOf(t.move);
      assert Summarize(w) == Add(s', k, u);
      SummaryPortTotal(init, p);
      PortTotalAdd(s', k, u, p);
      RowShare(t, p);
      var before := Units(PortCount(init, p, In), PortCount(init, p, Out));
      assert PortTotal(Summarize(w), p) == Plus(before, PortShare(Entry(k, u), p));
    } else {
      assert Summarize(w) == [];
    }
  }

  /** What one tagged row adds to its port's inbound and outbound counts. */
  lemma RowShare(t: Tagged, p: Port)
    ensures PortShare(Entry(KeyOf(t.row), UnitOf(t.move)), p) ==
      Units(if t.row.port == p && t.move == In then 1 else 0, if t.row.port == p && t.move == Out then 1 else 0)
  {
  }

  /** A port's rolled-up units are its numbers of inbound and outbound rows
      in the week's subset, whichever carrier they went with. */
  lemma RollUpCountsRows(w: seq<Tagged>, p: Port)
    ensures FindOr0(RollUp(Summarize(w)), p) == Units(PortCount(w, p, In), PortCount(w, p, Out))
  {
    SummaryPortTotal(w, p);
  }

  /** One row of the week-on-week comparison. */
  datatype PortComparison = PortComparison(port: Port, unitsThis: Units, unitsLast: Units) {

    function RatioThis(): Option<real> {
      Ratio(unitsThis)
    }

    function RatioLast(): Option<real> {
      Ratio(unitsLast)
    }

    /** Change of ratio since last week, defined only when both ratios
        are. */
    function Delta(): (d: Option<real>)
      ensures d.Some? <==> unitsThis.unitsIn > 0 && unitsLast.unitsIn > 0
      ensures d.Some? ==> RatioLast().value + d.value == RatioThis().value
    {
      if RatioThis().Some? && RatioLast().Some? then
        Some(RatioThis().value - RatioLast().value)
      else None
    }
  }

  function Compared(m: seq<PortComparison>): set<Port> {
    set c | c in m :: c.port
  }

  /** The comparison rows for one entry of this week's port table: one per
      entry of last week's table with the same port. */
  function MatchesOf(e: Entry<Port>, lastWeek: Table<Port>): (m: seq<PortComparison>)
    ensures forall c :: c in m <==>
      exists f :: f in lastWeek && f.key == e.key && c == PortComparison(e.key, e.units, f.units)
  {
    if |lastWeek| == 0 then []
    else
      var f := lastWeek[0];
      var rest := MatchesOf(e, lastWeek[1..]);
      assert forall g :: g in lastWeek <==> g == f || g in lastWeek[1..];
      (if f.key == e.key then [PortComparison(e.key, e.units, f.units)] else []) + rest
  }

  /** Inner join of the two weeks' port tables on port: a comparison row for
      every pair of entries, one from each week, that share a port. */
  function Merge(thisWeek: Table<Port>, lastWeek: Table<Port>): (m: seq<PortComparison>)
    ensures forall c :: c in m <==>
      exists e, f :: e in thisWeek && f in lastWeek && e.key == f.key &&
        c == PortComparison(e.key, e.units, f.units)
  {
    if |thisWeek| == 0 then []
    else
      var e := thisWeek[0];
      assert forall g :: g in thisWeek <==> g == e || g in thisWeek[1..];
      MatchesOf(e, lastWeek) + Merge(thisWeek[1..], lastWeek)
  }

  /** With one entry per port on each side, as group-by results have, a port
      is compared exactly when both weeks have it, and the compared units are
      the ones each week's table holds for it. */
  lemma MergeOfPortTables(thisWeek: Table<Port>, lastWeek: Table<Port>)
    requires Distinct(thisWeek) && Distinct(lastWeek)
    ensures Compared(Merge(thisWeek, lastWeek)) == KeySet(thisWeek) * KeySet(lastWeek)
    ensures forall c :: c in Merge(thisWeek, lastWeek) ==>
      Find(thisWeek, c.port) == Some(c.unitsThis) && Find(lastWeek, c.port) == Some(c.unitsLast)
    ensures PortsDistinct(Merge(thisWeek, lastWeek))
  {
    var m := Merge(thisWeek, lastWeek);
    MergePortsDistinct(thisWeek, lastWeek);
    forall c | c in m
      ensures Find(thisWeek, c.port) == Some(c.unitsThis) && Find(lastWeek, c.port) == Some(c.unitsLast)
    {
      var e, f :| e in thisWeek && f in lastWeek && e.key == f.key &&
        c == PortComparison(e.key, e.units, f.units);
      FindEntry(thisWeek, e);
      FindEntry(lastWeek, f);
    }
    forall p | p in KeySet(thisWeek) * KeySet(lastWeek)
      ensures p in Compared(m)
    {
      var e :| e in thisWeek && e.key == p;
      var f :| f in lastWeek && f.key == p;
      assert PortComparison(p, e.units, f.units) in m;
    }
  }

  /** A compared port occurs in both weeks' summaries. */
  lemma ComparedPortsPresent(thisWeek: Table<GroupKey>, lastWeek: Table<GroupKey>)
    ensures forall c :: c in Merge(RollUp(thisWeek), RollUp(lastWeek)) ==>
      c.port in PortsOf(thisWeek) && c.port in PortsOf(lastWeek)
  {
    forall c | c in Merge(RollUp(thisWeek), RollUp(lastWeek))
      ensures c.port in PortsOf(thisWeek) && c.port in PortsOf(lastWeek)
    {
      var e, f :| e in RollUp(thisWeek) && f in RollUp(lastWeek) && e.key == f.key &&
        c == PortComparison(e.key, e.units, f.units);
      assert e.key in KeySet(RollUp(thisWeek)) && f.key in KeySet(RollUp(lastWeek));
    }
  }

  /** No port appears on two comparison rows. */
  predicate PortsDistinct(m: seq<PortComparison>) {
    forall i, j :: 0 <= i < j < |m| ==> m[i].port != m[j].port
  }

  lemma FirstKeyUnique(t: Table<Port>)
    requires Distinct(t) && |t| > 0
    ensures Distinct(t[1..])
    ensures t[0].key !in KeySet(t[1..])
  {
    forall i | 0 <= i < |t[1..]| ensures t[1..][i].key != t[0].key {
      assert t[1..][i] == t[i + 1];
    }
  }

  lemma NoPartner(e: Entry<Port>, lastWeek: Table<Port>)
    requires e.key !in KeySet(lastWeek)
    ensures MatchesOf(e, lastWeek) == []
  {
    if |lastWeek| > 0 {
      assert lastWeek[0].key in KeySet(lastWeek);
      NoPartner(e, lastWeek[1..]);
    }
  }

  /** Against a table with one entry per port, an entry finds at most one
      partner. */
  lemma {:induction false} MatchesAtMostOne(e: Entry<Port>, lastWeek: Table<Port>)
    requires Distinct(lastWeek)
    ensures |MatchesOf(e, lastWeek)| <= 1
    decreases |lastWeek|
  {
    if |lastWeek| > 0 {
      var f := lastWeek[0];
      var rest := MatchesOf(e, lastWeek[1..]);
      FirstKeyUnique(lastWeek);
      MatchesAtMostOne(e, lastWeek[1..]);
      if f.key == e.key {
        NoPartner(e, lastWeek[1..]);
      }
    }
  }

  lemma {:induction false} MergePortsDistinct(thisWeek: Table<Port>, lastWeek: Table<Port>)
    requires Distinct(thisWeek) && Distinct(lastWeek)
    ensures PortsDistinct(Merge(thisWeek, lastWeek))
    decreases |thisWeek|
  {
    if |thisWeek| > 0 {
      var e := thisWeek[0];
      var a := MatchesOf(e, lastWeek);
      var b := Merge(thisWeek[1..], lastWeek);
      FirstKeyUnique(thisWeek);
      MatchesAtMostOne(e, lastWeek);
      MergePortsDistinct(thisWeek[1..], lastWeek);
      var m := a + b;
      assert Merge(thisWeek, lastWeek) == m;
      forall i, j | 0 <= i < j < |m| ensures m[i].port != m[j].port {
        if i >= |a| {
          assert m[i] == b[i - |a|] && m[j] == b[j - |a|];
        } else {
          assert i == 0 && m[i] == a[0] && a[0] in a;
          assert m[j] == b[j - |a|] && b[j - |a|] in b;
          var g :| g in thisWeek[1..] && g.key == m[j].port;
          assert g.key in KeySet(thisWeek[1..]);
        }
      }
    }
  }

  /** Keeping some rows of a comparison in order keeps its ports distinct. */
  lemma {:induction false} AlertedPortsDistinct(m: seq<PortComparison>)
    requires PortsDistinct(m)
    ensures PortsDistinct(Alerted(m))
    decreases |m|
  {
    if |m| > 0 {
      var h := if IsAlert(m[0]) then [m[0]] else [];
      var r := Alerted(m[1..]);
      assert PortsDistinct(m[1..]) by {
        forall i, j | 0 <= i < j < |m[1..]| ensures m[1..][i].port != m[1..][j].port {
          assert m[1..][i] == m[i + 1] && m[1..][j] == m[j + 1];
        }
      }
      AlertedPortsDistinct(m[1..]);
      var a := h + r;
      assert Alerted(m) == a;
      forall i, j | 0 <= i < j < |a| ensures a[i].port != a[j].port {
        if i >= |h| {
          assert a[i] == r[i - |h|] && a[j] == r[j - |h|];
        } else {
          assert a[i] == m[0];
          assert a[j] == r[j - |h|] && r[j - |h|] in r;
          var k :| 0 <= k < |m[1..]| && m[1..][k] == a[j];
          assert m[k + 1] == a[j];
        }
      }
    }
  }

  predicate IsAlert(c: PortComparison) {
    c.RatioThis().Some? && c.RatioThis().value < AlertThreshold
  }

  /** The comparison rows whose ratio this week is defined and strictly below
      the threshold, in their original order. */
  function Alerted(m: seq<PortComparison>): (a: seq<PortComparison>)
    ensures |a| <= |m|
    ensures forall c :: c in a <==> c in m && IsAlert(c)
  {
    if |m| == 0 then []
    else
      assert forall g :: g in m <==> g == m[0] || g in m[1..];
      (if IsAlert(m[0]) then [m[0]] else []) + Alerted(m[1..])
  }

  /** The alert condition in whole numbers: this week has inbound units and
      five times the outbound units is below four times the inbound ones. A
      ratio of exactly 0.8 is not alerted, and an undefined ratio never is. */
  lemma AlertByCounts(c: PortComparison)
    ensures IsAlert(c) <==> c.unitsThis.unitsIn > 0 && c.unitsThis.unitsOut * 5 < 4 * c.unitsThis.unitsIn
  {
    var threshold := Units(5, 4);
    assert Ratio(threshold).value == AlertThreshold;
    if c.unitsThis.unitsIn > 0 {
      RatioLessByCounts(c.unitsThis, threshold);
    }
  }

  /** The alert looks only at this week, so a port without inflow last week
      is alerted like any other while it has no change of ratio to show. */
  lemma AlertWithoutDelta(c: PortComparison)
    requires c.unitsThis.unitsOut * 5 < 4 * c.unitsThis.unitsIn
    requires c.unitsLast.unitsIn == 0
    ensures IsAlert(c) && c.Delta().None?
  {
  }

  /** Selecting alerts works row by row, so alerted rows keep the order of
      the comparison. */
  lemma {:induction false} AlertedAppend(a: seq<PortComparison>, b: seq<PortComparison>)
    ensures Alerted(a + b) == Alerted(a) + Alerted(b)
    decreases |a|
  {
    if |a| == 0 {
      assert a + b == b;
    } else {
      assert (a + b)[0] == a[0];
      assert (a + b)[1..] == a[1..] + b;
      AlertedAppend(a[1..], b);
    }
  }

  /** A port's ratio comes from its summed counts, not from the mean of its
      carriers' ratios: a carrier with ratio 0 (1 in, 0 out) and one with
      ratio 1 (9 in, 9 out) at the same port average 0.5, below the
      threshold, but the port's summed ratio 9/10 is not alerted. */
  lemma SummedNotAveraged(p: Port, a: string, b: string, last: Units)
    ensures var s := [Entry(GroupKey(p, a), Units(1, 0)), Entry(GroupKey(p, b), Units(9, 9))];
      var c := PortComparison(p, FindOr0(RollUp(s), p), last);
      c.unitsThis == Units(10, 9) &&
      !IsAlert(c) &&
      (Ratio(Units(1, 0)).value + Ratio(Units(9, 9)).value) / 2.0 < AlertThreshold
  {
    var s := [Entry(GroupKey(p, a), Units(1, 0)), Entry(GroupKey(p, b), Units(9, 9))];
    TwoEntryTotal(s, p);
    AlertByCounts(PortComparison(p, Units(10, 9), last));
    assert Ratio(Units(1, 0)).value == 0.0;
    assert Ratio(Units(9, 9)).value == 1.0;
  }

  lemma TwoEntryTotal(s: Table<GroupKey>, p: Port)
    requires |s| == 2
    ensures PortTotal(s, p) == Plus(PortShare(s[0], p), PortShare(s[1], p))
  {
    var tail := s[1..];
    assert tail[1..] == [];
    assert PortTotal(tail[1..], p) == NoUnits;
  }
}
