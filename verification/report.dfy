/** The whole weekly computation: clean the rows, take this week's and last
    week's subsets, summarise each, compare the weeks per port and select the
    alerted ports. The reference Monday is a parameter. */
module Report {
  import opened Options
  import opened Calendar
  import opened Records
  import opened Windowing
  import opened Counts
  import opened Tables
  import opened Summary
  import opened Comparison
  import opened CarrierDetail

  datatype AlertReport = AlertReport(
    summaryThis: Table<GroupKey>,
    summaryLast: Table<GroupKey>,
    comparison: seq<PortComparison>,
    alerted: seq<PortComparison>)

  /** The Monday one week before `thisMonday`. */
  function PreviousMonday(thisMonday: Day): (d: Day)
    ensures d < thisMonday
    ensures IsMonday(d) <==> IsMonday(thisMonday)
    ensures IsMonday(thisMonday) ==> WeekStart(thisMonday - 1) == d
  {
    WeekStartUnique(thisMonday - 1, thisMonday - DaysPerWeek);
    thisMonday - DaysPerWeek
  }

  function WeeklyAlert(raw: seq<RawRow>, thisMonday: Day): (rep: AlertReport)
    ensures Distinct(rep.summaryThis) && Distinct(rep.summaryLast)
    ensures forall c :: c in rep.alerted <==> c in rep.comparison && IsAlert(c)
    ensures PortsDistinct(rep.comparison) && PortsDistinct(rep.alerted)
    ensures forall c :: c in rep.comparison ==>
      c.port in PortsOf(rep.summaryThis) && c.port in PortsOf(rep.summaryLast)
  {
    var rows := Clean(raw);
    var summaryThis := Summarize(Window(rows, thisMonday));
    var summaryLast := Summarize(Window(rows, PreviousMonday(thisMonday)));
    var comparison := Merge(RollUp(summaryThis), RollUp(summaryLast));
    MergePortsDistinct(RollUp(summaryThis), RollUp(summaryLast));
    AlertedPortsDistinct(comparison);
    ComparedPortsPresent(summaryThis, summaryLast);
    AlertReport(summaryThis, summaryLast, comparison, Alerted(comparison))
  }

  /** The carrier breakdown printed under an alerted port. */
  function AlertDetail(rep: AlertReport, c: PortComparison): (lines: seq<CarrierLine>)
    requires c in rep.alerted
    ensures CarriersDistinct(lines)
    ensures LineCarriers(lines) == CarriersAt(rep.summaryThis, c.port)
    ensures forall l :: l in lines ==> Find(rep.summaryThis, GroupKey(c.port, l.carrier)) == Some(l.unitsThis)
    ensures forall l :: l in lines ==> l.unitsLast == FindOr0(rep.summaryLast, GroupKey(c.port, l.carrier))
  {
    CarrierLines(rep.summaryThis, rep.summaryLast, c.port)
  }

  /** An alerted port with rows this week, which `WeeklyAlert` guarantees for
      every compared port, has at least one carrier line in its breakdown. */
  lemma AlertDetailNonEmpty(rep: AlertReport, c: PortComparison)
    requires c in rep.alerted && c.port in PortsOf(rep.summaryThis)
    ensures |AlertDetail(rep, c)| > 0
  {
    var s :| s in rep.summaryThis && s.key.port == c.port;
    assert s.key.carrier in LineCarriers(AlertDetail(rep, c));
  }

  /** A row without a port or a carrier has no effect on any part of the
      report, wherever it sits in the input. */
  lemma IncompleteRowIgnored(raw: seq<RawRow>, i: nat, thisMonday: Day)
    requires i < |raw| && !Complete(raw[i])
    ensures WeeklyAlert(raw[..i] + raw[i + 1..], thisMonday) == WeeklyAlert(raw, thisMonday)
  {
    IncompleteRowDropped(raw, i);
  }

  /** A port occurs in a week's summary exactly when some row of that week's
      subset is at that port. */
  lemma PortsOfSummary(w: seq<Tagged>, p: string)
    ensures p in PortsOf(Summarize(w)) <==> exists t :: t in w && t.row.port == p
  {
    var s := Summarize(w);
    if p in PortsOf(s) {
      var e :| e in s && e.key.port == p;
      assert e.key in KeySet(s);
      var t :| t in w && KeyOf(t.row) == e.key;
    }
    if t :| t in w && t.row.port == p {
      assert KeyOf(t.row) in GroupsOf(w);
      var e :| e in s && e.key == KeyOf(t.row);
    }
  }

  /** A week's subset has a row at port `p` exactly when some cleaned row at
      `p` was tendered or shipped that week. */
  lemma WindowHasPort(rows: seq<Row>, monday: Day, p: string)
    ensures (exists t :: t in Window(rows, monday) && t.row.port == p) <==>
      exists r :: r in rows && r.port == p && Selected(r, monday)
  {
    var w := Window(rows, monday);
    if r :| r in rows && r.port == p && Selected(r, monday) {
      assert Tagged(r, MovementOf(r, monday).value) in w;
    }
  }

  /** Inner-join behaviour end to end: a port is in the comparison exactly
      when it has a row this week and a row last week; a port seen in only
      one of the two weeks is dropped. */
  lemma ComparedPorts(raw: seq<RawRow>, thisMonday: Day, p: string)
    ensures p in Compared(WeeklyAlert(raw, thisMonday).comparison) <==>
      (exists r :: r in Clean(raw) && r.port == p && Selected(r, thisMonday)) &&
      (exists r :: r in Clean(raw) && r.port == p && Selected(r, PreviousMonday(thisMonday)))
  {
    var rows := Clean(raw);
    var lastMonday := PreviousMonday(thisMonday);
    var wThis, wLast := Window(rows, thisMonday), Window(rows, lastMonday);
    MergeOfPortTables(RollUp(Summarize(wThis)), RollUp(Summarize(wLast)));
    PortsOfSummary(wThis, p);
    PortsOfSummary(wLast, p);
    WindowHasPort(rows, thisMonday, p);
    WindowHasPort(rows, lastMonday, p);
  }

  /** Every comparison row carries, for each week, the number of that week's
      inbound and outbound rows at its port, summed over carriers; the ratios
      are computed from these sums. */
  lemma ComparisonCounts(raw: seq<RawRow>, thisMonday: Day)
    ensures var rows := Clean(raw);
      var wThis, wLast := Window(rows, thisMonday), Window(rows, PreviousMonday(thisMonday));
      forall c :: c in WeeklyAlert(raw, thisMonday).comparison ==>
        c.unitsThis == Units(PortCount(wThis, c.port, In), PortCount(wThis, c.port, Out)) &&
        c.unitsLast == Units(PortCount(wLast, c.port, In), PortCount(wLast, c.port, Out))
  {
    var rows := Clean(raw);
    var wThis, wLast := Window(rows, thisMonday), Window(rows, PreviousMonday(thisMonday));
    var m := Merge(RollUp(Summarize(wThis)), RollUp(Summarize(wLast)));
    assert WeeklyAlert(raw, thisMonday).comparison == m;
    forall c | c in m
      ensures c.unitsThis == Units(PortCount(wThis, c.port, In), PortCount(wThis, c.port, Out))
      ensures c.unitsLast == Units(PortCount(wLast, c.port, In), PortCount(wLast, c.port, Out))
    {
      MergedRowCounts(wThis, wLast, c);
    }
  }

  lemma MergedRowCounts(wThis: seq<Tagged>, wLast: seq<Tagged>, c: PortComparison)
    requires c in Merge(RollUp(Summarize(wThis)), RollUp(Summarize(wLast)))
    ensures c.unitsThis == Units(PortCount(wThis, c.port, In), PortCount(wThis, c.port, Out))
    ensures c.unitsLast == Units(PortCount(wLast, c.port, In), PortCount(wLast, c.port, Out))
  {
    MergeOfPortTables(RollUp(Summarize(wThis)), RollUp(Summarize(wLast)));
    RollUpCountsRows(wThis, c.port);
    RollUpCountsRows(wLast, c.port);
  }

  /** The alerted ports are exactly the compared ports with inbound units this
      week and fewer than four outbound units for every five inbound. */
  lemma AlertedPorts(raw: seq<RawRow>, thisMonday: Day, c: PortComparison)
    ensures c in WeeklyAlert(raw, thisMonday).alerted <==>
      c in WeeklyAlert(raw, thisMonday).comparison &&
      c.unitsThis.unitsIn > 0 && c.unitsThis.unitsOut * 5 < 4 * c.unitsThis.unitsIn
  {
    AlertByCounts(c);
  }
}
