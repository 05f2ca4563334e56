/** The per-(port, carrier) summary of one week's tagged subset: how many of
    its rows are inbound and how many outbound. */
module Summary {
  import opened Options
  import opened Records
  import opened Windowing
  import opened Counts
  import opened Tables

  datatype GroupKey = GroupKey(port: string, carrier: string)

  function KeyOf(r: Row): GroupKey {
    GroupKey(r.port, r.carrier)
  }

  /** What one tagged row contributes to its group. */
  function UnitOf(m: Movement): Units {
    match m
    case In => Units(1, 0)
    case Out => Units(0, 1)
  }

  /** Number of rows of `w` in group `k` with movement `m`. */
  function CountMove(w: seq<Tagged>, k: GroupKey, m: Movement): nat {
    if |w| == 0 then 0
    else
      var t := w[|w| - 1];
      CountMove(w[..|w| - 1], k, m) + (if KeyOf(t.row) == k && t.move == m then 1 else 0)
  }

  /** Number of rows of `w` with movement `m`, whatever their group. */
  function CountAll(w: seq<Tagged>, m: Movement): nat {
    if |w| == 0 then 0
    else CountAll(w[..|w| - 1], m) + (if w[|w| - 1].move == m then 1 else 0)
  }

  /** The groups that occur in `w`. */
  function GroupsOf(w: seq<Tagged>): set<GroupKey> {
    set t | t in w :: KeyOf(t.row)
  }

  lemma GroupsOfSnoc(w: seq<Tagged>)
    requires |w| > 0
    ensures GroupsOf(w) == GroupsOf(w[..|w| - 1]) + {KeyOf(w[|w| - 1].row)}
  {
    assert w == w[..|w| - 1] + [w[|w| - 1]];
  }

  /** Groups `w` by (port, carrier), counting inbound and outbound rows.
      There is one entry per group that occurs in `w`, its units are exactly
      the numbers of inbound and outbound rows of that group (zero for a
      movement type the group lacks), and the counts over all groups add up
      to the number of rows. */
  function Summarize(w: seq<Tagged>): (s: Table<GroupKey>)
    ensures Distinct(s)
    ensures KeySet(s) == GroupsOf(w)
    ensures forall k :: FindOr0(s, k) == Units(CountMove(w, k, In), CountMove(w, k, Out))
    ensures Total(s) == Units(CountAll(w, In), CountAll(w, Out))
    ensures Total(s).unitsIn + Total(s).unitsOut == |w|
  {
    if |w| == 0 then []
    else
      var t := w[|w| - 1];
      GroupsOfSnoc(w);
      Add(Summarize(w[..|w| - 1]), KeyOf(t.row), UnitOf(t.move))
  }

  /** Every group in a summary has at least one row: no entry is all
      zeros. */
  lemma SummaryEntriesNonEmpty(w: seq<Tagged>)
    ensures forall e :: e in Summarize(w) ==> e.units.unitsIn + e.units.unitsOut > 0
  {
    var s := Summarize(w);
    forall e | e in s
      ensures e.units.unitsIn + e.units.unitsOut > 0
    {
      EntryNonEmpty(w, e);
    }
  }

  lemma EntryNonEmpty(w: seq<Tagged>, e: Entry<GroupKey>)
    requires e in Summarize(w)
    ensures e.units.unitsIn + e.units.unitsOut > 0
  {
    var s := Summarize(w);
    FindEntry(s, e);
    assert e.key in KeySet(s) by {
      assert e in s;
    }
    assert e.key in GroupsOf(w);
    var t :| t in w && KeyOf(t.row) == e.key;
    CountMovePositive(w, t);
    assert e.units == FindOr0(s, e.key);
    assert e.units == Units(CountMove(w, e.key, In), CountMove(w, e.key, Out));
    if t.move == In {
      assert e.units.unitsIn > 0;
    } else {
      assert e.units.unitsOut > 0;
    }
  }

  lemma {:induction false} CountMovePositive(w: seq<Tagged>, t: Tagged)
    requires t in w
    ensures CountMove(w, KeyOf(t.row), t.move) > 0
    decreases |w|
  {
    if w[|w| - 1] != t {
      assert w == w[..|w| - 1] + [w[|w| - 1]];
      assert t in w[..|w| - 1];
      CountMovePositive(w[..|w| - 1], t);
    }
  }
}
