/** Choosing the rows of one reference week and tagging each as inbound or
    outbound: a row belongs to the week when its tender date or its shipment
    date falls in it, and it is inbound when the tender date does. */
module Windowing {
  import opened Options
  import opened Calendar
  import opened Records

  datatype Movement = In | Out

  /** A row of a week's subset together with its movement type. */
  datatype Tagged = Tagged(row: Row, move: Movement)

  predicate TenderMatches(r: Row, monday: Day) {
    WeekOf(r.tender) == Some(monday)
  }

  predicate ShipmentMatches(r: Row, monday: Day) {
    WeekOf(r.shipment) == Some(monday)
  }

  /** The subset filter: tender week or shipment week is the reference
      Monday. */
  predicate Selected(r: Row, monday: Day) {
    TenderMatches(r, monday) || ShipmentMatches(r, monday)
  }

  /** First tagging pass: rows whose tender week matches become inbound, the
      others stay untagged. */
  function MarkIn(r: Row, monday: Day): Option<Movement> {
    if TenderMatches(r, monday) then Some(In) else None
  }

  /** Second tagging pass: rows whose shipment week matches keep an existing
      tag and otherwise become outbound; other rows are left as they are. */
  function FillOut(r: Row, monday: Day, tag: Option<Movement>): Option<Movement> {
    if ShipmentMatches(r, monday) then Some(tag.GetOr(Out)) else tag
  }

  /** The tag a row ends up with after both passes; the passes tag exactly the
      selected rows. */
  function MovementOf(r: Row, monday: Day): (m: Option<Movement>)
    ensures m.Some? <==> Selected(r, monday)
  {
    FillOut(r, monday, MarkIn(r, monday))
  }

  /** The two passes amount to a priority rule stated on the calendar: a row
      is inbound exactly when it was tendered during the week, and outbound
      exactly when it was not tendered but shipped during the week, so a row
      tendered and shipped in the same week is inbound. */
  lemma MovementPriority(r: Row, monday: Day)
    ensures MovementOf(r, monday) == Some(In) <==> DuringWeek(r.tender, monday)
    ensures MovementOf(r, monday) == Some(Out) <==>
      !DuringWeek(r.tender, monday) && DuringWeek(r.shipment, monday)
  {
    WeekOfMatches(r.tender, monday);
    WeekOfMatches(r.shipment, monday);
  }

  /** The tagged subset of `rows` for the week starting `monday`, in row
      order. */
  function Window(rows: seq<Row>, monday: Day): (w: seq<Tagged>)
    ensures |w| <= |rows|
    ensures forall t :: t in w ==> t.row in rows && MovementOf(t.row, monday) == Some(t.move)
    ensures forall r :: r in rows && Selected(r, monday) ==>
      Tagged(r, MovementOf(r, monday).value) in w
    ensures forall t :: t in w ==> t.row.tender.Some? || t.row.shipment.Some?
  {
    if |rows| == 0 then []
    else
      var rest := Window(rows[1..], monday);
      var r := rows[0];
      if Selected(r, monday) then [Tagged(r, MovementOf(r, monday).value)] + rest else rest
  }

  /** Windowing works row by row: it distributes over concatenation. */
  lemma {:induction false} WindowAppend(a: seq<Row>, b: seq<Row>, monday: Day)
    ensures Window(a + b, monday) == Window(a, monday) + Window(b, monday)
    decreases |a|
  {
    if |a| == 0 {
      assert a + b == b;
    } else {
      assert (a + b)[1..] == a[1..] + b;
      WindowAppend(a[1..], b, monday);
    }
  }

  /** Only a Monday can be a week start, so a reference date that is not a
      Monday selects no row at all. */
  lemma NonMondaySelectsNothing(rows: seq<Row>, monday: Day)
    requires !IsMonday(monday)
    ensures Window(rows, monday) == []
  {
  }
}
