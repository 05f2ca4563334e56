/** Shipment rows as loaded from the spreadsheet, and the cleaning step that
    keeps only rows naming both a departure port and a first-leg carrier. */
module Records {
  import opened Options
  import opened Calendar

  /** One spreadsheet row after date coercion: an empty port or carrier cell
      is `None`, and a date cell that did not parse is `None`. */
  datatype RawRow = RawRow(
    port: Option<string>,
    carrier: Option<string>,
    tender: Option<Day>,
    shipment: Option<Day>)

  /** A row that survived cleaning: port and carrier are always present. */
  datatype Row = Row(
    port: string,
    carrier: string,
    tender: Option<Day>,
    shipment: Option<Day>)

  predicate Complete(r: RawRow) {
    r.port.Some? && r.carrier.Some?
  }

  function ToRow(r: RawRow): Row
    requires Complete(r)
  {
    Row(r.port.value, r.carrier.value, r.tender, r.shipment)
  }

  /** Drops every row missing a port or a carrier, keeping the order of the
      rest. */
  function Clean(raw: seq<RawRow>): (rows: seq<Row>)
    ensures |rows| <= |raw|
    ensures forall i :: 0 <= i < |raw| && Complete(raw[i]) ==> ToRow(raw[i]) in rows
    ensures forall x :: x in rows ==>
      exists i :: 0 <= i < |raw| && Complete(raw[i]) && ToRow(raw[i]) == x
  {
    if |raw| == 0 then []
    else
      var rest := Clean(raw[1..]);
      assert forall x :: x in rest ==>
        exists i :: 0 <= i < |raw| && Complete(raw[i]) && ToRow(raw[i]) == x by {
        forall x | x in rest
          ensures exists i :: 0 <= i < |raw| && Complete(raw[i]) && ToRow(raw[i]) == x
        {
          var j :| 0 <= j < |raw[1..]| && Complete(raw[1..][j]) && ToRow(raw[1..][j]) == x;
          assert raw[j + 1] == raw[1..][j];
        }
      }
      assert forall i :: 1 <= i < |raw| ==> raw[i] == raw[1..][i - 1];
      if Complete(raw[0]) then [ToRow(raw[0])] + rest else rest
  }

  /** Cleaning works row by row: it distributes over concatenation. */
  lemma {:induction false} CleanAppend(a: seq<RawRow>, b: seq<RawRow>)
    ensures Clean(a + b) == Clean(a) + Clean(b)
    decreases |a|
  {
    if |a| == 0 {
      assert a + b == b;
    } else {
      assert (a + b)[1..] == a[1..] + b;
      CleanAppend(a[1..], b);
    }
  }

  /** Removing a row that lacks a port or a carrier, wherever it sits, leaves
      the cleaned rows unchanged: such a row never reaches any later step. */
  lemma IncompleteRowDropped(raw: seq<RawRow>, i: nat)
    requires i < |raw| && !Complete(raw[i])
    ensures Clean(raw[..i] + raw[i + 1..]) == Clean(raw)
  {
    assert raw == raw[..i] + ([raw[i]] + raw[i + 1..]);
    CleanAppend(raw[..i], [raw[i]] + raw[i + 1..]);
    CleanAppend([raw[i]], raw[i + 1..]);
    CleanAppend(raw[..i], raw[i + 1..]);
    assert Clean([raw[i]]) == [] by {
      assert [raw[i]][1..] == [];
    }
  }
}
