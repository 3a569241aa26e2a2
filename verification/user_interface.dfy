/** The viewer page: a per-session row cursor that reports the rows appended
    since the last refresh, the summary figures over the current table, and
    the donor picked for a thank-you message. */
module UserInterface {
  import opened Table
  import opened DonorInterface

  // ---------------------------------------------------------------------------
  // Change detection.

  /** The row count a new session starts from: the table's length, or 0 when
      the file is missing. */
  function InitializeRowCount(file: Option<Table>): (n: nat)
    ensures file.Some? ==> n == |file.value.rows|
    ensures file.None? ==> n == 0
  {
    match file
    case Some(t) => |t.rows|
    case None => 0
  }

  /** What `check_for_new_rows` returns: the new rows (None for pandas' None)
      and a row count. */
  datatype Check = Check(newRows: Option<seq<Record>>, count: nat)

  /** The cursor diff. Rows come back only when the table has grown past
      `previous`; the count is the table's current length whenever the file
      exists, even when it has not grown, and `previous` when it is missing. */
  function CheckForNewRows(file: Option<Table>, previous: nat): (c: Check)
    ensures c.newRows.Some? <==> file.Some? && |file.value.rows| > previous
    ensures c.newRows.Some? ==>
      c.newRows.value != [] && file.value.rows == file.value.rows[..previous] + c.newRows.value
    ensures file.Some? ==> c.count == |file.value.rows|
    ensures file.None? ==> c.count == previous
  {
    match file
    case None => Check(None, previous)
    case Some(t) =>
      if |t.rows| > previous then Check(Some(t.rows[previous..]), |t.rows|)
      else Check(None, |t.rows|)
  }

  /** The session cursor after one press of "Refresh Donations": the returned
      count is taken only when rows came back. */
  function NextCursor(file: Option<Table>, cursor: nat): (next: nat)
    ensures next >= cursor
    ensures next != cursor ==> file.Some? && next == |file.value.rows|
    ensures file.Some? && cursor <= |file.value.rows| ==> next == |file.value.rows|
  {
    var check := CheckForNewRows(file, cursor);
    if check.newRows.Some? then check.count else cursor
  }

  /** One browser session of the viewer page. */
  class Viewer {
    /** The session's row cursor. */
    var rowCount: nat

    /** The first run of a session, which finds no cursor yet. */
    constructor (store: DonorStore)
      ensures rowCount == InitializeRowCount(store.file)
    {
      rowCount := InitializeRowCount(store.file);
    }

    /** "Refresh Donations": ask for the rows past the cursor and move the
        cursor only when some came back. */
    method Refresh(store: DonorStore) returns (newRows: Option<seq<Record>>)
      modifies this
      ensures newRows == CheckForNewRows(store.file, old(rowCount)).newRows
      ensures rowCount == NextCursor(store.file, old(rowCount))
    {
      var check := CheckForNewRows(store.file, rowCount);
      newRows := check.newRows;
      if newRows.Some? {
        rowCount := check.count;
      }
    }
  }

  /** A session that has just started sees nothing new. */
  lemma InitialCursorSeesNothing(file: Option<Table>)
    ensures CheckForNewRows(file, InitializeRowCount(file)).newRows == None
  {
  }

  /** A second refresh with no append in between reports no new rows. */
  lemma SecondRefreshSeesNothing(file: Option<Table>, cursor: nat)
    ensures CheckForNewRows(file, NextCursor(file, cursor)).newRows == None
  {
  }

  /** After a submission is stored, a cursor that had caught up with the old
      table reports the rows past it followed by exactly the new record. */
  lemma RefreshAfterSubmit(t: Table, record: Record, cursor: nat)
    requires cursor <= |t.rows|
    ensures CheckForNewRows(Some(Concat(t, record)), cursor) == Check(Some(t.rows[cursor..] + [record]), |t.rows| + 1)
  {
    var u := Concat(t, record);
    assert u.rows == t.rows + [record];
    assert u.rows[cursor..] == t.rows[cursor..] + [record];
  }

  // ---------------------------------------------------------------------------
  // Summary figures.

  /** `Donation_Amount.sum()`. Non-negative amounts give a non-negative total. */
  function Total(rows: seq<Record>): (r: real)
    ensures (forall i :: 0 <= i < |rows| ==> rows[i].amount >= 0.0) ==> r >= 0.0
  {
    if rows == [] then 0.0 else Total(rows[..|rows| - 1]) + rows[|rows| - 1].amount
  }

  lemma {:induction false} TotalConcat(a: seq<Record>, b: seq<Record>)
    ensures Total(a + b) == Total(a) + Total(b)
    decreases |b|
  {
    if b == [] {
      assert a + b == a;
    } else {
      assert (a + b)[..|a + b| - 1] == a + b[..|b| - 1];
      assert (a + b)[|a + b| - 1] == b[|b| - 1];
      TotalConcat(a, b[..|b| - 1]);
    }
  }

  /** If every row came through the form, the total is at least 1.0 per row. */
  lemma {:induction false} TotalAtLeast(rows: seq<Record>)
    requires AllFromForm(rows)
    ensures Total(rows) >= |rows| as real * MinAmount
  {
    if rows != [] {
      var front := rows[..|rows| - 1];
      assert forall i :: 0 <= i < |front| ==> front[i] == rows[i];
      TotalAtLeast(front);
      assert FromForm(rows[|rows| - 1]);
    }
  }

  /** The distinct values of the `Email` column. */
  function Emails(rows: seq<Record>): (s: set<string>)
    ensures forall e :: e in s <==> exists i :: 0 <= i < |rows| && rows[i].email == e
    ensures |s| <= |rows|
  {
    if rows == [] then {}
    else
      var front := rows[..|rows| - 1];
      var s := Emails(front) + {rows[|rows| - 1].email};
      assert forall i :: 0 <= i < |front| ==> front[i] == rows[i];
      s
  }

  /** `len(Email.unique())`: the number of distinct e-mails. */
  function UniqueDonors(rows: seq<Record>): (n: nat)
    ensures n <= |rows|
    ensures n == 0 <==> rows == []
  {
    if rows != [] then assert rows[0].email in Emails(rows); |Emails(rows)|
    else |Emails(rows)|
  }

  /** One more row adds a donor exactly when its e-mail is new. */
  lemma UniqueDonorsAppend(rows: seq<Record>, record: Record)
    ensures UniqueDonors(rows + [record]) == UniqueDonors(rows) + (if record.email in Emails(rows) then 0 else 1)
  {
    var u := rows + [record];
    assert u[..|u| - 1] == rows;
    assert u[|u| - 1] == record;
    var before, after := Emails(rows), Emails(u);
    assert after == before + {record.email};
    if record.email in before {
      assert after == before;
    } else {
      assert |after| == |before| + 1;
    }
  }

  /** `Donation_Amount.mean()`: None stands for pandas' NaN on an empty table. */
  function Average(rows: seq<Record>): (a: Option<real>)
    ensures a.Some? <==> rows != []
    ensures a.Some? ==> a.value * (|rows| as real) == Total(rows)
  {
    if rows == [] then None else Some(Total(rows) / (|rows| as real))
  }

  datatype Summary = Summary(total: real, uniqueDonors: nat, average: Option<real>)

  /** The "Summary Statistics" block. It is shown only while the session cursor
      is positive, and reads the table loaded earlier on the same run: when
      the file was missing that variable was never bound. */
  function SummaryPanel(cursor: nat, snapshot: Option<Table>): (r: Result<Option<Summary>, Error>)
    ensures r == Ok(None) <==> cursor == 0
    ensures r.Err? <==> (cursor > 0 &&
      (snapshot.None? || "Donation_Amount" !in snapshot.value.columns || "Email" !in snapshot.value.columns))
    ensures cursor > 0 && snapshot.None? ==> r == Err(NameError("current_data"))
    ensures cursor > 0 && snapshot.Some? && "Donation_Amount" !in snapshot.value.columns ==>
      r == Err(KeyError("Donation_Amount"))
    ensures cursor > 0 && snapshot.Some? && "Donation_Amount" in snapshot.value.columns && "Email" !in snapshot.value.columns ==>
      r == Err(KeyError("Email"))
    ensures r.Ok? && r.value.Some? ==>
      var rows := snapshot.value.rows;
      r.value.value == Summary(Total(rows), UniqueDonors(rows), Average(rows))
  {
    if cursor == 0 then Ok(None)
    else if snapshot.None? then Err(NameError("current_data"))
    else if "Donation_Amount" !in snapshot.value.columns then Err(KeyError("Donation_Amount"))
    else if "Email" !in snapshot.value.columns then Err(KeyError("Email"))
    else
      var rows := snapshot.value.rows;
      Ok(Some(Summary(Total(rows), UniqueDonors(rows), Average(rows))))
  }

  /** Three donations of 10, 20 and 30 from two e-mail addresses. */
  lemma SummaryExample(d: Date)
    ensures var rows := [
        Record("1", "Ann", "a", 10.0, d, "Cash", None),
        Record("2", "Bob", "b", 20.0, d, "Online", None),
        Record("3", "Ann", "a", 30.0, d, "Cash", None)];
      SummaryPanel(3, Some(Table(RecordColumns, rows))) == Ok(Some(Summary(60.0, 2, Some(20.0))))
  {
    var rows := [
        Record("1", "Ann", "a", 10.0, d, "Cash", None),
        Record("2", "Bob", "b", 20.0, d, "Online", None),
        Record("3", "Ann", "a", 30.0, d, "Cash", None)];
    assert rows[..2][..1] == rows[..1];
    assert rows[..1][..0] == [];
    assert rows[..2] == rows[..|rows| - 1];
    assert Total(rows[..1]) == 10.0;
    assert Total(rows[..2]) == 30.0;
    assert Emails(rows) == {"a", "b"};
  }

  // ---------------------------------------------------------------------------
  // The donor picked for a thank-you message.

  /** `current_data[current_data["Donor_Name"] == selected].iloc[0]`, as a row
      index: the earliest row with that name, or None when there is none
      (where pandas would raise IndexError; the select box only offers names
      taken from the column). */
  function DonorDetails(rows: seq<Record>, selected: string): (r: Option<nat>)
    ensures r.Some? ==> r.value < |rows| && rows[r.value].donorName == selected
    ensures r.Some? ==> forall j :: 0 <= j < r.value ==> rows[j].donorName != selected
    ensures r.None? ==> forall j :: 0 <= j < |rows| ==> rows[j].donorName != selected
  {
    if rows == [] then None
    else if rows[0].donorName == selected then Some(0)
    else match DonorDetails(rows[1..], selected)
      case None => None
      case Some(k) => Some(k + 1)
  }

  /** Rows appended later never change which donor the lookup finds once the
      name is already present. */
  lemma {:induction false} DonorDetailsStable(rows: seq<Record>, more: seq<Record>, selected: string)
    requires DonorDetails(rows, selected).Some?
    ensures DonorDetails(rows + more, selected) == DonorDetails(rows, selected)
  {
    if rows[0].donorName != selected {
      assert (rows + more)[1..] == rows[1..] + more;
      DonorDetailsStable(rows[1..], more, selected);
    }
  }
}
