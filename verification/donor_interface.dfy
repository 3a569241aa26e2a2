/** The donor page: load the stored table (or a fallback when the file is
    missing), tell a returning donor from a new one, append the new donation
    and store the whole table again. */
module DonorInterface {
  import opened Table

  /** The header of the table `load_data` makes up when the file is missing.
      Its second column is `Name`, not `Donor_Name`. */
  const FallbackColumns: seq<string> :=
    ["Donor_ID", "Name", "Email", "Donation_Amount", "Donation_Date", "Payment_Method", "Notes"]

  /** The keys of the record the page appends, in the order the dict lists them. */
  const RecordColumns: seq<string> :=
    ["Donor_ID", "Donor_Name", "Email", "Donation_Amount", "Donation_Date", "Payment_Method"]

  /** Reads the stored table; a missing file yields an empty table with the
      fallback header instead. */
  function LoadData(file: Option<Table>): (t: Table)
    ensures file.Some? ==> t == file.value
    ensures file.None? ==> t.rows == [] && t.columns == FallbackColumns && |t.columns| == 7
    ensures file.None? ==> "Name" in t.columns && "Donor_Name" !in t.columns
    ensures file.None? ==> forall c :: c in RecordColumns && c != "Donor_Name" ==> c in t.columns
  {
    match file
    case Some(t) => t
    case None => Table(FallbackColumns, [])
  }

  // ---------------------------------------------------------------------------
  // The repeat-donor check, written the way pandas evaluates it: two element-wise
  // comparisons, an element-wise `&`, then `.any()`.

  function NameColumn(rows: seq<Record>): seq<string>
  {
    seq(|rows|, i requires 0 <= i < |rows| => rows[i].donorName)
  }

  function EmailColumn(rows: seq<Record>): seq<string>
  {
    seq(|rows|, i requires 0 <= i < |rows| => rows[i].email)
  }

  /** `column == value`, element by element (exact, case-sensitive). */
  function Equals(column: seq<string>, value: string): seq<bool>
  {
    seq(|column|, i requires 0 <= i < |column| => column[i] == value)
  }

  /** The element-wise `&` of two boolean Series of equal length. */
  function And(a: seq<bool>, b: seq<bool>): seq<bool>
    requires |a| == |b|
  {
    seq(|a|, i requires 0 <= i < |a| => a[i] && b[i])
  }

  /** `Series.any()`: true exactly when some element is true. */
  function Any(mask: seq<bool>): (r: bool)
    ensures r <==> exists i :: 0 <= i < |mask| && mask[i]
  {
    if mask == [] then false
    else
      var rest := Any(mask[1..]);
      assert rest ==> exists i :: 0 <= i < |mask| && mask[i] by {
        if rest {
          var i :| 0 <= i < |mask[1..]| && mask[1..][i];
          assert mask[i + 1];
        }
      }
      assert (!mask[0] && exists i :: 0 <= i < |mask| && mask[i]) ==> rest by {
        if !mask[0] && exists i :: 0 <= i < |mask| && mask[i] {
          var i :| 0 <= i < |mask| && mask[i];
          assert mask[1..][i - 1];
        }
      }
      mask[0] || rest
  }

  /** The reference meaning of "repeat donor": some existing row carries both
      the submitted name and the submitted e-mail. */
  ghost predicate IsRepeat(rows: seq<Record>, name: string, email: string)
  {
    exists i :: 0 <= i < |rows| && rows[i].donorName == name && rows[i].email == email
  }

  /** The repeat check against a loaded table. Looking up a column the table
      does not have raises KeyError; `Donor_Name` is looked up first. */
  function RepeatCheck(t: Table, name: string, email: string): (r: Result<bool, Error>)
    ensures r.Err? <==> "Donor_Name" !in t.columns || "Email" !in t.columns
    ensures r.Err? ==> r.error == KeyError(if "Donor_Name" !in t.columns then "Donor_Name" else "Email")
    ensures r.Ok? ==> (r.value <==> IsRepeat(t.rows, name, email))
  {
    if "Donor_Name" !in t.columns then Err(KeyError("Donor_Name"))
    else if "Email" !in t.columns then Err(KeyError("Email"))
    else
      var mask := And(Equals(NameColumn(t.rows), name), Equals(EmailColumn(t.rows), email));
      assert (exists i :: 0 <= i < |mask| && mask[i]) <==> IsRepeat(t.rows, name, email) by {
        assert forall i :: 0 <= i < |mask| ==>
          (mask[i] <==> t.rows[i].donorName == name && t.rows[i].email == email);
      }
      Ok(Any(mask))
  }

  // ---------------------------------------------------------------------------
  // The new record and `pd.concat`.

  /** The record the page builds from the form; it has no `Notes` key. */
  function NewRecord(donorId: string, name: string, email: string, amount: real, date: Date, paymentMethod: string): (r: Record)
    ensures r.notes == None
    ensures FormInput(name, email, amount, paymentMethod) ==> FromForm(r)
  {
    Record(donorId, name, email, amount, date, paymentMethod, None)
  }

  predicate NoDuplicates(s: seq<string>)
  {
    forall i, j :: 0 <= i < j < |s| ==> s[i] != s[j]
  }

  /** The header `pd.concat` gives: the old columns in their order, followed by
      the new keys that are not yet columns. The body adds them in the order
      the keys come; the contract does not fix that order. */
  function MergeColumns(columns: seq<string>, keys: seq<string>): (merged: seq<string>)
    ensures |columns| <= |merged| && merged[..|columns|] == columns
    ensures forall c :: c in merged <==> c in columns || c in keys
    ensures NoDuplicates(columns) ==> NoDuplicates(merged)
    decreases |keys|
  {
    if keys == [] then columns
    else if keys[0] in columns then MergeColumns(columns, keys[1..])
    else
      var next := MergeColumns(columns + [keys[0]], keys[1..]);
      assert (columns + [keys[0]])[..|columns|] == columns;
      next
  }

  /** `pd.concat([t, DataFrame([record])], ignore_index=True)`. */
  function Concat(t: Table, record: Record): (u: Table)
    ensures |u.rows| == |t.rows| + 1 && u.rows[..|t.rows|] == t.rows && u.rows[|t.rows|] == record
    ensures |t.columns| <= |u.columns| && u.columns[..|t.columns|] == t.columns
    ensures forall c :: c in u.columns <==> c in t.columns || c in RecordColumns
  {
    Table(MergeColumns(t.columns, RecordColumns), t.rows + [record])
  }

  // ---------------------------------------------------------------------------
  // The stored file and the submission.

  /** Which message the page shows after a successful submission. */
  datatype Greeting = WelcomeBack | ThankYou

  class DonorStore {
    /** The contents of donor_data.csv; None while the file does not exist. */
    var file: Option<Table>

    constructor (initial: Option<Table>)
      ensures file == initial
    {
      file := initial;
    }

    /** One press of "Submit Donation": load, check for a repeat donor, append
        the new record and overwrite the file. When the check raises, nothing
        is written. */
    method Submit(donorId: string, name: string, email: string, amount: real, date: Date, paymentMethod: string)
      returns (outcome: Result<Greeting, Error>)
      requires FormInput(name, email, amount, paymentMethod)
      modifies this
      ensures outcome.Err? <==> RepeatCheck(LoadData(old(file)), name, email).Err?
      ensures outcome.Err? ==> outcome.error == RepeatCheck(LoadData(old(file)), name, email).error && file == old(file)
      ensures old(file).None? ==> outcome == Err(KeyError("Donor_Name")) && file == None
      ensures outcome.Ok? ==> (outcome.value == WelcomeBack <==> IsRepeat(LoadData(old(file)).rows, name, email))
      ensures outcome.Ok? ==> file == Some(Concat(LoadData(old(file)), NewRecord(donorId, name, email, amount, date, paymentMethod)))
    {
      var donorData := LoadData(file);
      var repeat := RepeatCheck(donorData, name, email);
      if repeat.Err? {
        return Err(repeat.error);
      }
      outcome := if repeat.value then Ok(WelcomeBack) else Ok(ThankYou);
      var newRecord := NewRecord(donorId, name, email, amount, date, paymentMethod);
      donorData := Concat(donorData, newRecord);
      file := Some(donorData);
    }
  }

  // ---------------------------------------------------------------------------
  // Properties of a submission.

  /** On a fresh start the fallback header has no `Donor_Name`, so the repeat
      check raises and the submission stores nothing. */
  lemma FreshStartFails(name: string, email: string)
    ensures RepeatCheck(LoadData(None), name, email) == Err(KeyError("Donor_Name"))
  {
  }

  /** The appended row carries exactly the submitted values and an empty
      `Notes`; every earlier row is kept, in order. */
  lemma AppendedRecord(t: Table, donorId: string, name: string, email: string, amount: real, date: Date, paymentMethod: string)
    ensures var u := Concat(t, NewRecord(donorId, name, email, amount, date, paymentMethod));
      |u.rows| == |t.rows| + 1 &&
      (forall i :: 0 <= i < |t.rows| ==> u.rows[i] == t.rows[i]) &&
      var last := u.rows[|t.rows|];
      last.donorId == donorId && last.donorName == name && last.email == email &&
      last.amount == amount && last.date == date && last.paymentMethod == paymentMethod &&
      last.notes == None
  {
  }

  /** Once a submission is appended, the same pair is reported as a repeat,
      whatever the header was before: the append adds both looked-up columns.
      (That a pair absent before is reported as new is the last ensures of
      `RepeatCheck`.) */
  lemma RepeatAfterSubmit(t: Table, donorId: string, name: string, email: string, amount: real, date: Date, paymentMethod: string)
    ensures RepeatCheck(Concat(t, NewRecord(donorId, name, email, amount, date, paymentMethod)), name, email) == Ok(true)
  {
  }

  /** Appending a donation changes the repeat verdict of no other (name, e-mail)
      pair. */
  lemma RepeatOthersUnchanged(t: Table, donorId: string, name: string, email: string, amount: real, date: Date, paymentMethod: string, otherName: string, otherEmail: string)
    requires RepeatCheck(t, otherName, otherEmail).Ok?
    requires otherName != name || otherEmail != email
    ensures RepeatCheck(Concat(t, NewRecord(donorId, name, email, amount, date, paymentMethod)), otherName, otherEmail)
         == RepeatCheck(t, otherName, otherEmail)
  {
    var u := Concat(t, NewRecord(donorId, name, email, amount, date, paymentMethod));
    assert u.rows == t.rows + [u.rows[|t.rows|]];
    RepeatAppend(t.rows, u.rows[|t.rows|], otherName, otherEmail);
  }

  /** A row that does not carry the pair leaves the pair's repeat status as it was. */
  lemma RepeatAppend(rows: seq<Record>, last: Record, name: string, email: string)
    requires last.donorName != name || last.email != email
    ensures IsRepeat(rows + [last], name, email) <==> IsRepeat(rows, name, email)
  {
    var u := rows + [last];
    if IsRepeat(u, name, email) {
      var i :| 0 <= i < |u| && u[i].donorName == name && u[i].email == email;
      assert i < |rows| && u[i] == rows[i];
    }
    if IsRepeat(rows, name, email) {
      var i :| 0 <= i < |rows| && rows[i].donorName == name && rows[i].email == email;
      assert u[i] == rows[i];
    }
  }

  /** With a fresh ID, Donor_ID stays a key of the stored table. */
  lemma IdsStayDistinct(t: Table, donorId: string, name: string, email: string, amount: real, date: Date, paymentMethod: string)
    requires DistinctIds(t.rows) && !HasId(t.rows, donorId)
    ensures DistinctIds(Concat(t, NewRecord(donorId, name, email, amount, date, paymentMethod)).rows)
  {
  }

  /** If every stored row came through the form, so does every row after one
      more submission: amount at least 1.0, a listed payment method, name and
      e-mail within 50 characters, no notes. */
  lemma FormRowsStayValid(t: Table, donorId: string, name: string, email: string, amount: real, date: Date, paymentMethod: string)
    requires AllFromForm(t.rows) && FormInput(name, email, amount, paymentMethod)
    ensures AllFromForm(Concat(t, NewRecord(donorId, name, email, amount, date, paymentMethod)).rows)
  {
  }

  /** A successful submission leaves a table whose repeat check can no longer
      raise: every key of the new record is a column. */
  lemma ColumnsAfterSubmit(t: Table, record: Record)
    requires NoDuplicates(t.columns)
    ensures NoDuplicates(Concat(t, record).columns)
    ensures forall c :: c in RecordColumns ==> c in Concat(t, record).columns
  {
  }
}
