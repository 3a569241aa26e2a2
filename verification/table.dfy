/** The donation table shared by the donor page and the viewer page: one record
    per donation, the column header of the stored CSV file, and the exceptions
    the pages can raise on the paths modelled here. */
module Table {

  datatype Option<+T> = None | Some(value: T)

  datatype Result<+T, +E> = Ok(value: T) | Err(error: E)

  /** The Python exceptions reachable on the modelled paths. */
  datatype Error =
    | KeyError(column: string)     // a DataFrame column looked up by a name it does not have
    | NameError(variable: string)  // a variable read on a run that never bound it

  /** A calendar date as the date widget yields it. */
  datatype Date = Date(year: int, month: int, day: int)

  /** One row of donor_data.csv. Rows written by the donor page have no `Notes`
      key, so pandas stores an empty cell there: `notes == None`. */
  datatype Record = Record(
    donorId: string,
    donorName: string,
    email: string,
    amount: real,
    date: Date,
    paymentMethod: string,
    notes: Option<string>)

  /** A DataFrame: its column header, in order, and its rows, in file order. */
  datatype Table = Table(columns: seq<string>, rows: seq<Record>)

  /** The options of the payment-method select box. */
  const PaymentMethods: seq<string> := ["Online", "Bank Transfer", "Cash"]

  /** The smallest amount the number input accepts. */
  const MinAmount: real := 1.0

  /** The longest name or e-mail the text inputs accept. */
  const MaxChars: nat := 50

  /** What the submission form's widgets let through. */
  predicate FormInput(name: string, email: string, amount: real, paymentMethod: string)
  {
    |name| <= MaxChars && |email| <= MaxChars && amount >= MinAmount && paymentMethod in PaymentMethods
  }

  /** A row as the donor page writes it. */
  predicate FromForm(r: Record)
  {
    FormInput(r.donorName, r.email, r.amount, r.paymentMethod) && r.notes == None
  }

  predicate AllFromForm(rows: seq<Record>)
  {
    forall i :: 0 <= i < |rows| ==> FromForm(rows[i])
  }

  /** The Donor_ID column holds no value twice. */
  predicate DistinctIds(rows: seq<Record>)
  {
    forall i, j :: 0 <= i < j < |rows| ==> rows[i].donorId != rows[j].donorId
  }

  predicate HasId(rows: seq<Record>, id: string)
  {
    exists i :: 0 <= i < |rows| && rows[i].donorId == id
  }
}
