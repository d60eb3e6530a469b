/** The rows of the `vw_efetividade` view once loaded and normalised: one row
    per "título" (a contract line item) with its competency date, partner,
    status, bank and value. */
module Titles {
  import opened Orders

  datatype Option<+T> = None | Some(value: T)

  /** A calendar date, the outcome of `pd.to_datetime` on one cell. */
  datatype Date = Date(year: int, month: int, day: int)

  /** A month bucket: a `Period` of frequency "M". */
  datatype Month = Month(year: int, month: int)

  /** `Timestamp.to_period("M")`: the month a date falls in. */
  function MonthOf(d: Date): Month {
    Month(d.year, d.month)
  }

  /** Chronological order of month buckets. */
  predicate MonthLt(a: Month, b: Month) {
    a.year < b.year || (a.year == b.year && a.month < b.month)
  }

  lemma MonthLtIsStrictTotalOrder()
    ensures StrictTotalOrder(MonthLt)
  {
  }

  /** One row after line 42 of app.py: the competency date column holds the
      parsed date, or `None` where parsing failed (`errors="coerce"`) or the
      cell was null. Money is held in integer cents. */
  datatype Row = Row(
    date: Option<Date>,
    partner: Option<string>,
    status: Option<string>,
    bank: Option<string>,
    value: int)

  /** The text columns `nome_parceiro`, `status_titulo` and `banco`. */
  datatype TextColumn = PartnerName | TitleStatus | BankName

  function Text(r: Row, c: TextColumn): Option<string> {
    match c
    case PartnerName => r.partner
    case TitleStatus => r.status
    case BankName => r.bank
  }

  /** `df[column].dropna()` for a text column: its non-null values in row order. */
  function NonNull(rows: seq<Row>, c: TextColumn): (vs: seq<string>)
    ensures forall v :: v in vs <==> exists r :: r in rows && Text(r, c) == Some(v)
  {
    if rows == [] then []
    else
      var rest := NonNull(rows[1..], c);
      assert forall r :: r in rows <==> r == rows[0] || r in rows[1..];
      match Text(rows[0], c)
      case Some(v) => [v] + rest
      case None => rest
  }

  /** `df["data_competencia"].dropna().dt.to_period("M")`: the month buckets
      of the rows whose date parsed, in row order. */
  function Buckets(rows: seq<Row>): (ms: seq<Month>)
    ensures forall m :: m in ms <==> exists r :: r in rows && r.date.Some? && MonthOf(r.date.value) == m
  {
    if rows == [] then []
    else
      var rest := Buckets(rows[1..]);
      assert forall r :: r in rows <==> r == rows[0] || r in rows[1..];
      match rows[0].date
      case Some(d) => [MonthOf(d)] + rest
      case None => rest
  }

  /** `df["valor"].sum()`: 0 for no rows. */
  function SumValues(rows: seq<Row>): int {
    if rows == [] then 0 else rows[0].value + SumValues(rows[1..])
  }
}
