/** What one Marketplace 1 record becomes: skipped, a ledger row, or an
    error that stops the import. This is the decision the loop body makes
    before and while it writes the row; the writing itself is in
    `Importer`. */
module Normalizer {
  import opened Strings
  import opened Wrappers
  import opened Layout
  import opened Amount
  import opened Dates
  import opened Formulas

  const MarketplaceName := "Marketplace 1"
  const ClosedStatus := "Closed"
  const DateDisplayFormat := "dd/mm/yyyy"
  const YearDisplayFormat := "0"

  /** The errors that end the run: a record too short to have a status
      field (`IndexError`), a sales field `float()` refuses and a date field
      `strptime` refuses (`ValueError`). */
  datatype RecordError =
    | MissingStatus(fieldCount: nat)
    | MalformedSales(salesText: string)
    | MalformedDate(dateText: string)

  /** What a `Closed` record contributes, whatever row it goes to. */
  datatype Fields = Fields(status: string, country: string, productCode: string, sales: Decimal, date: Date)

  /** The loop body's decision on one record, before any row is chosen. */
  datatype Verdict = Skip | Take(fields: Fields) | Stop(error: RecordError)

  /** The ten values of a ledger row, in column order. */
  datatype LedgerRow = LedgerRow(
    marketplace: string,
    status: string,
    country: string,
    productCode: string,
    productName: string,
    sales: Decimal,
    date: Date,
    weekNumber: string,
    month: string,
    year: string)

  datatype Outcome = Rejected | Accepted(row: LedgerRow) | Fatal(error: RecordError)

  /** The record reaches the status field. */
  predicate HasStatus(raw: seq<string>) {
    |raw| > StatusField as int
  }

  /** The trimmed status is exactly `Closed`, case included. */
  predicate IsClosed(raw: seq<string>) {
    HasStatus(raw) && Strip(raw[StatusField]) == ClosedStatus
  }

  /** The record stops the run. */
  predicate IsFatal(raw: seq<string>) {
    !HasStatus(raw)
    || (IsClosed(raw)
        && (CoerceSales(Strip(raw[SalesField])).None? || ParseDate(Strip(raw[DateField])).None?))
  }

  /** The fields are read after every one of them is trimmed; a record is
      taken only when its status is `Closed`, and then its sales field is
      converted before its date field. */
  function Inspect(raw: seq<string>): Verdict {
    var cleaned := StripAll(raw);
    if |cleaned| <= StatusField as int then Stop(MissingStatus(|raw|))
    else if cleaned[StatusField] != ClosedStatus then Skip
    else
      var salesText := cleaned[SalesField];
      match CoerceSales(salesText)
      case None => Stop(MalformedSales(salesText))
      case Some(sales) =>
        var dateText := cleaned[DateField];
        match ParseDate(dateText)
        case None => Stop(MalformedDate(dateText))
        case Some(date) =>
          Take(Fields(cleaned[StatusField], cleaned[CountryField], cleaned[ProductCodeField], sales, date))
  }

  /** The ledger row for a taken record written at `row`: the marketplace
      name, the copied fields, and the formulas of that row. */
  function RowAt(f: Fields, row: nat): LedgerRow {
    LedgerRow(
      MarketplaceName, f.status, f.country, f.productCode, ProductNameFormula(row),
      f.sales, f.date, WeekNumberFormula(row), MonthFormula(row), YearFormula(row))
  }

  /** What the loop body does with `raw` when `row` is the next free row. */
  function Normalize(raw: seq<string>, row: nat): Outcome {
    match Inspect(raw)
    case Skip => Rejected
    case Take(f) => Accepted(RowAt(f, row))
    case Stop(e) => Fatal(e)
  }

  /** A record is fatal when it is too short or when it is `Closed` and its
      sales or date field is refused; it is skipped when its status is
      anything but `Closed`; otherwise it is taken. The error names the
      trimmed text that was refused. */
  lemma Classify(raw: seq<string>)
    ensures var v := Inspect(raw);
      && (v.Stop? <==> IsFatal(raw))
      && (v.Skip? <==> HasStatus(raw) && !IsClosed(raw))
      && (v.Take? <==> IsClosed(raw) && !IsFatal(raw))
      && (v == Stop(MissingStatus(|raw|)) <==> !HasStatus(raw))
      && (v.Stop? && v.error.MalformedSales? ==>
            IsClosed(raw) && v.error.salesText == Strip(raw[SalesField]))
      && (v.Stop? && v.error.MalformedDate? ==>
            IsClosed(raw) && CoerceSales(Strip(raw[SalesField])).Some?
            && v.error.dateText == Strip(raw[DateField]))
  {
  }

  /** Among records that do not stop the run, the taken ones are exactly
      the `Closed` ones. */
  lemma TakenIffClosed(raw: seq<string>)
    requires !IsFatal(raw)
    ensures Inspect(raw).Take? <==> IsClosed(raw)
  {
  }

  /** A taken record carries the trimmed status, country and product code,
      and the converted sales and date of the trimmed fields; the date is a
      real calendar date. */
  lemma TakenFields(raw: seq<string>)
    requires Inspect(raw).Take?
    ensures var f := Inspect(raw).fields;
      && IsClosed(raw)
      && f.status == Strip(raw[13]) == "Closed"
      && f.country == Strip(raw[2])
      && f.productCode == Strip(raw[3])
      && CoerceSales(Strip(raw[10])) == Some(f.sales)
      && ParseDate(Strip(raw[1])) == Some(f.date)
      && ValidDate(f.date)
  {
  }

  /** Conversely, a record whose trimmed status is `Closed` and whose
      trimmed sales and date fields convert is taken with those fields. */
  lemma TakenWhenFieldsConvert(raw: seq<string>, sales: Decimal, date: Date)
    requires |raw| > StatusField as int && Strip(raw[StatusField]) == ClosedStatus
    requires CoerceSales(Strip(raw[SalesField])) == Some(sales)
    requires ParseDate(Strip(raw[DateField])) == Some(date)
    ensures Inspect(raw) == Take(Fields(ClosedStatus, Strip(raw[CountryField]), Strip(raw[ProductCodeField]), sales, date))
  {
  }

  /** An accepted record's row: the literal marketplace name, the trimmed
      fields, the converted sales and date, and formulas that refer to
      `row` itself. */
  lemma AcceptedRow(raw: seq<string>, row: nat)
    requires Normalize(raw, row).Accepted?
    ensures var n := Normalize(raw, row).row;
      && n.marketplace == "Marketplace 1"
      && n.status == Strip(raw[13]) == "Closed"
      && n.country == Strip(raw[2])
      && n.productCode == Strip(raw[3])
      && CoerceSales(Strip(raw[10])) == Some(n.sales)
      && ParseDate(Strip(raw[1])) == Some(n.date)
      && ValidDate(n.date)
      && n.productName == "=VLOOKUP(D" + NatToString(row) + ",SKU!A:B,2,0)"
      && n.weekNumber == "=WEEKNUM(G" + NatToString(row) + ",1)"
      && n.month == "=MONTH(G" + NatToString(row) + ")"
      && n.year == "=YEAR(G" + NatToString(row) + ")"
  {
    TakenFields(raw);
    FormulaTexts(row);
  }

  /** Whether a record is taken, skipped or fatal does not depend on the
      row it would go to, and two rows for the same record differ only in
      their formulas. */
  lemma RowOnlyInFormulas(raw: seq<string>, row1: nat, row2: nat)
    ensures Normalize(raw, row1).Accepted? == Normalize(raw, row2).Accepted?
    ensures Normalize(raw, row1).Rejected? == Normalize(raw, row2).Rejected?
    ensures Normalize(raw, row1).Fatal? ==> Normalize(raw, row1) == Normalize(raw, row2)
    ensures Normalize(raw, row1).Accepted? ==>
      var a, b := Normalize(raw, row1).row, Normalize(raw, row2).row;
      a.(productName := b.productName, weekNumber := b.weekNumber, month := b.month, year := b.year) == b
  {
  }
}
