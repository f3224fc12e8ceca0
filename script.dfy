/** The program's `main` as it runs: the loop body writes a `Closed` record
    into the RAW DATA sheet one cell at a time, the loop walks the CSV
    records with a cursor that starts at the first empty row, and the
    workbook is saved only when the loop finishes. Each method is proved
    against the functions of `Normalizer` and `Importer`. */
module Script {
  import opened Strings
  import opened Wrappers
  import opened Layout
  import opened Amount
  import opened Dates
  import opened Formulas
  import opened Ledger
  import opened Normalizer
  import opened Importer

  /** `d` differs from `d0` at most in the cells of `row` up to the sales
      column: what a record that fails part-way has written. */
  ghost predicate StartedRow(d0: SheetData, d: SheetData, row: nat) {
    && d.formats == d0.formats
    && forall c: Cell :: c.row != row || c.col > SalesCol ==> d.ValueAt(c) == d0.ValueAt(c)
  }

  lemma StartedRowPut(d0: SheetData, d: SheetData, row: nat, col: SheetColumn, v: CellValue)
    requires StartedRow(d0, d, row) && col <= SalesCol
    ensures StartedRow(d0, d.Put(Cell(row, col), v), row)
  {
    forall c: Cell | c.row != row || c.col > SalesCol
      ensures d.Put(Cell(row, col), v).ValueAt(c) == d0.ValueAt(c)
    {
      PutReadBack(d, Cell(row, col), v, "", c);
    }
  }

  /** The first five columns of a `Closed` record's row: the marketplace
      name, the copied status, country and product code, and the product
      name formula. */
  method WriteCopiedFields(sheet: Worksheet, row: nat, status: string, country: string, productCode: string)
    requires row >= 1
    modifies sheet
    ensures sheet.Data() == old(sheet.Data())
      .Put(Cell(row, MarketplaceCol), TextValue(MarketplaceName))
      .Put(Cell(row, StatusCol), TextValue(status))
      .Put(Cell(row, CountryCol), TextValue(country))
      .Put(Cell(row, ProductCodeCol), TextValue(productCode))
      .Put(Cell(row, ProductNameCol), FormulaValue(ProductNameFormula(row)))
    ensures StartedRow(old(sheet.Data()), sheet.Data(), row)
  {
    ghost var d0 := sheet.Data();
    ghost var d := d0;
    sheet.SetValue(row, MarketplaceCol, TextValue(MarketplaceName));
    StartedRowPut(d0, d, row, MarketplaceCol, TextValue(MarketplaceName));
    d := sheet.Data();
    sheet.SetValue(row, StatusCol, TextValue(status));
    StartedRowPut(d0, d, row, StatusCol, TextValue(status));
    d := sheet.Data();
    sheet.SetValue(row, CountryCol, TextValue(country));
    StartedRowPut(d0, d, row, CountryCol, TextValue(country));
    d := sheet.Data();
    sheet.SetValue(row, ProductCodeCol, TextValue(productCode));
    StartedRowPut(d0, d, row, ProductCodeCol, TextValue(productCode));
    d := sheet.Data();
    sheet.SetValue(row, ProductNameCol, FormulaValue(ProductNameFormula(row)));
    StartedRowPut(d0, d, row, ProductNameCol, FormulaValue(ProductNameFormula(row)));
  }

  /** The date, shown as `dd/mm/yyyy`, and the week, month and year
      formulas that read it, the year shown as a plain number. */
  method WriteDateColumns(sheet: Worksheet, row: nat, date: Date)
    requires row >= 1
    modifies sheet
    ensures sheet.Data() == old(sheet.Data())
      .Put(Cell(row, DateCol), DateValue(date))
      .PutFormat(Cell(row, DateCol), DateDisplayFormat)
      .Put(Cell(row, WeekNumberCol), FormulaValue(WeekNumberFormula(row)))
      .Put(Cell(row, MonthCol), FormulaValue(MonthFormula(row)))
      .Put(Cell(row, YearCol), FormulaValue(YearFormula(row)))
      .PutFormat(Cell(row, YearCol), YearDisplayFormat)
  {
    sheet.SetValue(row, DateCol, DateValue(date));
    sheet.SetNumberFormat(row, DateCol, DateDisplayFormat);
    sheet.SetValue(row, WeekNumberCol, FormulaValue(WeekNumberFormula(row)));
    sheet.SetValue(row, MonthCol, FormulaValue(MonthFormula(row)));
    sheet.SetValue(row, YearCol, FormulaValue(YearFormula(row)));
    sheet.SetNumberFormat(row, YearCol, YearDisplayFormat);
  }

  /** The body of the loop over the Marketplace 1 records: trim every
      field, skip a record whose status is not `Closed`, then write the
      marketplace name, status, country, product code and product name
      formula, convert and write the sales, parse and write the date with
      its display format, and write the week, month and year formulas with
      the year's display format. A failed index, conversion or parse ends
      the body where it happens, so a record that fails part-way has
      already written the cells before the failure. */
  method CopyRecord(sheet: Worksheet, raw: seq<string>, rowToWrite: nat) returns (outcome: Outcome)
    requires rowToWrite >= 1
    modifies sheet
    ensures outcome == Normalize(raw, rowToWrite)
    ensures outcome.Rejected? ==> sheet.Data() == old(sheet.Data())
    ensures outcome.Accepted? ==> sheet.Data() == WriteRow(old(sheet.Data()), rowToWrite, outcome.row)
    ensures outcome.Fatal? ==> StartedRow(old(sheet.Data()), sheet.Data(), rowToWrite)
  {
    ghost var d0 := sheet.Data();
    var cleaned := StripAll(raw);
    if |cleaned| <= StatusField as int {
      return Fatal(MissingStatus(|raw|));
    }
    var status := cleaned[StatusField];
    if status != ClosedStatus {
      return Rejected;
    }
    WriteCopiedFields(sheet, rowToWrite, status, cleaned[CountryField], cleaned[ProductCodeField]);

    var salesText := cleaned[SalesField];
    var sales := CoerceSales(salesText);
    if sales.None? {
      return Fatal(MalformedSales(salesText));
    }
    ghost var d := sheet.Data();
    sheet.SetValue(rowToWrite, SalesCol, NumberValue(sales.value));
    StartedRowPut(d0, d, rowToWrite, SalesCol, NumberValue(sales.value));

    var dateText := cleaned[DateField];
    var date := ParseDate(dateText);
    if date.None? {
      return Fatal(MalformedDate(dateText));
    }
    WriteDateColumns(sheet, rowToWrite, date.value);

    var fields := Fields(status, cleaned[CountryField], cleaned[ProductCodeField], sales.value, date.value);
    outcome := Accepted(RowAt(fields, rowToWrite));
  }

  /** A record that fails part-way after a successful run over `done`
      leaves the rows above the first free row, and the columns right of the
      ledger, as they were before the run. */
  lemma FailureFrame(d0: SheetData, done: seq<seq<string>>, start: nat, d: SheetData)
    requires Import(d0, done, start).Success?
    requires StartedRow(Import(d0, done, start).value.0, d, Import(d0, done, start).value.1)
    ensures forall c: Cell :: c.row < start || c.col > YearCol ==> d.ValueAt(c) == d0.ValueAt(c)
  {
    ImportFrame(d0, done, start);
  }

  /** One turn of the loop: when the loop body on record `i` has the
      outcome `Normalize` gives at the cursor and leaves the sheet as
      `CopyRecord` promises, the loop's state after the turn is `Import`'s
      on one more record, or the run has stopped with that record's error. */
  lemma LoopStep(d0: SheetData, records: seq<seq<string>>, start: nat, i: nat, o: Outcome, after: SheetData)
    requires i < |records| && Import(d0, records[..i], start).Success?
    requires o == Normalize(records[i], Import(d0, records[..i], start).value.1)
    requires o.Rejected? ==> after == Import(d0, records[..i], start).value.0
    requires o.Accepted? ==>
      after == WriteRow(Import(d0, records[..i], start).value.0, Import(d0, records[..i], start).value.1, o.row)
    requires o.Fatal? ==> StartedRow(Import(d0, records[..i], start).value.0, after, Import(d0, records[..i], start).value.1)
    ensures !o.Fatal? ==>
      && Import(d0, records[..i + 1], start).Success?
      && Import(d0, records[..i + 1], start).value.0 == after
      && Import(d0, records[..i + 1], start).value.1 == Import(d0, records[..i], start).value.1 + (if o.Accepted? then 1 else 0)
    ensures o.Fatal? ==>
      && Import(d0, records, start).Failure?
      && Import(d0, records, start).error == Abort(i, o.error)
      && forall c: Cell :: c.row < start || c.col > YearCol ==> after.ValueAt(c) == d0.ValueAt(c)
  {
    assert records[..i + 1] == records[..i] + [records[i]];
    ImportExtend(d0, records[..i], start, records[i]);
    if o.Fatal? {
      ImportFailurePrefix(d0, records, start, i + 1);
      FailureFrame(d0, records[..i], start, after);
    }
  }

  /** The loop `for row in marketplace1_reader`, from the first free row:
      it does what `Import` states, in place, with the cursor moving down
      one row per copied record. A fatal record ends the loop at once;
      cells above the first free row and right of the ledger are then
      still as they were. */
  method ImportMarketplace1(sheet: Worksheet, records: seq<seq<string>>, firstFreeRow: nat)
    returns (result: Result<nat, Abort>)
    requires firstFreeRow >= 1
    modifies sheet
    ensures result.Success? <==> Import(old(sheet.Data()), records, firstFreeRow).Success?
    ensures result.Success? ==> sheet.Data() == Import(old(sheet.Data()), records, firstFreeRow).value.0
    ensures result.Success? ==> result.value == Import(old(sheet.Data()), records, firstFreeRow).value.1
    ensures result.Failure? ==> result.error == Import(old(sheet.Data()), records, firstFreeRow).error
    ensures result.Failure? ==> forall c: Cell :: c.row < firstFreeRow || c.col > YearCol ==>
              sheet.Data().ValueAt(c) == old(sheet.Data()).ValueAt(c)
  {
    ghost var d0 := sheet.Data();
    var rowToWrite := firstFreeRow;
    var i := 0;
    assert records[..0] == [];
    while i < |records|
      invariant i <= |records|
      invariant firstFreeRow <= rowToWrite
      invariant Import(d0, records[..i], firstFreeRow).Success?
      invariant sheet.Data() == Import(d0, records[..i], firstFreeRow).value.0
      invariant rowToWrite == Import(d0, records[..i], firstFreeRow).value.1
    {
      var outcome := CopyRecord(sheet, records[i], rowToWrite);
      LoopStep(d0, records, firstFreeRow, i, outcome, sheet.Data());
      if outcome.Fatal? {
        return Failure(Abort(i, outcome.error));
      }
      if outcome.Accepted? {
        rowToWrite := rowToWrite + 1;
      }
      i := i + 1;
    }
    assert records[..i] == records;
    return Success(rowToWrite);
  }

  /** `main`: the cursor starts one row below the sheet's last used row,
      the Marketplace 1 records are imported, and the workbook is saved
      only when the loop ends without an exception. The saved sheet keeps
      every cell of the rows that were already in use. */
  method Run(sheet: Worksheet, records: seq<seq<string>>, maxRow: nat) returns (saved: Option<SheetData>)
    modifies sheet
    ensures saved.Some? <==> Import(old(sheet.Data()), records, maxRow + 1).Success?
    ensures saved.Some? ==> saved.value == Import(old(sheet.Data()), records, maxRow + 1).value.0
    ensures saved.Some? ==> forall c: Cell :: c.row <= maxRow ==>
      && saved.value.ValueAt(c) == old(sheet.Data()).ValueAt(c)
      && saved.value.FormatAt(c) == old(sheet.Data()).FormatAt(c)
  {
    ghost var d0 := sheet.Data();
    var rowToWrite := maxRow + 1;
    var result := ImportMarketplace1(sheet, records, rowToWrite);
    if result.Success? {
      ImportFrame(d0, records, rowToWrite);
      saved := Some(sheet.Data());
    } else {
      saved := None;
    }
  }
}
