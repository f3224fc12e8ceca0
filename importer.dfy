/** The Marketplace 1 import: every record of the CSV file, in order, is
    trimmed and filtered, and each `Closed` record is copied into the next
    free row of the RAW DATA sheet. `Import` states what the whole loop
    computes, and `Script` does it in place, cell by cell, as the program
    does. */
module Importer {
  import opened Wrappers
  import opened Layout
  import opened Formulas
  import opened Ledger
  import opened Normalizer

  /** The sheet after a ledger row is written at `row`, in the program's
      order: the ten values, the date format right after the date and the
      year format right after the year. */
  function WriteRow(d: SheetData, row: nat, n: LedgerRow): SheetData {
    d.Put(Cell(row, MarketplaceCol), TextValue(n.marketplace))
     .Put(Cell(row, StatusCol), TextValue(n.status))
     .Put(Cell(row, CountryCol), TextValue(n.country))
     .Put(Cell(row, ProductCodeCol), TextValue(n.productCode))
     .Put(Cell(row, ProductNameCol), FormulaValue(n.productName))
     .Put(Cell(row, SalesCol), NumberValue(n.sales))
     .Put(Cell(row, DateCol), DateValue(n.date))
     .PutFormat(Cell(row, DateCol), DateDisplayFormat)
     .Put(Cell(row, WeekNumberCol), FormulaValue(n.weekNumber))
     .Put(Cell(row, MonthCol), FormulaValue(n.month))
     .Put(Cell(row, YearCol), FormulaValue(n.year))
     .PutFormat(Cell(row, YearCol), YearDisplayFormat)
  }

  /** Row `row` of `d` holds the ledger row `n` in columns 1 to 10, with the
      date shown as `dd/mm/yyyy` and the year as a plain number. */
  predicate RowHolds(d: SheetData, row: nat, n: LedgerRow) {
    && d.ValueAt(Cell(row, MarketplaceCol)) == Some(TextValue(n.marketplace))
    && d.ValueAt(Cell(row, StatusCol)) == Some(TextValue(n.status))
    && d.ValueAt(Cell(row, CountryCol)) == Some(TextValue(n.country))
    && d.ValueAt(Cell(row, ProductCodeCol)) == Some(TextValue(n.productCode))
    && d.ValueAt(Cell(row, ProductNameCol)) == Some(FormulaValue(n.productName))
    && d.ValueAt(Cell(row, SalesCol)) == Some(NumberValue(n.sales))
    && d.ValueAt(Cell(row, DateCol)) == Some(DateValue(n.date))
    && d.ValueAt(Cell(row, WeekNumberCol)) == Some(FormulaValue(n.weekNumber))
    && d.ValueAt(Cell(row, MonthCol)) == Some(FormulaValue(n.month))
    && d.ValueAt(Cell(row, YearCol)) == Some(FormulaValue(n.year))
    && d.FormatAt(Cell(row, DateCol)) == Some(DateDisplayFormat)
    && d.FormatAt(Cell(row, YearCol)) == Some(YearDisplayFormat)
  }

  /** The cells a row write sets first keep their values through the later
      writes. */
  lemma WriteRowLeadingCells(d: SheetData, row: nat, n: LedgerRow)
    ensures var r := WriteRow(d, row, n);
      && r.ValueAt(Cell(row, MarketplaceCol)) == Some(TextValue(n.marketplace))
      && r.ValueAt(Cell(row, StatusCol)) == Some(TextValue(n.status))
  {
  }

  lemma WriteRowMiddleCells(d: SheetData, row: nat, n: LedgerRow)
    ensures var r := WriteRow(d, row, n);
      && r.ValueAt(Cell(row, CountryCol)) == Some(TextValue(n.country))
      && r.ValueAt(Cell(row, ProductCodeCol)) == Some(TextValue(n.productCode))
      && r.ValueAt(Cell(row, ProductNameCol)) == Some(FormulaValue(n.productName))
  {
  }

  lemma WriteRowTrailingCells(d: SheetData, row: nat, n: LedgerRow)
    ensures var r := WriteRow(d, row, n);
      && r.ValueAt(Cell(row, SalesCol)) == Some(NumberValue(n.sales))
      && r.ValueAt(Cell(row, DateCol)) == Some(DateValue(n.date))
      && r.ValueAt(Cell(row, WeekNumberCol)) == Some(FormulaValue(n.weekNumber))
      && r.ValueAt(Cell(row, MonthCol)) == Some(FormulaValue(n.month))
      && r.ValueAt(Cell(row, YearCol)) == Some(FormulaValue(n.year))
      && r.FormatAt(Cell(row, DateCol)) == Some(DateDisplayFormat)
      && r.FormatAt(Cell(row, YearCol)) == Some(YearDisplayFormat)
  {
  }

  /** Writing a row puts the ledger row in it. */
  lemma WriteRowValues(d: SheetData, row: nat, n: LedgerRow)
    ensures RowHolds(WriteRow(d, row, n), row, n)
  {
    WriteRowLeadingCells(d, row, n);
    WriteRowMiddleCells(d, row, n);
    WriteRowTrailingCells(d, row, n);
  }

  /** Writing a row changes columns 1 to 10 of that row and the formats of
      its date and year cells, and no other cell. */
  lemma WriteRowFrame(d: SheetData, row: nat, n: LedgerRow)
    ensures forall c: Cell :: c.row != row || c.col > 10 ==> WriteRow(d, row, n).ValueAt(c) == d.ValueAt(c)
    ensures forall c: Cell :: c != Cell(row, DateCol) && c != Cell(row, YearCol) ==>
              WriteRow(d, row, n).FormatAt(c) == d.FormatAt(c)
  {
  }

  /** Writing a row leaves every other row as it was. */
  lemma RowHoldsFrame(d: SheetData, row: nat, m: LedgerRow, c: nat, n: LedgerRow)
    requires RowHolds(d, row, m) && row != c
    ensures RowHolds(WriteRow(d, c, n), row, m)
  {
    WriteRowFrame(d, c, n);
  }

  /** Why a run stopped: the position of the offending record in the file
      and what was wrong with it. */
  datatype Abort = Abort(record: nat, error: RecordError)

  function Last<T>(s: seq<T>): T
    requires s != []
  {
    s[|s| - 1]
  }

  function Init<T>(s: seq<T>): seq<T>
    requires s != []
  {
    s[..|s| - 1]
  }

  /** The loop over the verdicts on the records, from the sheet `d` and the
      first free row `start`: a skipped record changes nothing, a taken one
      is written at the cursor, which then moves down one row, and the
      first stopping record ends the run. */
  function Apply(d: SheetData, verdicts: seq<Verdict>, start: nat): Result<(SheetData, nat), Abort>
    decreases |verdicts|
  {
    if verdicts == [] then Success((d, start))
    else
      var prev := Apply(d, Init(verdicts), start);
      if prev.Failure? then prev
      else
        match Last(verdicts)
        case Skip => prev
        case Take(f) => Success((WriteRow(prev.value.0, prev.value.1, RowAt(f, prev.value.1)), prev.value.1 + 1))
        case Stop(e) => Failure(Abort(|verdicts| - 1, e))
  }

  /** The verdict on every record. */
  function InspectAll(records: seq<seq<string>>): (vs: seq<Verdict>)
    ensures |vs| == |records|
  {
    if records == [] then [] else InspectAll(Init(records)) + [Inspect(Last(records))]
  }

  /** The `i`-th verdict is the verdict on the `i`-th record. */
  lemma {:induction false} InspectAllAt(records: seq<seq<string>>, i: nat)
    requires i < |records|
    ensures InspectAll(records)[i] == Inspect(records[i])
    decreases |records|
  {
    if i < |records| - 1 {
      InspectAllAt(Init(records), i);
    }
  }

  /** What the program's loop over `records` computes: the sheet and the
      cursor after the last record, or the first record that stops the
      run. */
  function Import(d: SheetData, records: seq<seq<string>>, start: nat): Result<(SheetData, nat), Abort> {
    Apply(d, InspectAll(records), start)
  }

  function CountTaken(verdicts: seq<Verdict>): (k: nat)
    ensures k <= |verdicts|
  {
    if verdicts == [] then 0
    else CountTaken(Init(verdicts)) + (if Last(verdicts).Take? then 1 else 0)
  }

  /** One step of the loop, read backwards from a successful run. */
  lemma ApplyStep(d: SheetData, vs: seq<Verdict>, start: nat)
    requires vs != [] && Apply(d, vs, start).Success?
    ensures Apply(d, Init(vs), start).Success?
    ensures !Last(vs).Stop?
    ensures Last(vs).Skip? ==> Apply(d, vs, start) == Apply(d, Init(vs), start)
    ensures Last(vs).Take? ==>
      var d1, c1 := Apply(d, Init(vs), start).value.0, Apply(d, Init(vs), start).value.1;
      && Apply(d, vs, start).value.0 == WriteRow(d1, c1, RowAt(Last(vs).fields, c1))
      && Apply(d, vs, start).value.1 == c1 + 1
  {
  }

  /** The cursor moves once per taken record and never otherwise. */
  lemma {:induction false} ApplyCursor(d: SheetData, vs: seq<Verdict>, start: nat)
    requires Apply(d, vs, start).Success?
    ensures Apply(d, vs, start).value.1 == start + CountTaken(vs)
    decreases |vs|
  {
    if vs != [] {
      ApplyStep(d, vs, start);
      ApplyCursor(d, Init(vs), start);
    }
  }

  /** Only columns 1 to 10 of the rows from `start` up to the final cursor
      are written, and only the date and year formats there. */
  lemma {:induction false} ApplyFrame(d: SheetData, vs: seq<Verdict>, start: nat)
    requires Apply(d, vs, start).Success?
    ensures var d', c := Apply(d, vs, start).value.0, Apply(d, vs, start).value.1;
      && start <= c
      && (forall cell: Cell :: cell.row < start || cell.row >= c || cell.col > 10 ==>
            d'.ValueAt(cell) == d.ValueAt(cell))
      && (forall cell: Cell :: cell.row < start || cell.row >= c || (cell.col != DateCol && cell.col != YearCol) ==>
            d'.FormatAt(cell) == d.FormatAt(cell))
    decreases |vs|
  {
    if vs != [] {
      ApplyStep(d, vs, start);
      ApplyFrame(d, Init(vs), start);
      var d1, c1 := Apply(d, Init(vs), start).value.0, Apply(d, Init(vs), start).value.1;
      if Last(vs).Take? {
        WriteRowFrame(d1, c1, RowAt(Last(vs).fields, c1));
      }
    }
  }

  /** Counting over a prefix counts no more, and a taken verdict is counted. */
  lemma {:induction false} CountTakenPrefix(vs: seq<Verdict>, j: nat)
    requires j < |vs|
    ensures CountTaken(vs[..j]) + (if vs[j].Take? then 1 else 0) <= CountTaken(vs)
    decreases |vs|
  {
    assert Init(vs[..j + 1]) == vs[..j];
    if j + 1 < |vs| {
      assert Init(vs)[..j] == vs[..j] && Init(vs)[j] == vs[j];
      CountTakenPrefix(Init(vs), j);
    } else {
      assert vs[..j + 1] == vs;
    }
  }

  /** The last verdict, when taken, is written at the cursor reached
      before it. */
  lemma LastWrite(d: SheetData, vs: seq<Verdict>, start: nat, row: nat, f: Fields)
    requires Apply(d, vs, start).Success? && vs != [] && Last(vs) == Take(f)
    requires row == start + CountTaken(Init(vs))
    ensures Apply(d, vs, start).value.0 == WriteRow(Apply(d, Init(vs), start).value.0, row, RowAt(f, row))
  {
    ApplyStep(d, vs, start);
    ApplyCursor(d, Init(vs), start);
  }

  lemma PlacementOfLast(d: SheetData, vs: seq<Verdict>, start: nat, row: nat, f: Fields)
    requires Apply(d, vs, start).Success? && vs != [] && Last(vs) == Take(f)
    requires row == start + CountTaken(Init(vs))
    ensures RowHolds(Apply(d, vs, start).value.0, row, RowAt(f, row))
  {
    LastWrite(d, vs, start, row, f);
    WriteRowValues(Apply(d, Init(vs), start).value.0, row, RowAt(f, row));
  }

  /** A row above the cursor survives the last verdict. */
  lemma RowKept(d: SheetData, vs: seq<Verdict>, start: nat, row: nat, n: LedgerRow)
    requires Apply(d, vs, start).Success? && vs != []
    requires RowHolds(Apply(d, Init(vs), start).value.0, row, n)
    requires row < Apply(d, Init(vs), start).value.1
    ensures RowHolds(Apply(d, vs, start).value.0, row, n)
  {
    ApplyStep(d, vs, start);
    if Last(vs).Take? {
      var d1, c1 := Apply(d, Init(vs), start).value.0, Apply(d, Init(vs), start).value.1;
      RowHoldsFrame(d1, row, n, c1, RowAt(Last(vs).fields, c1));
    }
  }

  /** The row of an earlier taken verdict is above the cursor reached
      before the last verdict. */
  lemma EarlierRowAboveCursor(d: SheetData, vs: seq<Verdict>, start: nat, j: nat)
    requires j < |vs| - 1 && vs[j].Take? && Apply(d, Init(vs), start).Success?
    ensures start + CountTaken(vs[..j]) < Apply(d, Init(vs), start).value.1
  {
    assert Init(vs)[..j] == vs[..j] && Init(vs)[j] == vs[j];
    ApplyCursor(d, Init(vs), start);
    CountTakenPrefix(Init(vs), j);
  }

  /** A successful run was successful on every record before the last. */
  lemma InitSucceeds(d: SheetData, vs: seq<Verdict>, start: nat)
    requires vs != [] && Apply(d, vs, start).Success?
    ensures Apply(d, Init(vs), start).Success?
  {
  }

  /** The taken records land in consecutive rows in file order: the `j`-th,
      taken with fields `f`, is at `start` plus the number taken before it,
      and that row holds `f` with the row's own formulas. */
  lemma {:induction false} ApplyPlacement(d: SheetData, vs: seq<Verdict>, start: nat, j: nat, row: nat, f: Fields)
    requires Apply(d, vs, start).Success?
    requires j < |vs| && vs[j] == Take(f) && row == start + CountTaken(vs[..j])
    ensures RowHolds(Apply(d, vs, start).value.0, row, RowAt(f, row))
    decreases |vs|
  {
    if j == |vs| - 1 {
      assert vs[..j] == Init(vs);
      PlacementOfLast(d, vs, start, row, f);
    } else {
      assert Init(vs)[..j] == vs[..j] && Init(vs)[j] == vs[j];
      InitSucceeds(d, vs, start);
      ApplyPlacement(d, Init(vs), start, j, row, f);
      EarlierRowAboveCursor(d, vs, start, j);
      RowKept(d, vs, start, row, RowAt(f, row));
    }
  }

  /** The run stops exactly when some record stops it, and then at the
      first such record, with that record's error. */
  lemma {:induction false} ApplyFailure(d: SheetData, vs: seq<Verdict>, start: nat)
    ensures Apply(d, vs, start).Failure? <==> exists i :: 0 <= i < |vs| && vs[i].Stop?
    ensures Apply(d, vs, start).Failure? ==>
      var i := Apply(d, vs, start).error.record;
      && i < |vs| && vs[i] == Stop(Apply(d, vs, start).error.error)
      && forall k :: 0 <= k < i ==> !vs[k].Stop?
    decreases |vs|
  {
    if vs != [] {
      var rest := Init(vs);
      ApplyFailure(d, rest, start);
      assert forall k :: 0 <= k < |rest| ==> rest[k] == vs[k];
      assert vs[|vs| - 1] == Last(vs);
    }
  }

  /** Once a prefix of the verdicts stops the run, the rest is never
      looked at. */
  lemma {:induction false} ApplyFailurePrefix(d: SheetData, vs: seq<Verdict>, start: nat, k: nat)
    requires k <= |vs| && Apply(d, vs[..k], start).Failure?
    ensures Apply(d, vs, start).Failure?
    ensures Apply(d, vs, start).error == Apply(d, vs[..k], start).error
    decreases |vs|
  {
    if k == |vs| {
      assert vs[..k] == vs;
    } else {
      assert Init(vs)[..k] == vs[..k];
      ApplyFailurePrefix(d, Init(vs), start, k);
    }
  }

  /** The verdicts on a prefix of the records are a prefix of the verdicts. */
  lemma {:induction false} InspectAllPrefix(records: seq<seq<string>>, k: nat)
    requires k <= |records|
    ensures InspectAll(records[..k]) == InspectAll(records)[..k]
    decreases |records|
  {
    if k == |records| {
      assert records[..k] == records;
    } else {
      assert Init(records)[..k] == records[..k];
      InspectAllPrefix(Init(records), k);
    }
  }

  /** The number of records whose trimmed status is `Closed`. */
  function CountClosed(records: seq<seq<string>>): (k: nat)
    ensures k <= |records|
  {
    if records == [] then 0
    else CountClosed(Init(records)) + (if IsClosed(Last(records)) then 1 else 0)
  }

  /** Without a fatal record, the taken records among the first `j` are
      the `Closed` ones. */
  lemma {:induction false} CountTakenClosed(records: seq<seq<string>>, j: nat)
    requires j <= |records|
    requires forall i :: 0 <= i < |records| ==> !IsFatal(records[i])
    ensures CountTaken(InspectAll(records)[..j]) == CountClosed(records[..j])
  {
    if j > 0 {
      var vs := InspectAll(records);
      assert Init(vs[..j]) == vs[..j - 1] && Last(vs[..j]) == vs[j - 1];
      assert Init(records[..j]) == records[..j - 1] && Last(records[..j]) == records[j - 1];
      CountTakenClosed(records, j - 1);
      InspectAllAt(records, j - 1);
      TakenIffClosed(records[j - 1]);
    }
  }

  /** The verdict on a record stops the run exactly when the record is
      fatal. */
  lemma StopsIffFatal(records: seq<seq<string>>)
    ensures forall i :: 0 <= i < |records| ==> (InspectAll(records)[i].Stop? <==> IsFatal(records[i]))
  {
    forall i | 0 <= i < |records|
      ensures InspectAll(records)[i].Stop? <==> IsFatal(records[i])
    {
      InspectAllAt(records, i);
      Classify(records[i]);
    }
  }

  /** A stopping verdict raises its error whatever row the record would
      have gone to. */
  lemma StoppedRecord(records: seq<seq<string>>, i: nat, e: RecordError)
    requires i < |records| && InspectAll(records)[i] == Stop(e)
    ensures forall row :: Normalize(records[i], row) == Fatal(e)
  {
    InspectAllAt(records, i);
  }

  /** The run stops exactly when some record is fatal, and then at the
      first fatal record, with the error that record raises whatever row it
      would have gone to. */
  lemma ImportFailure(d: SheetData, records: seq<seq<string>>, start: nat)
    ensures Import(d, records, start).Failure? <==> exists i :: 0 <= i < |records| && IsFatal(records[i])
    ensures Import(d, records, start).Failure? ==>
      var i, e := Import(d, records, start).error.record, Import(d, records, start).error.error;
      && i < |records| && IsFatal(records[i])
      && (forall k :: 0 <= k < i ==> !IsFatal(records[k]))
      && (forall row :: Normalize(records[i], row) == Fatal(e))
  {
    var vs := InspectAll(records);
    ApplyFailure(d, vs, start);
    StopsIffFatal(records);
    var r := Apply(d, vs, start);
    if r.Failure? {
      StoppedRecord(records, r.error.record, r.error.error);
    }
  }

  /** In a successful run no record is fatal. */
  lemma SuccessMeansNoFatal(d: SheetData, records: seq<seq<string>>, start: nat)
    requires Import(d, records, start).Success?
    ensures forall i :: 0 <= i < |records| ==> !IsFatal(records[i])
  {
    ApplyFailure(d, InspectAll(records), start);
    StopsIffFatal(records);
  }

  /** A successful run moves the cursor from the first free row by the
      number of `Closed` records. */
  lemma ImportCursor(d: SheetData, records: seq<seq<string>>, start: nat)
    requires Import(d, records, start).Success?
    ensures Import(d, records, start).value.1 == start + CountClosed(records)
  {
    SuccessMeansNoFatal(d, records, start);
    ApplyCursor(d, InspectAll(records), start);
    CountTakenClosed(records, |records|);
    assert records[..|records|] == records && InspectAll(records)[..|records|] == InspectAll(records);
  }

  /** A successful run writes only columns 1 to 10 of the rows from the
      first free row up to the final cursor, and only the date and year
      formats there: rows above the first free row, rows past the last one
      written and columns right of the ledger keep their contents. */
  lemma ImportFrame(d: SheetData, records: seq<seq<string>>, start: nat)
    requires Import(d, records, start).Success?
    ensures var d', c := Import(d, records, start).value.0, Import(d, records, start).value.1;
      && c == start + CountClosed(records)
      && (forall cell: Cell :: cell.row < start || cell.row >= c || cell.col > 10 ==>
            d'.ValueAt(cell) == d.ValueAt(cell))
      && (forall cell: Cell :: cell.row < start || cell.row >= c || (cell.col != DateCol && cell.col != YearCol) ==>
            d'.FormatAt(cell) == d.FormatAt(cell))
  {
    ImportCursor(d, records, start);
    ApplyFrame(d, InspectAll(records), start);
  }

  /** Before any record of a successful run, the taken records are the
      `Closed` ones. */
  lemma TakenBeforeIsClosedBefore(d: SheetData, records: seq<seq<string>>, start: nat, j: nat)
    requires Import(d, records, start).Success? && j <= |records|
    ensures CountTaken(InspectAll(records)[..j]) == CountClosed(records[..j])
  {
    SuccessMeansNoFatal(d, records, start);
    CountTakenClosed(records, j);
  }

  /** A `Closed` record of a successful run is taken. */
  lemma ClosedIsTaken(d: SheetData, records: seq<seq<string>>, start: nat, j: nat)
    requires Import(d, records, start).Success?
    requires j < |records| && IsClosed(records[j])
    ensures InspectAll(records)[j] == Inspect(records[j]) && Inspect(records[j]).Take?
  {
    SuccessMeansNoFatal(d, records, start);
    InspectAllAt(records, j);
    Classify(records[j]);
  }

  /** The `Closed` records are copied in file order into consecutive rows:
      in a successful run the `j`-th record, when `Closed`, sits at the
      first free row plus the number of `Closed` records before it, and that
      row holds the record's fields and that row's formulas. */
  lemma ImportPlacement(d: SheetData, records: seq<seq<string>>, start: nat, j: nat)
    requires Import(d, records, start).Success?
    requires j < |records| && IsClosed(records[j])
    ensures Inspect(records[j]).Take?
    ensures var row := start + CountClosed(records[..j]);
      RowHolds(Import(d, records, start).value.0, row, RowAt(Inspect(records[j]).fields, row))
  {
    ClosedIsTaken(d, records, start, j);
    TakenBeforeIsClosedBefore(d, records, start, j);
    ApplyPlacement(d, InspectAll(records), start, j, start + CountClosed(records[..j]), Inspect(records[j]).fields);
  }

  /** One more verdict after a successful run. */
  lemma ApplyExtend(d: SheetData, vs: seq<Verdict>, start: nat, v: Verdict)
    requires Apply(d, vs, start).Success?
    ensures var d1, c1, next := Apply(d, vs, start).value.0, Apply(d, vs, start).value.1,
                                Apply(d, vs + [v], start);
      && (v.Skip? ==> next.Success? && next.value.0 == d1 && next.value.1 == c1)
      && (v.Take? ==> next.Success? && next.value.0 == WriteRow(d1, c1, RowAt(v.fields, c1)) && next.value.1 == c1 + 1)
      && (v.Stop? ==> next.Failure? && next.error == Abort(|vs|, v.error))
  {
    var all := vs + [v];
    assert Init(all) == vs && Last(all) == v;
  }

  /** One turn of the loop: with the sheet and cursor reached after
      `records`, the next record is skipped, written at the cursor, which
      moves down one row, or stops the run at its own position. */
  lemma ImportExtend(d: SheetData, records: seq<seq<string>>, start: nat, raw: seq<string>)
    requires Import(d, records, start).Success?
    ensures var d1, c1, next := Import(d, records, start).value.0, Import(d, records, start).value.1,
                                Import(d, records + [raw], start);
      && (Normalize(raw, c1).Rejected? ==> next.Success? && next.value.0 == d1 && next.value.1 == c1)
      && (Normalize(raw, c1).Accepted? ==>
            next.Success? && next.value.0 == WriteRow(d1, c1, Normalize(raw, c1).row) && next.value.1 == c1 + 1)
      && (Normalize(raw, c1).Fatal? ==>
            next.Failure? && next.error == Abort(|records|, Normalize(raw, c1).error))
  {
    var all := records + [raw];
    assert Init(all) == records && Last(all) == raw;
    assert InspectAll(all) == InspectAll(records) + [Inspect(raw)];
    ApplyExtend(d, InspectAll(records), start, Inspect(raw));
  }

  /** Once the records up to `k` stop the run, the whole run stops there. */
  lemma ImportFailurePrefix(d: SheetData, records: seq<seq<string>>, start: nat, k: nat)
    requires k <= |records| && Import(d, records[..k], start).Failure?
    ensures Import(d, records, start).Failure?
    ensures Import(d, records, start).error == Import(d, records[..k], start).error
  {
    InspectAllPrefix(records, k);
    ApplyFailurePrefix(d, InspectAll(records), start, k);
  }

  /** A record whose status is not `Closed` changes neither the sheet nor
      the cursor. */
  lemma ImportSkipsOpen(d: SheetData, records: seq<seq<string>>, raw: seq<string>, start: nat)
    requires HasStatus(raw) && !IsClosed(raw)
    ensures Import(d, records + [raw], start) == Import(d, records, start)
  {
    Classify(raw);
    var all := records + [raw];
    assert Init(all) == records && Last(all) == raw;
  }
}
