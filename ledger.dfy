/** The RAW DATA worksheet: a value and a display format per cell. The
    sheet is changed in place, one cell assignment at a time, so it is a
    class; `SheetData` is the value of its state, which the specifications
    of the import are written against. */
module Ledger {
  import opened Wrappers
  import opened Layout
  import Amount
  import Dates

  /** A cell address: 1-based row and column. */
  datatype Cell = Cell(row: nat, col: SheetColumn)

  /** What a cell may hold once the import has written it. A formula is
      stored as its text, for the spreadsheet application to evaluate. */
  datatype CellValue =
    | TextValue(text: string)
    | NumberValue(amount: Amount.Decimal)
    | DateValue(date: Dates.Date)
    | FormulaValue(formula: string)

  /** The contents of the sheet: the value of every cell that has one, and
      the `number_format` of every cell whose format was set. */
  datatype SheetData = SheetData(values: map<Cell, CellValue>, formats: map<Cell, string>)
  {
    function ValueAt(c: Cell): Option<CellValue> {
      if c in values then Some(values[c]) else None
    }

    function FormatAt(c: Cell): Option<string> {
      if c in formats then Some(formats[c]) else None
    }

    /** `cell.value = v`. */
    function Put(c: Cell, v: CellValue): SheetData {
      SheetData(values[c := v], formats)
    }

    /** `cell.number_format = f`. */
    function PutFormat(c: Cell, f: string): SheetData {
      SheetData(values, formats[c := f])
    }
  }

  /** An assignment changes the one cell it names: reading that cell gives
      the new value or format, and every other reading is as before. */
  lemma PutReadBack(d: SheetData, c: Cell, v: CellValue, f: string, c': Cell)
    ensures d.Put(c, v).ValueAt(c') == if c' == c then Some(v) else d.ValueAt(c')
    ensures d.Put(c, v).FormatAt(c') == d.FormatAt(c')
    ensures d.PutFormat(c, f).FormatAt(c') == if c' == c then Some(f) else d.FormatAt(c')
    ensures d.PutFormat(c, f).ValueAt(c') == d.ValueAt(c')
  {
  }

  class Worksheet {
    var values: map<Cell, CellValue>
    var formats: map<Cell, string>

    /** The sheet as loaded from the workbook. */
    constructor(d: SheetData)
      ensures Data() == d
    {
      values := d.values;
      formats := d.formats;
    }

    function Data(): SheetData
      reads this
    {
      SheetData(values, formats)
    }

    /** `sheet.cell(row=row, column=col).value = v`; rows and columns below 1
        are refused, as the spreadsheet library refuses them. */
    method SetValue(row: nat, col: SheetColumn, v: CellValue)
      requires row >= 1
      modifies this
      ensures Data() == old(Data()).Put(Cell(row, col), v)
    {
      values := values[Cell(row, col) := v];
    }

    /** `sheet.cell(row=row, column=col).number_format = f`. */
    method SetNumberFormat(row: nat, col: SheetColumn, f: string)
      requires row >= 1
      modifies this
      ensures Data() == old(Data()).PutFormat(Cell(row, col), f)
    {
      formats := formats[Cell(row, col) := f];
    }
  }
}
