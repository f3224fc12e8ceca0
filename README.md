# Marketplace 1 import into the RAW DATA ledger

`python_script.py` copies sales orders from the Marketplace 1 CSV export into
the `RAW DATA` sheet of a master workbook. It walks the CSV records in file
order and trims every field of each record. It skips a record whose status
field (index 13) is not exactly `Closed`. Each `Closed` record becomes one
ledger row, written at a cursor that starts one row below the sheet's last
used row and moves down one row per copied record. The row holds:

- the literal `Marketplace 1`;
- the status, country (index 2) and product code (index 3);
- a `VLOOKUP` formula for the product name;
- the sales amount (index 10), with `$` and `,` removed and converted by
  `float()`;
- the order date (index 1), parsed by `strptime(…, '%d/%m/%Y')` and shown
  as `dd/mm/yyyy`;
- `WEEKNUM`, `MONTH` and `YEAR` formulas on the row's own date cell, the
  year shown with format `0`.

A record too short to have a status field, or a `Closed` record whose sales
or date field does not convert, raises an exception. That ends the run
before the workbook is saved.

The Dafny modules follow that structure:

- `Strings`: `strip`, `replace(c, '')`, digit strings and `str(n)`.
- `Amount`: the sales coercion, with `float()` modelled as an exact decimal.
- `Dates`: `strptime` with `%d/%m/%Y`.
- `Layout`: the column and field positions.
- `Formulas`: `str.format` on `{}` templates and A1 cell addresses.
- `Ledger`: the worksheet. `Worksheet` is a class whose methods update a map
  of cell values and a map of number formats in place.
- `Normalizer`: the loop body's decision on one record.
- `Importer`: the whole loop as a function over the records.
- `Script`: the program's loop body, loop and `main`, as methods on a
  `Worksheet`, each proved against `Normalizer` and `Importer`.
- `Scenarios`: the sample record quoted in the program, and the edge cases
  of the status test.

The sales field is read at index 10, as the code does. In the sample record
quoted on line 59 that field is `$203,350.00`; `$1,660.00` is at index 5.

## Model

| member | source | states |
|---|---|---|
| `Strings.IsSpace` | python_script.py:64 | the characters `str.strip()` removes, as Python's `isspace` defines them; the class line 64 trims with |
| `Strings.TrimLeft` | python_script.py:64 | `lstrip()` over a class of characters never lengthens the text; TrimLeftSpec states what it keeps and removes |
| `Strings.TrimRight` | python_script.py:64 | `rstrip()` over a class of characters never lengthens the text; TrimRightSpec states what it keeps and removes |
| `Strings.Trim` | python_script.py:64 | both ends trimmed of a class of characters, never lengthening the text; TrimSpec states the result |
| `Strings.Strip` | python_script.py:62-64 | `value.strip()` is the trim with the `isspace` class, and never lengthens the text |
| `Strings.TrimLeftSpec` | python_script.py:62-64 | the left trim keeps the longest suffix that does not start with a character of the class, and only characters of the class were removed |
| `Strings.TrimRightSpec` | python_script.py:62-64 | the right trim keeps the longest prefix that does not end with a character of the class, and only characters of the class were removed |
| `Strings.TrimSpec` | python_script.py:62-64 | the trimmed field is the slice of the field between its leading and trailing characters of the class, and it neither starts nor ends with one |
| `Strings.TrimUnpadded` | python_script.py:62-64 | a field that neither starts nor ends with a character of the class is kept as it is |
| `Strings.TrimIdempotent` | python_script.py:62-64 | trimming twice is trimming once |
| `Strings.StripAll` | python_script.py:64 | `row_cleaned` has as many fields as the record, each the stripped field at the same position |
| `Strings.RemoveChar` | python_script.py:116 | `replace(c, '')` leaves no `c` behind |
| `Strings.RemoveCharAbsent` | python_script.py:116 | text without `c` is left as it is |
| `Strings.RemoveCharKeepsOthers` | python_script.py:116 | every character other than `c` occurs as often after the deletion as before |
| `Strings.RemoveCharConcat` | python_script.py:116 | deleting `c` distributes over concatenation |
| `Strings.NatToString` | python_script.py:97 | `str(row)` is a non-empty digit string without a leading zero whose value is `row` |
| `Strings.NatToStringOfDigits` | python_script.py:97 | `str(int(s)) == s` for every canonical digit string, so `str` is one-to-one |
| `Strings.NatToStringLength` | python_script.py:97 | `str(n)` has at most `k` digits when `n < 10^k` |
| `Strings.DigitsValueConcat` | python_script.py:117 | the value of concatenated digit strings is the first value shifted by the second's length, plus the second value |
| `Strings.DigitsValueBound` | python_script.py:117 | `k` digits are worth less than `10^k` |
| `Strings.IndexOf` | python_script.py:117 | the position found is within the text and holds the character looked for |
| `Strings.IndexOfIsFirst` | python_script.py:117 | no occurrence of the character comes before the position found |
| `Strings.IndexOfConcat` | python_script.py:117 | the first occurrence in `a + b`, when `a` has none, is the first occurrence in `b`, shifted by the length of `a` |
| `Amount.CleanSales` | python_script.py:115-116 | the cleaned sales text contains neither `$` nor `,` |
| `Amount.CleanSalesKeepsOthers` | python_script.py:116 | cleaning deletes exactly the `$` and `,` characters: every other character keeps its count |
| `Amount.CleanSalesOfCleanText` | python_script.py:116 | text without `$` and `,` is left as it is |
| `Amount.CleanSalesIdempotent` | python_script.py:116 | cleaning twice is cleaning once |
| `Amount.ShiftIsProduct` | python_script.py:117 | appending `k` zero digits multiplies a value by `10^k` |
| `Amount.ParseUnsigned` | python_script.py:117 | the unsigned number `float()` reads has a non-negative value |
| `Amount.Fraction` | python_script.py:117 | the fraction digits have exactly `scale` digits and are worth the amount modulo `10^scale` |
| `Amount.WholeText` | python_script.py:117 | the digits before the point are a non-empty digit string |
| `Amount.FractionText` | python_script.py:117 | the fraction part is empty, or a point followed by at least one digit |
| `Amount.GroupAddsOnlyCommas` | python_script.py:116 | the thousands grouping of a currency field inserts nothing but commas |
| `Amount.UngroupGroup` | python_script.py:116 | removing the commas from grouped digits gives the digits back |
| `Amount.ReadParts` | python_script.py:117 | the number read from the digits before and after the point is non-negative and has as many fraction digits as follow the point |
| `Amount.ParseWholeDigits` | python_script.py:117 | digits without a point read as that whole number at scale 0 |
| `Amount.ParseAroundPoint` | python_script.py:117 | text whose first point splits it into whole and fraction digits reads as their combined value at the fraction's scale |
| `Amount.ParseDigitsWithPoint` | python_script.py:117 | digits, a point and `places` digits read as a decimal with `places` fraction digits |
| `Amount.ReadBackWithPoint` | python_script.py:117 | a rendering with a fraction part reads back as the value its two parts combine to |
| `Amount.UnsignedRoundTrip` | python_script.py:117 | `float()` on the unsigned rendering of an amount gives back its magnitude and scale |
| `Amount.Recombine` | python_script.py:117 | the whole part and remainder of an amount put back together give the amount |
| `Amount.FirstPointAfterDigits` | python_script.py:117 | in digits followed by a fraction part, the first point is the one after the digits |
| `Amount.CleanCurrencyText` | python_script.py:115-116 | cleaning a currency field leaves the sign, the plain whole digits and the fraction part |
| `Amount.RemoveCharFrame` | python_script.py:116 | deleting a character changes only the part of the text that contains it |
| `Amount.RenderingEnds` | python_script.py:117 | an unsigned rendering starts with a digit and does not end with a character `float()` trims, so `float()` needs to trim nothing |
| `Amount.ParseSignedText` | python_script.py:117 | `float()` reads a signed rendering back as the amount |
| `Amount.ParseFloatUnsigned` | python_script.py:117 | unsigned text with nothing for `float()` to trim at either end reads as the unsigned number |
| `Amount.ParseFloatNegative` | python_script.py:117 | a leading `-` negates the number read from the rest |
| `Amount.ParseSignedBody` | python_script.py:117 | a sign written before any unpadded digit text that reads as an amount's magnitude gives back the signed amount |
| `Amount.IsFloatSpace` | python_script.py:117 | the characters `float()` trims: the `isspace` class without the separators U+001C..U+001F, which `float()` keeps and refuses |
| `Amount.ParseFloat` | python_script.py:117 | `float()` on decimal text; stated by ParseFloatShape (which texts it accepts), ParseFloatUnsigned, ParseFloatNegative and ParseSignedText (what it reads) |
| `Amount.UnsignedShape` | python_script.py:117 | digits and points only, at most one point, at least one digit; the partner of ParseUnsigned in ParseUnsignedShape |
| `Amount.SignedShape` | python_script.py:117 | an unsigned shape, possibly after one `+` or `-`; the partner of ParseFloat in ParseFloatShape |
| `Amount.ParseUnsignedShape` | python_script.py:117 | the unsigned reading succeeds if and only if the text has the unsigned shape: a letter, a sign, a second point or the lack of any digit is refused |
| `Amount.ShapeOfParts` | python_script.py:117 | digits on either side of the first point give the unsigned shape |
| `Amount.PartsOfShape` | python_script.py:117 | in text of the unsigned shape, the text before and after the first point is all digits, with at least one digit |
| `Amount.ParseFloatShape` | python_script.py:117 | `float()` succeeds if and only if the trimmed text has the signed shape; otherwise it raises `ValueError` |
| `Amount.ForeignCharUnshaped` | python_script.py:117 | a character that is neither a digit nor a point, other than a leading sign, makes `float()` refuse the text |
| `Amount.TwoPointsUnshaped` | python_script.py:117 | two points make `float()` refuse the text |
| `Amount.CoerceSales` | python_script.py:116-117 | the sales conversion; stated by CoerceSalesShape, SalesRoundTrip and the sample scenarios |
| `Amount.CoerceSalesShape` | python_script.py:116-117 | line 117 raises if and only if the field without `$` and `,`, once trimmed, lacks the signed shape |
| `Amount.SalesRoundTrip` | python_script.py:115-117 | the sales coercion inverts the currency rendering: every amount, written as `$1,234.50` or `-$5.00`, is read back exactly |
| `Dates.DaysInMonth` | python_script.py:123 | a month has 28 to 31 days, 31 exactly in the long months, 29 exactly in February of a leap year |
| `Dates.DayField` | python_script.py:123 | a `%d` field that matches is a day from 1 to 31 |
| `Dates.MonthField` | python_script.py:123 | a `%m` field that matches is a month from 1 to 12 |
| `Dates.YearField` | python_script.py:123 | a `%Y` field that matches is a four-digit year |
| `Dates.Assemble` | python_script.py:123 | a date is produced only when it is a real calendar date in years 1 to 9999 |
| `Dates.ParseDate` | python_script.py:121-123 | every date `strptime` returns is a real calendar date |
| `Dates.SplitDate` | python_script.py:123 | cutting the date text at its two `/`; stated by SplitDateFields, SplitAtFirstSeparator and ParseDateFields |
| `Dates.SplitDateFields` | python_script.py:123 | fields without a `/`, joined by `/`, are split back into the same three fields |
| `Dates.SplitAtFirstSeparator` | python_script.py:123 | the first `/` after text without one is where that text ends |
| `Dates.ParseDateFields` | python_script.py:123 | day `/` month `/` year text is read field by field, day first |
| `Dates.FirstSeparator` | python_script.py:123 | the first `/` of `a + "/" + b` is at the length of `a` when `a` has none |
| `Dates.TwoDigits` | python_script.py:127 | a zero-padded two-digit field of a number below 100 is worth that number |
| `Dates.FourDigits` | python_script.py:127 | a zero-padded four-digit field of a number below 10000 is worth that number |
| `Dates.NoSeparatorInDigits` | python_script.py:123 | digits contain no `/` |
| `Dates.ParseShownDate` | python_script.py:123-127 | a date shown as `dd/mm/yyyy` parses back to itself exactly when it is a real calendar date, and to nothing otherwise |
| `Dates.ParseUnpaddedDate` | python_script.py:121-123 | the day and month may be written without zero padding, and the date is still read back exactly |
| `Formulas.TemplatesAsWritten` | python_script.py:9-12 | the four templates are the program's `=VLOOKUP({},{},{},{})`, `=WEEKNUM({},{})`, `=MONTH({})`, `=YEAR({})` |
| `Formulas.FormatIdentity` | python_script.py:9-12 | formatting a template with `{}` for every field gives the template text back |
| `Formulas.ColumnLetter` | python_script.py:93 | `get_column_letter` of a column from 1 to 26 is a capital letter |
| `Formulas.CellRefRoundTrip` | python_script.py:97 | a cell address reads back as its column and row, and no other text reads as that cell |
| `Formulas.Format` | python_script.py:104-170 | `str.format` filling the holes of a template in order; stated by FormatIdentity, VlookupText, WeeknumText and CallText |
| `Formulas.CellRef` | python_script.py:93-97 | the column letter followed by `str(row)`; stated by CellRefRoundTrip and AddressText |
| `Formulas.ProductNameFormula` | python_script.py:93-110 | the `VLOOKUP` formula of a row; stated by ProductNameText and FormulasReferenceOwnRow |
| `Formulas.WeekNumberFormula` | python_script.py:130-143 | the `WEEKNUM` formula of a row; stated by WeekNumberText and FormulasReferenceOwnRow |
| `Formulas.MonthFormula` | python_script.py:146-158 | the `MONTH` formula of a row; stated by MonthText and FormulasReferenceOwnRow |
| `Formulas.YearFormula` | python_script.py:161-173 | the `YEAR` formula of a row; stated by YearText and FormulasReferenceOwnRow |
| `Formulas.VlookupText` | python_script.py:104-107 | the `VLOOKUP` template formatted with four arguments is its text with the arguments in the holes, in order |
| `Formulas.WeeknumText` | python_script.py:140 | the `WEEKNUM` template formatted with two arguments is its text with the arguments in the holes |
| `Formulas.CallText` | python_script.py:155 | a one-argument template formatted with an argument is its name, the argument and `)` |
| `Formulas.AddressText` | python_script.py:93-97 | the address of column D or G on a row is that letter followed by `str(row)` |
| `Formulas.ProductNameText` | python_script.py:93-110 | the product name formula of a row is `=VLOOKUP(D<row>,SKU!A:B,2,0)` |
| `Formulas.WeekNumberText` | python_script.py:130-143 | the week number formula of a row is `=WEEKNUM(G<row>,1)` |
| `Formulas.MonthText` | python_script.py:146-158 | the month formula of a row is `=MONTH(G<row>)` |
| `Formulas.YearText` | python_script.py:161-173 | the year formula of a row is `=YEAR(G<row>)` |
| `Formulas.FormulaTexts` | python_script.py:93-173 | the four formulas of a row, written out with `str(row)` |
| `Formulas.FormulasReferenceOwnRow` | python_script.py:93-173 | every formula of a row refers to that row's own product code or date cell and to no other cell |
| `Ledger.SheetData.Put` | python_script.py:76-173 | `cell(row, column).value = v` on the sheet's contents; stated by PutReadBack |
| `Ledger.SheetData.PutFormat` | python_script.py:127-174 | `cell(row, column).number_format = f` on the sheet's contents; stated by PutReadBack |
| `Ledger.PutReadBack` | python_script.py:76-174 | a cell assignment changes that one cell's value and nothing else, and a format assignment that one cell's format |
| `Ledger.Worksheet.constructor` | python_script.py:40-42 | the sheet holds the workbook's contents as loaded |
| `Ledger.Worksheet.SetValue` | python_script.py:76 | `cell(row, column).value = v` sets that cell's value and nothing else |
| `Ledger.Worksheet.SetNumberFormat` | python_script.py:127 | `cell(row, column).number_format = f` sets that cell's format and nothing else |
| `Normalizer.Inspect` | python_script.py:64-125 | the loop body's decision on one record; stated by Classify, TakenIffClosed, TakenFields and TakenWhenFieldsConvert |
| `Normalizer.RowAt` | python_script.py:76-174 | the ten values a copied record puts in its row; stated by AcceptedRow and RowOnlyInFormulas |
| `Normalizer.Normalize` | python_script.py:76-174 | the loop body's outcome for a record at a given row; stated by AcceptedRow and RowOnlyInFormulas |
| `Normalizer.Classify` | python_script.py:64-127 | a record stops the run exactly when it is too short or is `Closed` with a sales or date field that does not convert; it is skipped exactly when its status is not `Closed`; the error names the trimmed text refused |
| `Normalizer.TakenIffClosed` | python_script.py:68-71 | among records that do not stop the run, the copied ones are exactly the `Closed` ones |
| `Normalizer.TakenFields` | python_script.py:76-125 | a copied record carries the trimmed status, country and product code, and the converted sales and date, which is a real date |
| `Normalizer.TakenWhenFieldsConvert` | python_script.py:68-125 | conversely, a `Closed` record whose sales and date convert is copied with those fields |
| `Normalizer.AcceptedRow` | python_script.py:76-174 | an accepted record's row holds `Marketplace 1`, the trimmed fields, the converted sales and date, and formulas on its own row |
| `Normalizer.RowOnlyInFormulas` | python_script.py:93-173 | whether a record is copied does not depend on the row it goes to, and two placements differ only in their formulas |
| `Importer.WriteRow` | python_script.py:76-174 | the ten cell writes and two format writes of one row; stated by WriteRowValues, WriteRowFrame and RowHoldsFrame |
| `Importer.WriteRowLeadingCells` | python_script.py:76-80 | after a row write, the marketplace and status cells hold the row's values |
| `Importer.WriteRowMiddleCells` | python_script.py:84-110 | after a row write, the country, product code and product name cells hold the row's values |
| `Importer.WriteRowTrailingCells` | python_script.py:117-174 | after a row write, the sales, date, week, month and year cells hold the row's values, and the date and year cells have their formats |
| `Importer.WriteRowValues` | python_script.py:76-174 | writing a ledger row puts every one of its ten values, and the two formats, in that row |
| `Importer.WriteRowFrame` | python_script.py:76-174 | a row write changes only columns 1 to 10 of its row and the formats of its date and year cells |
| `Importer.RowHoldsFrame` | python_script.py:76-174 | writing one row leaves every other row as it was |
| `Importer.Apply` | python_script.py:46-180 | the loop over the decisions from a starting cursor; stated by ApplyStep, ApplyCursor, ApplyFrame, ApplyPlacement and ApplyFailure |
| `Importer.Import` | python_script.py:46-180 | the loop over the records; stated by ImportFailure, ImportCursor, ImportFrame, ImportPlacement and ImportExtend |
| `Importer.InspectAll` | python_script.py:61-71 | there is one decision per record |
| `Importer.InspectAllAt` | python_script.py:61-71 | the decision at position `i` is the decision on record `i` |
| `Importer.CountTaken` | python_script.py:180 | no more rows are copied than there are records |
| `Importer.ApplyStep` | python_script.py:61-180 | one turn of the loop, read back from a successful run: skipped records change nothing, and copied ones write a row at the cursor and move it down one |
| `Importer.ApplyCursor` | python_script.py:46-180 | the cursor moves down once per copied record and never otherwise |
| `Importer.ApplyFrame` | python_script.py:61-180 | a run changes only columns 1 to 10 of the rows from the first free row to the final cursor |
| `Importer.CountTakenPrefix` | python_script.py:180 | a prefix of the records copies no more rows than the whole, and one fewer when the next record is copied |
| `Importer.LastWrite` | python_script.py:76-180 | when the last record is copied, the sheet is the earlier sheet with the record's row written at the cursor reached before it |
| `Importer.PlacementOfLast` | python_script.py:76-180 | when the last record is copied, its row is in the sheet at the cursor reached before it |
| `Importer.RowKept` | python_script.py:76-180 | a row above the cursor survives the next turn of the loop |
| `Importer.EarlierRowAboveCursor` | python_script.py:180 | the row of an earlier copied record is above the cursor |
| `Importer.InitSucceeds` | python_script.py:61-180 | a successful run was successful on every record before the last |
| `Importer.ApplyPlacement` | python_script.py:46-180 | each copied record's row is in the final sheet, at the first free row plus the number of records copied before it |
| `Importer.ApplyFailure` | python_script.py:61-180 | the run stops exactly when some record stops it, and then at the first such record with its error |
| `Importer.ApplyFailurePrefix` | python_script.py:61-180 | once some records stop the run, the records after them are never looked at |
| `Importer.InspectAllPrefix` | python_script.py:61 | the decisions on a prefix of the records are a prefix of the decisions |
| `Importer.CountClosed` | python_script.py:68-71 | no more records are `Closed` than there are records |
| `Importer.CountTakenClosed` | python_script.py:68-180 | without a fatal record, the copied records are exactly the `Closed` ones |
| `Importer.StopsIffFatal` | python_script.py:61-127 | a record's decision stops the run exactly when the record is fatal |
| `Importer.StoppedRecord` | python_script.py:61-127 | a stopping record raises its error whatever row it would go to |
| `Importer.ImportFailure` | python_script.py:61-180 | the import fails exactly when some record is fatal, and then with the first fatal record's position and error |
| `Importer.SuccessMeansNoFatal` | python_script.py:61-180 | in a successful import no record is fatal |
| `Importer.ImportCursor` | python_script.py:46-180 | a successful import moves the cursor from the first free row by the number of `Closed` records |
| `Importer.ImportFrame` | python_script.py:46-180 | a successful import changes only columns 1 to 10 of the rows from the first free row to the final cursor |
| `Importer.TakenBeforeIsClosedBefore` | python_script.py:68-180 | before any record of a successful import, the copied records are the `Closed` ones |
| `Importer.ClosedIsTaken` | python_script.py:68-71 | a `Closed` record of a successful import is copied |
| `Importer.ImportPlacement` | python_script.py:46-180 | the `Closed` records are copied in file order into consecutive rows from the first free row, each row holding that record's ledger row |
| `Importer.ApplyExtend` | python_script.py:61-180 | one more decision after a successful run: skip, write at the cursor and move it, or stop |
| `Importer.ImportExtend` | python_script.py:61-180 | one more record after a successful import: skip, copy at the cursor and move it, or stop with its error |
| `Importer.ImportFailurePrefix` | python_script.py:61-180 | once the records up to `k` stop the import, the whole import stops with the same error |
| `Importer.ImportSkipsOpen` | python_script.py:68-71 | a record whose status is not `Closed` changes neither the sheet nor the cursor |
| `Script.StartedRowPut` | python_script.py:76-117 | writing one of the first six columns of the current row keeps a partly written row partly written |
| `Script.WriteCopiedFields` | python_script.py:75-110 | the marketplace name, status, country, product code and product name formula are written in the current row, in that order |
| `Script.WriteDateColumns` | python_script.py:120-174 | the date and its format, then the week, month and year formulas and the year's format, are written in the current row |
| `Script.CopyRecord` | python_script.py:62-174 | the loop body's outcome is the record's decision at the cursor. A skipped record leaves the sheet alone, a copied one writes its ledger row, and a fatal one has touched only the first six columns of the current row |
| `Script.FailureFrame` | python_script.py:46-180 | a record that fails part-way leaves the rows above the first free row, and the columns right of the ledger, as they were |
| `Script.LoopStep` | python_script.py:61-180 | one turn of the loop takes the loop's state to the import of one more record, or stops with that record's error |
| `Script.ImportMarketplace1` | python_script.py:46-180 | the loop computes exactly the import, in place, and returns the final cursor; a fatal record ends it with the import's error and leaves earlier rows untouched |
| `Script.Run` | python_script.py:36-189 | the workbook is saved exactly when the import succeeds, with the imported sheet, and every row already in use keeps its cell values and number formats |
| `Scenarios.SampleSalesText` | python_script.py:59 | `$203,350.00` is the currency rendering of 203350.00 |
| `Scenarios.SampleSalesConversion` | python_script.py:59-117 | the sample's sales field converts to 203350.00 |
| `Scenarios.SampleAmountFields` | python_script.py:59 | the sample record holds `$1,660.00` at index 5, `$207,500.00` at index 8 and `$203,350.00` at index 10 |
| `Scenarios.SampleAmountValues` | python_script.py:59-117 | the three sample amounts are worth 1660.0, 207500.0 and 203350.0 |
| `Scenarios.Field5Text` | python_script.py:59 | `$1,660.00` is the currency rendering of 1660.00 |
| `Scenarios.SampleField5Conversion` | python_script.py:59-117 | `$1,660.00` converts to 1660.00 |
| `Scenarios.Field8Text` | python_script.py:59 | `$207,500.00` is the currency rendering of 207500.00 |
| `Scenarios.SampleField8Conversion` | python_script.py:59-117 | `$207,500.00` converts to 207500.00 |
| `Scenarios.SampleDateConversion` | python_script.py:59-123 | the sample's date `1/11/2013` is read day first, as 1 November 2013 |
| `Scenarios.DayComesFirst` | python_script.py:123 | `11/1/2013` is 11 January 2013 |
| `Scenarios.LeapDay` | python_script.py:123 | `29/2/2012` is read |
| `Scenarios.NoLeapDay` | python_script.py:123 | `29/2/2013` is refused |
| `Scenarios.SampleFieldsTaken` | python_script.py:59-125 | a record with the sample's status, country, product code, sales and date fields is copied with them, whatever its other fields |
| `Scenarios.SampleRecordTaken` | python_script.py:59-125 | the sample record is copied with its trimmed fields and converted sales and date |
| `Scenarios.Row18Formulas` | python_script.py:93-173 | the formulas of row 18 are `=VLOOKUP(D18,SKU!A:B,2,0)`, `=WEEKNUM(G18,1)`, `=MONTH(G18)` and `=YEAR(G18)` |
| `Scenarios.SampleRecordRow` | python_script.py:59-174 | the sample record written at row 18 becomes the expected ledger row |
| `Scenarios.ImportOne` | python_script.py:61-180 | importing one accepted record writes its row at the first free row and moves the cursor down one |
| `Scenarios.SampleImport` | python_script.py:46-180 | importing the sample record into a sheet whose first free row is 18 fills row 18 and moves the cursor to 19 |
| `Scenarios.LowerCaseStatusSkipped` | python_script.py:69-71 | the status test is case-sensitive: `closed` is skipped |
| `Scenarios.PaddedStatusClosed` | python_script.py:64-69 | whitespace around the status is trimmed before the test |
| `Scenarios.ShortRecordStops` | python_script.py:69 | a record of 13 fields has no status field and stops the run |
| `Scenarios.SeparatorInSalesRefused` | python_script.py:64-117 | `$` followed by U+001C and `1` survives the trim of line 64 and is refused by `float()` |
| `Scenarios.SeparatorInSalesStops` | python_script.py:64-117 | a `Closed` record with that sales field stops the run with a sales error naming the field |
| `Scenarios.LettersRefused` | python_script.py:116-117 | `N/A` as sales is refused |
| `Scenarios.SecondPointRefused` | python_script.py:116-117 | `$1.2.3` as sales is refused |

## Left out

- Opening and saving the workbook, locating the `RAW DATA` sheet and reading `max_row` (lines 38-46, 189, 192) are not modelled. `Script.Run` takes the sheet's contents and `max_row` as parameters and returns the sheet it would save.
- CSV tokenisation (line 55) is not modelled: the records come in as sequences of fields, already split.
- `float()` yields a binary double; the model keeps the exact decimal the text denotes, with its number of fraction digits. Rounding to the nearest double is not modelled.
- `float()` forms other than sign, digits and one optional point are read as malformed: exponents, `_` separators, `inf`, `nan`, and non-ASCII digits.
- `Amount.ParseUnsigned` and `Dates.ParseDate` accept ASCII digits only, where Python would also accept other Unicode decimal digits.
- `Formulas.ColumnLetter` is defined for columns 1 to 26 only, since the program uses columns 4 and 7.
- The formulas are kept as text; what the spreadsheet computes from them is not modelled.
- openpyxl's handling of written values (its type inference for strings beginning with `=`, and its checks on string contents) is library code and is not modelled.
- `Script.CopyRecord`: for a record that fails part-way it states only that the cells written belong to the first six columns of the current row, not which of them were written; the run is then abandoned without saving.
- The second marketplace is a `TODO` in the program (lines 183-184) and has no behaviour to model.
- The file handle opened on line 53 is never closed, and `master_wb.close` on line 192 is not called. Neither affects the ledger.
