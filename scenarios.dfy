/** Worked cases: the sample Marketplace 1 record quoted in the program,
    the conversions of its sales and date fields, and the edge cases of the
    status test, each stated as a fact about the model. */
module Scenarios {
  import opened Strings
  import opened Wrappers
  import opened Amount
  import opened Dates
  import opened Formulas
  import opened Ledger
  import opened Normalizer
  import opened Importer

  /** The record the program quotes as a typical CSV row. */
  const SampleRecord: seq<string> := [
    "Enterprise", "1/11/2013", "Mexico", "123456-03", "Low", "$1,660.00", "$5.00", "$125.00",
    "$207,500.00", "$4,150.00", "$203,350.00", "$199,200.00", "$4,150.00", "Closed"]

  /** The amount in the sample record's sales field (index 10). */
  const SampleSales := Decimal(20335000, 2)

  const SampleDate := Date(2013, 11, 1)

  /** The ledger row the sample record becomes at row 18. */
  const SampleLedgerRow := LedgerRow(
    "Marketplace 1", "Closed", "Mexico", "123456-03", "=VLOOKUP(D18,SKU!A:B,2,0)",
    SampleSales, SampleDate, "=WEEKNUM(G18,1)", "=MONTH(G18)", "=YEAR(G18)")

  lemma WholeTextOfSampleSales()
    ensures WholeText(SampleSales) == "203350"
  {
    assert Pow10(2) == 100;
    assert NatToString(2) == "2";
    assert NatToString(20) == "20";
    assert NatToString(203) == "203";
    assert NatToString(2033) == "2033";
    assert NatToString(20335) == "20335";
    assert NatToString(203350) == "203350";
  }

  lemma FractionTextOfWholeCents(units: int)
    requires units >= 0 && units % 100 == 0
    ensures FractionText(Decimal(units, 2)) == ".00"
  {
    assert Pow10(2) == 100;
    assert NatToString(0) == "0";
    assert Zeros(1) == "0";
  }

  /** `$203,350.00` is the marketplace rendering of 203350.00. */
  lemma SampleSalesText()
    ensures CurrencyText(SampleSales) == "$203,350.00"
  {
    WholeTextOfSampleSales();
    FractionTextOfWholeCents(20335000);
    assert Group("203350") == "203,350";
  }

  /** The sales field of the sample record converts to 203350.00. */
  lemma SampleSalesConversion()
    ensures CoerceSales("$203,350.00") == Some(SampleSales)
  {
    SampleSalesText();
    SalesRoundTrip(SampleSales);
  }

  /** The three currency fields of the sample record: index 10 is the one
      the program converts. */
  lemma SampleAmountFields()
    ensures SampleRecord[5] == "$1,660.00"
    ensures SampleRecord[8] == "$207,500.00"
    ensures SampleRecord[10] == "$203,350.00"
  {
  }

  lemma WholeTextOf1660()
    ensures WholeText(Decimal(166000, 2)) == "1660"
  {
    assert Pow10(2) == 100;
    assert NatToString(1) == "1";
    assert NatToString(16) == "16";
    assert NatToString(166) == "166";
    assert NatToString(1660) == "1660";
  }

  /** `$1,660.00` is the marketplace rendering of 1660.00. */
  lemma Field5Text()
    ensures CurrencyText(Decimal(166000, 2)) == "$1,660.00"
  {
    var d := Decimal(166000, 2);
    WholeTextOf1660();
    FractionTextOfWholeCents(166000);
    assert "1660"[..1] == "1" && "1660"[1..] == "660";
    assert Group("1660") == "1,660";
    assert CurrencyText(d) == SignText(d) + ("$" + Group(WholeText(d))) + FractionText(d);
    assert "" + ("$" + "1,660") + ".00" == "$1,660.00";
  }

  /** The sample's index-5 field, `$1,660.00`, read by the same conversion,
      is 1660.00. */
  lemma SampleField5Conversion()
    ensures CoerceSales("$1,660.00") == Some(Decimal(166000, 2))
  {
    Field5Text();
    SalesRoundTrip(Decimal(166000, 2));
  }

  lemma WholeTextOf207500()
    ensures WholeText(Decimal(20750000, 2)) == "207500"
  {
    assert Pow10(2) == 100;
    assert NatToString(2) == "2";
    assert NatToString(20) == "20";
    assert NatToString(207) == "207";
    assert NatToString(2075) == "2075";
    assert NatToString(20750) == "20750";
    assert NatToString(207500) == "207500";
  }

  /** `$207,500.00` is the marketplace rendering of 207500.00. */
  lemma Field8Text()
    ensures CurrencyText(Decimal(20750000, 2)) == "$207,500.00"
  {
    var d := Decimal(20750000, 2);
    WholeTextOf207500();
    FractionTextOfWholeCents(20750000);
    assert "207500"[..3] == "207" && "207500"[3..] == "500";
    assert Group("207500") == "207,500";
    assert CurrencyText(d) == SignText(d) + ("$" + Group(WholeText(d))) + FractionText(d);
    assert "" + ("$" + "207,500") + ".00" == "$207,500.00";
  }

  /** The sample's index-8 field, `$207,500.00`, is 207500.00. */
  lemma SampleField8Conversion()
    ensures CoerceSales("$207,500.00") == Some(Decimal(20750000, 2))
  {
    Field8Text();
    SalesRoundTrip(Decimal(20750000, 2));
  }

  /** The numbers the three converted amounts stand for. */
  lemma SampleAmountValues()
    ensures Value(SampleSales) == 203350.0
    ensures Value(Decimal(166000, 2)) == 1660.0
    ensures Value(Decimal(20750000, 2)) == 207500.0
  {
    assert Pow10(2) == 100;
  }

  lemma Year2013Text()
    ensures FourDigits(2013) == "2013"
  {
    assert TwoDigits(20) == "20";
    assert TwoDigits(13) == "13";
  }

  lemma Year2012Text()
    ensures FourDigits(2012) == "2012"
  {
    assert TwoDigits(20) == "20";
    assert TwoDigits(12) == "12";
  }

  /** Day first: `1/11/2013` is the first of November 2013. */
  lemma SampleDateConversion()
    ensures ParseDate("1/11/2013") == Some(SampleDate)
  {
    Year2013Text();
    assert NatToString(1) == "1" && NatToString(11) == "11";
    assert "1" + "/" + "11" + "/" + "2013" == "1/11/2013";
    ParseUnpaddedDate(SampleDate);
  }

  /** The same digits the other way round are the 11th of January. */
  lemma DayComesFirst()
    ensures ParseDate("11/1/2013") == Some(Date(2013, 1, 11))
  {
    Year2013Text();
    assert NatToString(1) == "1" && NatToString(11) == "11";
    assert "11" + "/" + "1" + "/" + "2013" == "11/1/2013";
    ParseUnpaddedDate(Date(2013, 1, 11));
  }

  /** 29 February exists only in a leap year. */
  lemma LeapDay()
    ensures ParseDate("29/2/2012") == Some(Date(2012, 2, 29))
  {
    Year2012Text();
    assert NatToString(29) == "29" && NatToString(2) == "2";
    assert "29" + "/" + "2" + "/" + "2012" == "29/2/2012";
    ParseUnpaddedDate(Date(2012, 2, 29));
  }

  /** ... and `strptime` refuses it in any other year. */
  lemma NoLeapDay()
    ensures ParseDate("29/2/2013") == None
  {
    Year2013Text();
    assert NatToString(29) == "29";
    assert "29" + "/" + "2" + "/" + "2013" == "29/2/2013";
    ParseDateFields("29", "2", "2013");
  }

  /** A record with the sample's status, country, product code, sales and
      date fields is taken with them; the other fields play no part. */
  lemma SampleFieldsTaken(raw: seq<string>)
    requires |raw| == 14 && raw[1] == "1/11/2013" && raw[2] == "Mexico" && raw[3] == "123456-03"
    requires raw[10] == "$203,350.00" && raw[13] == "Closed"
    ensures Inspect(raw) == Take(Fields("Closed", "Mexico", "123456-03", SampleSales, SampleDate))
  {
    TrimUnpadded(raw[1], IsSpace);
    TrimUnpadded(raw[2], IsSpace);
    TrimUnpadded(raw[3], IsSpace);
    TrimUnpadded(raw[10], IsSpace);
    TrimUnpadded(raw[13], IsSpace);
    SampleSalesConversion();
    SampleDateConversion();
    TakenWhenFieldsConvert(raw, SampleSales, SampleDate);
  }

  /** The sample record is taken, with its trimmed fields and the converted
      sales (index 10) and date (index 1). */
  lemma SampleRecordTaken()
    ensures Inspect(SampleRecord) == Take(Fields("Closed", "Mexico", "123456-03", SampleSales, SampleDate))
  {
    SampleFieldsTaken(SampleRecord);
  }

  /** The formulas of row 18. */
  lemma Row18Formulas()
    ensures ProductNameFormula(18) == "=VLOOKUP(D18,SKU!A:B,2,0)"
    ensures WeekNumberFormula(18) == "=WEEKNUM(G18,1)"
    ensures MonthFormula(18) == "=MONTH(G18)"
    ensures YearFormula(18) == "=YEAR(G18)"
  {
    FormulaTexts(18);
    assert NatToString(18) == "18";
  }

  /** Written at row 18, the sample record becomes this ledger row. */
  lemma SampleRecordRow()
    ensures Normalize(SampleRecord, 18) == Accepted(SampleLedgerRow)
  {
    SampleRecordTaken();
    Row18Formulas();
  }

  /** A run over one accepted record writes its row at the first free row
      and moves the cursor one row down. */
  lemma ImportOne(d: SheetData, raw: seq<string>, row: nat)
    requires Normalize(raw, row).Accepted?
    ensures Import(d, [raw], row).Success?
    ensures Import(d, [raw], row).value.1 == row + 1
    ensures RowHolds(Import(d, [raw], row).value.0, row, Normalize(raw, row).row)
  {
    assert [] + [raw] == [raw];
    ImportExtend(d, [], row, raw);
    WriteRowValues(d, row, Normalize(raw, row).row);
  }

  /** Importing the sample record into a sheet whose first free row is 18
      fills row 18 and moves the cursor to row 19. */
  lemma SampleImport(d: SheetData)
    ensures Import(d, [SampleRecord], 18).Success?
    ensures Import(d, [SampleRecord], 18).value.1 == 19
    ensures RowHolds(Import(d, [SampleRecord], 18).value.0, 18, SampleLedgerRow)
  {
    SampleRecordRow();
    ImportOne(d, SampleRecord, 18);
  }

  /** The status test is exact and case-sensitive: `closed` is skipped. */
  lemma LowerCaseStatusSkipped(raw: seq<string>)
    requires |raw| == 14 && raw[13] == "closed"
    ensures Inspect(raw) == Skip
  {
    TrimUnpadded(raw[13], IsSpace);
  }

  /** Whitespace around the status is trimmed before the test. */
  lemma PaddedStatusClosed(raw: seq<string>)
    requires |raw| == 14 && raw[13] == " Closed\t"
    ensures IsClosed(raw)
  {
    assert TrimLeft(raw[13], IsSpace) == "Closed\t";
    assert TrimRight("Closed\t", IsSpace) == "Closed";
  }

  /** A record of 13 fields has no status and stops the run. */
  lemma ShortRecordStops(raw: seq<string>)
    requires |raw| == 13
    ensures Inspect(raw) == Stop(MissingStatus(13))
    ensures forall row :: Normalize(raw, row) == Fatal(MissingStatus(13))
  {
  }

  /** An information separator inside the sales field is kept by the trim
      of line 64 and by `float()`, so the conversion fails. */
  lemma SeparatorInSalesRefused()
    ensures CoerceSales("$\U{1C}1") == None
  {
    var t := "\U{1C}1";
    DollarRemoved(t);
    ForeignCharUnshaped(t, 0);
    UnshapedRefused("$" + t, t);
    assert "$" + t == "$\U{1C}1";
  }

  /** A leading `$` on text without `$` or `,` is all that cleaning
      removes. */
  lemma DollarRemoved(t: string)
    requires '$' !in t && ',' !in t
    ensures CleanSales("$" + t) == t
  {
    RemoveCharConcat("$", t, '$');
    assert RemoveChar("$", '$') == [];
    RemoveCharAbsent(t, '$');
    assert [] + t == t;
    RemoveCharAbsent(t, ',');
  }

  /** A `Closed` record with that sales field stops the run, naming the
      field. */
  lemma SeparatorInSalesStops(raw: seq<string>)
    requires |raw| == 14 && raw[13] == "Closed" && raw[10] == "$\U{1C}1"
    ensures Inspect(raw) == Stop(MalformedSales("$\U{1C}1"))
  {
    TrimUnpadded(raw[13], IsSpace);
    TrimUnpadded(raw[10], IsSpace);
    SeparatorInSalesRefused();
  }

  /** Text that is no number is refused. */
  lemma LettersRefused()
    ensures CoerceSales("N/A") == None
  {
    LettersShape();
    UnshapedRefused("N/A", "N/A");
  }

  /** `N/A` has nothing to clean and starts with a letter. */
  lemma LettersShape()
    ensures CleanSales("N/A") == "N/A" && !SignedShape("N/A")
  {
    var t := "N/A";
    RemoveCharAbsent(t, '$');
    RemoveCharAbsent(t, ',');
    ForeignCharUnshaped(t, 0);
  }

  /** A number with a second point is refused. */
  lemma SecondPointRefused()
    ensures CoerceSales("$1.2.3") == None
  {
    SecondPointShape();
    UnshapedRefused("$1.2.3", "1.2.3");
  }

  /** `$1.2.3` cleans to `1.2.3`, which has two points. */
  lemma SecondPointShape()
    ensures CleanSales("$1.2.3") == "1.2.3" && !SignedShape("1.2.3")
  {
    var t := "1.2.3";
    DollarRemoved(t);
    assert "$" + t == "$1.2.3";
    TwoPointsUnshaped(t, 1, 3);
  }

  /** Sales text that cleans to unpadded text of no signed shape is
      refused. */
  lemma UnshapedRefused(s: string, t: string)
    requires CleanSales(s) == t && !SignedShape(t)
    requires t != [] ==> !IsFloatSpace(t[0]) && !IsFloatSpace(t[|t| - 1])
    ensures CoerceSales(s) == None
  {
    TrimUnpadded(t, IsFloatSpace);
    CoerceSalesShape(s);
  }
}
