/** The four formulas written into each ledger row. Each is built by
    substituting arguments for the `{}` fields of a fixed `str.format`
    template, and each refers to a cell of the row being written. */
module Formulas {
  import opened Strings
  import opened Wrappers
  import opened Layout

  /** A format template whose only replacement fields are `{}`: literal
      text and holes, in order. */
  datatype Template = End | Lit(text: string, rest: Template) | Hole(rest: Template)

  /** The number of `{}` fields. */
  function Holes(t: Template): nat {
    match t
    case End => 0
    case Lit(_, rest) => Holes(rest)
    case Hole(rest) => 1 + Holes(rest)
  }

  /** `template.format(*args)`: each hole, in order, takes the next
      argument; arguments beyond the holes are ignored. */
  function Format(t: Template, args: seq<string>): string
    requires Holes(t) <= |args|
  {
    match t
    case End => []
    case Lit(s, rest) => s + Format(rest, args)
    case Hole(rest) => args[0] + Format(rest, args[1..])
  }

  /** The template as it is written in the program text. */
  function TemplateText(t: Template): string {
    match t
    case End => []
    case Lit(s, rest) => s + TemplateText(rest)
    case Hole(rest) => "{}" + TemplateText(rest)
  }

  const VlookupTemplate := Lit("=VLOOKUP(", Hole(Lit(",", Hole(Lit(",", Hole(Lit(",", Hole(Lit(")", End)))))))))
  const WeeknumTemplate := Lit("=WEEKNUM(", Hole(Lit(",", Hole(Lit(")", End)))))
  const MonthTemplate := Lit("=MONTH(", Hole(Lit(")", End)))
  const YearTemplate := Lit("=YEAR(", Hole(Lit(")", End)))

  lemma TemplatesAsWritten()
    ensures TemplateText(VlookupTemplate) == "=VLOOKUP({},{},{},{})"
    ensures TemplateText(WeeknumTemplate) == "=WEEKNUM({},{})"
    ensures TemplateText(MonthTemplate) == "=MONTH({})"
    ensures TemplateText(YearTemplate) == "=YEAR({})"
  {
  }

  /** Substituting `{}` for every field gives the template text back: the
      substitution changes the holes and nothing else. */
  lemma {:induction false} FormatIdentity(t: Template, args: seq<string>)
    requires Holes(t) <= |args|
    requires forall i :: 0 <= i < |args| ==> args[i] == "{}"
    ensures Format(t, args) == TemplateText(t)
  {
    match t
    case End =>
    case Lit(s, rest) => FormatIdentity(rest, args);
    case Hole(rest) => FormatIdentity(rest, args[1..]);
  }

  /** `get_column_letter(col)` for the single-letter columns A to Z. */
  function ColumnLetter(col: SheetColumn): (c: char)
    requires col <= 26
    ensures 'A' <= c <= 'Z'
  {
    ('A' as int + col as int - 1) as char
  }

  /** The A1-style address of a cell: column letter, then `str(row)`. */
  function CellRef(col: SheetColumn, row: nat): string
    requires col <= 26
  {
    [ColumnLetter(col)] + NatToString(row)
  }

  /** Reads an A1-style address with a single column letter. */
  function ParseCellRef(s: string): Option<(SheetColumn, nat)>
  {
    if |s| >= 2 && 'A' <= s[0] <= 'Z' && AllDigits(s[1..]) && (|s| > 2 ==> s[1] != '0')
    then Some(((s[0] as int - 'A' as int + 1) as SheetColumn, DigitsValue(s[1..])))
    else None
  }

  /** A cell address names exactly one cell: it reads back as its column
      and row, and any address that reads as that column and row is that
      cell's address. */
  lemma CellRefRoundTrip(col: SheetColumn, row: nat, s: string)
    requires col <= 26
    ensures ParseCellRef(CellRef(col, row)) == Some((col, row))
    ensures ParseCellRef(s) == Some((col, row)) ==> s == CellRef(col, row)
  {
    var ref := CellRef(col, row);
    assert ref[1..] == NatToString(row);
    if ParseCellRef(s) == Some((col, row)) {
      NatToStringOfDigits(s[1..]);
      assert s == [s[0]] + s[1..];
    }
  }

  /** Substituting into a template is its literal text with each hole
      replaced, in order, by the next argument. */
  lemma VlookupText(a: string, b: string, c: string, d: string)
    ensures Holes(VlookupTemplate) == 4
    ensures Format(VlookupTemplate, [a, b, c, d]) == "=VLOOKUP(" + (a + ("," + (b + ("," + (c + ("," + (d + ")")))))))
  {
    var end := Lit(")", End);
    var t3 := Lit(",", Hole(end));
    var t2 := Lit(",", Hole(t3));
    var t1 := Lit(",", Hole(t2));
    assert [a, b, c, d][1..] == [b, c, d] && [b, c, d][1..] == [c, d];
    assert [c, d][1..] == [d] && [d][1..] == [];
    assert Format(end, []) == ")" by { assert ")" + [] == ")"; }
    assert Format(Hole(end), [d]) == d + ")";
    assert Format(t3, [d]) == "," + (d + ")");
    assert Format(Hole(t3), [c, d]) == c + ("," + (d + ")"));
    assert Format(t2, [c, d]) == "," + (c + ("," + (d + ")")));
    assert Format(Hole(t2), [b, c, d]) == b + ("," + (c + ("," + (d + ")"))));
    assert Format(t1, [b, c, d]) == "," + (b + ("," + (c + ("," + (d + ")")))));
    assert Format(Hole(t1), [a, b, c, d]) == a + ("," + (b + ("," + (c + ("," + (d + ")"))))));
  }

  lemma WeeknumText(a: string, b: string)
    ensures Holes(WeeknumTemplate) == 2
    ensures Format(WeeknumTemplate, [a, b]) == "=WEEKNUM(" + (a + ("," + (b + ")")))
  {
    var end := Lit(")", End);
    var t1 := Lit(",", Hole(end));
    assert [a, b][1..] == [b] && [b][1..] == [];
    assert Format(end, []) == ")" by { assert ")" + [] == ")"; }
    assert Format(Hole(end), [b]) == b + ")";
    assert Format(t1, [b]) == "," + (b + ")");
    assert Format(Hole(t1), [a, b]) == a + ("," + (b + ")"));
  }

  /** A one-argument call such as `=MONTH({})`. */
  lemma CallText(name: string, a: string)
    ensures Holes(Lit(name, Hole(Lit(")", End)))) == 1
    ensures Format(Lit(name, Hole(Lit(")", End))), [a]) == name + (a + ")")
  {
    assert [a][1..] == [];
    assert Format(Lit(")", End), []) == ")" by { assert ")" + [] == ")"; }
    assert Format(Hole(Lit(")", End)), [a]) == a + ")";
  }

  /** PRODUCT NAME: look the row's own product code (column D) up in the
      SKU table and take its second column, exact match. */
  function ProductNameFormula(row: nat): string {
    Format(VlookupTemplate, [CellRef(ProductCodeCol, row), "SKU!A:B", "2", "0"])
  }

  /** WEEK NUMBER: the week of the row's own date (column G), weeks
      starting on Sunday. */
  function WeekNumberFormula(row: nat): string {
    Format(WeeknumTemplate, [CellRef(DateCol, row), "1"])
  }

  /** MONTH: the month of the row's own date. */
  function MonthFormula(row: nat): string {
    Format(MonthTemplate, [CellRef(DateCol, row)])
  }

  /** YEAR: the year of the row's own date. */
  function YearFormula(row: nat): string {
    Format(YearTemplate, [CellRef(DateCol, row)])
  }

  /** The address of a cell of column D or G is that letter and the row. */
  lemma AddressText(row: nat)
    ensures CellRef(ProductCodeCol, row) == "D" + NatToString(row)
    ensures CellRef(DateCol, row) == "G" + NatToString(row)
  {
  }

  lemma ProductNameText(row: nat)
    ensures ProductNameFormula(row) == "=VLOOKUP(D" + NatToString(row) + ",SKU!A:B,2,0)"
  {
    AddressText(row);
    VlookupText("D" + NatToString(row), "SKU!A:B", "2", "0");
    var digits, rest := NatToString(row), "," + ("SKU!A:B" + ("," + ("2" + ("," + ("0" + ")")))));
    assert "=VLOOKUP(" + (("D" + digits) + rest) == "=VLOOKUP(D" + digits + ",SKU!A:B,2,0)" by {
      assert "0" + ")" == "0)" && "," + "0)" == ",0)" && "2" + ",0)" == "2,0)" && "," + "2,0)" == ",2,0)";
      assert "SKU!A:B" + ",2,0)" == "SKU!A:B,2,0)" && "," + "SKU!A:B,2,0)" == ",SKU!A:B,2,0)";
    }
  }

  lemma WeekNumberText(row: nat)
    ensures WeekNumberFormula(row) == "=WEEKNUM(G" + NatToString(row) + ",1)"
  {
    AddressText(row);
    WeeknumText("G" + NatToString(row), "1");
    var digits, rest := NatToString(row), "," + ("1" + ")");
    assert "=WEEKNUM(" + (("G" + digits) + rest) == "=WEEKNUM(G" + digits + ",1)" by {
      assert rest == ",1)";
    }
  }

  lemma MonthText(row: nat)
    ensures MonthFormula(row) == "=MONTH(G" + NatToString(row) + ")"
  {
    AddressText(row);
    CallText("=MONTH(", "G" + NatToString(row));
    var digits := NatToString(row);
    assert "=MONTH(" + (("G" + digits) + ")") == "=MONTH(G" + digits + ")";
  }

  lemma YearText(row: nat)
    ensures YearFormula(row) == "=YEAR(G" + NatToString(row) + ")"
  {
    AddressText(row);
    CallText("=YEAR(", "G" + NatToString(row));
    var digits := NatToString(row);
    assert "=YEAR(" + (("G" + digits) + ")") == "=YEAR(G" + digits + ")";
  }

  /** The formulas of a row, written out: fixed text around the address
      of the row's own product-code cell `D<row>` or date cell `G<row>`. */
  lemma FormulaTexts(row: nat)
    ensures ProductNameFormula(row) == "=VLOOKUP(D" + NatToString(row) + ",SKU!A:B,2,0)"
    ensures WeekNumberFormula(row) == "=WEEKNUM(G" + NatToString(row) + ",1)"
    ensures MonthFormula(row) == "=MONTH(G" + NatToString(row) + ")"
    ensures YearFormula(row) == "=YEAR(G" + NatToString(row) + ")"
  {
    ProductNameText(row);
    WeekNumberText(row);
    MonthText(row);
    YearText(row);
  }

  /** Every formula of a row refers to that row and to no other: the one
      cell address in it reads back as the product-code or the date column
      of `row`, and only that cell's address reads back so. */
  lemma FormulasReferenceOwnRow(row: nat, s: string)
    ensures ProductNameFormula(row) == "=VLOOKUP(" + CellRef(ProductCodeCol, row) + ",SKU!A:B,2,0)"
    ensures WeekNumberFormula(row) == "=WEEKNUM(" + CellRef(DateCol, row) + ",1)"
    ensures MonthFormula(row) == "=MONTH(" + CellRef(DateCol, row) + ")"
    ensures YearFormula(row) == "=YEAR(" + CellRef(DateCol, row) + ")"
    ensures ParseCellRef(CellRef(ProductCodeCol, row)) == Some((ProductCodeCol, row))
    ensures ParseCellRef(CellRef(DateCol, row)) == Some((DateCol, row))
    ensures ParseCellRef(s) == Some((ProductCodeCol, row)) ==> s == CellRef(ProductCodeCol, row)
    ensures ParseCellRef(s) == Some((DateCol, row)) ==> s == CellRef(DateCol, row)
  {
    var d, g := CellRef(ProductCodeCol, row), CellRef(DateCol, row);
    VlookupText(d, "SKU!A:B", "2", "0");
    assert "," + ("SKU!A:B" + ("," + ("2" + ("," + ("0" + ")"))))) == ",SKU!A:B,2,0)" by {
      assert "0" + ")" == "0)" && "," + "0)" == ",0)" && "2" + ",0)" == "2,0)" && "," + "2,0)" == ",2,0)";
      assert "SKU!A:B" + ",2,0)" == "SKU!A:B,2,0)" && "," + "SKU!A:B,2,0)" == ",SKU!A:B,2,0)";
    }
    WeeknumText(g, "1");
    assert "," + ("1" + ")") == ",1)";
    CallText("=MONTH(", g);
    CallText("=YEAR(", g);
    CellRefRoundTrip(ProductCodeCol, row, s);
    CellRefRoundTrip(DateCol, row, s);
  }
}
