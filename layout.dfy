/** Column positions. The RAW DATA sheet numbers its columns from 1; a
    Marketplace 1 record numbers its fields from 0. Each numbering has its
    own type, so a field position cannot be used as a sheet column or the
    other way round. */
module Layout {

  /** A 1-based column of the RAW DATA sheet. */
  newtype SheetColumn = c: int | 1 <= c witness 1

  /** A 0-based field position in a Marketplace 1 record. */
  newtype FieldIndex = i: int | 0 <= i

  const MarketplaceCol: SheetColumn := 1
  const StatusCol: SheetColumn := 2
  const CountryCol: SheetColumn := 3
  const ProductCodeCol: SheetColumn := 4
  const ProductNameCol: SheetColumn := 5
  const SalesCol: SheetColumn := 6
  const DateCol: SheetColumn := 7
  const WeekNumberCol: SheetColumn := 8
  const MonthCol: SheetColumn := 9
  const YearCol: SheetColumn := 10

  const StatusField: FieldIndex := 13
  const CountryField: FieldIndex := 2
  const ProductCodeField: FieldIndex := 3
  const SalesField: FieldIndex := 10
  const DateField: FieldIndex := 1
}
