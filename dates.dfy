/** The DATE coercion: `datetime.datetime.strptime(text, '%d/%m/%Y')`, and
    the `dd/mm/yyyy` display format the DATE cell is given. */
module Dates {
  import opened Strings
  import opened Wrappers

  /** A calendar date (the parsed `datetime` has a zero time of day). */
  datatype Date = Date(year: int, month: int, day: int)

  /** The Gregorian leap-year rule. */
  predicate IsLeapYear(year: int) {
    year % 4 == 0 && (year % 100 != 0 || year % 400 == 0)
  }

  function DaysInMonth(year: int, month: int): (n: int)
    requires 1 <= month <= 12
    ensures 28 <= n <= 31
    ensures n == 31 <==> month in {1, 3, 5, 7, 8, 10, 12}
    ensures n == 29 <==> month == 2 && IsLeapYear(year)
  {
    if month == 2 then (if IsLeapYear(year) then 29 else 28)
    else if month in {4, 6, 9, 11} then 30
    else 31
  }

  /** The dates `datetime` can represent: years 1 to 9999 and a day that
      exists in its month. */
  predicate ValidDate(d: Date) {
    && 1 <= d.year <= 9999
    && 1 <= d.month <= 12
    && 1 <= d.day <= DaysInMonth(d.year, d.month)
  }

  /** The `%d` directive, `3[01]|[12]\d|0[1-9]|[1-9]| [1-9]`: one digit
      1-9, a space and one digit 1-9, or two digits from 01 to 31. */
  function DayField(t: string): (r: Option<int>)
    ensures r.Some? ==> 1 <= r.value <= 31
  {
    if |t| == 1 && '1' <= t[0] <= '9' then Some(DigitValue(t[0]))
    else if |t| == 2 && t[0] == ' ' && '1' <= t[1] <= '9' then Some(DigitValue(t[1]))
    else if |t| == 2 && AllDigits(t) && 1 <= DigitsValue(t) <= 31 then Some(DigitsValue(t))
    else None
  }

  /** The `%m` directive, `1[0-2]|0[1-9]|[1-9]`: one digit 1-9 or two digits
      from 01 to 12. */
  function MonthField(t: string): (r: Option<int>)
    ensures r.Some? ==> 1 <= r.value <= 12
  {
    if |t| == 1 && '1' <= t[0] <= '9' then Some(DigitValue(t[0]))
    else if |t| == 2 && AllDigits(t) && 1 <= DigitsValue(t) <= 12 then Some(DigitsValue(t))
    else None
  }

  /** The `%Y` directive, `\d\d\d\d`: exactly four digits. */
  function YearField(t: string): (r: Option<int>)
    ensures r.Some? ==> 0 <= r.value <= 9999
  {
    if |t| == 4 && AllDigits(t) then
      DigitsValueBound(t);
      assert Pow10(4) == 10000;
      Some(DigitsValue(t))
    else None
  }

  /** The date the three matched fields name, if `datetime` accepts it. */
  function Assemble(day: Option<int>, month: Option<int>, year: Option<int>): (r: Option<Date>)
    ensures r.Some? ==> ValidDate(r.value)
  {
    if day.Some? && month.Some? && year.Some? && ValidDate(Date(year.value, month.value, day.value))
    then Some(Date(year.value, month.value, day.value))
    else None
  }

  /** The text of the three fields: what comes before the first `/`,
      between it and the second, and after the second. */
  datatype DateText = DateText(day: string, month: string, year: string)

  function SplitDate(s: string): Option<DateText> {
    var i := IndexOf(s, '/');
    if i == |s| then None
    else
      var rest := s[i + 1..];
      var j := IndexOf(rest, '/');
      if j == |rest| then None
      else Some(DateText(s[..i], rest[..j], rest[j + 1..]))
  }

  /** `strptime(text, '%d/%m/%Y')`: the whole text must be a day field, `/`,
      a month field, `/` and a year field, and name an existing date. `None`
      stands for the `ValueError` raised otherwise. No field can contain a
      `/`, so the two separators are the first two `/` of the text. */
  function ParseDate(s: string): (r: Option<Date>)
    ensures r.Some? ==> ValidDate(r.value)
  {
    match SplitDate(s)
    case None => None
    case Some(t) => Assemble(DayField(t.day), MonthField(t.month), YearField(t.year))
  }

  /** Fields without a `/`, joined by `/`, are split apart again. */
  lemma SplitDateFields(dayText: string, monthText: string, yearText: string)
    requires '/' !in dayText && '/' !in monthText
    ensures SplitDate(dayText + "/" + monthText + "/" + yearText) == Some(DateText(dayText, monthText, yearText))
  {
    var rest := monthText + "/" + yearText;
    assert dayText + "/" + monthText + "/" + yearText == dayText + "/" + rest;
    SplitAtFirstSeparator(dayText, rest);
    SplitAtFirstSeparator(monthText, yearText);
  }

  /** The first `/` after text without one is where the text ends. */
  lemma SplitAtFirstSeparator(a: string, b: string)
    requires '/' !in a
    ensures var s := a + "/" + b;
      IndexOf(s, '/') == |a| && s[..|a|] == a && s[|a| + 1..] == b
  {
    FirstSeparator(a, b);
    var s := a + "/" + b;
    assert s[..|a|] == a;
    assert s[|a| + 1..] == b;
  }

  /** Text of the form day `/` month `/` year is read field by field. */
  lemma ParseDateFields(dayText: string, monthText: string, yearText: string)
    requires '/' !in dayText && '/' !in monthText
    ensures ParseDate(dayText + "/" + monthText + "/" + yearText)
         == Assemble(DayField(dayText), MonthField(monthText), YearField(yearText))
  {
    SplitDateFields(dayText, monthText, yearText);
  }

  lemma FirstSeparator(a: string, b: string)
    requires '/' !in a
    ensures IndexOf(a + ("/" + b), '/') == |a|
    ensures IndexOf(a + "/" + b, '/') == |a|
  {
    IndexOfConcat(a, "/" + b, '/');
    assert a + "/" + b == a + ("/" + b);
  }

  function TwoDigits(n: nat): (r: string)
    requires n < 100
    ensures |r| == 2 && AllDigits(r) && DigitsValue(r) == n
  {
    var r := [DigitChar(n / 10), DigitChar(n % 10)];
    assert r[..1] == [r[0]] && [r[0]][..0] == [];
    assert DigitsValue(r[..1]) == n / 10;
    assert DigitsValue(r) == 10 * (n / 10) + n % 10;
    r
  }

  function FourDigits(n: nat): (r: string)
    requires n < 10000
    ensures |r| == 4 && AllDigits(r) && DigitsValue(r) == n
  {
    var r := TwoDigits(n / 100) + TwoDigits(n % 100);
    DigitsValueConcat(TwoDigits(n / 100), TwoDigits(n % 100));
    assert Pow10(2) == 100;
    r
  }

  /** Dates that the `dd/mm/yyyy` format writes with exactly its widths. */
  predicate Displayable(d: Date) {
    0 <= d.day < 100 && 0 <= d.month < 100 && 0 <= d.year < 10000
  }

  /** The `dd/mm/yyyy` display format: zero-padded day, month and year. */
  function ShowDate(d: Date): string
    requires Displayable(d)
  {
    TwoDigits(d.day) + "/" + TwoDigits(d.month) + "/" + FourDigits(d.year)
  }

  lemma NoSeparatorInDigits(t: string)
    requires AllDigits(t)
    ensures '/' !in t
  {
    forall k | 0 <= k < |t| ensures t[k] != '/' {
      assert IsDigit(t[k]);
    }
  }

  /** Reading back a displayed date gives the date exactly when it is a
      valid date, and fails otherwise (a day past the end of its month,
      month 0 or above 12, year 0). */
  lemma ParseShownDate(d: Date)
    requires Displayable(d)
    ensures ParseDate(ShowDate(d)) == if ValidDate(d) then Some(d) else None
  {
    var dt, mt, yt := TwoDigits(d.day), TwoDigits(d.month), FourDigits(d.year);
    NoSeparatorInDigits(dt);
    NoSeparatorInDigits(mt);
    ParseDateFields(dt, mt, yt);
    assert YearField(yt) == Some(d.year);
    if 1 <= d.day <= 31 {
      assert DayField(dt) == Some(d.day);
    } else {
      assert DayField(dt) == None;
    }
    if 1 <= d.month <= 12 {
      assert MonthField(mt) == Some(d.month);
    } else {
      assert MonthField(mt) == None;
    }
  }

  /** Day and month may also be written without zero padding, as `str()`
      writes them: every valid date is read back from that form too. */
  lemma ParseUnpaddedDate(d: Date)
    requires ValidDate(d)
    ensures ParseDate(NatToString(d.day) + "/" + NatToString(d.month) + "/" + FourDigits(d.year)) == Some(d)
  {
    var dt, mt, yt := NatToString(d.day), NatToString(d.month), FourDigits(d.year);
    NoSeparatorInDigits(dt);
    NoSeparatorInDigits(mt);
    ParseDateFields(dt, mt, yt);
    NatToStringLength(d.day, 2);
    NatToStringLength(d.month, 2);
    assert DayField(dt) == Some(d.day);
    assert MonthField(mt) == Some(d.month);
  }
}
