/** The SALES coercion: a currency-formatted field such as `$207,500.00` has
    every `$` and `,` deleted and the rest is read by Python's `float()`.
    Amounts are kept as exact decimals (an integer count of units of
    10^-scale) rather than binary floating point. */
module Amount {
  import opened Strings
  import opened Wrappers

  /** The number `units / 10^scale`; the scale is the number of digits
      written after the decimal point. */
  datatype Decimal = Decimal(units: int, scale: nat)

  function Value(d: Decimal): real {
    d.units as real / Pow10(d.scale) as real
  }

  /** `sales.replace('$', '').replace(',', '')`. */
  function CleanSales(s: string): (r: string)
    ensures '$' !in r && ',' !in r
  {
    var noDollar := RemoveChar(s, '$');
    var r := RemoveChar(noDollar, ',');
    RemoveCharKeepsOthers(noDollar, ',', '$');
    assert multiset(noDollar)['$'] == 0;
    r
  }

  /** Cleaning deletes exactly the `$` and `,` characters: every other
      character keeps its number of occurrences. */
  lemma CleanSalesKeepsOthers(s: string, x: char)
    requires x != '$' && x != ','
    ensures multiset(CleanSales(s))[x] == multiset(s)[x]
  {
    RemoveCharKeepsOthers(s, '$', x);
    RemoveCharKeepsOthers(RemoveChar(s, '$'), ',', x);
  }

  /** Text with neither `$` nor `,` is left as it is. */
  lemma CleanSalesOfCleanText(s: string)
    requires '$' !in s && ',' !in s
    ensures CleanSales(s) == s
  {
    RemoveCharAbsent(s, '$');
    RemoveCharAbsent(s, ',');
  }

  /** Cleaning is idempotent. */
  lemma CleanSalesIdempotent(s: string)
    ensures CleanSales(CleanSales(s)) == CleanSales(s)
  {
    CleanSalesOfCleanText(CleanSales(s));
  }

  /** `v` with `k` zeros appended: `v * 10^k`, one decimal place at a
      time. */
  function Shift(v: nat, k: nat): nat {
    if k == 0 then v else 10 * Shift(v, k - 1)
  }

  lemma {:induction false} ShiftIsProduct(v: nat, k: nat)
    ensures Shift(v, k) == v * Pow10(k)
  {
    if k > 0 {
      ShiftIsProduct(v, k - 1);
      assert 10 * (v * Pow10(k - 1)) == v * (10 * Pow10(k - 1));
    }
  }

  /** Digits with at most one decimal point and at least one digit:
      `12`, `12.`, `12.50`, `.5`. */
  function ParseUnsigned(t: string): (r: Option<Decimal>)
    ensures r.Some? ==> r.value.units >= 0
  {
    var p := IndexOf(t, '.');
    ReadParts(t[..p], if p < |t| then t[p + 1..] else [])
  }

  /** The number written with the digits `whole` before the point and the
      digits `frac` after it; at least one digit must be present. */
  function ReadParts(whole: string, frac: string): (r: Option<Decimal>)
    ensures r.Some? ==> r.value.units >= 0 && r.value.scale == |frac|
  {
    if AllDigits(whole) && AllDigits(frac) && |whole| + |frac| > 0 then
      Some(Decimal(Shift(DigitsValue(whole), |frac|) + DigitsValue(frac), |frac|))
    else
      None
  }

  /** The characters `float()` trims from either end of its text. It first
      turns every non-ASCII whitespace character into a space and then trims
      the C locale's whitespace (space, tab, line feed, vertical tab, form
      feed, carriage return); the ASCII separators U+001C..U+001F, which
      `str.isspace()` accepts, are kept and make the text malformed. */
  predicate IsFloatSpace(c: char) {
    IsSpace(c) && !('\U{1C}' <= c <= '\U{1F}')
  }

  /** Python's `float(text)` on decimal notation: the characters of
      `IsFloatSpace` around the text are ignored, an optional sign comes
      first, then the unsigned number. `None` stands for the `ValueError`
      that `float()` raises. */
  function ParseFloat(s: string): (r: Option<Decimal>)
  {
    var t := Trim(s, IsFloatSpace);
    if t != [] && (t[0] == '+' || t[0] == '-') then
      if t[0] == '-' then Negated(ParseUnsigned(t[1..])) else ParseUnsigned(t[1..])
    else
      ParseUnsigned(t)
  }

  /** The number read, with its sign turned round. */
  function Negated(o: Option<Decimal>): Option<Decimal> {
    match o
    case None => None
    case Some(d) => Some(Decimal(-d.units, d.scale))
  }

  /** `float(sales.replace('$', '').replace(',', ''))`. */
  function CoerceSales(s: string): Option<Decimal> {
    ParseFloat(CleanSales(s))
  }

  /** The number's digits with thousands separators: `207500` becomes
      `207,500`. */
  function Group(digits: string): string
    decreases |digits|
  {
    if |digits| <= 3 then digits
    else Group(digits[..|digits| - 3]) + "," + digits[|digits| - 3..]
  }

  /** The digits after the decimal point, zero-padded to the scale. */
  function Fraction(m: nat, scale: nat): (r: string)
    requires scale >= 1
    ensures |r| == scale && AllDigits(r) && DigitsValue(r) == m % Pow10(scale)
  {
    var digits := NatToString(m % Pow10(scale));
    NatToStringLength(m % Pow10(scale), scale);
    ZeroPaddingValue(scale - |digits|, digits);
    Zeros(scale - |digits|) + digits
  }

  /** The amount written as a marketplace export writes it: sign, `$`,
      grouped whole part, and `scale` fraction digits (`-$1,660.00`). */
  function CurrencyText(d: Decimal): string {
    SignText(d) + ("$" + Group(WholeText(d))) + FractionText(d)
  }

  function Magnitude(d: Decimal): nat {
    if d.units < 0 then -d.units else d.units
  }

  function SignText(d: Decimal): string {
    if d.units < 0 then "-" else ""
  }

  /** The digits before the decimal point. */
  function WholeText(d: Decimal): (r: string)
    ensures r != [] && AllDigits(r)
  {
    var q: int := Magnitude(d) / Pow10(d.scale);
    assert q >= 0 by { DivNonNegative(Magnitude(d), Pow10(d.scale)); }
    NatToString(q)
  }

  /** Euclidean division of a natural number by a positive one; kept apart
      so that the solver sees no more than the two numbers. */
  lemma DivNonNegative(m: nat, p: nat)
    requires p >= 1
    ensures m / p >= 0
  {
  }

  /** The decimal point and the fraction digits, empty at scale 0. */
  function FractionText(d: Decimal): (r: string)
    ensures r == [] || (r[0] == '.' && AllDigits(r[1..]) && |r| > 1)
  {
    if d.scale == 0 then "" else "." + Fraction(Magnitude(d), d.scale)
  }

  /** Grouping inserts nothing but commas. */
  lemma {:induction false} GroupAddsOnlyCommas(digits: string, c: char)
    requires c != ',' && c !in digits
    ensures c !in Group(digits)
    decreases |digits|
  {
    if |digits| > 3 {
      GroupAddsOnlyCommas(digits[..|digits| - 3], c);
    }
  }

  /** Deleting the thousands separators gives back the plain digits. */
  lemma {:induction false} UngroupGroup(digits: string)
    requires ',' !in digits
    ensures RemoveChar(Group(digits), ',') == digits
    decreases |digits|
  {
    if |digits| > 3 {
      var head, tail := digits[..|digits| - 3], digits[|digits| - 3..];
      assert head + tail == digits;
      assert ',' !in head && ',' !in tail by {
        assert forall x :: x in head || x in tail ==> x in digits;
      }
      calc {
        RemoveChar(Group(digits), ',');
        RemoveChar(Group(head) + "," + tail, ',');
        { RemoveCharConcat(Group(head) + ",", tail, ','); }
        RemoveChar(Group(head) + ",", ',') + RemoveChar(tail, ',');
        { RemoveCharConcat(Group(head), ",", ',');
          RemoveCharAbsent(tail, ',');
          assert RemoveChar(",", ',') == []; }
        RemoveChar(Group(head), ',') + [] + tail;
        { UngroupGroup(head); }
        head + [] + tail;
      }
    } else {
      RemoveCharAbsent(digits, ',');
    }
  }

  /** Digits without a point read as a whole number. */
  lemma ParseWholeDigits(whole: string)
    requires AllDigits(whole) && whole != []
    ensures ParseUnsigned(whole) == Some(Decimal(DigitsValue(whole), 0))
  {
    DigitsExclude(whole, '.');
    assert IndexOf(whole, '.') == |whole|;
    assert whole[..|whole|] == whole;
  }

  /** Text whose first point separates the digits `whole` from the digits
      `frac` reads as `whole` times 10^|frac| plus `frac`. */
  lemma ParseAroundPoint(t: string, whole: string, frac: string)
    requires AllDigits(whole) && whole != [] && AllDigits(frac)
    requires IndexOf(t, '.') == |whole| < |t|
    requires t[..|whole|] == whole && t[|whole| + 1..] == frac
    ensures ParseUnsigned(t) == Some(Decimal(Shift(DigitsValue(whole), |frac|) + DigitsValue(frac), |frac|))
  {
    assert ParseUnsigned(t) == ReadParts(whole, frac);
  }

  /** Digits, a point and more digits read as the whole part times
      10^places plus the digits after the point. */
  lemma ParseDigitsWithPoint(whole: string, tail: string, places: nat)
    requires AllDigits(whole) && whole != [] && tail != [] && tail[0] == '.' && AllDigits(tail[1..])
    requires |tail| == places + 1
    ensures ParseUnsigned(whole + tail) ==
      Some(Decimal(Shift(DigitsValue(whole), places) + DigitsValue(tail[1..]), places))
  {
    var text := whole + tail;
    FirstPointAfterDigits(whole, tail);
    assert text[..|whole|] == whole;
    assert text[|whole| + 1..] == tail[1..];
    ParseAroundPoint(text, whole, tail[1..]);
  }

  /** Digits, a point and `scale` digits whose values combine to `m` read
      back as `m` at that scale. */
  lemma ReadBackWithPoint(whole: string, tail: string, m: nat, scale: nat)
    requires AllDigits(whole) && whole != []
    requires tail != [] && tail[0] == '.' && AllDigits(tail[1..]) && |tail| == scale + 1
    requires Shift(DigitsValue(whole), scale) + DigitsValue(tail[1..]) == m
    ensures ParseUnsigned(whole + tail) == Some(Decimal(m, scale))
  {
    ParseDigitsWithPoint(whole, tail, scale);
    assert Decimal(Shift(DigitsValue(whole), scale) + DigitsValue(tail[1..]), scale) == Decimal(m, scale);
  }

  /** Reading back the unsigned rendering gives the magnitude and the scale. */
  lemma UnsignedRoundTrip(d: Decimal)
    ensures ParseUnsigned(WholeText(d) + FractionText(d)) == Some(Decimal(Magnitude(d), d.scale))
  {
    var whole, tail := WholeText(d), FractionText(d);
    var m := Magnitude(d);
    if d.scale == 0 {
      assert m / Pow10(0) == m;
      assert whole + tail == whole;
      ParseWholeDigits(whole);
    } else {
      assert tail[1..] == Fraction(m, d.scale);
      Recombine(DigitsValue(whole), DigitsValue(tail[1..]), m, d.scale);
      ReadBackWithPoint(whole, tail, m, d.scale);
    }
  }

  /** Whole part and remainder put back together. */
  lemma Recombine(q: nat, r: nat, m: nat, k: nat)
    requires q == m / Pow10(k) && r == m % Pow10(k)
    ensures Shift(q, k) + r == m
  {
    ShiftIsProduct(q, k);
  }

  /** In digits followed by a fraction part, the first `.` is the one that
      starts the fraction part. */
  lemma FirstPointAfterDigits(whole: string, tail: string)
    requires AllDigits(whole)
    requires tail == [] || tail[0] == '.'
    ensures IndexOf(whole + tail, '.') == |whole|
  {
    DigitsExclude(whole, '.');
    IndexOfConcat(whole, tail, '.');
  }

  /** Cleaning the currency rendering leaves the sign, the plain whole digits
      and the fraction. */
  lemma CleanCurrencyText(d: Decimal)
    ensures CleanSales(CurrencyText(d)) == SignText(d) + (WholeText(d) + FractionText(d))
  {
    var sign, whole, tail := SignText(d), WholeText(d), FractionText(d);
    var grouped := Group(whole);
    DigitsExclude(whole, '$');
    DigitsExclude(whole, ',');
    GroupAddsOnlyCommas(whole, '$');
    assert '$' !in tail && ',' !in tail by {
      if tail != [] {
        DigitsExclude(tail[1..], '$');
        DigitsExclude(tail[1..], ',');
        assert tail == [tail[0]] + tail[1..];
      }
    }
    RemoveCharConcat("$", grouped, '$');
    assert RemoveChar("$", '$') == [];
    RemoveCharAbsent(grouped, '$');
    assert RemoveChar("$" + grouped, '$') == grouped;
    RemoveCharFrame(sign, "$" + grouped, tail, '$');
    assert RemoveChar(CurrencyText(d), '$') == sign + grouped + tail;
    UngroupGroup(whole);
    RemoveCharFrame(sign, grouped, tail, ',');
    assert CleanSales(CurrencyText(d)) == sign + whole + tail;
    Reassociate(sign, whole, tail);
  }

  /** Deleting `c` only changes the middle of text whose ends lack `c`. */
  lemma RemoveCharFrame(a: string, m: string, b: string, c: char)
    requires c !in a && c !in b
    ensures RemoveChar(a + m + b, c) == a + RemoveChar(m, c) + b
  {
    RemoveCharConcat(a + m, b, c);
    RemoveCharConcat(a, m, c);
    RemoveCharAbsent(a, c);
    RemoveCharAbsent(b, c);
  }

  /** Regrouping a concatenation, proved where no other fact is in view. */
  lemma Reassociate(a: string, b: string, c: string)
    ensures a + b + c == a + (b + c)
  {
  }

  /** The unsigned rendering starts with a digit and ends with a digit. */
  lemma RenderingEnds(d: Decimal)
    ensures var body := WholeText(d) + FractionText(d);
      && body != [] && IsDigit(body[0]) && !IsFloatSpace(body[|body| - 1])
  {
    var whole, tail := WholeText(d), FractionText(d);
    var body := whole + tail;
    assert body[0] == whole[0];
    if tail == [] {
      assert body[|body| - 1] == whole[|whole| - 1];
      DigitIsNotSpace(whole[|whole| - 1]);
    } else {
      assert body[|body| - 1] == tail[1..][|tail| - 2];
      DigitIsNotSpace(tail[1..][|tail| - 2]);
    }
  }

  /** `float()` reads the signed rendering back. */
  lemma ParseSignedText(d: Decimal)
    ensures ParseFloat(SignText(d) + (WholeText(d) + FractionText(d))) == Some(d)
  {
    UnsignedRoundTrip(d);
    RenderingEnds(d);
    ParseSignedBody(d, WholeText(d) + FractionText(d));
  }

  /** A sign in front of any unpadded text that reads back as the magnitude
      gives the signed number. */
  lemma ParseSignedBody(d: Decimal, body: string)
    requires body != [] && IsDigit(body[0]) && !IsFloatSpace(body[|body| - 1])
    requires ParseUnsigned(body) == Some(Decimal(Magnitude(d), d.scale))
    ensures ParseFloat(SignText(d) + body) == Some(d)
  {
    DigitIsNotSpace(body[0]);
    if d.units < 0 {
      assert SignText(d) + body == "-" + body;
      ParseFloatNegative(body);
    } else {
      assert SignText(d) + body == body;
      ParseFloatUnsigned(body);
    }
  }

  lemma ParseFloatUnsigned(t: string)
    requires t != [] && !IsFloatSpace(t[0]) && !IsFloatSpace(t[|t| - 1])
    requires t[0] != '+' && t[0] != '-'
    ensures ParseFloat(t) == ParseUnsigned(t)
  {
    TrimUnpadded(t, IsFloatSpace);
  }

  lemma ParseFloatNegative(t: string)
    requires t != [] && !IsFloatSpace(t[|t| - 1])
    ensures ParseFloat("-" + t) == Negated(ParseUnsigned(t))
  {
    var s := "-" + t;
    TrimUnpadded(s, IsFloatSpace);
    assert s[1..] == t && s[0] == '-';
  }

  lemma DigitIsNotSpace(c: char)
    requires IsDigit(c)
    ensures !IsFloatSpace(c) && c != '+' && c != '-'
  {
  }

  /** The sales coercion inverts the currency rendering: every amount,
      written with its sign, `$`, thousands separators and fraction digits,
      is read back exactly. */
  lemma SalesRoundTrip(d: Decimal)
    ensures CoerceSales(CurrencyText(d)) == Some(d)
  {
    CleanCurrencyText(d);
    ParseSignedText(d);
  }

  /** The text `float()` reads as an unsigned number: nothing but digits
      and points, at most one point, and at least one digit. */
  predicate UnsignedShape(t: string) {
    && (forall k :: 0 <= k < |t| ==> IsDigit(t[k]) || t[k] == '.')
    && (forall i, j :: 0 <= i < j < |t| && t[i] == '.' ==> t[j] != '.')
    && (exists k :: 0 <= k < |t| && IsDigit(t[k]))
  }

  /** Trimmed text `float()` reads: an unsigned number, possibly after one
      `+` or `-`. */
  predicate SignedShape(t: string) {
    || UnsignedShape(t)
    || (t != [] && (t[0] == '+' || t[0] == '-') && UnsignedShape(t[1..]))
  }

  /** The unsigned reading succeeds exactly on the unsigned shape: a letter,
      a sign, a second point or the lack of any digit is refused. */
  lemma ParseUnsignedShape(t: string)
    ensures ParseUnsigned(t).Some? <==> UnsignedShape(t)
  {
    var p := IndexOf(t, '.');
    IndexOfIsFirst(t, '.');
    var whole := t[..p];
    var frac := if p < |t| then t[p + 1..] else [];
    assert ParseUnsigned(t) == ReadParts(whole, frac);
    if ParseUnsigned(t).Some? {
      ShapeOfParts(t, p, whole, frac);
    }
    if UnsignedShape(t) {
      PartsOfShape(t, p, whole, frac);
    }
  }

  /** Digits on either side of the first point give the unsigned shape. */
  lemma ShapeOfParts(t: string, p: nat, whole: string, frac: string)
    requires p <= |t| && (p < |t| ==> t[p] == '.')
    requires whole == t[..p] && frac == (if p < |t| then t[p + 1..] else [])
    requires AllDigits(whole) && AllDigits(frac) && |whole| + |frac| > 0
    ensures UnsignedShape(t)
  {
    forall k | 0 <= k < |t| && k != p
      ensures IsDigit(t[k])
    {
      if k < p {
        assert t[k] == whole[k];
      } else {
        assert t[k] == frac[k - p - 1];
      }
    }
    if whole != [] {
      assert IsDigit(t[0]);
    } else {
      assert IsDigit(t[p + 1]) by { assert t[p + 1] == frac[0]; }
    }
  }

  /** In text of the unsigned shape, the digits before and after the first
      point are all digits, and there is at least one. */
  lemma PartsOfShape(t: string, p: nat, whole: string, frac: string)
    requires UnsignedShape(t)
    requires p <= |t| && (p < |t| ==> t[p] == '.') && '.' !in t[..p]
    requires whole == t[..p] && frac == (if p < |t| then t[p + 1..] else [])
    ensures AllDigits(whole) && AllDigits(frac) && |whole| + |frac| > 0
  {
    forall k | 0 <= k < |whole|
      ensures IsDigit(whole[k])
    {
      assert whole[k] == t[k] && t[k] in t[..p];
    }
    forall k | 0 <= k < |frac|
      ensures IsDigit(frac[k])
    {
      assert frac[k] == t[p + 1 + k];
    }
    var k :| 0 <= k < |t| && IsDigit(t[k]);
    assert k != p;
  }

  /** `float()` succeeds exactly on text that, once trimmed, has the signed
      shape; anything else raises `ValueError`. */
  lemma ParseFloatShape(s: string)
    ensures ParseFloat(s).Some? <==> SignedShape(Trim(s, IsFloatSpace))
  {
    var t := Trim(s, IsFloatSpace);
    ParseUnsignedShape(t);
    if t != [] && (t[0] == '+' || t[0] == '-') {
      ParseUnsignedShape(t[1..]);
      assert !UnsignedShape(t) by { assert !IsDigit(t[0]); }
    }
  }

  /** The sales coercion fails, and line 117 raises, exactly when the field
      with `$` and `,` removed does not have the signed shape once
      trimmed. */
  lemma CoerceSalesShape(s: string)
    ensures CoerceSales(s).None? <==> !SignedShape(Trim(CleanSales(s), IsFloatSpace))
  {
    ParseFloatShape(CleanSales(s));
  }

  /** A character that is neither a digit nor a point, other than a leading
      sign, leaves text without the signed shape. */
  lemma ForeignCharUnshaped(t: string, k: nat)
    requires k < |t| && !IsDigit(t[k]) && t[k] != '.'
    requires k == 0 ==> t[k] != '+' && t[k] != '-'
    ensures !SignedShape(t)
  {
    if t[0] == '+' || t[0] == '-' {
      assert t[1..][k - 1] == t[k];
    }
  }

  /** Two points leave text without the signed shape. */
  lemma TwoPointsUnshaped(t: string, i: nat, j: nat)
    requires i < j < |t| && t[i] == '.' && t[j] == '.'
    ensures !SignedShape(t)
  {
    if t[0] == '+' || t[0] == '-' {
      assert t[1..][i - 1] == t[i] && t[1..][j - 1] == t[j];
    }
  }
}
