/** Character-level string operations used by the importer: Python's
    `str.strip()`, `str.replace(c, '')`, and conversion between natural
    numbers and their decimal text (`str(n)` and `int(s)`). */
module Strings {

  /** Python's `str.isspace()` on one character: the ASCII whitespace
      characters, the information separators U+001C..U+001F, and the Unicode
      space separators and line/paragraph separators. */
  predicate IsSpace(c: char) {
    || c == ' '
    || ('\t' <= c <= '\r')
    || ('\U{1C}' <= c <= '\U{1F}')
    || c == '\U{85}' || c == '\U{A0}' || c == '\U{1680}'
    || ('\U{2000}' <= c <= '\U{200A}')
    || c == '\U{2028}' || c == '\U{2029}' || c == '\U{202F}'
    || c == '\U{205F}' || c == '\U{3000}'
  }

  /** Leading characters of the class `ws` removed: `s.lstrip()` when `ws`
      is `IsSpace`. */
  function TrimLeft(s: string, ws: char -> bool): (r: string)
    ensures |r| <= |s|
  {
    if s != [] && ws(s[0]) then TrimLeft(s[1..], ws) else s
  }

  /** Trailing characters of the class `ws` removed: `s.rstrip()` when `ws`
      is `IsSpace`. */
  function TrimRight(s: string, ws: char -> bool): (r: string)
    ensures |r| <= |s|
  {
    if s != [] && ws(s[|s| - 1]) then TrimRight(s[..|s| - 1], ws) else s
  }

  /** `s` with its leading and trailing characters of the class `ws`
      removed. */
  function Trim(s: string, ws: char -> bool): (r: string)
    ensures |r| <= |s|
  {
    TrimRight(TrimLeft(s, ws), ws)
  }

  /** `s.strip()`: `s` with its leading and trailing whitespace removed. */
  function Strip(s: string): (r: string)
    ensures |r| <= |s|
  {
    Trim(s, IsSpace)
  }

  /** The left trim keeps the longest suffix that does not start with a
      character of the class. */
  lemma {:induction false} TrimLeftSpec(s: string, ws: char -> bool)
    ensures var r := TrimLeft(s, ws);
      && r == s[|s| - |r|..]
      && (r != [] ==> !ws(r[0]))
      && (forall k :: 0 <= k < |s| - |r| ==> ws(s[k]))
    decreases |s|
  {
    if s != [] && ws(s[0]) {
      TrimLeftSpec(s[1..], ws);
    }
  }

  /** The right trim keeps the longest prefix that does not end with a
      character of the class. */
  lemma {:induction false} TrimRightSpec(s: string, ws: char -> bool)
    ensures var r := TrimRight(s, ws);
      && r == s[..|r|]
      && (r != [] ==> !ws(r[|r| - 1]))
      && (forall k :: |r| <= k < |s| ==> ws(s[k]))
    decreases |s|
  {
    if s != [] && ws(s[|s| - 1]) {
      TrimRightSpec(s[..|s| - 1], ws);
    }
  }

  /** The trimmed text is the slice of `s` that starts at its first
      character outside the class and ends at its last one; everything cut
      off on either side is in the class. */
  lemma TrimSpec(s: string, ws: char -> bool)
    ensures var r, i := Trim(s, ws), |s| - |TrimLeft(s, ws)|;
      && (r != [] ==> !ws(r[0]) && !ws(r[|r| - 1]))
      && i + |r| <= |s| && r == s[i..i + |r|]
      && (forall k :: 0 <= k < i ==> ws(s[k]))
      && (forall k :: i + |r| <= k < |s| ==> ws(s[k]))
  {
    var l := TrimLeft(s, ws);
    var r := TrimRight(l, ws);
    TrimLeftSpec(s, ws);
    TrimRightSpec(l, ws);
    PrefixOfSuffix(s, l, r);
    SuffixInClass(s, l, |r|, ws);
  }

  /** A prefix `r` of a suffix `l` of `s` is a slice of `s`. */
  lemma PrefixOfSuffix(s: string, l: string, r: string)
    requires |l| <= |s| && l == s[|s| - |l|..]
    requires |r| <= |l| && r == l[..|r|]
    ensures |s| - |l| + |r| <= |s| && r == s[|s| - |l|..|s| - |l| + |r|]
    ensures r != [] ==> r[0] == l[0]
  {
  }

  /** A class that covers the suffix `l` of `s` from position `j` on covers
      `s` from the matching position on. */
  lemma SuffixInClass(s: string, l: string, j: nat, ws: char -> bool)
    requires |l| <= |s| && l == s[|s| - |l|..] && j <= |l|
    requires forall k :: j <= k < |l| ==> ws(l[k])
    ensures forall k :: |s| - |l| + j <= k < |s| ==> ws(s[k])
  {
    forall k | |s| - |l| + j <= k < |s|
      ensures ws(s[k])
    {
      assert s[k] == l[k - (|s| - |l|)];
    }
  }

  /** Text that neither starts nor ends with a character of the class is
      left as it is. */
  lemma TrimUnpadded(s: string, ws: char -> bool)
    requires s != [] ==> !ws(s[0]) && !ws(s[|s| - 1])
    ensures Trim(s, ws) == s
  {
  }

  /** Trimming twice is trimming once. */
  lemma TrimIdempotent(s: string, ws: char -> bool)
    ensures Trim(Trim(s, ws), ws) == Trim(s, ws)
  {
    TrimSpec(s, ws);
    TrimUnpadded(Trim(s, ws), ws);
  }

  /** `[value.strip() for value in row]`. */
  function StripAll(row: seq<string>): (r: seq<string>)
    ensures |r| == |row|
    ensures forall i :: 0 <= i < |r| ==> r[i] == Strip(row[i])
  {
    seq(|row|, i requires 0 <= i < |row| => Strip(row[i]))
  }

  /** `s.replace(c, '')`: every occurrence of `c` deleted, every other
      character kept, in order. */
  function RemoveChar(s: string, c: char): (r: string)
    ensures c !in r
  {
    if s == [] then []
    else (if s[0] == c then [] else [s[0]]) + RemoveChar(s[1..], c)
  }

  /** Text without `c` is left as it is. */
  lemma {:induction false} RemoveCharAbsent(s: string, c: char)
    requires c !in s
    ensures RemoveChar(s, c) == s
  {
    if s != [] {
      RemoveCharAbsent(s[1..], c);
      assert s == [s[0]] + s[1..];
    }
  }

  /** `replace(c, '')` deletes nothing but `c`: every other character occurs
      as often afterwards as before. */
  lemma {:induction false} RemoveCharKeepsOthers(s: string, c: char, x: char)
    requires x != c
    ensures multiset(RemoveChar(s, c))[x] == multiset(s)[x]
  {
    if s != [] {
      var head := if s[0] == c then [] else [s[0]];
      RemoveCharKeepsOthers(s[1..], c, x);
      assert s == [s[0]] + s[1..];
      assert multiset(RemoveChar(s, c)) == multiset(head) + multiset(RemoveChar(s[1..], c));
      assert multiset(head)[x] == multiset([s[0]])[x];
    }
  }

  /** Removing a character distributes over concatenation, so the characters
      that remain keep their relative order. */
  lemma {:induction false} RemoveCharConcat(a: string, b: string, c: char)
    ensures RemoveChar(a + b, c) == RemoveChar(a, c) + RemoveChar(b, c)
  {
    if a == [] {
      assert a + b == b;
    } else {
      var head := if a[0] == c then [] else [a[0]];
      assert (a + b)[0] == a[0];
      assert (a + b)[1..] == a[1..] + b;
      RemoveCharConcat(a[1..], b, c);
      calc {
        RemoveChar(a + b, c);
        head + RemoveChar(a[1..] + b, c);
        head + (RemoveChar(a[1..], c) + RemoveChar(b, c));
        (head + RemoveChar(a[1..], c)) + RemoveChar(b, c);
      }
    }
  }

  predicate IsDigit(c: char) {
    '0' <= c <= '9'
  }

  predicate AllDigits(s: string) {
    forall i :: 0 <= i < |s| ==> IsDigit(s[i])
  }

  function DigitValue(c: char): (d: nat)
    requires IsDigit(c)
    ensures d < 10
  {
    c as int - '0' as int
  }

  function DigitChar(d: nat): (c: char)
    requires d < 10
    ensures IsDigit(c) && DigitValue(c) == d
  {
    ('0' as int + d) as char
  }

  function Pow10(k: nat): (p: nat)
    ensures p >= 1
  {
    if k == 0 then 1 else 10 * Pow10(k - 1)
  }

  /** `int(s)` for a string of ASCII decimal digits (empty text reads as 0). */
  function DigitsValue(s: string): nat
    requires AllDigits(s)
  {
    if s == [] then 0 else 10 * DigitsValue(s[..|s| - 1]) + DigitValue(s[|s| - 1])
  }

  /** `str(n)` for a natural number: non-empty, all digits, no leading zero,
      and it reads back as `n`. */
  function NatToString(n: nat): (r: string)
    ensures r != [] && AllDigits(r)
    ensures |r| > 1 ==> r[0] != '0'
    ensures DigitsValue(r) == n
  {
    if n < 10 then [DigitChar(n)]
    else
      var r := NatToString(n / 10) + [DigitChar(n % 10)];
      assert r[..|r| - 1] == NatToString(n / 10);
      r
  }

  /** Dropping the last character of `a + b`, for non-empty `b`. */
  lemma InitOfConcat(a: string, b: string)
    requires b != []
    ensures (a + b)[..|a + b| - 1] == a + b[..|b| - 1]
    ensures (a + b)[|a + b| - 1] == b[|b| - 1]
  {
  }

  /** Shifting `v * 10^k + w` one decimal place and adding a digit. */
  lemma ShiftDigit(v: nat, k: nat, w: nat, d: nat)
    ensures 10 * (v * Pow10(k) + w) + d == v * Pow10(k + 1) + (10 * w + d)
  {
    assert Pow10(k + 1) == 10 * Pow10(k);
    assert 10 * (v * Pow10(k)) == v * (10 * Pow10(k));
  }

  /** The value of a concatenation of digit strings. */
  lemma {:induction false} DigitsValueConcat(a: string, b: string)
    requires AllDigits(a) && AllDigits(b)
    ensures AllDigits(a + b)
    ensures DigitsValue(a + b) == DigitsValue(a) * Pow10(|b|) + DigitsValue(b)
  {
    if b == [] {
      assert a + b == a;
    } else {
      var b' := b[..|b| - 1];
      InitOfConcat(a, b);
      DigitsValueConcat(a, b');
      ShiftDigit(DigitsValue(a), |b'|, DigitsValue(b'), DigitValue(b[|b| - 1]));
    }
  }

  /** A digit string with a non-zero first digit has a positive value. */
  lemma {:induction false} LeadingDigitPositive(s: string)
    requires s != [] && AllDigits(s) && s[0] != '0'
    ensures DigitsValue(s) >= 1
  {
    if |s| > 1 {
      LeadingDigitPositive(s[..|s| - 1]);
    }
  }

  /** `str(int(s)) == s` for canonical digit strings: decimal text without a
      leading zero is the text of exactly one number. */
  lemma {:induction false} NatToStringOfDigits(s: string)
    requires s != [] && AllDigits(s) && (|s| > 1 ==> s[0] != '0')
    ensures NatToString(DigitsValue(s)) == s
  {
    if |s| > 1 {
      var p := s[..|s| - 1];
      var d := DigitValue(s[|s| - 1]);
      LeadingDigitPositive(p);
      NatToStringOfDigits(p);
      var n := DigitsValue(s);
      assert n == 10 * DigitsValue(p) + d;
      assert n / 10 == DigitsValue(p) && n % 10 == d;
      assert DigitChar(d) == s[|s| - 1];
      assert s == p + [s[|s| - 1]];
    }
  }

  /** `str(n)` has at most `k` digits when `n < 10^k`. */
  lemma {:induction false} NatToStringLength(n: nat, k: nat)
    requires 1 <= k && n < Pow10(k)
    ensures |NatToString(n)| <= k
  {
    if n >= 10 {
      NatToStringLength(n / 10, k - 1);
    }
  }

  /** Leading zeros do not change the value of a digit string. */
  lemma ZeroPaddingValue(z: nat, s: string)
    requires AllDigits(s)
    ensures AllDigits(Zeros(z) + s)
    ensures DigitsValue(Zeros(z) + s) == DigitsValue(s)
  {
    ZerosValue(z);
    DigitsValueConcat(Zeros(z), s);
  }

  lemma {:induction false} ZerosValue(z: nat)
    ensures AllDigits(Zeros(z)) && DigitsValue(Zeros(z)) == 0
  {
    if z > 0 {
      assert Zeros(z)[..z - 1] == Zeros(z - 1);
      ZerosValue(z - 1);
    }
  }

  function Zeros(z: nat): (r: string)
    ensures |r| == z && forall i :: 0 <= i < z ==> r[i] == '0'
  {
    seq(z, _ => '0')
  }

  /** Position of the first `c` in `s`, or `|s|` when there is none. */
  function IndexOf(s: string, c: char): (i: nat)
    ensures i <= |s|
    ensures i < |s| ==> s[i] == c
  {
    if s == [] then 0
    else if s[0] == c then 0
    else 1 + IndexOf(s[1..], c)
  }

  /** No `c` comes before the position `IndexOf` finds. */
  lemma {:induction false} IndexOfIsFirst(s: string, c: char)
    ensures c !in s[..IndexOf(s, c)]
  {
    if s != [] && s[0] != c {
      IndexOfIsFirst(s[1..], c);
      var i := IndexOf(s, c);
      assert s[..i] == [s[0]] + s[1..][..i - 1];
    }
  }

  /** The first `c` of `a + b`, when `a` has none, is the first `c` of `b`. */
  lemma {:induction false} IndexOfConcat(a: string, b: string, c: char)
    requires c !in a
    ensures IndexOf(a + b, c) == |a| + IndexOf(b, c)
  {
    if a != [] {
      assert (a + b)[0] == a[0];
      assert (a + b)[1..] == a[1..] + b;
      IndexOfConcat(a[1..], b, c);
    } else {
      assert a + b == b;
    }
  }

  /** Digits never include `c` when `c` is not a digit. */
  lemma DigitsExclude(s: string, c: char)
    requires AllDigits(s) && !IsDigit(c)
    ensures c !in s
  {
    forall i | 0 <= i < |s| ensures s[i] != c {
      assert IsDigit(s[i]);
    }
  }

  /** A string of `k` digits is worth less than `10^k`. */
  lemma {:induction false} DigitsValueBound(s: string)
    requires AllDigits(s)
    ensures DigitsValue(s) < Pow10(|s|)
  {
    if s != [] {
      DigitsValueBound(s[..|s| - 1]);
    }
  }
}
