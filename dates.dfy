/**
 Calendar dates in the ledger's fixed text format `dd-mm-yyyy`.

 A date is a (day, month, year) triple; `ValidDate` is the proleptic
 Gregorian calendar over the years 1..9999 that the date parser accepts.
 Dates are compared lexicographically on (year, month, day), and
 `LeIsChronological` shows that this is the order of days on the calendar.
 */
module Dates {
  import opened Wrappers

  datatype Date = Date(day: int, month: int, year: int)

  const MinYear := 1
  const MaxYear := 9999

  predicate IsLeap(y: int) {
    y % 4 == 0 && (y % 100 != 0 || y % 400 == 0)
  }

  function DaysInMonth(m: int, y: int): int {
    if m == 2 then (if IsLeap(y) then 29 else 28)
    else if m == 4 || m == 6 || m == 9 || m == 11 then 30
    else 31
  }

  function DaysInYear(y: int): int {
    if IsLeap(y) then 366 else 365
  }

  /** A real calendar date within the years the date parser accepts. */
  predicate ValidDate(d: Date) {
    && MinYear <= d.year <= MaxYear
    && 1 <= d.month <= 12
    && 1 <= d.day <= DaysInMonth(d.month, d.year)
  }

  /** `a` is on or before `b`, comparing (year, month, day) lexicographically. */
  predicate Le(a: Date, b: Date) {
    || a.year < b.year
    || (a.year == b.year && a.month < b.month)
    || (a.year == b.year && a.month == b.month && a.day <= b.day)
  }

  lemma LeTotalOrder(a: Date, b: Date, c: Date)
    ensures Le(a, a)
    ensures Le(a, b) || Le(b, a)
    ensures Le(a, b) && Le(b, a) ==> a == b
    ensures Le(a, b) && Le(b, c) ==> Le(a, c)
  {
  }

  // ---------------------------------------------------------------------
  // Day numbers: an independent, chronological view of dates.
  // ---------------------------------------------------------------------

  /** Number of days in the years MinYear .. y-1. */
  function DaysBeforeYear(y: int): int
    decreases y
  {
    if y <= MinYear then 0 else DaysBeforeYear(y - 1) + DaysInYear(y - 1)
  }

  /** Number of days in the months 1 .. m-1 of year y. */
  function DaysBeforeMonth(m: int, y: int): int
    decreases m
  {
    if m <= 1 then 0 else DaysBeforeMonth(m - 1, y) + DaysInMonth(m - 1, y)
  }

  /** The position of a date in the sequence of calendar days, 1 for 01-01-0001. */
  function DayNumber(d: Date): int {
    DaysBeforeYear(d.year) + DaysBeforeMonth(d.month, d.year) + d.day
  }

  lemma {:induction false} YearsAdvance(y1: int, y2: int)
    requires y1 < y2
    requires MinYear <= y1
    ensures DaysBeforeYear(y1) + DaysInYear(y1) <= DaysBeforeYear(y2)
    decreases y2 - y1
  {
    if y1 + 1 < y2 {
      YearsAdvance(y1 + 1, y2);
      YearsAdvance(y1, y1 + 1);
    }
  }

  lemma {:induction false} MonthsAdvance(m1: int, m2: int, y: int)
    requires 1 <= m1 < m2
    ensures DaysBeforeMonth(m1, y) + DaysInMonth(m1, y) <= DaysBeforeMonth(m2, y)
    decreases m2 - m1
  {
    if m1 + 1 < m2 {
      MonthsAdvance(m1, m2 - 1, y);
    }
  }

  lemma MonthsFillYear(y: int)
    ensures DaysBeforeMonth(13, y) == DaysInYear(y)
  {
    assert DaysBeforeMonth(2, y) == 31;
    assert DaysBeforeMonth(3, y) == 31 + DaysInMonth(2, y);
    assert DaysBeforeMonth(4, y) == 62 + DaysInMonth(2, y);
    assert DaysBeforeMonth(5, y) == 92 + DaysInMonth(2, y);
    assert DaysBeforeMonth(6, y) == 123 + DaysInMonth(2, y);
    assert DaysBeforeMonth(7, y) == 153 + DaysInMonth(2, y);
    assert DaysBeforeMonth(8, y) == 184 + DaysInMonth(2, y);
    assert DaysBeforeMonth(9, y) == 215 + DaysInMonth(2, y);
    assert DaysBeforeMonth(10, y) == 245 + DaysInMonth(2, y);
    assert DaysBeforeMonth(11, y) == 276 + DaysInMonth(2, y);
    assert DaysBeforeMonth(12, y) == 306 + DaysInMonth(2, y);
  }

  /** Every valid date falls inside its own year's block of day numbers. */
  lemma WithinYear(d: Date)
    requires ValidDate(d)
    ensures DaysBeforeYear(d.year) < DayNumber(d) <= DaysBeforeYear(d.year) + DaysInYear(d.year)
  {
    if d.month < 12 {
      MonthsAdvance(d.month, 13, d.year);
    } else {
      assert DaysBeforeMonth(13, d.year) == DaysBeforeMonth(12, d.year) + DaysInMonth(12, d.year);
    }
    MonthsFillYear(d.year);
  }

  /**
   On valid dates the lexicographic (year, month, day) order is the
   chronological order: `a` is on or before `b` exactly when its day number
   is not larger.
   */
  lemma LeIsChronological(a: Date, b: Date)
    requires ValidDate(a) && ValidDate(b)
    ensures Le(a, b) <==> DayNumber(a) <= DayNumber(b)
  {
    if a.year != b.year {
      var (x, y) := if a.year < b.year then (a, b) else (b, a);
      WithinYear(x);
      WithinYear(y);
      YearsAdvance(x.year, y.year);
    } else if a.month != b.month {
      var (x, y) := if a.month < b.month then (a, b) else (b, a);
      MonthsAdvance(x.month, y.month, x.year);
    }
  }

  // ---------------------------------------------------------------------
  // The text format dd-mm-yyyy.
  // ---------------------------------------------------------------------

  predicate IsDigit(c: char) {
    '0' <= c <= '9'
  }

  predicate AllDigits(s: string) {
    forall i :: 0 <= i < |s| ==> IsDigit(s[i])
  }

  /** The number a string of decimal digits denotes. */
  function DigitsValue(s: string): (n: int)
    requires AllDigits(s)
    ensures 0 <= n
  {
    if s == [] then 0
    else DigitsValue(s[..|s| - 1]) * 10 + (s[|s| - 1] as int - '0' as int)
  }

  function DigitChar(k: int): (c: char)
    requires 0 <= k < 10
    ensures IsDigit(c)
  {
    ('0' as int + k) as char
  }

  /** Two-digit zero-padded rendering, as strftime's %d and %m. */
  function Pad2(n: int): (s: string)
    requires 0 <= n < 100
    ensures |s| == 2 && AllDigits(s)
  {
    [DigitChar(n / 10), DigitChar(n % 10)]
  }

  /** Four-digit zero-padded rendering, as strftime's %Y. */
  function Pad4(n: int): (s: string)
    requires 0 <= n < 10000
    ensures |s| == 4 && AllDigits(s)
  {
    [DigitChar(n / 1000), DigitChar(n / 100 % 10), DigitChar(n / 10 % 10), DigitChar(n % 10)]
  }

  lemma Pad2Value(n: int)
    requires 0 <= n < 100
    ensures DigitsValue(Pad2(n)) == n
  {
    var s := Pad2(n);
    assert s[..1][..0] == [];
    assert DigitsValue(s[..1]) == n / 10;
  }

  lemma Pad4Value(n: int)
    requires 0 <= n < 10000
    ensures DigitsValue(Pad4(n)) == n
  {
    var s := Pad4(n);
    assert s[..1][..0] == [];
    assert s[..2][..1] == s[..1];
    assert s[..3][..2] == s[..2];
    assert s[..4] == s;
    assert DigitsValue(s[..1]) == n / 1000;
    assert DigitsValue(s[..2]) == n / 100;
    assert DigitsValue(s[..3]) == n / 10;
  }

  /** The canonical `dd-mm-yyyy` rendering of a valid date (strftime). */
  function FormatDate(d: Date): (s: string)
    requires ValidDate(d)
    ensures |s| == 10 && s[2] == '-' && s[5] == '-'
  {
    Pad2(d.day) + "-" + Pad2(d.month) + "-" + Pad4(d.year)
  }

  /** Index of the first occurrence of `c` in `s`, or `|s|` when there is none. */
  function IndexOf(s: string, c: char): (i: int)
    ensures 0 <= i <= |s|
    ensures i < |s| ==> s[i] == c
    ensures forall k :: 0 <= k < i ==> s[k] != c
  {
    if s == [] then 0
    else if s[0] == c then 0
    else 1 + IndexOf(s[1..], c)
  }

  /**
   The three fields of a date text have the lengths the format allows:
   a day and a month of one or two digits and a year of four digits.
   */
  predicate FieldsShaped(dd: string, mm: string, yyyy: string) {
    && 1 <= |dd| <= 2 && AllDigits(dd)
    && 1 <= |mm| <= 2 && AllDigits(mm)
    && |yyyy| == 4 && AllDigits(yyyy)
  }

  function FieldsDate(dd: string, mm: string, yyyy: string): Date
    requires FieldsShaped(dd, mm, yyyy)
  {
    Date(DigitsValue(dd), DigitsValue(mm), DigitsValue(yyyy))
  }

  /**
   Parses `dd-mm-yyyy` (strptime with "%d-%m-%Y"): the whole text must be
   a day, a dash, a month, a dash and a year, and name a real calendar date.
   */
  function ParseDate(s: string): (r: Option<Date>)
    ensures r.Some? ==> ValidDate(r.value)
  {
    var i := IndexOf(s, '-');
    if i == |s| then None
    else
      var dd, rest := s[..i], s[i + 1..];
      var j := IndexOf(rest, '-');
      if j == |rest| then None
      else
        var mm, yyyy := rest[..j], rest[j + 1..];
        if FieldsShaped(dd, mm, yyyy) && ValidDate(FieldsDate(dd, mm, yyyy))
        then Some(FieldsDate(dd, mm, yyyy))
        else None
  }

  lemma DigitsHaveNoDash(s: string)
    requires AllDigits(s)
    ensures forall k :: 0 <= k < |s| ==> s[k] != '-'
  {
  }

  /**
   Completeness of the parser: every well-shaped text naming a valid date
   is accepted, with the date its fields denote.
   */
  lemma ParseDateAccepts(dd: string, mm: string, yyyy: string)
    requires FieldsShaped(dd, mm, yyyy) && ValidDate(FieldsDate(dd, mm, yyyy))
    ensures ParseDate(dd + "-" + mm + "-" + yyyy) == Some(FieldsDate(dd, mm, yyyy))
  {
    var s := dd + "-" + mm + "-" + yyyy;
    var rest := mm + "-" + yyyy;
    assert s == dd + ("-" + rest);
    DigitsHaveNoDash(dd);
    DigitsHaveNoDash(mm);
    assert s[|dd|] == '-';
    assert forall k :: 0 <= k < |dd| ==> s[k] == dd[k];
    assert IndexOf(s, '-') == |dd|;
    assert s[..|dd|] == dd;
    assert s[|dd| + 1..] == rest;
    assert rest[|mm|] == '-';
    assert forall k :: 0 <= k < |mm| ==> rest[k] == mm[k];
    assert IndexOf(rest, '-') == |mm|;
    assert rest[..|mm|] == mm;
    assert rest[|mm| + 1..] == yyyy;
  }

  /**
   Soundness of the parser: an accepted text is exactly a day, a dash, a
   month, a dash and a year of the allowed shapes, and the result is the
   date those fields denote.
   */
  lemma ParseDateSound(s: string)
    requires ParseDate(s).Some?
    ensures exists dd, mm, yyyy ::
              && FieldsShaped(dd, mm, yyyy)
              && s == dd + "-" + mm + "-" + yyyy
              && ParseDate(s) == Some(FieldsDate(dd, mm, yyyy))
  {
    var i := IndexOf(s, '-');
    var dd, rest := s[..i], s[i + 1..];
    var j := IndexOf(rest, '-');
    var mm, yyyy := rest[..j], rest[j + 1..];
    assert rest == mm + "-" + yyyy;
    assert s == dd + "-" + mm + "-" + yyyy;
    assert FieldsShaped(dd, mm, yyyy);
  }

  /** Formatting then parsing gives back the same date. */
  lemma ParseFormat(d: Date)
    requires ValidDate(d)
    ensures ParseDate(FormatDate(d)) == Some(d)
  {
    Pad2Value(d.day);
    Pad2Value(d.month);
    Pad4Value(d.year);
    ParseDateAccepts(Pad2(d.day), Pad2(d.month), Pad4(d.year));
  }
}
