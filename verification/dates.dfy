/** Calendar dates as the bot handles them: text typed as `YYYY-MM-DD`, checked against the
    pattern `^\d{4}-\d{2}-\d{2}$`, read as a (year, month, day) triple and numbered by days.
    The stored dates stay text; the lemmas at the end show that for such text the string
    order SQLite and JavaScript use is the chronological order. */
module Dates {
  import opened Wrappers
  import opened Text

  datatype Date = Date(year: nat, month: nat, day: nat)

  /** Gregorian leap-year rule (proleptic, year 0 included). */
  predicate IsLeapYear(y: nat) { y % 4 == 0 && (y % 100 != 0 || y % 400 == 0) }

  function DaysInMonth(y: nat, m: nat): nat
    requires 1 <= m <= 12
  {
    if m == 2 then (if IsLeapYear(y) then 29 else 28)
    else if m == 4 || m == 6 || m == 9 || m == 11 then 30
    else 31
  }

  /** The triple names a real calendar day. */
  predicate IsValidDate(d: Date) {
    1 <= d.month <= 12 && 1 <= d.day <= DaysInMonth(d.year, d.month)
  }

  function DaysBeforeMonth(y: nat, m: nat): nat
    requires 1 <= m <= 12
  {
    var common := [0, 31, 59, 90, 120, 151, 181, 212, 243, 273, 304, 334][m - 1];
    common + (if m > 2 && IsLeapYear(y) then 1 else 0)
  }

  /** Number of leap years among 0 .. y-1. */
  function LeapYearsBefore(y: nat): nat {
    if y == 0 then 0 else LeapYearsBefore(y - 1) + (if IsLeapYear(y - 1) then 1 else 0)
  }

  function DaysBeforeYear(y: nat): int { 365 * y + LeapYearsBefore(y) }

  /** Days elapsed since 0000-01-01: two dates differ by whole days exactly as their numbers do. */
  function DayNumber(d: Date): int
    requires IsValidDate(d)
  {
    DaysBeforeYear(d.year) + DaysBeforeMonth(d.year, d.month) + d.day - 1
  }

  /** Calendar order of (year, month, day) triples. */
  predicate Before(a: Date, b: Date) {
    a.year < b.year
    || (a.year == b.year && (a.month < b.month || (a.month == b.month && a.day < b.day)))
  }

  lemma MonthStep(y: nat, m: nat)
    requires 1 <= m < 12
    ensures DaysBeforeMonth(y, m + 1) == DaysBeforeMonth(y, m) + DaysInMonth(y, m)
  {
  }

  /** A year has as many days as its twelve months. */
  lemma YearStep(y: nat)
    ensures DaysBeforeYear(y + 1) == DaysBeforeYear(y) + DaysBeforeMonth(y, 12) + DaysInMonth(y, 12)
  {
  }

  lemma {:induction false} DaysBeforeMonthMonotone(y: nat, m: nat, n: nat)
    requires 1 <= m < n <= 12
    ensures DaysBeforeMonth(y, m) + DaysInMonth(y, m) <= DaysBeforeMonth(y, n)
    decreases n - m
  {
    MonthStep(y, m);
    if m + 1 < n {
      DaysBeforeMonthMonotone(y, m + 1, n);
    }
  }

  lemma {:induction false} DaysBeforeYearMonotone(y: nat, z: nat)
    requires y < z
    ensures DaysBeforeYear(y) + DaysBeforeMonth(y, 12) + DaysInMonth(y, 12) <= DaysBeforeYear(z)
    decreases z - y
  {
    YearStep(y);
    if y + 1 < z {
      DaysBeforeYearMonotone(y + 1, z);
      YearStep(y + 1);
    }
  }

  /** Later in the calendar means a larger day number. */
  lemma DayNumberMonotone(a: Date, b: Date)
    requires IsValidDate(a) && IsValidDate(b) && Before(a, b)
    ensures DayNumber(a) < DayNumber(b)
  {
    if a.year < b.year {
      DaysBeforeYearMonotone(a.year, b.year);
      if a.month < 12 { DaysBeforeMonthMonotone(a.year, a.month, 12); }
    } else if a.month < b.month {
      DaysBeforeMonthMonotone(a.year, a.month, b.month);
    }
  }

  /** On valid dates the day number orders exactly as the calendar does and is injective. */
  lemma DayNumberOrder(a: Date, b: Date)
    requires IsValidDate(a) && IsValidDate(b)
    ensures Before(a, b) <==> DayNumber(a) < DayNumber(b)
    ensures a == b <==> DayNumber(a) == DayNumber(b)
  {
    if Before(a, b) { DayNumberMonotone(a, b); }
    if Before(b, a) { DayNumberMonotone(b, a); }
  }

  // ---------------------------------------------------------------------------
  // Text of the form YYYY-MM-DD
  // ---------------------------------------------------------------------------

  /** The regular expression `^\d{4}-\d{2}-\d{2}$` (JavaScript: `\d` is ASCII, `$` is end of input). */
  predicate MatchesDatePattern(s: string) {
    |s| == 10 && AllDigits(s[..4]) && s[4] == '-' && AllDigits(s[5..7]) && s[7] == '-'
    && AllDigits(s[8..])
  }

  /** The three numeric fields of pattern text. */
  function PatternFields(s: string): Date
    requires MatchesDatePattern(s)
  {
    DecimalDigits(s[..4]);
    DecimalDigits(s[5..7]);
    DecimalDigits(s[8..]);
    Date(RadixValue(s[..4], 10), RadixValue(s[5..7], 10), RadixValue(s[8..], 10))
  }

  /** `new Date(s)` on pattern text: a date when the fields name a real calendar day, else
      an invalid date (None). */
  function ParseDate(s: string): (r: Option<Date>)
    ensures r.Some? ==> MatchesDatePattern(s) && IsValidDate(r.value)
  {
    if MatchesDatePattern(s) && IsValidDate(PatternFields(s)) then Some(PatternFields(s)) else None
  }

  /** Pattern text is its three fields joined by '-'. */
  lemma DateTextSplit(s: string)
    requires MatchesDatePattern(s)
    ensures s == s[..4] + ("-" + (s[5..7] + ("-" + s[8..])))
  {
    assert s[4..5] == "-" && s[7..8] == "-";
    assert s == s[..4] + s[4..5] + s[5..7] + s[7..8] + s[8..];
  }

  /** Two '-'-joined triples with equal-length leading fields compare field by field. */
  lemma FieldsLexOrder(a1: string, b1: string, c1: string, a2: string, b2: string, c2: string)
    requires |a1| == |a2| && |b1| == |b2|
    ensures LexLess(a1 + ("-" + (b1 + ("-" + c1))), a2 + ("-" + (b2 + ("-" + c2)))) <==>
      LexLess(a1, a2) || (a1 == a2 && (LexLess(b1, b2) || (b1 == b2 && LexLess(c1, c2))))
  {
    LexLessIrreflexive("-");
    LexLessConcat("-", c1, "-", c2);
    LexLessConcat(b1, "-" + c1, b2, "-" + c2);
    LexLessConcat("-", b1 + ("-" + c1), "-", b2 + ("-" + c2));
    LexLessConcat(a1, "-" + (b1 + ("-" + c1)), a2, "-" + (b2 + ("-" + c2)));
  }

  /** For pattern text, string order is the order of the (year, month, day) fields. */
  lemma DateTextOrder(s: string, t: string)
    requires MatchesDatePattern(s) && MatchesDatePattern(t)
    ensures LexLess(s, t) <==> Before(PatternFields(s), PatternFields(t))
    ensures s == t <==> PatternFields(s) == PatternFields(t)
  {
    DigitsLexOrder(s[..4], t[..4]);
    DigitsLexOrder(s[5..7], t[5..7]);
    DigitsLexOrder(s[8..], t[8..]);
    DateTextSplit(s);
    DateTextSplit(t);
    FieldsLexOrder(s[..4], s[5..7], s[8..], t[..4], t[5..7], t[8..]);
  }

  /** Stored date text compares, as text, exactly as the days it names compare. */
  lemma DateTextIsChronological(s: string, t: string)
    requires ParseDate(s).Some? && ParseDate(t).Some?
    ensures LexLess(s, t) <==> DayNumber(ParseDate(s).value) < DayNumber(ParseDate(t).value)
    ensures s == t <==> DayNumber(ParseDate(s).value) == DayNumber(ParseDate(t).value)
  {
    DateTextOrder(s, t);
    DayNumberOrder(ParseDate(s).value, ParseDate(t).value);
  }
}
