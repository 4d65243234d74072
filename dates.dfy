/** The date checks of the record handlers (server/server.js): isISODate, the
    day a date-only string denotes when the JavaScript engine parses it, and
    the range validation built from the two. */
module Dates {
  import opened Wrappers
  import opened Text

  // ---------------------------------------------------------------------
  // isISODate: the pattern ^\d{4}-\d{2}-\d{2}$

  datatype Token = AnyDigit | Literal(c: char)

  predicate TokenMatches(tok: Token, c: char) {
    match tok
    case AnyDigit => IsDigit(c)
    case Literal(x) => c == x
  }

  /** An anchored pattern without repetition or alternatives matches a string
      token by token. */
  predicate Matches(s: string, pat: seq<Token>)
    decreases |pat|
  {
    if pat == [] then s == []
    else s != [] && TokenMatches(pat[0], s[0]) && Matches(s[1..], pat[1..])
  }

  /** \d{4}-\d{2}-\d{2} with the counted repetitions written out. */
  const IsoPattern: seq<Token> :=
    [AnyDigit, AnyDigit, AnyDigit, AnyDigit, Literal('-'), AnyDigit, AnyDigit,
     Literal('-'), AnyDigit, AnyDigit]

  predicate IsISODate(s: string) {
    Matches(s, IsoPattern)
  }

  lemma {:induction false} MatchesPositional(s: string, pat: seq<Token>)
    ensures Matches(s, pat) <==> |s| == |pat| && forall i :: 0 <= i < |s| ==> TokenMatches(pat[i], s[i])
    decreases |pat|
  {
    if pat != [] && s != [] {
      MatchesPositional(s[1..], pat[1..]);
      if |s| == |pat| && (forall i :: 0 <= i < |s| ==> TokenMatches(pat[i], s[i])) {
        assert forall i :: 0 <= i < |s| - 1 ==> TokenMatches(pat[1..][i], s[1..][i]) by {
          forall i | 0 <= i < |s| - 1 ensures TokenMatches(pat[1..][i], s[1..][i]) {
            assert TokenMatches(pat[i + 1], s[i + 1]);
          }
        }
      }
    }
  }

  /** isISODate checks the shape only: ten characters, '-' at positions 4 and
      7 and ASCII digits everywhere else; month and day may be anything. */
  lemma IsISODateShape(s: string)
    ensures IsISODate(s) <==>
      |s| == 10 && forall i :: 0 <= i < 10 ==> if i == 4 || i == 7 then s[i] == '-' else IsDigit(s[i])
  {
    MatchesPositional(s, IsoPattern);
    IsoPatternAt();
  }

  lemma IsoPatternAt()
    ensures |IsoPattern| == 10
    ensures forall i :: 0 <= i < 10 ==> IsoPattern[i] == if i == 4 || i == 7 then Literal('-') else AnyDigit
  {
  }

  // ---------------------------------------------------------------------
  // The proleptic Gregorian calendar

  predicate IsLeapYear(y: int) {
    y % 4 == 0 && (y % 100 != 0 || y % 400 == 0)
  }

  function DaysInYear(y: int): int {
    if IsLeapYear(y) then 366 else 365
  }

  function DaysInMonth(y: int, m: int): int
    requires 1 <= m <= 12
  {
    if m == 2 then (if IsLeapYear(y) then 29 else 28)
    else if m == 4 || m == 6 || m == 9 || m == 11 then 30
    else 31
  }

  /** Days of year y before the first of month m. */
  function MonthStart(y: int, m: int): (n: nat)
    requires 1 <= m <= 12
  {
    if m == 1 then 0 else MonthStart(y, m - 1) + DaysInMonth(y, m - 1)
  }

  /** Days from 1970-01-01 to the first of January of year y: 365 a year plus
      one for each leap year (the multiples of 4 that are not multiples of 100,
      and the multiples of 400) from 0000 on. */
  function YearStart(y: nat): int {
    365 * y + (y + 3) / 4 - (y + 99) / 100 + (y + 399) / 400 - 719528
  }

  /** (y + k - 1) / k counts the multiples of k in [0, y): the count goes up
      by one from y to y + 1 exactly when y is a multiple of k. */
  lemma MultiplesBelow(y: nat)
    ensures (y + 4) / 4 - (y + 3) / 4 == if y % 4 == 0 then 1 else 0
    ensures (y + 100) / 100 - (y + 99) / 100 == if y % 100 == 0 then 1 else 0
    ensures (y + 400) / 400 - (y + 399) / 400 == if y % 400 == 0 then 1 else 0
  {
    MultiplesBelowStep(y, 4);
    MultiplesBelowStep(y, 100);
    MultiplesBelowStep(y, 400);
  }

  lemma MultiplesBelowStep(y: nat, k: nat)
    requires k > 0
    ensures (y + k) / k - (y + k - 1) / k == if y % k == 0 then 1 else 0
  {
    var q, r := y / k, y % k;
    assert y == k * q + r && 0 <= r < k;
    assert y + k == k * (q + 1) + r;
    DivExact(y + k, k, q + 1, r);
    if r == 0 {
      assert y + k - 1 == k * q + (k - 1);
      DivExact(y + k - 1, k, q, k - 1);
    } else {
      assert y + k - 1 == k * (q + 1) + (r - 1);
      DivExact(y + k - 1, k, q + 1, r - 1);
    }
  }

  /** Euclidean division is determined by quotient and remainder. */
  lemma DivExact(n: nat, k: nat, q: nat, r: nat)
    requires k > 0 && n == k * q + r && r < k
    ensures n / k == q
  {
    var q', r' := n / k, n % k;
    assert k * (q - q') == r' - r;
    SmallMultiple(k, q - q');
  }

  /** The only multiple of k strictly between -k and k is 0. */
  lemma SmallMultiple(k: int, d: int)
    requires k > 0 && -k < k * d < k
    ensures d == 0
  {
  }

  lemma DivisibilityChain(y: nat)
    ensures y % 100 == 0 ==> y % 4 == 0
    ensures y % 400 == 0 ==> y % 100 == 0
  {
    if y % 100 == 0 {
      var q := y / 100;
      assert y == 100 * q;
      ModExact(y, 4, 25 * q, 0);
    }
    if y % 400 == 0 {
      var q := y / 400;
      assert y == 400 * q;
      ModExact(y, 100, 4 * q, 0);
    }
  }

  lemma ModExact(n: nat, k: nat, q: nat, r: nat)
    requires k > 0 && n == k * q + r && r < k
    ensures n % k == r
  {
    DivExact(n, k, q, r);
  }

  lemma YearLength(y: nat)
    ensures YearStart(y + 1) == YearStart(y) + DaysInYear(y)
  {
    MultiplesBelow(y);
    DivisibilityChain(y);
    var leaps := (if y % 4 == 0 then 1 else 0) - (if y % 100 == 0 then 1 else 0) + (if y % 400 == 0 then 1 else 0);
    assert YearStart(y + 1) - YearStart(y) == 365 + leaps;
  }

  lemma MonthsFillYear(y: int)
    ensures MonthStart(y, 12) + DaysInMonth(y, 12) == DaysInYear(y)
  {
    var leap := if IsLeapYear(y) then 1 else 0;
    assert MonthStart(y, 2) == 31;
    assert MonthStart(y, 3) == 59 + leap;
    assert MonthStart(y, 4) == 90 + leap;
    assert MonthStart(y, 5) == 120 + leap;
    assert MonthStart(y, 6) == 151 + leap;
    assert MonthStart(y, 7) == 181 + leap;
    assert MonthStart(y, 8) == 212 + leap;
    assert MonthStart(y, 9) == 243 + leap;
    assert MonthStart(y, 10) == 273 + leap;
    assert MonthStart(y, 11) == 304 + leap;
    assert MonthStart(y, 12) == 334 + leap;
  }

  /** The day number MakeDay gives a year, month and day of month, with a day
      past the end of its month carried into the next months. */
  function CivilDay(y: nat, m: int, d: int): int
    requires 1 <= m <= 12
  {
    YearStart(y) + MonthStart(y, m) + d - 1
  }

  predicate IsRealDate(y: nat, m: int, d: int) {
    1 <= m <= 12 && 1 <= d <= DaysInMonth(y, m)
  }

  /** The calendar's successor of a real date. */
  function NextDate(y: nat, m: int, d: int): (r: (nat, int, int))
    requires IsRealDate(y, m, d)
    ensures IsRealDate(r.0, r.1, r.2)
  {
    if d < DaysInMonth(y, m) then (y, m, d + 1)
    else if m < 12 then (y, m + 1, 1)
    else (y + 1, 1, 1)
  }

  /** Day numbers count days: the next calendar date has the next number. */
  lemma CivilDayNext(y: nat, m: int, d: int)
    requires IsRealDate(y, m, d)
    ensures var n := NextDate(y, m, d); CivilDay(n.0, n.1, n.2) == CivilDay(y, m, d) + 1
  {
    if d == DaysInMonth(y, m) && m == 12 {
      YearLength(y);
      MonthsFillYear(y);
    }
  }

  /** The engine's leniency: a day of month up to 31 past the month's end
      denotes a day of the next month. */
  lemma CivilDayOverflow(y: nat, m: int, d: int)
    requires 1 <= m < 12 && DaysInMonth(y, m) < d
    ensures CivilDay(y, m, d) == CivilDay(y, m + 1, d - DaysInMonth(y, m))
  {
  }

  // ---------------------------------------------------------------------
  // new Date(s) on a string that passed isISODate

  function YearOf(s: string): nat requires IsISODate(s) { IsISODateShape(s); DigitsValue(s[..4]) }
  function MonthOf(s: string): nat requires IsISODate(s) { IsISODateShape(s); DigitsValue(s[5..7]) }
  function DayOf(s: string): nat requires IsISODate(s) { IsISODateShape(s); DigitsValue(s[8..]) }

  /** The UTC day a date-only string denotes, or None for an Invalid Date:
      the ISO date reader refuses a month outside 1..12 and a day outside
      1..31, and carries a day past the end of its month into the next month.
      The engine's fallback parser, which turns some refused texts with years
      0001 to 0012 into local dates, is not modelled. */
  function DayNumber(s: string): (r: Option<int>)
    requires IsISODate(s)
    ensures r.Some? <==> 1 <= MonthOf(s) <= 12 && 1 <= DayOf(s) <= 31
  {
    var y, m, d := YearOf(s), MonthOf(s), DayOf(s);
    if 1 <= m <= 12 && 1 <= d <= 31 then Some(CivilDay(y, m, d)) else None
  }

  /** Decimal digits of n, zero-padded to width w. */
  function PadDigits(n: nat, w: nat): (s: string)
    requires n < Pow10(w)
    ensures |s| == w && AllDigits(s) && DigitsValue(s) == n
  {
    if w == 0 then []
    else
      var s := PadDigits(n / 10, w - 1) + [DigitChar(n % 10)];
      assert s[..w - 1] == PadDigits(n / 10, w - 1);
      s
  }

  /** The YYYY-MM-DD text of a date. */
  function DateText(y: nat, m: nat, d: nat): string
    requires y < 10000 && m < 100 && d < 100
  {
    PadDigits(y, 4) + "-" + PadDigits(m, 2) + "-" + PadDigits(d, 2)
  }

  /** Every YYYY-MM-DD text passes isISODate, whatever its month and day, and
      its fields are read back. */
  lemma DateTextFields(y: nat, m: nat, d: nat)
    requires y < 10000 && m < 100 && d < 100
    ensures IsISODate(DateText(y, m, d))
    ensures YearOf(DateText(y, m, d)) == y && MonthOf(DateText(y, m, d)) == m && DayOf(DateText(y, m, d)) == d
  {
    var s := DateText(y, m, d);
    assert s[..4] == PadDigits(y, 4);
    assert s[5..7] == PadDigits(m, 2);
    assert s[8..] == PadDigits(d, 2);
    IsISODateShape(s);
  }

  /** A YYYY-MM-DD text with month 1..12 and day 1..31 is read as the day it names. */
  lemma DateTextDay(y: nat, m: nat, d: nat)
    requires y < 10000 && 1 <= m <= 12 && 1 <= d <= 31
    ensures IsISODate(DateText(y, m, d))
    ensures DayNumber(DateText(y, m, d)) == Some(CivilDay(y, m, d))
  {
    DateTextFields(y, m, d);
  }

  // ---------------------------------------------------------------------
  // The checks after isISODate

  datatype RangeError = BadDateFormat | StartAfterEnd | RangeTooLarge

  const MaxRangeDays := 366

  /** The date checks of create and update, in their order. A date that
      passes isISODate but is an Invalid Date compares false both times, so
      it passes both later checks. */
  function CheckRange(start: string, end: string): (r: Option<RangeError>)
    ensures r == Some(BadDateFormat) <==> !IsISODate(start) || !IsISODate(end)
    ensures IsISODate(start) && IsISODate(end) && (DayNumber(start).None? || DayNumber(end).None?) ==> r == None
  {
    if !IsISODate(start) || !IsISODate(end) then Some(BadDateFormat)
    else match (DayNumber(start), DayNumber(end))
      case (Some(a), Some(b)) =>
        if a > b then Some(StartAfterEnd)
        else if b - a > MaxRangeDays then Some(RangeTooLarge)
        else None
      case _ => None
  }

  /** Between real dates the range is accepted exactly when the end is not
      before the start and at most 366 days after it. */
  lemma CheckRangeSpan(y1: nat, m1: nat, d1: nat, y2: nat, m2: nat, d2: nat)
    requires y1 < 10000 && IsRealDate(y1, m1, d1) && y2 < 10000 && IsRealDate(y2, m2, d2)
    ensures var a, b := CivilDay(y1, m1, d1), CivilDay(y2, m2, d2);
      && (CheckRange(DateText(y1, m1, d1), DateText(y2, m2, d2)) == None <==> a <= b <= a + MaxRangeDays)
      && (CheckRange(DateText(y1, m1, d1), DateText(y2, m2, d2)) == Some(StartAfterEnd) <==> a > b)
  {
    var start, end := DateText(y1, m1, d1), DateText(y2, m2, d2);
    DateTextDay(y1, m1, d1);
    DateTextDay(y2, m2, d2);
    CheckRangeDays(start, end, CivilDay(y1, m1, d1), CivilDay(y2, m2, d2));
  }

  lemma CheckRangeDays(start: string, end: string, a: int, b: int)
    requires IsISODate(start) && IsISODate(end) && DayNumber(start) == Some(a) && DayNumber(end) == Some(b)
    ensures CheckRange(start, end) == None <==> a <= b <= a + MaxRangeDays
    ensures CheckRange(start, end) == Some(StartAfterEnd) <==> a > b
  {
  }

  /** A start or end date with month 00 or 13..99, or day 00 or 32..99, is
      an Invalid Date and is let through by both comparisons. Years 0001 to
      0012 with a month of 01..31 are left out: the engine's fallback parser
      reads those texts as local month-day-year dates. */
  lemma InvalidDatePasses(y: nat, m: nat, d: nat, other: string)
    requires y < 10000 && m < 100 && d < 100 && IsISODate(other)
    requires m == 0 || m > 12 || d == 0 || d > 31
    requires y == 0 || y > 12 || m == 0 || m > 31
    ensures CheckRange(DateText(y, m, d), other) == None
    ensures CheckRange(other, DateText(y, m, d)) == None
  {
    DateTextFields(y, m, d);
  }

  /** The 366-day limit at its edge: from 2023-01-01, 2024-01-02 is accepted
      and 2024-01-03 is refused; a range of one day is accepted. */
  lemma RangeLimitEdge()
    ensures CheckRange(DateText(2023, 1, 1), DateText(2024, 1, 2)) == None
    ensures CheckRange(DateText(2023, 1, 1), DateText(2024, 1, 3)) == Some(RangeTooLarge)
    ensures CheckRange(DateText(2023, 1, 1), DateText(2023, 1, 1)) == None
  {
    YearLength(2023);
    assert CivilDay(2024, 1, 2) == CivilDay(2023, 1, 1) + 366;
    CheckRangeSpan(2023, 1, 1, 2024, 1, 2);
    CheckRangeSpan(2023, 1, 1, 2024, 1, 3);
    CheckRangeSpan(2023, 1, 1, 2023, 1, 1);
    DateTextDay(2023, 1, 1);
    DateTextDay(2024, 1, 3);
  }
}
