/**
 * The date calculator screen (`viewmodel/DateCalculatorViewModel.kt`): the difference between
 * two dates, adding years, months and days to a date, and the date of Easter for a year.
 * `java.time.LocalDate` arithmetic (`plusYears`, `plusMonths`, `plusDays`, `Period.between`,
 * `ChronoUnit.DAYS.between`) is modelled on the proleptic Gregorian calendar.
 */
module DateCalculator {
  import opened Wrappers
  import opened Text

  // ------------------------------------------------------------ the calendar

  datatype Date = Date(year: int, month: int, day: int)

  predicate IsLeap(y: int) { y % 4 == 0 && (y % 100 != 0 || y % 400 == 0) }

  function DaysInMonth(y: int, m: int): (n: int)
    requires 1 <= m <= 12
    ensures 28 <= n <= 31
    ensures m == 2 ==> (n == 29 <==> IsLeap(y))
  {
    if m == 2 then (if IsLeap(y) then 29 else 28)
    else if m == 4 || m == 6 || m == 9 || m == 11 then 30
    else 31
  }

  predicate Valid(d: Date) { 1 <= d.month <= 12 && 1 <= d.day <= DaysInMonth(d.year, d.month) }

  /** A valid day of the proleptic calendar, with no bound on the year. */
  type LocalDate = d: Date | Valid(d) witness Date(1, 1, 1)

  /** `Year.MAX_VALUE`: `LocalDate` holds the years -999,999,999 to 999,999,999. */
  const MAX_YEAR: int := 999_999_999

  /** A date `LocalDate` can hold. */
  predicate InRange(d: Date) { -MAX_YEAR <= d.year <= MAX_YEAR }

  /** The outcome of a `java.time` call: a value, or a thrown `DateTimeException`. */
  datatype Run<T> = Returns(value: T) | Throws

  function YearLength(y: int): int { if IsLeap(y) then 366 else 365 }

  /** Days of the year before the first of month m. */
  function DaysBeforeMonth(y: int, m: int): (n: int)
    requires 1 <= m <= 12
    ensures 0 <= n <= 335
  {
    var common :=
      if m == 1 then 0 else if m == 2 then 31 else if m == 3 then 59 else if m == 4 then 90
      else if m == 5 then 120 else if m == 6 then 151 else if m == 7 then 181 else if m == 8 then 212
      else if m == 9 then 243 else if m == 10 then 273 else if m == 11 then 304 else 334;
    common + (if m > 2 && IsLeap(y) then 1 else 0)
  }

  lemma DaysBeforeMonthStep(y: int, m: int)
    requires 1 <= m < 12
    ensures DaysBeforeMonth(y, m + 1) == DaysBeforeMonth(y, m) + DaysInMonth(y, m)
  {
  }

  lemma DaysBeforeDecember(y: int)
    ensures DaysBeforeMonth(y, 12) + 31 == YearLength(y)
  {
  }

  /** Days from 0001-01-01 to January 1st of year y (negative before it). */
  function DaysBeforeYear(y: int): int
  {
    365 * (y - 1) + (y - 1) / 4 - (y - 1) / 100 + (y - 1) / 400
  }

  /** One more multiple of 4, 100 or 400 is passed exactly when it divides y. */
  lemma FloorDivSteps(y: int)
    ensures y / 4 - (y - 1) / 4 == if y % 4 == 0 then 1 else 0
    ensures y / 100 - (y - 1) / 100 == if y % 100 == 0 then 1 else 0
    ensures y / 400 - (y - 1) / 400 == if y % 400 == 0 then 1 else 0
  {
  }

  /** A multiple of 400 is a multiple of 100, and a multiple of 100 a multiple of 4. */
  lemma Divisibility(y: int)
    ensures y % 400 == 0 ==> y % 100 == 0
    ensures y % 100 == 0 ==> y % 4 == 0
  {
    if y % 400 == 0 {
      var k := y / 400;
      assert y == 100 * (4 * k);
    }
    if y % 100 == 0 {
      var k := y / 100;
      assert y == 4 * (25 * k);
    }
  }

  /** The multiples of 4, 100 and 400 passed at y add up to one exactly in a leap year. */
  lemma LeapSteps(y: int)
    ensures (y / 4 - (y - 1) / 4) - (y / 100 - (y - 1) / 100) + (y / 400 - (y - 1) / 400)
            == if IsLeap(y) then 1 else 0
  {
    FloorDivSteps(y);
    Divisibility(y);
  }

  lemma DaysBeforeYearStep(y: int)
    ensures DaysBeforeYear(y + 1) == DaysBeforeYear(y) + YearLength(y)
  {
    assert DaysBeforeYear(y + 1) == 365 * y + y / 4 - y / 100 + y / 400;
    LeapSteps(y);
  }

  /** The day number of a date (`toEpochDay` up to a constant offset). */
  function DayNumber(d: LocalDate): int
  {
    DaysBeforeYear(d.year) + DaysBeforeMonth(d.year, d.month) + d.day - 1
  }

  function NextDay(d: LocalDate): (r: LocalDate)
    ensures DayNumber(r) == DayNumber(d) + 1
  {
    if d.day < DaysInMonth(d.year, d.month) then d.(day := d.day + 1)
    else if d.month < 12 then
      DaysBeforeMonthStep(d.year, d.month);
      Date(d.year, d.month + 1, 1)
    else
      DaysBeforeYearStep(d.year);
      DaysBeforeDecember(d.year);
      Date(d.year + 1, 1, 1)
  }

  function PrevDay(d: LocalDate): (r: LocalDate)
    ensures DayNumber(r) == DayNumber(d) - 1
  {
    if d.day > 1 then d.(day := d.day - 1)
    else if d.month > 1 then
      DaysBeforeMonthStep(d.year, d.month - 1);
      Date(d.year, d.month - 1, DaysInMonth(d.year, d.month - 1))
    else
      DaysBeforeYearStep(d.year - 1);
      DaysBeforeDecember(d.year - 1);
      Date(d.year - 1, 12, 31)
  }

  /** n days later (earlier when n < 0), on the unbounded calendar. */
  function PlusDays(d: LocalDate, n: int): (r: LocalDate)
    ensures DayNumber(r) == DayNumber(d) + n
    decreases if n < 0 then -n else n
  {
    if n == 0 then d
    else if n > 0 then PlusDays(NextDay(d), n - 1)
    else PlusDays(PrevDay(d), n + 1)
  }

  /** `ChronoUnit.DAYS.between(start, end)`. */
  function DaysBetween(start: LocalDate, end: LocalDate): int
  {
    DayNumber(end) - DayNumber(start)
  }

  /** The month count `year * 12 + month - 1` (`getProlepticMonth`). */
  function ProlepticMonth(d: Date): int { d.year * 12 + d.month - 1 }

  /** `resolvePreviousValid`: the day is clamped to the length of the month. */
  function ResolvePreviousValid(y: int, m: int, day: int): (r: LocalDate)
    requires 1 <= m <= 12 && 1 <= day
    ensures r.year == y && r.month == m
    ensures r.day == if day <= DaysInMonth(y, m) then day else DaysInMonth(y, m)
  {
    Date(y, m, if day <= DaysInMonth(y, m) then day else DaysInMonth(y, m))
  }

  /** The month moves by n, the day is kept or clamped to the month's end (unbounded calendar). */
  function PlusMonths(d: LocalDate, n: int): (r: LocalDate)
    ensures ProlepticMonth(r) == ProlepticMonth(d) + n
    ensures r.day <= d.day
    ensures d.day <= DaysInMonth(r.year, r.month) ==> r.day == d.day
    ensures d.day > DaysInMonth(r.year, r.month) ==> r.day == DaysInMonth(r.year, r.month)
  {
    if n == 0 then d
    else
      var months := ProlepticMonth(d) + n;
      ResolvePreviousValid(months / 12, months % 12 + 1, d.day)
  }

  /** The year moves by n; 29 February becomes the 28th in a common year (unbounded calendar). */
  function PlusYears(d: LocalDate, n: int): (r: LocalDate)
    ensures r.year == d.year + n && r.month == d.month && r.day <= d.day
    ensures d.day <= DaysInMonth(r.year, r.month) ==> r.day == d.day
  {
    if n == 0 then d else ResolvePreviousValid(d.year + n, d.month, d.day)
  }

  /**
   * `plusDays(n)`: the date itself when n is 0, else the shifted date, which throws when it
   * leaves the supported years (`ofEpochDay` checks the range; an overflowing `addExact`
   * only happens far outside it).
   */
  function CheckedPlusDays(d: LocalDate, n: int): (r: Run<LocalDate>)
    ensures r.Returns? ==> r.value == PlusDays(d, n) && DayNumber(r.value) == DayNumber(d) + n
    ensures InRange(d) ==> (r.Returns? <==> InRange(PlusDays(d, n)))
  {
    if n == 0 then Returns(d)
    else if InRange(PlusDays(d, n)) then Returns(PlusDays(d, n))
    else Throws
  }

  /**
   * `plusMonths(n)`: throws when the new year leaves the supported years. The month count is
   * a Long sum that can wrap only when n is so large that either way the year is out of range.
   */
  function CheckedPlusMonths(d: LocalDate, n: int): (r: Run<LocalDate>)
    ensures r.Returns? ==> r.value == PlusMonths(d, n) && ProlepticMonth(r.value) == ProlepticMonth(d) + n
    ensures InRange(d) ==> (r.Returns? <==> InRange(PlusMonths(d, n)))
  {
    if n == 0 then Returns(d)
    else if InRange(PlusMonths(d, n)) then Returns(PlusMonths(d, n))
    else Throws
  }

  /** `plusYears(n)`: throws when `year + n` leaves the supported years. */
  function CheckedPlusYears(d: LocalDate, n: int): (r: Run<LocalDate>)
    ensures r.Returns? ==> r.value == PlusYears(d, n) && r.value.year == d.year + n
    ensures InRange(d) ==> (r.Returns? <==> -MAX_YEAR <= d.year + n <= MAX_YEAR)
  {
    if n == 0 then Returns(d)
    else if -MAX_YEAR <= d.year + n <= MAX_YEAR then Returns(PlusYears(d, n))
    else Throws
  }

  // ------------------------------------------------------------ ordering of dates

  /** The first day of a proleptic month. */
  function FirstDay(pm: int): LocalDate
  {
    Date(pm / 12, pm % 12 + 1, 1)
  }

  lemma FirstDayStep(pm: int)
    ensures DayNumber(FirstDay(pm + 1)) == DayNumber(FirstDay(pm)) + DaysInMonth(pm / 12, pm % 12 + 1)
  {
    var y, m := pm / 12, pm % 12 + 1;
    if m < 12 {
      assert (pm + 1) / 12 == y && (pm + 1) % 12 + 1 == m + 1;
      DaysBeforeMonthStep(y, m);
    } else {
      assert (pm + 1) / 12 == y + 1 && (pm + 1) % 12 + 1 == 1;
      DaysBeforeYearStep(y);
      DaysBeforeDecember(y);
    }
  }

  lemma {:induction false} FirstDayMonotone(p: int, q: int)
    requires p <= q
    ensures DayNumber(FirstDay(p)) + (q - p) * 28 <= DayNumber(FirstDay(q))
    decreases q - p
  {
    if p < q {
      FirstDayMonotone(p + 1, q);
      FirstDayStep(p);
    }
  }

  /** Every day of a month lies between its first day and the next month's first day. */
  lemma WithinMonth(d: LocalDate)
    ensures DayNumber(FirstDay(ProlepticMonth(d))) <= DayNumber(d) < DayNumber(FirstDay(ProlepticMonth(d) + 1))
  {
    var pm := ProlepticMonth(d);
    assert pm / 12 == d.year && pm % 12 + 1 == d.month;
    FirstDayStep(pm);
  }

  /** An earlier month means an earlier day. */
  lemma MonthOrder(a: LocalDate, b: LocalDate)
    requires ProlepticMonth(a) < ProlepticMonth(b)
    ensures DayNumber(a) < DayNumber(b)
  {
    WithinMonth(a);
    WithinMonth(b);
    FirstDayMonotone(ProlepticMonth(a) + 1, ProlepticMonth(b));
  }

  /** Different dates have different day numbers. */
  lemma DayNumberInjective(a: LocalDate, b: LocalDate)
    requires DayNumber(a) == DayNumber(b)
    ensures a == b
  {
    if ProlepticMonth(a) < ProlepticMonth(b) {
      MonthOrder(a, b);
    } else if ProlepticMonth(b) < ProlepticMonth(a) {
      MonthOrder(b, a);
    } else {
      assert a.year == ProlepticMonth(a) / 12 && b.year == ProlepticMonth(b) / 12;
    }
  }

  /** `ChronoUnit.DAYS.between` undoes `plusDays`, and `plusDays` reaches any later date. */
  lemma DaysBetweenPlusDays(d: LocalDate, n: int, e: LocalDate)
    ensures DaysBetween(d, PlusDays(d, n)) == n
    ensures PlusDays(d, DaysBetween(d, e)) == e
  {
    DayNumberInjective(PlusDays(d, DaysBetween(d, e)), e);
  }

  // ------------------------------------------------------------ Period.between

  datatype Period = Period(years: int, months: int, days: int)

  /** Java's `/` and `%` on integers truncate toward zero. */
  function TruncDiv(a: int, b: int): int
    requires b > 0
  {
    if a >= 0 then a / b else -((-a) / b)
  }

  function TruncMod(a: int, b: int): int
    requires b > 0
  {
    a - TruncDiv(a, b) * b
  }

  /** `Period.between(start, end)` (`LocalDate.until`). */
  function Between(start: LocalDate, end: LocalDate): Period
  {
    var total := ProlepticMonth(end) - ProlepticMonth(start);
    var days := end.day - start.day;
    if total > 0 && days < 0 then
      var shifted := PlusMonths(start, total - 1);
      var days' := DayNumber(end) - DayNumber(shifted);
      Period(TruncDiv(total - 1, 12), TruncMod(total - 1, 12), days')
    else if total < 0 && days > 0 then
      Period(TruncDiv(total + 1, 12), TruncMod(total + 1, 12), days - DaysInMonth(end.year, end.month))
    else
      Period(TruncDiv(total, 12), TruncMod(total, 12), days)
  }

  /**
   * From an earlier date, the period has no negative part, fewer than 12 months, and adding
   * its years and months and then its days to the start gives the end.
   */
  lemma PeriodAddsUp(start: LocalDate, end: LocalDate)
    requires DayNumber(start) <= DayNumber(end)
    ensures var p := Between(start, end);
            && p.years >= 0 && 0 <= p.months < 12 && p.days >= 0
            && PlusDays(PlusMonths(start, p.years * 12 + p.months), p.days) == end
  {
    var total := ProlepticMonth(end) - ProlepticMonth(start);
    if total < 0 {
      MonthOrder(end, start);
    }
    if total > 0 && end.day < start.day {
      PeriodBorrowing(start, end);
    } else {
      PeriodNotBorrowing(start, end);
    }
  }

  /** The proleptic month determines the year and the month. */
  lemma SameMonth(a: Date, b: Date)
    requires 1 <= a.month <= 12 && 1 <= b.month <= 12
    requires ProlepticMonth(a) == ProlepticMonth(b)
    ensures a.year == b.year && a.month == b.month
  {
    assert a.year == ProlepticMonth(a) / 12 && b.year == ProlepticMonth(b) / 12;
  }

  /** A later month but an earlier day of the month: one month fewer, and the days counted. */
  lemma PeriodBorrowing(start: LocalDate, end: LocalDate)
    requires ProlepticMonth(end) > ProlepticMonth(start) && end.day < start.day
    ensures var p := Between(start, end);
            && p.years >= 0 && 0 <= p.months < 12 && p.days >= 0
            && PlusDays(PlusMonths(start, p.years * 12 + p.months), p.days) == end
  {
    var total := ProlepticMonth(end) - ProlepticMonth(start);
    var shifted := PlusMonths(start, total - 1);
    MonthOrder(shifted, end);
    BorrowingPeriod(start, end);
    var p := Between(start, end);
    assert p.years * 12 + p.months == total - 1;
    assert PlusMonths(start, p.years * 12 + p.months) == shifted;
    var n := DaysBetween(shifted, end);
    assert n == p.days && n >= 0;
    DaysBetweenPlusDays(shifted, 0, end);
    assert PlusDays(shifted, n) == end;
  }

  lemma BorrowingPeriod(start: LocalDate, end: LocalDate)
    requires ProlepticMonth(end) > ProlepticMonth(start) && end.day < start.day
    ensures var total := ProlepticMonth(end) - ProlepticMonth(start);
            Between(start, end)
            == Period((total - 1) / 12, (total - 1) % 12, DayNumber(end) - DayNumber(PlusMonths(start, total - 1)))
  {
  }

  /** Otherwise the day of the month is kept and the days are the difference of the days. */
  lemma PeriodNotBorrowing(start: LocalDate, end: LocalDate)
    requires ProlepticMonth(end) >= ProlepticMonth(start)
    requires DayNumber(start) <= DayNumber(end)
    requires ProlepticMonth(end) == ProlepticMonth(start) || end.day >= start.day
    ensures var p := Between(start, end);
            && p.years >= 0 && 0 <= p.months < 12 && p.days >= 0
            && PlusDays(PlusMonths(start, p.years * 12 + p.months), p.days) == end
  {
    var total := ProlepticMonth(end) - ProlepticMonth(start);
    if total == 0 {
      SameMonth(start, end);
    }
    NotBorrowingPeriod(start, end);
    var p := Between(start, end);
    assert p.years * 12 + p.months == total;
    var shifted := PlusMonths(start, total);
    ShiftedToEnd(start, end);
    var n := DaysBetween(shifted, end);
    assert n == p.days;
    DaysBetweenPlusDays(shifted, 0, end);
    assert PlusDays(shifted, n) == end;
  }

  lemma NotBorrowingPeriod(start: LocalDate, end: LocalDate)
    requires ProlepticMonth(end) >= ProlepticMonth(start) && end.day >= start.day
    ensures var total := ProlepticMonth(end) - ProlepticMonth(start);
            Between(start, end) == Period(total / 12, total % 12, end.day - start.day)
  {
  }

  /** Moving the start by the whole months lands in the end's month on the start's day. */
  lemma ShiftedToEnd(start: LocalDate, end: LocalDate)
    requires ProlepticMonth(end) >= ProlepticMonth(start) && end.day >= start.day
    ensures var shifted := PlusMonths(start, ProlepticMonth(end) - ProlepticMonth(start));
            shifted == Date(end.year, end.month, start.day)
            && DaysBetween(shifted, end) == end.day - start.day
  {
    var shifted := PlusMonths(start, ProlepticMonth(end) - ProlepticMonth(start));
    SameMonth(shifted, end);
  }

  // ------------------------------------------------------------ the three calculations

  /** The difference text: total days, then only the positive period parts, then trimmed. */
  function DifferenceText(start: LocalDate, end: LocalDate): string
  {
    Strip(RawText(DaysBetween(start, end), Between(start, end)))
  }

  /** The text before trimming: every part that is printed ends in a space except the days. */
  function RawText(total: int, p: Period): string
  {
    IntToString(total) + " total days\nWhich is: "
      + Trailing(YearsText(p)) + Trailing(MonthsText(p)) + DaysText(p)
  }

  function YearsText(p: Period): string
  {
    if p.years > 0 then IntToString(p.years) + " years" else ""
  }

  function MonthsText(p: Period): string
  {
    if p.months > 0 then IntToString(p.months) + " months" else ""
  }

  function DaysText(p: Period): string
  {
    if p.days > 0 then IntToString(p.days) + " days" else ""
  }

  /** A printed part followed by a space; nothing when the part is not printed. */
  function Trailing(x: string): string
  {
    if x == "" then "" else x + " "
  }

  /** A printed part preceded by a space; nothing when the part is not printed. */
  function Leading(x: string): string
  {
    if x == "" then "" else " " + x
  }

  /** The part of the difference text after the head, for the given period. */
  function Parts(p: Period): string
  {
    Leading(YearsText(p)) + Leading(MonthsText(p)) + Leading(DaysText(p))
  }

  lemma ShiftSpace(x: string, rest: string)
    ensures " " + (Trailing(x) + rest) == Leading(x) + (" " + rest)
  {
    if x != "" {
      assert " " + (x + " " + rest) == (" " + x) + (" " + rest);
    }
  }

  lemma StripTrailingSpace(s: string)
    requires |s| > 0 && !IsWhitespace(s[0]) && !IsWhitespace(s[|s| - 1])
    ensures Strip(s + " ") == s
  {
    var t := s + " ";
    assert LeadingWs(t) == 0;
    assert t[..|t| - 1] == s;
    assert TrailingWs(t[..|t| - 1]) == 0;
    assert TrailingWs(t) == 1;
    assert t[0..] == t;
  }

  lemma DigitsNotWhitespace(n: int)
    ensures !IsWhitespace(IntToString(n)[0]) && !IsWhitespace(IntToString(n)[|IntToString(n)| - 1])
  {
    var s := IntToString(n);
    if n < 0 {
      assert s[1..] == NatToString(-n);
      assert IsDigit(s[|s| - 1]);
    } else {
      assert IsDigit(s[0]) && IsDigit(s[|s| - 1]);
    }
  }

  function Head(total: int): string
  {
    IntToString(total) + " total days\nWhich is:"
  }

  /** Before trimming, the text is the head and the parts, with a trailing space unless days are printed. */
  lemma RawTextParts(total: int, p: Period)
    ensures p.days > 0 ==> RawText(total, p) == Head(total) + Parts(p)
    ensures p.days <= 0 ==> RawText(total, p) == Head(total) + Parts(p) + " "
  {
    var h, y, m, d := Head(total), YearsText(p), MonthsText(p), DaysText(p);
    var n := IntToString(total);
    assert n + " total days\nWhich is: " == h + " ";
    assert RawText(total, p) == h + " " + Trailing(y) + Trailing(m) + d;
    MovedSpaces(h, y, m, d);
    assert Parts(p) == Leading(y) + Leading(m) + Leading(d);
  }

  /** Moving each part's trailing space to its front leaves one space over, at the end, when d is empty. */
  lemma MovedSpaces(h: string, y: string, m: string, d: string)
    ensures d != "" ==> h + " " + Trailing(y) + Trailing(m) + d == h + (Leading(y) + Leading(m) + Leading(d))
    ensures d == "" ==> h + " " + Trailing(y) + Trailing(m) + d == h + (Leading(y) + Leading(m) + Leading(d)) + " "
  {
    SpacesForward(h, y, m, d);
    var ly, lm, ld := Leading(y), Leading(m), Leading(d);
    Regroup(h, ly, lm, ld);
    if d != "" {
      assert " " + d == ld;
    } else {
      assert " " + d == ld + " ";
      Regroup(h, ly, lm, ld + " ");
      Regroup(h, ly, lm, ld);
      assert h + ly + lm + (ld + " ") == h + ly + lm + ld + " ";
    }
  }

  lemma Regroup(a: string, b: string, c: string, e: string)
    ensures a + (b + (c + e)) == a + b + c + e
    ensures a + (b + c + e) == a + b + c + e
  {
  }

  lemma SpacesForward(h: string, y: string, m: string, d: string)
    ensures h + " " + Trailing(y) + Trailing(m) + d == h + (Leading(y) + (Leading(m) + (" " + d)))
  {
    var ty, tm := Trailing(y), Trailing(m);
    ShiftSpace(y, tm + d);
    ShiftSpace(m, d);
    Regroup(h + " ", ty, tm, d);
    assert h + " " + (ty + (tm + d)) == h + (" " + (ty + (tm + d)));
  }

  /**
   * The text is "<total> total days\nWhich is:" followed by " <n> years", " <n> months" and
   * " <n> days" for exactly the positive parts of the period; trimming removed only the
   * trailing space.
   */
  lemma DifferenceTextShape(start: LocalDate, end: LocalDate)
    ensures DifferenceText(start, end) == Head(DaysBetween(start, end)) + Parts(Between(start, end))
  {
    var total, p := DaysBetween(start, end), Between(start, end);
    RawTextParts(total, p);
    DigitsNotWhitespace(total);
    var expected := Head(total) + Parts(p);
    assert expected[0] == IntToString(total)[0];
    if p.days > 0 {
      LastIsS(Head(total), p);
      StripClean(expected);
    } else {
      LastIsS(Head(total), p);
      StripTrailingSpace(expected);
    }
  }

  lemma LastIsS(head: string, p: Period)
    requires |head| > 0 && head[|head| - 1] == ':'
    ensures var t := head + Parts(p); !IsWhitespace(t[|t| - 1])
  {
    var t := head + Parts(p);
    if p.days > 0 {
      assert t[|t| - 1] == 's';
    } else if p.months > 0 {
      assert t[|t| - 1] == 's';
    } else if p.years > 0 {
      assert t[|t| - 1] == 's';
    } else {
      assert t == head;
    }
  }

  /** `toLongOrNull() ?: 0`: an unparsable field counts as 0. */
  function LongOrZero(s: string): (n: int)
    ensures ParseInt(s, LONG_MIN, LONG_MAX).None? ==> n == 0
    ensures ParseInt(s, LONG_MIN, LONG_MAX).Some? ==> n == ParseInt(s, LONG_MIN, LONG_MAX).value
  {
    ParseInt(s, LONG_MIN, LONG_MAX).GetOr(0)
  }

  /** calculateAddSubtract: years, then months, then days; the first call that throws stops it. */
  function AddSubtract(date: LocalDate, years: string, months: string, days: string): Run<LocalDate>
  {
    match CheckedPlusYears(date, LongOrZero(years))
    case Throws => Throws
    case Returns(y) =>
      match CheckedPlusMonths(y, LongOrZero(months))
      case Throws => Throws
      case Returns(m) => CheckedPlusDays(m, LongOrZero(days))
  }

  /**
   * From a supported date, calculateAddSubtract returns exactly when every intermediate date
   * is supported, and then gives the unbounded calendar's answer.
   */
  lemma AddSubtractInRange(date: LocalDate, years: string, months: string, days: string)
    requires InRange(date)
    ensures var y := PlusYears(date, LongOrZero(years));
            var m := PlusMonths(y, LongOrZero(months));
            var d := PlusDays(m, LongOrZero(days));
            && (AddSubtract(date, years, months, days).Returns? <==> InRange(y) && InRange(m) && InRange(d))
            && (AddSubtract(date, years, months, days).Returns? ==> AddSubtract(date, years, months, days).value == d)
  {
  }

  /** Adding "0" of everything gives the date back. */
  lemma AddSubtractZero(date: LocalDate)
    ensures AddSubtract(date, "0", "0", "0") == Returns(date)
  {
    ParseUnsignedNumeral("0", LONG_MIN, LONG_MAX);
  }

  /** The anonymous Gregorian algorithm (Meeus/Jones/Butcher); all operands are non-negative. */
  function EasterDate(year: int): (r: LocalDate)
    requires year > 0
    ensures r.year == year
    ensures (r.month == 3 && 22 <= r.day <= 31) || (r.month == 4 && 1 <= r.day <= 25)
  {
    var a := year % 19;
    var b := year / 100;
    var c := year % 100;
    var d := b / 4;
    var e := b % 4;
    var f := (b + 8) / 25;
    var g := (b - f + 1) / 3;
    var h := (19 * a + b - d - g + 15) % 30;
    var i := c / 4;
    var k := c % 4;
    var l := (32 + 2 * e + 2 * i - h - k) % 7;
    var m := (a + 11 * h + 22 * l) / 451;
    var month := (h + l - 7 * m + 114) / 31;
    var day := ((h + l - 7 * m + 114) % 31) + 1;
    assert 0 <= m <= 1;
    assert m == 0 ==> h + l <= 34;
    assert m == 1 ==> h + l >= 28;
    Date(year, month, day)
  }

  /**
   * calculateEaster: no date when the year is unparsable or not positive; `LocalDate.of`
   * throws for an Int year beyond the supported years.
   */
  function EasterOf(text: string): (r: Run<Option<LocalDate>>)
    ensures r == Returns(None) <==> ParseInt(text, INT_MIN, INT_MAX).None? || ParseInt(text, INT_MIN, INT_MAX).value <= 0
    ensures r.Throws? <==> ParseInt(text, INT_MIN, INT_MAX).Some? && ParseInt(text, INT_MIN, INT_MAX).value > MAX_YEAR
    ensures r.Returns? && r.value.Some? ==> var e := r.value.value;
            InRange(e) && e.year == ParseInt(text, INT_MIN, INT_MAX).value && e.month in {3, 4} && 1 <= e.day <= 31
  {
    match ParseInt(text, INT_MIN, INT_MAX)
    case None => Returns(None)
    case Some(y) =>
      if y <= 0 then Returns(None)
      else if y > MAX_YEAR then Throws
      else Returns(Some(EasterDate(y)))
  }

  /** The written year of a supported positive year gives its Easter date; a larger Int year throws. */
  lemma EasterOfWrittenYear(y: int)
    requires 0 < y <= INT_MAX
    ensures y <= MAX_YEAR ==> EasterOf(IntToString(y)) == Returns(Some(EasterDate(y)))
    ensures y > MAX_YEAR ==> EasterOf(IntToString(y)) == Throws
  {
    ParseIntOfIntToString(y, INT_MIN, INT_MAX);
  }

  /** Easter 2024 fell on 31 March. */
  lemma Easter2024()
    ensures EasterDate(2024) == Date(2024, 3, 31)
  {
    assert 2024 % 19 == 10 && 2024 / 100 == 20 && 2024 % 100 == 24;
    assert (20 + 8) / 25 == 1 && (20 - 1 + 1) / 3 == 6;
    assert (19 * 10 + 20 - 5 - 6 + 15) % 30 == 4;
    assert (32 + 2 * 0 + 2 * 6 - 4 - 0) % 7 == 5;
    assert (10 + 11 * 4 + 22 * 5) / 451 == 0;
    assert (4 + 5 + 114) / 31 == 3 && (4 + 5 + 114) % 31 == 30;
  }

  /** Easter 2025 fell on 20 April. */
  lemma Easter2025()
    ensures EasterDate(2025) == Date(2025, 4, 20)
  {
    assert 2025 % 19 == 11 && 2025 / 100 == 20 && 2025 % 100 == 25;
    assert (20 + 8) / 25 == 1 && (20 - 1 + 1) / 3 == 6;
    assert (19 * 11 + 20 - 5 - 6 + 15) % 30 == 23;
    assert (32 + 2 * 0 + 2 * 6 - 23 - 1) % 7 == 6;
    assert (11 + 11 * 23 + 22 * 6) / 451 == 0;
    assert (23 + 6 + 114) / 31 == 4 && (23 + 6 + 114) % 31 == 19;
  }

  // ------------------------------------------------------------ the view model

  datatype UiState = UiState(
    startDate: LocalDate, endDate: LocalDate, differenceResult: Option<string>,
    addSubtractDate: LocalDate, yearsToAdd: string, monthsToAdd: string, daysToAdd: string,
    addSubtractResult: Option<LocalDate>,
    easterYear: string, easterDateResult: Option<LocalDate>)

  datatype Event =
    | SetStartDate(date: LocalDate)
    | SetEndDate(date: LocalDate)
    | SetAddSubtractDate(date: LocalDate)
    | SetYears(years: string)
    | SetMonths(months: string)
    | SetDays(days: string)
    | SetEasterYear(year: string)

  /** The default state; `LocalDate.now()` is the parameter `today`. */
  function InitialState(today: LocalDate): UiState
  {
    UiState(today, PlusDays(today, 1), None, today, "0", "0", "0", None, IntToString(today.year), None)
  }

  /** The field an event targets, copied into the state. */
  function Apply(s: UiState, e: Event): UiState
  {
    match e
    case SetStartDate(d) => s.(startDate := d)
    case SetEndDate(d) => s.(endDate := d)
    case SetAddSubtractDate(d) => s.(addSubtractDate := d)
    case SetYears(v) => s.(yearsToAdd := v)
    case SetMonths(v) => s.(monthsToAdd := v)
    case SetDays(v) => s.(daysToAdd := v)
    case SetEasterYear(v) => s.(easterYear := v)
  }

  /**
   * calculateDifference, calculateAddSubtract and calculateEaster, in that order. An exception
   * in either of the last two escapes its coroutine and ends the app: `Throws`.
   */
  function Recalculate(s: UiState): (r: Run<UiState>)
    ensures r.Returns? <==> AddSubtract(s.addSubtractDate, s.yearsToAdd, s.monthsToAdd, s.daysToAdd).Returns?
                            && EasterOf(s.easterYear).Returns?
    ensures r.Returns? ==> var u := r.value;
            && Inputs(u) == Inputs(s)
            && u.differenceResult == Some(DifferenceText(s.startDate, s.endDate))
            && u.addSubtractResult == Some(AddSubtract(s.addSubtractDate, s.yearsToAdd, s.monthsToAdd, s.daysToAdd).value)
            && u.easterDateResult == EasterOf(s.easterYear).value
  {
    var sum := AddSubtract(s.addSubtractDate, s.yearsToAdd, s.monthsToAdd, s.daysToAdd);
    var easter := EasterOf(s.easterYear);
    if sum.Throws? || easter.Throws? then Throws
    else
      Returns(s.(differenceResult := Some(DifferenceText(s.startDate, s.endDate)),
                 addSubtractResult := Some(sum.value), easterDateResult := easter.value))
  }

  /** The inputs of the state: everything but the three results. */
  function Inputs(s: UiState): UiState
  {
    s.(differenceResult := None, addSubtractResult := None, easterDateResult := None)
  }

  /** onEvent changes the targeted input only; every other input keeps its value. */
  lemma EventTouchesOnlyTarget(s: UiState, e: Event)
    requires Recalculate(Apply(s, e)).Returns?
    ensures var t := Recalculate(Apply(s, e)).value;
            && (t.startDate != s.startDate ==> e.SetStartDate?)
            && (t.endDate != s.endDate ==> e.SetEndDate?)
            && (t.addSubtractDate != s.addSubtractDate ==> e.SetAddSubtractDate?)
            && (t.yearsToAdd != s.yearsToAdd ==> e.SetYears?)
            && (t.monthsToAdd != s.monthsToAdd ==> e.SetMonths?)
            && (t.daysToAdd != s.daysToAdd ==> e.SetDays?)
            && (t.easterYear != s.easterYear ==> e.SetEasterYear?)
    ensures e.SetEasterYear? ==> Recalculate(Apply(s, e)).value.easterYear == e.year
    ensures e.SetStartDate? ==> Recalculate(Apply(s, e)).value.startDate == e.date
    ensures e.SetEndDate? ==> Recalculate(Apply(s, e)).value.endDate == e.date
    ensures e.SetAddSubtractDate? ==> Recalculate(Apply(s, e)).value.addSubtractDate == e.date
    ensures e.SetYears? ==> Recalculate(Apply(s, e)).value.yearsToAdd == e.years
    ensures e.SetMonths? ==> Recalculate(Apply(s, e)).value.monthsToAdd == e.months
    ensures e.SetDays? ==> Recalculate(Apply(s, e)).value.daysToAdd == e.days
  {
  }

  /**
   * The date calculator's view model; the three calculations run to completion in order.
   * `crashed` records that one of them threw, which ends the app: no event follows.
   */
  class DateCalculatorViewModel {
    var ui: UiState
    var crashed: bool

    constructor(today: LocalDate)
      ensures crashed <==> Recalculate(InitialState(today)).Throws?
      ensures !crashed ==> ui == Recalculate(InitialState(today)).value
    {
      var r := Recalculate(InitialState(today));
      if r.Returns? {
        ui, crashed := r.value, false;
      } else {
        ui, crashed := InitialState(today), true;
      }
    }

    method OnEvent(e: Event)
      requires !crashed
      modifies this
      ensures crashed <==> Recalculate(Apply(old(ui), e)).Throws?
      ensures !crashed ==> ui == Recalculate(Apply(old(ui), e)).value
      ensures crashed ==> ui == Apply(old(ui), e)
    {
      ui := Apply(ui, e);
      var r := Recalculate(ui);
      if r.Returns? {
        ui := r.value;
      } else {
        crashed := true;
      }
    }
  }
}
