/** Proleptic Gregorian dates as Python's `datetime.date` handles them:
    validity, day arithmetic (`date + timedelta(days=n)`), `weekday()`
    (Monday is 0), `strftime("%Y-%m-%d")`, `strftime("%d.%m.%Y")` and
    `datetime.strptime(s, "%Y-%m-%d")`. */
module Calendar {
  import opened Options
  import opened Text

  datatype Date = Date(year: int, month: int, day: int)

  predicate IsLeap(y: int) {
    y % 4 == 0 && (y % 100 != 0 || y % 400 == 0)
  }

  function DaysInMonth(y: int, m: int): (n: int)
    requires 1 <= m <= 12
    ensures 28 <= n <= 31
  {
    if m == 2 then (if IsLeap(y) then 29 else 28)
    else if m == 4 || m == 6 || m == 9 || m == 11 then 30
    else 31
  }

  /** A day that exists in the calendar, from year 1 onwards. */
  predicate IsCalendarDate(d: Date) {
    d.year >= 1 && 1 <= d.month <= 12 && 1 <= d.day <= DaysInMonth(d.year, d.month)
  }

  /** What the `datetime.date` constructor accepts: a calendar date in years 1 to 9999. */
  predicate Valid(d: Date) {
    IsCalendarDate(d) && d.year <= 9999
  }

  // ---------------------------------------------------------------------
  // Ordinals (date.toordinal(): 0001-01-01 is day 1)
  // ---------------------------------------------------------------------

  function DaysBeforeYear(y: int): int
    requires y >= 1
  {
    var p := y - 1;
    365 * p + p / 4 - p / 100 + p / 400
  }

  function DaysBeforeMonth(y: int, m: int): int
    requires 1 <= m <= 12
  {
    var table := [0, 31, 59, 90, 120, 151, 181, 212, 243, 273, 304, 334];
    table[m - 1] + (if m > 2 && IsLeap(y) then 1 else 0)
  }

  function Ordinal(d: Date): int
    requires IsCalendarDate(d)
  {
    DaysBeforeYear(d.year) + DaysBeforeMonth(d.year, d.month) + d.day
  }

  /** `date.weekday()`: Monday is 0 and Sunday is 6. */
  function Weekday(d: Date): (w: nat)
    requires IsCalendarDate(d)
    ensures w < 7
  {
    (Ordinal(d) + 6) % 7
  }

  /** The day after `d`. */
  function NextDay(d: Date): Date
    requires IsCalendarDate(d)
  {
    if d.day < DaysInMonth(d.year, d.month) then d.(day := d.day + 1)
    else if d.month < 12 then Date(d.year, d.month + 1, 1)
    else Date(d.year + 1, 1, 1)
  }

  lemma YearLength(y: int)
    requires y >= 1
    ensures DaysBeforeYear(y + 1) == DaysBeforeYear(y) + (if IsLeap(y) then 366 else 365)
  {
    FourYearStep(y);
    CenturyStep(y);
    FourCenturyStep(y);
    DivisorsNest(y);
    var a, b, c := y / 4 - (y - 1) / 4, y / 100 - (y - 1) / 100, y / 400 - (y - 1) / 400;
    assert a - b + c == if IsLeap(y) then 1 else 0;
  }

  /** Every multiple of 400 is one of 100, and every multiple of 100 one of 4. */
  lemma DivisorsNest(y: int)
    ensures y % 400 == 0 ==> y % 100 == 0
    ensures y % 100 == 0 ==> y % 4 == 0
  {
  }

  /** Going from y - 1 to y adds one multiple of 4 exactly when 4 divides y;
      likewise for 100 and 400 below. */
  lemma FourYearStep(y: int)
    requires y >= 1
    ensures y / 4 == (y - 1) / 4 + (if y % 4 == 0 then 1 else 0)
  {
  }

  lemma CenturyStep(y: int)
    requires y >= 1
    ensures y / 100 == (y - 1) / 100 + (if y % 100 == 0 then 1 else 0)
  {
  }

  lemma FourCenturyStep(y: int)
    requires y >= 1
    ensures y / 400 == (y - 1) / 400 + (if y % 400 == 0 then 1 else 0)
  {
  }

  /** Moving to the next day keeps a calendar date and advances the ordinal by one. */
  lemma NextDayOrdinal(d: Date)
    requires IsCalendarDate(d)
    ensures IsCalendarDate(NextDay(d))
    ensures Ordinal(NextDay(d)) == Ordinal(d) + 1
  {
    if d.day == DaysInMonth(d.year, d.month) && d.month == 12 {
      YearLength(d.year);
    }
  }

  /** `d + timedelta(days=n)` for n >= 0. */
  function AddDays(d: Date, n: nat): (r: Date)
    requires IsCalendarDate(d)
    ensures IsCalendarDate(r)
    ensures Ordinal(r) == Ordinal(d) + n
  {
    if n == 0 then d
    else
      var prev := AddDays(d, n - 1);
      NextDayOrdinal(prev);
      NextDay(prev)
  }

  /** Adding n days advances the weekday by n, modulo 7. */
  lemma WeekdayAfter(d: Date, n: nat)
    requires IsCalendarDate(d)
    ensures Weekday(AddDays(d, n)) == (Weekday(d) + n) % 7
  {
    var o := Ordinal(d) + 6;
    assert Weekday(d) == o % 7;
    assert Weekday(AddDays(d, n)) == (o + n) % 7;
    ModShift(o, n);
  }

  lemma ModShift(o: int, n: int)
    ensures (o + n) % 7 == (o % 7 + n) % 7
  {
    var q := o / 7;
    assert o == 7 * q + o % 7;
    assert o + n == 7 * q + (o % 7 + n);
  }

  /** The ordinal determines the date. */
  lemma {:induction false} OrdinalInjective(a: Date, b: Date)
    requires IsCalendarDate(a) && IsCalendarDate(b)
    requires Ordinal(a) == Ordinal(b)
    ensures a == b
  {
    if a.year < b.year {
      YearsApart(a, b);
    } else if b.year < a.year {
      YearsApart(b, a);
    } else if a.month != b.month {
      if a.month < b.month { MonthsApart(a, b); } else { MonthsApart(b, a); }
    }
  }

  lemma DaysBeforeMonthBounds(y: int, m: int)
    requires 1 <= m <= 12
    ensures DaysBeforeMonth(y, m) + DaysInMonth(y, m) <= (if IsLeap(y) then 366 else 365)
  {
  }

  lemma MonthsApart(a: Date, b: Date)
    requires IsCalendarDate(a) && IsCalendarDate(b)
    requires a.year == b.year && a.month < b.month
    ensures Ordinal(a) < Ordinal(b)
  {
    assert DaysBeforeMonth(a.year, a.month) + DaysInMonth(a.year, a.month) <= DaysBeforeMonth(a.year, b.month);
  }

  lemma {:induction false} YearsApartBound(y: int, z: int)
    requires 1 <= y < z
    ensures DaysBeforeYear(y) + (if IsLeap(y) then 366 else 365) <= DaysBeforeYear(z)
    decreases z - y
  {
    YearLength(y);
    if y + 1 < z {
      YearsApartBound(y + 1, z);
      YearLength(y + 1);
    }
  }

  lemma YearsApart(a: Date, b: Date)
    requires IsCalendarDate(a) && IsCalendarDate(b)
    requires a.year < b.year
    ensures Ordinal(a) < Ordinal(b)
  {
    DaysBeforeMonthBounds(a.year, a.month);
    YearsApartBound(a.year, b.year);
  }

  // ---------------------------------------------------------------------
  // Formatting and parsing
  // ---------------------------------------------------------------------

  /** `strftime("%Y-%m-%d")`, the year zero-padded to four digits as current
      CPython does; older builds on Linux print a year below 1000 unpadded. */
  function FormatIso(d: Date): string
    requires IsCalendarDate(d)
  {
    Pad4(d.year) + "-" + Pad2(d.month) + "-" + Pad2(d.day)
  }

  /** `strftime("%d.%m.%Y")`. */
  function FormatDmy(d: Date): string
    requires IsCalendarDate(d)
  {
    Pad2(d.day) + "." + Pad2(d.month) + "." + Pad4(d.year)
  }

  predicate InRange(c: char, lo: char, hi: char) {
    lo <= c <= hi
  }

  /** The `%m` field of strptime: `1[0-2]|0[1-9]|[1-9]`, tried in that order,
      taken only when a `-` follows. Returns the value and the position of the `-`. */
  function ParseMonthField(s: string, i: nat): (r: Option<(int, nat)>)
    ensures r.Some? ==> i < r.value.1 < |s| && s[r.value.1] == '-'
  {
    if i + 2 < |s| && s[i] == '1' && InRange(s[i + 1], '0', '2') && s[i + 2] == '-' then
      Some((10 + DigitValue(s[i + 1]), i + 2))
    else if i + 2 < |s| && s[i] == '0' && InRange(s[i + 1], '1', '9') && s[i + 2] == '-' then
      Some((DigitValue(s[i + 1]), i + 2))
    else if i + 1 < |s| && InRange(s[i], '1', '9') && s[i + 1] == '-' then
      Some((DigitValue(s[i]), i + 1))
    else None
  }

  /** The `%d` field of strptime: `3[01]|[12]\d|0[1-9]|[1-9]| [1-9]`, the first
      alternative that matches. Returns the value and the position after it. */
  function ParseDayField(s: string, i: nat): (r: Option<(int, nat)>)
    ensures r.Some? ==> i < r.value.1 <= |s|
  {
    if i + 1 < |s| && s[i] == '3' && InRange(s[i + 1], '0', '1') then
      Some((30 + DigitValue(s[i + 1]), i + 2))
    else if i + 1 < |s| && InRange(s[i], '1', '2') && IsDigit(s[i + 1]) then
      Some((10 * DigitValue(s[i]) + DigitValue(s[i + 1]), i + 2))
    else if i + 1 < |s| && s[i] == '0' && InRange(s[i + 1], '1', '9') then
      Some((DigitValue(s[i + 1]), i + 2))
    else if i < |s| && InRange(s[i], '1', '9') then
      Some((DigitValue(s[i]), i + 1))
    else if i + 1 < |s| && s[i] == ' ' && InRange(s[i + 1], '1', '9') then
      Some((DigitValue(s[i + 1]), i + 2))
    else None
  }

  /** `datetime.strptime(s, "%Y-%m-%d").date()` for text whose digits are
      ASCII: None where Python raises ValueError (no match, unconverted data
      left over, or no such day). Python also reads other Unicode decimal
      digits, such as fullwidth ones; this model reads them as non-digits and
      gives None. */
  function ParseIso(s: string): (r: Option<Date>)
    ensures r.Some? ==> Valid(r.value)
  {
    if |s| < 5 || !(IsDigit(s[0]) && IsDigit(s[1]) && IsDigit(s[2]) && IsDigit(s[3])) || s[4] != '-' then None
    else
      var year := 1000 * DigitValue(s[0]) + 100 * DigitValue(s[1]) + 10 * DigitValue(s[2]) + DigitValue(s[3]);
      match ParseMonthField(s, 5)
      case None => None
      case Some((month, dash)) =>
        match ParseDayField(s, dash + 1)
        case None => None
        case Some((day, stop)) =>
          var d := Date(year, month, day);
          if stop == |s| && Valid(d) then Some(d) else None
  }

  lemma Pad4Digits(n: nat)
    requires n < 10000
    ensures 1000 * DigitValue(Pad4(n)[0]) + 100 * DigitValue(Pad4(n)[1])
            + 10 * DigitValue(Pad4(n)[2]) + DigitValue(Pad4(n)[3]) == n
  {
    assert n / 10 / 10 == n / 100;
    assert n / 100 / 10 == n / 1000;
    assert n == 10 * (n / 10) + n % 10;
    assert n / 10 == 10 * (n / 100) + n / 10 % 10;
    assert n / 100 == 10 * (n / 1000) + n / 100 % 10;
  }

  /** Reading back a formatted date gives the date: `strptime` undoes `strftime`. */
  lemma IsoRoundTrip(d: Date)
    requires Valid(d)
    ensures ParseIso(FormatIso(d)) == Some(d)
  {
    var s := FormatIso(d);
    Pad4Digits(d.year);
    assert s[..4] == Pad4(d.year);
    assert s[4] == '-';
    assert s[5..7] == Pad2(d.month) && s[7] == '-' && s[8..10] == Pad2(d.day) && |s| == 10;
    MonthFieldReads(s, d.month);
    DayFieldReads(s, d.day);
  }

  /** A padded month followed by '-' reads back as that month. */
  lemma MonthFieldReads(s: string, m: int)
    requires 1 <= m <= 12 && 8 <= |s| && s[5..7] == Pad2(m) && s[7] == '-'
    ensures ParseMonthField(s, 5) == Some((m, 7))
  {
    assert s[5] == DigitChar(m / 10) && s[6] == DigitChar(m % 10);
  }

  /** A padded day at the end reads back as that day. */
  lemma DayFieldReads(s: string, day: int)
    requires 1 <= day <= 31 && |s| == 10 && s[8..10] == Pad2(day)
    ensures ParseDayField(s, 8) == Some((day, 10))
  {
    assert s[8] == DigitChar(day / 10) && s[9] == DigitChar(day % 10);
  }

  /** Distinct dates have distinct ISO strings. */
  lemma FormatIsoInjective(a: Date, b: Date)
    requires Valid(a) && Valid(b)
    requires FormatIso(a) == FormatIso(b)
    ensures a == b
  {
    IsoRoundTrip(a);
    IsoRoundTrip(b);
  }

  // ---------------------------------------------------------------------
  // The loosely typed date argument of the meal planner
  // ---------------------------------------------------------------------

  /** What `generate_daily_plan` / `generate_weekly_plan` may be handed: a
      `date` (or `datetime`, taken by its date), a string, or anything else. */
  datatype DateArg = DateValue(date: Date) | TextValue(text: string) | OtherValue

  /** The planner's normalisation: a string is parsed as `%Y-%m-%d`, falling
      back to today when that fails; a non-date falls back to today too. */
  function NormalizeDate(arg: DateArg, today: Date): (d: Date)
    ensures arg.DateValue? ==> d == arg.date
    ensures arg.TextValue? ==> (ParseIso(arg.text).Some? ==> d == ParseIso(arg.text).value)
                                && (ParseIso(arg.text).None? ==> d == today)
    ensures arg.OtherValue? ==> d == today
  {
    match arg
    case DateValue(d) => d
    case TextValue(t) => ParseIso(t).GetOr(today)
    case OtherValue => today
  }

  /** An ISO string of a valid date normalises to that date. */
  lemma NormalizeIsoText(d: Date, today: Date)
    requires Valid(d)
    ensures NormalizeDate(TextValue(FormatIso(d)), today) == d
  {
    IsoRoundTrip(d);
  }
}
