/**
 * Proleptic Gregorian calendar dates as Python's `datetime.date` handles
 * them: years 1 to 9999, the day count behind `date.toordinal()` and date
 * subtraction, `date.isoformat()`, and the scorer's loose reading of a
 * `Y-M-D` string.
 */
module Calendar {
  import opened Wrappers
  import opened Text

  datatype Date = Date(year: int, month: int, day: int)

  const MinYear := 1
  const MaxYear := 9999

  predicate IsLeapYear(y: int) {
    y % 4 == 0 && (y % 100 != 0 || y % 400 == 0)
  }

  function DaysInMonth(y: int, m: int): (n: int)
    requires 1 <= m <= 12
    ensures 28 <= n <= 31
    ensures m == 2 ==> (n == 29 <==> IsLeapYear(y))
  {
    if m == 2 then (if IsLeapYear(y) then 29 else 28)
    else if m == 4 || m == 6 || m == 9 || m == 11 then 30
    else 31
  }

  /** What the constructor `date(year, month, day)` accepts without raising. */
  predicate IsValid(d: Date) {
    && MinYear <= d.year <= MaxYear
    && 1 <= d.month <= 12
    && 1 <= d.day <= DaysInMonth(d.year, d.month)
  }

  type CivilDate = d: Date | IsValid(d) witness Date(1, 1, 1)

  const MaxDate: CivilDate := Date(MaxYear, 12, 31)

  /** Days in the years before `y`, counted from 1 January of year 1. */
  function DaysBeforeYear(y: int): int
    requires y >= 1
  {
    var p := y - 1;
    p * 365 + p / 4 - p / 100 + p / 400
  }

  /** Days in the months of year `y` before month `m`. */
  function DaysBeforeMonth(y: int, m: int): int
    requires 1 <= m <= 12
  {
    var cumulative := [0, 31, 59, 90, 120, 151, 181, 212, 243, 273, 304, 334];
    cumulative[m - 1] + (if m > 2 && IsLeapYear(y) then 1 else 0)
  }

  function YearLength(y: int): int {
    if IsLeapYear(y) then 366 else 365
  }

  /** Each month starts where the previous one ends, and December ends the year. */
  lemma MonthEnds(y: int, m: int)
    requires 1 <= m <= 12
    ensures DaysBeforeMonth(y, m) + DaysInMonth(y, m)
      == if m < 12 then DaysBeforeMonth(y, m + 1) else YearLength(y)
  {
  }

  /** `date.toordinal()`: 1 January of year 1 is day 1. */
  function Ordinal(d: CivilDate): (o: int)
    ensures DaysBeforeYear(d.year) < o <= DaysBeforeYear(d.year) + YearLength(d.year)
  {
    MonthEnds(d.year, d.month);
    MonthEndsBound(d.year, d.month);
    DaysBeforeYear(d.year) + DaysBeforeMonth(d.year, d.month) + d.day
  }

  lemma MonthEndsBound(y: int, m: int)
    requires 1 <= m <= 12
    ensures 0 <= DaysBeforeMonth(y, m) && DaysBeforeMonth(y, m) + DaysInMonth(y, m) <= YearLength(y)
  {
  }

  /** Chronological order of dates: by year, then month, then day. */
  predicate Precedes(a: Date, b: Date) {
    a.year < b.year
    || (a.year == b.year && a.month < b.month)
    || (a.year == b.year && a.month == b.month && a.day < b.day)
  }

  /**
   * `(later - earlier).days`: the signed number of days between two dates.
   * Its sign is the chronological order of the two dates.
   */
  function DaysBetween(earlier: CivilDate, later: CivilDate): (n: int)
    ensures n > 0 <==> Precedes(earlier, later)
    ensures n == 0 <==> earlier == later
    ensures n < 0 <==> Precedes(later, earlier)
  {
    OrdinalIncreasing(earlier, later);
    OrdinalIncreasing(later, earlier);
    Ordinal(later) - Ordinal(earlier)
  }

  /** The day count follows the calendar order. */
  lemma OrdinalIncreasing(a: CivilDate, b: CivilDate)
    ensures Precedes(a, b) ==> Ordinal(a) < Ordinal(b)
  {
    if !Precedes(a, b) {
    } else if a.year < b.year {
      YearsIncreasing(a.year, b.year);
    } else if a.month < b.month {
      MonthEnds(a.year, a.month);
      MonthsIncreasing(a.year, a.month + 1, b.month);
    }
  }

  lemma {:induction false} YearsIncreasing(y1: int, y2: int)
    requires 1 <= y1 < y2
    ensures DaysBeforeYear(y1) + YearLength(y1) <= DaysBeforeYear(y2)
    decreases y2 - y1
  {
    DaysBeforeNextYear(y1);
    if y1 + 1 < y2 {
      YearsIncreasing(y1 + 1, y2);
    }
  }

  lemma MonthsIncreasing(y: int, m1: int, m2: int)
    requires 1 <= m1 <= m2 <= 12
    ensures DaysBeforeMonth(y, m1) <= DaysBeforeMonth(y, m2)
  {
  }

  /** The calendar's own successor, independent of the day count. */
  function NextDay(d: CivilDate): (n: CivilDate)
    requires d != MaxDate
  {
    if d.day < DaysInMonth(d.year, d.month) then Date(d.year, d.month, d.day + 1)
    else if d.month < 12 then Date(d.year, d.month + 1, 1)
    else Date(d.year + 1, 1, 1)
  }

  lemma OrdinalOfFirstDay()
    ensures Ordinal(Date(MinYear, 1, 1)) == 1
  {
  }

  lemma DaysBeforeNextYear(y: int)
    requires y >= 1
    ensures DaysBeforeYear(y + 1) == DaysBeforeYear(y) + 365 + (if IsLeapYear(y) then 1 else 0)
  {
    QuarterStep(y);
    CenturyStep(y);
    QuadricentennialStep(y);
  }

  /** Passing from `y - 1` to `y` adds one multiple of 4 exactly when `y` is one. */
  lemma QuarterStep(y: int)
    ensures y / 4 - (y - 1) / 4 == if y % 4 == 0 then 1 else 0
  {
    var q, r := (y - 1) / 4, (y - 1) % 4;
    if r == 3 {
      assert y == 4 * (q + 1);
    } else {
      assert y == 4 * q + (r + 1) && r + 1 < 4;
    }
  }

  lemma CenturyStep(y: int)
    ensures y / 100 - (y - 1) / 100 == if y % 100 == 0 then 1 else 0
  {
    var q, r := (y - 1) / 100, (y - 1) % 100;
    if r == 99 {
      assert y == 100 * (q + 1);
    } else {
      assert y == 100 * q + (r + 1) && r + 1 < 100;
    }
  }

  lemma QuadricentennialStep(y: int)
    ensures y / 400 - (y - 1) / 400 == if y % 400 == 0 then 1 else 0
  {
    var q, r := (y - 1) / 400, (y - 1) % 400;
    if r == 399 {
      assert y == 400 * (q + 1);
    } else {
      assert y == 400 * q + (r + 1) && r + 1 < 400;
    }
  }

  /** The day count goes up by exactly one from each day to the next. */
  lemma NextDayOrdinal(d: CivilDate)
    requires d != MaxDate
    ensures Ordinal(NextDay(d)) == Ordinal(d) + 1
  {
    if d.day == DaysInMonth(d.year, d.month) && d.month == 12 {
      DaysBeforeNextYear(d.year);
    }
  }

  /** The date `n` days after `d`, by stepping `NextDay`. */
  function AddDays(d: CivilDate, n: nat): (r: CivilDate)
    requires Ordinal(d) + n <= Ordinal(MaxDate)
    ensures Ordinal(r) == Ordinal(d) + n
    decreases n
  {
    if n == 0 then d
    else
      assert d != MaxDate;
      NextDayOrdinal(d);
      AddDays(NextDay(d), n - 1)
  }

  /** `date.isoformat()`: `YYYY-MM-DD`, each field zero-padded. */
  function IsoFormat(d: CivilDate): (s: string)
    ensures |s| == 10 && s[4] == '-' && s[7] == '-'
    ensures AllDigits(s[..4]) && AllDigits(s[5..7]) && AllDigits(s[8..])
    ensures DigitsValue(s[..4]) == d.year && DigitsValue(s[5..7]) == d.month && DigitsValue(s[8..]) == d.day
  {
    var y, m, day := ZeroPad(d.year, 4), ZeroPad(d.month, 2), ZeroPad(d.day, 2);
    DigitsFitWidth(d.year, 4);
    DigitsFitWidth(d.month, 2);
    DigitsFitWidth(d.day, 2);
    var s := y + "-" + m + "-" + day;
    assert s[..4] == y;
    assert s[5..7] == m;
    assert s[8..] == day;
    s
  }

  /**
   * The scorer's reading of a due-date string: split on `-`, require
   * exactly three fields, convert each with `int()`, then `date(y, m, d)`.
   * This accepts more than the ISO 8601 calendar date format (unpadded
   * fields, a `+` sign), and rejects whatever `date()` would reject.
   */
  function ParseDate(s: string): (r: Option<CivilDate>)
    ensures r.Some? ==> var f := Split(s, '-');
      && |f| == 3
      && ParseInt(f[0]) == Some(r.value.year)
      && ParseInt(f[1]) == Some(r.value.month)
      && ParseInt(f[2]) == Some(r.value.day)
    ensures var f := Split(s, '-');
      (&& |f| == 3
       && ParseInt(f[0]).Some? && ParseInt(f[1]).Some? && ParseInt(f[2]).Some?
       && IsValid(Date(ParseInt(f[0]).value, ParseInt(f[1]).value, ParseInt(f[2]).value)))
      ==> r.Some?
  {
    var fields := Split(s, '-');
    if |fields| != 3 then None
    else match (ParseInt(fields[0]), ParseInt(fields[1]), ParseInt(fields[2]))
      case (Some(y), Some(m), Some(day)) =>
        if IsValid(Date(y, m, day)) then Some(Date(y, m, day)) else None
      case _ => None
  }

  /**
   * Three digit fields joined by `-` read as the date they spell when
   * `date()` accepts it, and as no date otherwise.
   */
  lemma ParseDigitFields(y: string, m: string, day: string)
    requires |y| > 0 && |m| > 0 && |day| > 0
    requires AllDigits(y) && AllDigits(m) && AllDigits(day)
    ensures var d := Date(DigitsValue(y), DigitsValue(m), DigitsValue(day));
      ParseDate(y + "-" + m + "-" + day) == if IsValid(d) then Some(d) else None
  {
    DigitsOmitSeparator(y);
    DigitsOmitSeparator(m);
    DigitsOmitSeparator(day);
    assert Join([y, m, day], '-') == y + "-" + m + "-" + day by {
      assert Join([m, day], '-') == m + "-" + day;
      assert [y, m, day][1..] == [m, day];
    }
    SplitJoin([y, m, day], '-');
    ParseIntOfDigits(y);
    ParseIntOfDigits(m);
    ParseIntOfDigits(day);
  }

  lemma DigitsOmitSeparator(s: string)
    requires AllDigits(s)
    ensures '-' !in s
  {
    assert forall i :: 0 <= i < |s| ==> s[i] != '-';
  }

  /** What `isoformat` prints, the parser reads back as the same date. */
  lemma ParseIsoFormat(d: CivilDate)
    ensures ParseDate(IsoFormat(d)) == Some(d)
  {
    ParseDigitFields(ZeroPad(d.year, 4), ZeroPad(d.month, 2), ZeroPad(d.day, 2));
  }

  /** The parser is looser than ISO 8601: fields without zero padding are accepted. */
  lemma ParseUnpadded(d: CivilDate)
    ensures ParseDate(NatToDigits(d.year) + "-" + NatToDigits(d.month) + "-" + NatToDigits(d.day)) == Some(d)
  {
    DigitsRoundTrip(d.year);
    DigitsRoundTrip(d.month);
    DigitsRoundTrip(d.day);
    ParseDigitFields(NatToDigits(d.year), NatToDigits(d.month), NatToDigits(d.day));
  }
}
