/** The civil date in a chunk file's name: the year and month loops of `generateChunkFilename`, proved against
    closed formulas for the day number. Month lengths and leap years are those of section 5.7 and
    Appendix C of RFC 3339. */
module CivilDate {
  import opened Base

  datatype Civil = Civil(year: int, month: int, day: int, hour: int, minute: int, second: int)

  predicate IsLeap(year: int) {
    year % 4 == 0 && (year % 100 != 0 || year % 400 == 0)
  }

  function DaysInMonth(year: int, month: int): int {
    if month == 2 then (if IsLeap(year) then 29 else 28)
    else if month == 4 || month == 6 || month == 9 || month == 11 then 30
    else 31
  }

  predicate IsDate(c: Civil) {
    1970 <= c.year && 1 <= c.month <= 12 && 1 <= c.day <= DaysInMonth(c.year, c.month)
  }

  predicate IsTime(c: Civil) {
    0 <= c.hour < 24 && 0 <= c.minute < 60 && 0 <= c.second < 60
  }

  predicate IsValid(c: Civil) {
    IsDate(c) && IsTime(c)
  }

  // ----- The day number, without loops -----

  /** The leap days in the years 1 to `year - 1`. */
  function LeapDaysBefore(year: int): int {
    (year - 1) / 4 - (year - 1) / 100 + (year - 1) / 400
  }

  /** The day number of January 1st, counted from 1970-01-01. */
  function YearStart(year: int): int {
    365 * (year - 1970) + LeapDaysBefore(year) - LeapDaysBefore(1970)
  }

  /** The days of the year before the first of the month. */
  function MonthStart(year: int, month: int): int {
    var leap := if IsLeap(year) then 1 else 0;
    match month
    case 1 => 0
    case 2 => 31
    case 3 => 59 + leap
    case 4 => 90 + leap
    case 5 => 120 + leap
    case 6 => 151 + leap
    case 7 => 181 + leap
    case 8 => 212 + leap
    case 9 => 243 + leap
    case 10 => 273 + leap
    case 11 => 304 + leap
    case 12 => 334 + leap
    case _ => 365 + leap
  }

  function DayNumber(c: Civil): int {
    YearStart(c.year) + MonthStart(c.year, c.month) + c.day - 1
  }

  function SecondsSinceEpoch(c: Civil): int {
    86400 * DayNumber(c) + 3600 * c.hour + 60 * c.minute + c.second
  }

  lemma DivisionStep(year: int, k: int)
    requires 1 <= year && (k == 4 || k == 100 || k == 400)
    ensures year / k == (year - 1) / k + (if year % k == 0 then 1 else 0)
  {
  }

  lemma LeapDaysStep(year: int)
    requires 1970 <= year
    ensures LeapDaysBefore(year + 1) == LeapDaysBefore(year) + (if IsLeap(year) then 1 else 0)
  {
    DivisionStep(year, 4);
    DivisionStep(year, 100);
    DivisionStep(year, 400);
  }

  lemma {:induction false} YearsAreOrdered(first: int, second: int)
    requires 1970 <= first < second
    ensures YearStart(first) + MonthStart(first, 13) <= YearStart(second)
    decreases second - first
  {
    LeapDaysStep(second - 1);
    if first < second - 1 {
      YearsAreOrdered(first, second - 1);
    }
  }

  lemma MonthsAreOrdered(year: int, first: int, second: int)
    requires 1 <= first < second <= 13
    ensures MonthStart(year, first) + DaysInMonth(year, first) <= MonthStart(year, second)
  {
  }

  // ----- Order -----

  predicate DateBefore(a: Civil, b: Civil) {
    a.year < b.year || (a.year == b.year && (a.month < b.month || (a.month == b.month && a.day < b.day)))
  }

  predicate SameDate(a: Civil, b: Civil) {
    a.year == b.year && a.month == b.month && a.day == b.day
  }

  predicate TimeBefore(a: Civil, b: Civil) {
    a.hour < b.hour || (a.hour == b.hour && (a.minute < b.minute || (a.minute == b.minute && a.second < b.second)))
  }

  /** Field by field, most significant first. */
  predicate Before(a: Civil, b: Civil) {
    DateBefore(a, b) || (SameDate(a, b) && TimeBefore(a, b))
  }

  lemma EarlierDateHasSmallerNumber(a: Civil, b: Civil)
    requires IsDate(a) && IsDate(b) && DateBefore(a, b)
    ensures DayNumber(a) < DayNumber(b)
  {
    MonthsAreOrdered(a.year, a.month, 13);
    if a.year < b.year {
      YearsAreOrdered(a.year, b.year);
    } else if a.month < b.month {
      MonthsAreOrdered(a.year, a.month, b.month);
    }
  }

  lemma EarlierIsSmaller(a: Civil, b: Civil)
    requires IsValid(a) && IsValid(b) && Before(a, b)
    ensures SecondsSinceEpoch(a) < SecondsSinceEpoch(b)
  {
    if DateBefore(a, b) {
      EarlierDateHasSmallerNumber(a, b);
    }
  }

  /** Dates are ordered, field by field, exactly as the seconds they stand for. */
  lemma OrderIsPreserved(a: Civil, b: Civil)
    requires IsValid(a) && IsValid(b)
    ensures Before(a, b) <==> SecondsSinceEpoch(a) < SecondsSinceEpoch(b)
    ensures a == b <==> SecondsSinceEpoch(a) == SecondsSinceEpoch(b)
  {
    if Before(a, b) {
      EarlierIsSmaller(a, b);
    } else if a != b {
      EarlierIsSmaller(b, a);
    }
  }

  // ----- The calendar itself -----

  /** Months of 31 and 30 days alternate, starting with 31 in January and again in August; February is the exception. */
  lemma LongMonthsAlternate(year: int, month: int)
    requires 1 <= month <= 12 && month != 2
    ensures DaysInMonth(year, month) == 30 + (if month < 8 then month % 2 else (month + 1) % 2)
  {
  }

  /** February has 29 days in the years divisible by four, of the centuries only those divisible by 400, or 28. */
  lemma FebruaryIs(year: int)
    ensures year % 4 != 0 ==> DaysInMonth(year, 2) == 28
    ensures year % 4 == 0 && year % 100 != 0 ==> DaysInMonth(year, 2) == 29
    ensures year % 4 == 0 && year % 100 == 0 && year % 400 != 0 ==> DaysInMonth(year, 2) == 28
    ensures year % 4 == 0 && year % 100 == 0 && year % 400 == 0 ==> DaysInMonth(year, 2) == 29
  {
  }

  /** The day that follows in the calendar. */
  function NextDay(c: Civil): Civil {
    if c.day < DaysInMonth(c.year, c.month) then c.(day := c.day + 1)
    else if c.month < 12 then c.(month := c.month + 1, day := 1)
    else c.(year := c.year + 1, month := 1, day := 1)
  }

  /** Days are numbered from the first of January 1970, one by one in the order of the calendar. */
  lemma DaysAreCounted(c: Civil)
    requires IsDate(c)
    ensures DayNumber(Civil(1970, 1, 1, c.hour, c.minute, c.second)) == 0
    ensures IsDate(NextDay(c)) && DayNumber(NextDay(c)) == DayNumber(c) + 1
    ensures SecondsSinceEpoch(c) == ((DayNumber(c) * 24 + c.hour) * 60 + c.minute) * 60 + c.second
  {
    LeapDaysStep(c.year);
  }

  // ----- The loops -----

  lemma TimeOfDay(s: int)
    requires 0 <= s < 86400
    ensures 0 <= s / 3600 < 24 && 0 <= s % 3600 / 60 < 60
    ensures 3600 * (s / 3600) + 60 * (s % 3600 / 60) + s % 60 == s
  {
    assert s % 3600 % 60 == s % 60;
  }

  lemma MonthStep(year: int, month: int)
    requires 1 <= month <= 12
    ensures MonthStart(year, month + 1) == MonthStart(year, month) + DaysInMonth(year, month)
  {
  }

  /** A day number and the seconds of the day, put together. */
  function TimedDay(year: int, month: int, day: int, s: int): Civil {
    Civil(year, month, day, s / 3600, s % 3600 / 60, s % 60)
  }

  lemma TimedDaySeconds(year: int, month: int, day: int, seconds: int)
    requires YearStart(year) + MonthStart(year, month) + day - 1 == seconds / 86400
    ensures var c := TimedDay(year, month, day, seconds % 86400); SecondsSinceEpoch(c) == seconds && IsTime(c)
  {
    TimeOfDay(seconds % 86400);
  }

  lemma OnlyOneDate(c: Civil)
    requires IsValid(c)
    ensures forall other :: IsValid(other) && SecondsSinceEpoch(other) == SecondsSinceEpoch(c) ==> other == c
  {
    forall other | IsValid(other) && SecondsSinceEpoch(other) == SecondsSinceEpoch(c) ensures other == c {
      OrderIsPreserved(other, c);
    }
  }

  /** The year that the loop stops in, and the days left of it. */
  method FindYear(days: int) returns (year: int, remaining: int)
    ensures 1970 <= year && remaining + YearStart(year) == days
    ensures remaining < MonthStart(year, 13)
    ensures if days >= 0 then 0 <= remaining else year == 1970
  {
    year := 1970;
    remaining := days;
    while true
      invariant 1970 <= year && remaining + YearStart(year) == days
      invariant if days >= 0 then 0 <= remaining else year == 1970
      decreases remaining
    {
      var daysInYear := if year % 4 == 0 && (year % 100 != 0 || year % 400 == 0) then 366 else 365;
      if remaining < daysInYear {
        break;
      }
      LeapDaysStep(year);
      remaining := remaining - daysInYear;
      year := year + 1;
    }
  }

  /** The month that the loop stops in, and the days left of it. */
  method FindMonth(year: int, days: int) returns (month: int, remaining: int)
    requires days < MonthStart(year, 13)
    ensures 1 <= month <= 12 && remaining + MonthStart(year, month) == days
    ensures remaining < DaysInMonth(year, month)
    ensures if days >= 0 then 0 <= remaining else month == 1
  {
    month := 1;
    remaining := days;
    while month <= 12
      invariant 1 <= month <= 12 && remaining + MonthStart(year, month) == days
      invariant if days >= 0 then 0 <= remaining else month == 1
      decreases 13 - month
    {
      var dim := 31;
      if month == 2 {
        dim := if year % 4 == 0 && (year % 100 != 0 || year % 400 == 0) then 29 else 28;
      } else if month == 4 || month == 6 || month == 9 || month == 11 {
        dim := 30;
      }
      if remaining < dim {
        break;
      }
      MonthStep(year, month);
      remaining := remaining - dim;
      month := month + 1;
    }
  }

  /** The numbers that `generateChunkFilename` prints. For a timestamp from 1970 on they are the one valid
      date and time of that second; for an earlier one they are not a date. */
  method FromTimestamp(timestamp: i64) returns (c: Civil)
    ensures SecondsSinceEpoch(c) == timestamp / 1000
    ensures IsTime(c)
    ensures IsDate(c) <==> timestamp >= 0
    ensures timestamp >= 0 ==>
      forall other :: IsValid(other) && SecondsSinceEpoch(other) == timestamp / 1000 ==> other == c
    ensures timestamp < 0 ==> c.year == 1970 && c.month == 1 && c.day <= 0
  {
    var seconds := timestamp / 1000;
    var year, daysOfYear := FindYear(seconds / 86400);
    var month, remaining := FindMonth(year, daysOfYear);
    var daySeconds := seconds % 86400;
    c := Civil(year, month, remaining + 1, daySeconds / 3600, daySeconds % 3600 / 60, daySeconds % 60);
    TimedDaySeconds(year, month, remaining + 1, seconds);
    if timestamp >= 0 {
      OnlyOneDate(c);
    }
  }
}
