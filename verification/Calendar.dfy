/**
 The real-time clock's conversion from a broken-down UTC time to seconds since
 the epoch, and its caller that serves gettimeofday().

 `TmToUnix` is the closed form of the firmware: three truncating divisions, a
 table of month offsets and a leap correction. The independent definition is a
 plain count, `CivilSeconds`: one year after another, one month after another.
 */
module Calendar {

  /** The fields of `struct tm` that the conversion reads, as the C library
      counts them: years since 1900, months from 0, days from 1. */
  datatype Tm = Tm(year: int, mon: int, mday: int, hour: int, min: int, sec: int)

  // ---------------------------------------------------------------- the code

  /** C's division, which truncates towards zero. */
  function CDiv(a: int, b: int): int
    requires b > 0
  {
    if a >= 0 then a / b else -((-a) / b)
  }

  /** C's remainder, whose sign is the dividend's. */
  function CMod(a: int, b: int): int
    requires b > 0
  {
    a - b * CDiv(a, b)
  }

  /** The quotient is rounded towards zero and the remainder takes the dividend's sign. */
  lemma DivisionTruncates(a: int, b: int)
    requires b > 0
    ensures var q, r := CDiv(a, b), CMod(a, b);
            b * q + r == a && -b < r < b && (a >= 0 ==> r >= 0) && (a <= 0 ==> r <= 0)
  {
  }

  const DAYS_BEFORE_MONTH: seq<int> := [0, 31, 59, 90, 120, 151, 181, 212, 243, 273, 304, 334]

  /** Days from the epoch to the start of the year `y` years later. */
  function YearDays(y: int): int {
    y * 365 + CDiv(y + 1, 4) - CDiv(y + 69, 100) + CDiv(y + 369, 400)
  }

  function TmToUnix(t: Tm): int
    requires 0 <= t.mon < 12
  {
    var year := t.year + 1900;
    var y := year - 1970;
    var yearDays := YearDays(y);
    var isLeap := (CMod(year, 4) == 0 && CMod(year, 100) != 0) || CMod(year, 400) == 0;
    var days := yearDays + DAYS_BEFORE_MONTH[t.mon]
                + (if t.mon > 1 && isLeap then 1 else 0) + (t.mday - 1);
    days * 86400 + t.hour * 3600 + t.min * 60 + t.sec
  }

  // ------------------------------------------------- the calendar it stands for

  /** The Gregorian rule, on civil years. */
  predicate Leap(year: int) {
    year % 4 == 0 && (year % 100 != 0 || year % 400 == 0)
  }

  function YearLength(year: int): int {
    if Leap(year) then 366 else 365
  }

  function MonthLength(year: int, mon: int): int {
    if mon == 1 then (if Leap(year) then 29 else 28)
    else if mon == 3 || mon == 5 || mon == 8 || mon == 10 then 30
    else 31
  }

  /** Days from the epoch to 1 January of a civil year. */
  function DaysBeforeYear(year: int): int
    requires year >= 1970
    decreases year
  {
    if year == 1970 then 0 else DaysBeforeYear(year - 1) + YearLength(year - 1)
  }

  /** Days from 1 January to the first of a month. */
  function DaysBeforeMonth(year: int, mon: nat): int
    decreases mon
  {
    if mon == 0 then 0 else DaysBeforeMonth(year, mon - 1) + MonthLength(year, mon - 1)
  }

  predicate Valid(t: Tm) {
    && t.year >= 70
    && 0 <= t.mon < 12
    && 1 <= t.mday <= MonthLength(t.year + 1900, t.mon)
    && 0 <= t.hour < 24 && 0 <= t.min < 60 && 0 <= t.sec < 60
  }

  function DayNumber(t: Tm): int
    requires t.year >= 70 && 0 <= t.mon < 12
  {
    DaysBeforeYear(t.year + 1900) + DaysBeforeMonth(t.year + 1900, t.mon) + (t.mday - 1)
  }

  function CivilSeconds(t: Tm): int
    requires t.year >= 70 && 0 <= t.mon < 12
  {
    DayNumber(t) * 86400 + t.hour * 3600 + t.min * 60 + t.sec
  }

  /** The next second on the clock and the calendar, carry by carry. */
  function NextSecond(t: Tm): Tm {
    if t.sec < 59 then t.(sec := t.sec + 1)
    else if t.min < 59 then t.(sec := 0, min := t.min + 1)
    else if t.hour < 23 then t.(sec := 0, min := 0, hour := t.hour + 1)
    else if t.mday < MonthLength(t.year + 1900, t.mon) then
      t.(sec := 0, min := 0, hour := 0, mday := t.mday + 1)
    else if t.mon < 11 then Tm(t.year, t.mon + 1, 1, 0, 0, 0)
    else Tm(t.year + 1, 0, 1, 0, 0, 0)
  }

  /** Civil order: the first differing field decides. */
  predicate Earlier(t: Tm, u: Tm) {
    if t.year != u.year then t.year < u.year
    else if t.mon != u.mon then t.mon < u.mon
    else if t.mday != u.mday then t.mday < u.mday
    else if t.hour != u.hour then t.hour < u.hour
    else if t.min != u.min then t.min < u.min
    else t.sec < u.sec
  }

  // ------------------------------------------------------ closed form == count

  /** Each of the three quotients grows by one exactly when the year just past
      is a multiple of its divisor. */
  lemma QuotientSteps(y: nat)
    ensures CDiv(y + 2, 4) - CDiv(y + 1, 4) == (if (y + 1970) % 4 == 0 then 1 else 0)
    ensures CDiv(y + 70, 100) - CDiv(y + 69, 100) == (if (y + 1970) % 100 == 0 then 1 else 0)
    ensures CDiv(y + 370, 400) - CDiv(y + 369, 400) == (if (y + 1970) % 400 == 0 then 1 else 0)
  {
    QuotientStep(y + 1, 4, 492);
    QuotientStep(y + 69, 100, 19);
    QuotientStep(y + 369, 400, 4);
  }

  lemma QuotientStep(a: nat, b: nat, k: nat)
    requires b > 1
    ensures (a + 1) / b - a / b == if (a + 1 + k * b) % b == 0 then 1 else 0
  {
    var q, r := a / b, a % b;
    assert a == q * b + r;
    if r + 1 < b {
      QuotientIs(a + 1, b, q, r + 1);
      assert a + 1 + k * b == (q + k) * b + (r + 1);
      QuotientIs(a + 1 + k * b, b, q + k, r + 1);
    } else {
      assert a + 1 == (q + 1) * b + 0;
      QuotientIs(a + 1, b, q + 1, 0);
      assert a + 1 + k * b == (q + 1 + k) * b + 0;
      QuotientIs(a + 1 + k * b, b, q + 1 + k, 0);
    }
  }

  lemma QuotientIs(a: int, b: int, q: int, r: int)
    requires 0 <= r < b && a == q * b + r
    ensures a / b == q && a % b == r
  {
    var d := a / b - q;
    assert -b < d * b < b by {
      assert d * b == r - a % b;
    }
    assert d >= 1 ==> d * b >= b;
    assert d <= -1 ==> d * b <= -b;
  }

  lemma {:induction false} YearDaysAreACount(year: int)
    requires year >= 1970
    ensures YearDays(year - 1970) == DaysBeforeYear(year)
    decreases year
  {
    if year == 1970 {
      assert CDiv(1, 4) == 0 && CDiv(69, 100) == 0 && CDiv(369, 400) == 0;
    } else {
      YearDaysAreACount(year - 1);
      QuotientSteps(year - 1971);
      MultiplesNest(year - 1);
    }
  }

  lemma MultiplesNest(year: int)
    ensures year % 400 == 0 ==> year % 100 == 0
    ensures year % 100 == 0 ==> year % 4 == 0
  {
  }

  lemma MonthTableIsACount(year: int, mon: nat)
    requires mon < 12
    ensures DAYS_BEFORE_MONTH[mon] + (if mon > 1 && Leap(year) then 1 else 0)
            == DaysBeforeMonth(year, mon)
  {
    assert DaysBeforeMonth(year, 1) == 31;
    var leap := if Leap(year) then 1 else 0;
    assert DaysBeforeMonth(year, 3) == 90 + leap;
    assert DaysBeforeMonth(year, 5) == 151 + leap;
    assert DaysBeforeMonth(year, 7) == 212 + leap;
    assert DaysBeforeMonth(year, 9) == 273 + leap;
  }

  /** The firmware's formula is the day-by-day count, for every year from 1970
      and any day and time fields. */
  lemma ClosedFormIsTheCount(t: Tm)
    requires t.year >= 70 && 0 <= t.mon < 12
    ensures TmToUnix(t) == CivilSeconds(t)
  {
    YearDaysAreACount(t.year + 1900);
    MonthTableIsACount(t.year + 1900, t.mon);
    var year := t.year + 1900;
    MultiplesNest(year);
  }

  // ------------------------------------------------------------- the bijection

  lemma WholeYear(year: int)
    ensures DaysBeforeMonth(year, 11) + 31 == YearLength(year)
  {
  }

  /** The epoch, and no other valid date, is mapped to zero. */
  lemma EpochIsZero(t: Tm)
    requires Valid(t)
    ensures TmToUnix(t) == 0 <==> t == Tm(70, 0, 1, 0, 0, 0)
  {
    hide TmToUnix, Valid, CivilSeconds;
    var epoch := Tm(70, 0, 1, 0, 0, 0);
    EpochIsValid();
    ClosedFormIsTheCount(epoch);
    OrderIsPreservedAndReflected(t, epoch);
  }

  lemma EpochIsValid()
    ensures var epoch := Tm(70, 0, 1, 0, 0, 0); Valid(epoch) && CivilSeconds(epoch) == 0
  {
  }

  /** Midnight: the day number grows by one at the end of a day, month or year. */
  lemma NextDayAddsOne(t: Tm)
    requires Valid(t) && t.hour == 23 && t.min == 59 && t.sec == 59
    ensures var u := NextSecond(t);
            Valid(u) && u.hour == u.min == u.sec == 0 && DayNumber(u) == DayNumber(t) + 1
  {
    var year := t.year + 1900;
    if t.mday == MonthLength(year, t.mon) {
      if t.mon == 11 {
        WholeYear(year);
        assert DaysBeforeYear(year + 1) == DaysBeforeYear(year) + YearLength(year);
        assert DaysBeforeMonth(year + 1, 0) == 0;
      } else {
        assert DaysBeforeMonth(year, t.mon + 1) == DaysBeforeMonth(year, t.mon) + MonthLength(year, t.mon);
      }
    }
  }

  /** Time passes in steps of one, over every carry. */
  lemma NextSecondAddsOne(t: Tm)
    requires Valid(t)
    ensures Valid(NextSecond(t))
    ensures TmToUnix(NextSecond(t)) == TmToUnix(t) + 1
  {
    ClosedFormIsTheCount(t);
    if t.hour == 23 && t.min == 59 && t.sec == 59 {
      NextDayAddsOne(t);
    } else {
      assert DayNumber(NextSecond(t)) == DayNumber(t);
    }
    ClosedFormIsTheCount(NextSecond(t));
  }

  /** The year in which day `n` after 1 January `from` falls, and the day of that year. */
  function YearOfDay(n: nat, from: int): (r: (int, nat))
    decreases n
  {
    if n < YearLength(from) then (from, n) else YearOfDay(n - YearLength(from), from + 1)
  }

  function MonthOfDay(year: int, n: nat, from: nat): (r: (nat, nat))
    requires from < 12
    decreases 12 - from
  {
    if n < MonthLength(year, from) || from == 11 then (from, n)
    else MonthOfDay(year, n - MonthLength(year, from), from + 1)
  }

  /** The written inverse: the civil time `n` seconds after the epoch. */
  function FromUnix(n: nat): Tm {
    var (year, d) := YearOfDay(n / 86400, 1970);
    var (mon, dd) := MonthOfDay(year, d, 0);
    var s := n % 86400;
    Tm(year - 1900, mon, dd + 1, s / 3600, s % 3600 / 60, s % 60)
  }

  lemma {:induction false} YearOfDaySound(n: nat, from: int)
    requires from >= 1970
    ensures var (year, d) := YearOfDay(n, from);
            year >= from && d < YearLength(year)
            && DaysBeforeYear(year) + d == DaysBeforeYear(from) + n
    decreases n
  {
    if n >= YearLength(from) {
      YearOfDaySound(n - YearLength(from), from + 1);
    }
  }

  lemma {:induction false} MonthOfDaySound(year: int, n: nat, from: nat)
    requires from < 12
    requires DaysBeforeMonth(year, from) + n < YearLength(year)
    ensures var (mon, d) := MonthOfDay(year, n, from);
            mon < 12 && d < MonthLength(year, mon)
            && DaysBeforeMonth(year, mon) + d == DaysBeforeMonth(year, from) + n
    decreases 12 - from
  {
    if from == 11 {
      WholeYear(year);
    } else if n >= MonthLength(year, from) {
      MonthOfDaySound(year, n - MonthLength(year, from), from + 1);
    }
  }

  /** Every natural number is the time of some valid date: the map is onto, and
      `FromUnix` finds the date. */
  lemma FromUnixIsARightInverse(n: nat)
    ensures Valid(FromUnix(n))
    ensures TmToUnix(FromUnix(n)) == n
  {
    FromUnixDate(n);
    SplitOfDay(n % 86400);
    ClosedFormIsTheCount(FromUnix(n));
  }

  lemma NothingBefore(year: int)
    ensures DaysBeforeYear(1970) == 0 && DaysBeforeMonth(year, 0) == 0
  {
  }

  lemma FromUnixDate(n: nat)
    ensures var t := FromUnix(n);
            t.year >= 70 && 0 <= t.mon < 12 && 1 <= t.mday <= MonthLength(t.year + 1900, t.mon)
            && DayNumber(t) == n / 86400
  {
    hide DaysBeforeYear, DaysBeforeMonth, YearLength, MonthLength, YearOfDay, MonthOfDay;
    var days := n / 86400;
    YearOfDaySound(days, 1970);
    var (year, d) := YearOfDay(days, 1970);
    NothingBefore(year);
    MonthOfDaySound(year, d, 0);
    var (mon, dd) := MonthOfDay(year, d, 0);
    assert FromUnix(n).year == year - 1900 && FromUnix(n).mon == mon && FromUnix(n).mday == dd + 1;
  }

  lemma SplitOfDay(s: nat)
    requires s < 86400
    ensures s / 3600 < 24 && s % 3600 / 60 < 60
    ensures s == s / 3600 * 3600 + s % 3600 / 60 * 60 + s % 60
  {
  }

  lemma {:induction false} YearsAreDisjoint(a: int, b: int)
    requires 1970 <= a < b
    ensures DaysBeforeYear(a) + YearLength(a) <= DaysBeforeYear(b)
    decreases b
  {
    if a + 1 < b {
      YearsAreDisjoint(a, b - 1);
    }
  }

  lemma {:induction false} MonthsAreDisjoint(year: int, a: nat, b: nat)
    requires a < b
    ensures DaysBeforeMonth(year, a) + MonthLength(year, a) <= DaysBeforeMonth(year, b)
    decreases b
  {
    if a + 1 < b {
      MonthsAreDisjoint(year, a, b - 1);
    }
  }

  lemma DayWithinYear(t: Tm)
    requires Valid(t)
    ensures 0 <= DayNumber(t) - DaysBeforeYear(t.year + 1900) < YearLength(t.year + 1900)
  {
    WholeYear(t.year + 1900);
    if t.mon < 11 {
      MonthsAreDisjoint(t.year + 1900, t.mon, 11);
    }
    if 0 < t.mon {
      MonthsAreDisjoint(t.year + 1900, 0, t.mon);
    }
  }

  /** Earlier dates have smaller day numbers. */
  lemma EarlierDay(t: Tm, u: Tm)
    requires Valid(t) && Valid(u)
    requires (t.year, t.mon, t.mday) != (u.year, u.mon, u.mday) && Earlier(t, u)
    ensures DayNumber(t) < DayNumber(u)
  {
    DayWithinYear(t);
    DayWithinYear(u);
    if t.year < u.year {
      YearsAreDisjoint(t.year + 1900, u.year + 1900);
    } else if t.mon < u.mon {
      MonthsAreDisjoint(t.year + 1900, t.mon, u.mon);
    }
  }

  /** Civil order and numeric order agree, in both directions. */
  lemma OrderIsPreservedAndReflected(t: Tm, u: Tm)
    requires Valid(t) && Valid(u)
    ensures Earlier(t, u) <==> TmToUnix(t) < TmToUnix(u)
    ensures t == u <==> TmToUnix(t) == TmToUnix(u)
  {
    ClosedFormIsTheCount(t);
    ClosedFormIsTheCount(u);
    if (t.year, t.mon, t.mday) != (u.year, u.mon, u.mday) {
      if Earlier(t, u) {
        EarlierDay(t, u);
      } else {
        EarlierDay(u, t);
      }
    }
  }

  lemma FromUnixIsALeftInverse(t: Tm)
    requires Valid(t)
    ensures 0 <= TmToUnix(t) && FromUnix(TmToUnix(t)) == t
  {
    ClosedFormIsTheCount(t);
    DayWithinYear(t);
    if 1970 < t.year + 1900 {
      YearsAreDisjoint(1970, t.year + 1900);
    }
    FromUnixIsARightInverse(TmToUnix(t));
    OrderIsPreservedAndReflected(FromUnix(TmToUnix(t)), t);
  }

  /** The Gregorian cycle: 400 years are 146097 days, wherever they start. */
  lemma FourCenturies(t: Tm)
    requires Valid(t)
    ensures Valid(t.(year := t.year + 400))
    ensures TmToUnix(t.(year := t.year + 400)) == TmToUnix(t) + 146097 * 86400
  {
    var u := t.(year := t.year + 400);
    CycleOfYears(t.year + 1900);
    CycleOfMonths(t.year + 1900, t.mon);
    ClosedFormIsTheCount(t);
    ClosedFormIsTheCount(u);
  }

  lemma CycleOfYears(year: int)
    requires year >= 1970
    ensures Leap(year + 400) == Leap(year)
    ensures DaysBeforeYear(year + 400) == DaysBeforeYear(year) + 146097
  {
    YearDaysAreACount(year);
    YearDaysAreACount(year + 400);
    QuotientShifts(year - 1969, 4, 100);
    QuotientShifts(year - 1901, 100, 4);
    QuotientShifts(year - 1601, 400, 1);
    QuotientShifts(year, 4, 100);
    QuotientShifts(year, 100, 4);
    QuotientShifts(year, 400, 1);
  }

  lemma QuotientShifts(a: nat, b: nat, k: nat)
    requires b > 0
    ensures (a + k * b) / b == a / b + k && (a + k * b) % b == a % b
  {
    assert a == a / b * b + a % b;
    assert a + k * b == (a / b + k) * b + a % b;
    QuotientIs(a + k * b, b, a / b + k, a % b);
  }

  lemma {:induction false} CycleOfMonths(year: int, mon: nat)
    requires Leap(year + 400) == Leap(year)
    ensures DaysBeforeMonth(year + 400, mon) == DaysBeforeMonth(year, mon)
  {
    if mon > 0 {
      CycleOfMonths(year, mon - 1);
    }
  }

  // --------------------------------------------------------------- gettimeofday

  /** What the RTC peripheral answered: `Year` counts from 2000, `Month` and `Date` from 1. */
  datatype RtcReading = RtcReading(year: nat, month: nat, date: nat, hours: nat, minutes: nat, seconds: nat)

  predicate ValidReading(r: RtcReading) {
    && r.year < 100 && 1 <= r.month <= 12 && 1 <= r.date <= MonthLength(2000 + r.year, r.month - 1)
    && r.hours < 24 && r.minutes < 60 && r.seconds < 60
  }

  function TmOfReading(r: RtcReading): Tm {
    Tm(r.year + 100, r.month - 1, r.date, r.hours, r.minutes, r.seconds)
  }

  /** `_gettimeofday` over one reading. A status is true when the HAL call returned HAL_OK. */
  method GetTimeOfDay(tvGiven: bool, timeOk: bool, dateOk: bool, r: RtcReading)
    returns (ret: int, tvSec: int)
    requires timeOk && dateOk ==> ValidReading(r)
    ensures ret == 0 <==> tvGiven && timeOk && dateOk
    ensures ret != 0 ==> ret == -1 && tvSec == 0
    ensures ret == 0 ==> 946684800 <= tvSec < 4102444800 && FromUnix(tvSec) == TmOfReading(r)
    ensures ret == 0 ==> tvSec % 60 == r.seconds && tvSec / 60 % 60 == r.minutes && tvSec / 3600 % 24 == r.hours
    ensures ret == 0 ==>
              tvSec / 86400 == DaysBeforeYear(2000 + r.year) + DaysBeforeMonth(2000 + r.year, r.month - 1) + r.date - 1
  {
    if !tvGiven {
      return -1, 0;
    }
    tvSec := 0;
    if !timeOk || !dateOk {
      return -1, tvSec;
    }
    var utc := TmOfReading(r);
    var t := TmToUnix(utc);
    ReadingIsInRange(r);
    ReadingIsTold(r);
    FromUnixIsALeftInverse(utc);
    if t == -1 {
      return -1, tvSec;
    }
    return 0, t;
  }

  lemma ByMinute(q: int, r: nat)
    requires r < 60
    ensures (q * 60 + r) / 60 == q && (q * 60 + r) % 60 == r
  {
  }

  lemma ByHour(q: int, r: nat)
    requires r < 3600
    ensures (q * 3600 + r) / 3600 == q
  {
  }

  lemma ByDay(q: int, r: nat)
    requires r < 86400
    ensures (q * 86400 + r) / 86400 == q
  {
  }

  lemma HourOfDay(q: int, r: nat)
    requires r < 24
    ensures (q * 24 + r) % 24 == r
  {
  }

  lemma TimeOfDay(days: int, h: nat, m: nat, s: nat)
    requires h < 24 && m < 60 && s < 60
    ensures var t := days * 86400 + h * 3600 + m * 60 + s;
            t % 60 == s && t / 60 % 60 == m && t / 3600 % 24 == h && t / 86400 == days
  {
    ByMinute((days * 24 + h) * 60 + m, s);
    ByMinute(days * 24 + h, m);
    ByHour(days * 24 + h, m * 60 + s);
    HourOfDay(days, h);
    ByDay(days, h * 3600 + m * 60 + s);
  }

  /** The time that is computed tells the fields of the reading, each in its place: the time of
      day, and the days counted from the epoch. */
  lemma ReadingIsTold(r: RtcReading)
    requires ValidReading(r)
    ensures var t := TmToUnix(TmOfReading(r));
      && t % 60 == r.seconds && t / 60 % 60 == r.minutes && t / 3600 % 24 == r.hours
      && t / 86400 == DaysBeforeYear(2000 + r.year) + DaysBeforeMonth(2000 + r.year, r.month - 1) + r.date - 1
  {
    hide DaysBeforeYear, DaysBeforeMonth, TmToUnix;
    ClosedFormIsTheCount(TmOfReading(r));
    TimeOfDay(DayNumber(TmOfReading(r)), r.hours, r.minutes, r.seconds);
  }

  lemma CenturyStarts()
    ensures TmToUnix(Tm(100, 0, 1, 0, 0, 0)) == 946684800
    ensures TmToUnix(Tm(200, 0, 1, 0, 0, 0)) == 4102444800
  {
    assert YearDays(30) == 10957 && YearDays(130) == 47482;
  }

  /** The clock's two-digit years stay between 2000-01-01 and 2100-01-01, so the
      error value -1 never stands for a real time. */
  lemma ReadingIsInRange(r: RtcReading)
    requires ValidReading(r)
    ensures 946684800 <= TmToUnix(TmOfReading(r)) < 4102444800
  {
    var t := TmOfReading(r);
    CenturyStarts();
    var first := Tm(100, 0, 1, 0, 0, 0);
    var last := Tm(200, 0, 1, 0, 0, 0);
    OrderIsPreservedAndReflected(t, last);
    OrderIsPreservedAndReflected(t, first);
    OrderIsPreservedAndReflected(first, t);
  }
}
