/** Civil dates, Julian day numbers and UTC broken-down time. */
module Calendar {
  import opened Common

  datatype YearMonthDay = YearMonthDay(year: int, month: int, day: int)

  // ----- The source's arithmetic: C division truncates towards zero ----------------------------

  function JulianDayNumber(year: int, month: int, day: int): int {
    var a := Quot(14 - month, 12);
    var y := year + 4800 - a;
    var m := month + 12 * a - 3;
    day + Quot(153 * m + 2, 5) + y * 365 + Quot(y, 4) - Quot(y, 100) + Quot(y, 400) - 32045
  }

  function CivilDate(julianDayNumber: int): YearMonthDay {
    var a := julianDayNumber + 32044;
    var b := Quot(4 * a + 3, 146097);
    var c := a - Quot(b * 146097, 4);
    var d := Quot(4 * c + 3, 1461);
    var e := c - Quot(1461 * d, 4);
    var m := Quot(5 * e + 2, 153);
    YearMonthDay(b * 100 + d - 4800 + Quot(m, 10),
                 m + 3 - 12 * Quot(m, 10),
                 e - Quot(153 * m + 2, 5) + 1)
  }

  // ----- The Gregorian calendar, as an independent reference -----------------------------------

  predicate Leap(y: int) { y % 4 == 0 && (y % 100 != 0 || y % 400 == 0) }

  function DaysInMonth(y: int, m: int): int {
    if m == 2 then (if Leap(y) then 29 else 28)
    else if m == 4 || m == 6 || m == 9 || m == 11 then 30
    else 31
  }

  predicate ValidDate(d: YearMonthDay) {
    1 <= d.month <= 12 && 1 <= d.day <= DaysInMonth(d.year, d.month)
  }

  function NextDay(d: YearMonthDay): YearMonthDay {
    if d.day < DaysInMonth(d.year, d.month) then d.(day := d.day + 1)
    else if d.month < 12 then YearMonthDay(d.year, d.month + 1, 1)
    else YearMonthDay(d.year + 1, 1, 1)
  }

  predicate Before(d: YearMonthDay, e: YearMonthDay) {
    d.year < e.year || (d.year == e.year && (d.month < e.month || (d.month == e.month && d.day < e.day)))
  }

  /** The dates on or after 1 March 4801 BC, day number -32044, where the formulas start. */
  predicate InEra(d: YearMonthDay) {
    d.year > -4800 || (d.year == -4800 && d.month >= 3)
  }

  // ----- Years counted from March --------------------------------------------------------------

  function MarchYear(d: YearMonthDay): int { if d.month <= 2 then d.year + 4799 else d.year + 4800 }

  function MarchMonth(month: int): int { if month <= 2 then month + 9 else month - 3 }

  /** Days before the first of month `m` (0 is March) in a year that starts in March. */
  function MonthStart(m: int): (days: int)
    requires 0 <= m
    ensures days >= 0
  {
    (153 * m + 2) / 5
  }

  /** Days before 1 March of March-year `y`. */
  function YearStart(y: int): int
    requires y >= 0
  {
    365 * y + y / 4 - y / 100 + y / 400
  }

  lemma JulianFromMarch(d: YearMonthDay)
    requires ValidDate(d) && InEra(d)
    ensures JulianDayNumber(d.year, d.month, d.day) + 32044
         == YearStart(MarchYear(d)) + MonthStart(MarchMonth(d.month)) + d.day - 1
  {
    assert Quot(14 - d.month, 12) == if d.month <= 2 then 1 else 0;
  }

  lemma YearStartInCentury(b: int, d: int)
    requires 0 <= b && 0 <= d < 100
    ensures YearStart(100 * b + d) == 36524 * b + b / 4 + 365 * d + d / 4
    ensures (b * 146097) / 4 == 36524 * b + b / 4
    ensures (1461 * d) / 4 == 365 * d + d / 4
  {
    assert (100 * b + d) / 4 == 25 * b + d / 4;
    assert (100 * b + d) / 100 == b;
    assert (100 * b + d) / 400 == b / 4;
  }

  lemma Step4(y: int)
    requires y >= 0
    ensures (y + 1) / 4 == y / 4 + if (y + 1) % 4 == 0 then 1 else 0
  {
  }

  lemma Step100(y: int)
    requires y >= 0
    ensures (y + 1) / 100 == y / 100 + if (y + 1) % 100 == 0 then 1 else 0
  {
  }

  lemma Step400(y: int)
    requires y >= 0
    ensures (y + 1) / 400 == y / 400 + if (y + 1) % 400 == 0 then 1 else 0
  {
  }

  lemma CenturyDivides(y: int)
    ensures y % 400 == 0 ==> y % 100 == 0
    ensures y % 100 == 0 ==> y % 4 == 0
  {
  }

  lemma Shift400(y: int)
    ensures (y + 4800) % 400 == y % 400
  {
  }

  lemma LeapShift(y: int)
    ensures Leap(y + 4800) == Leap(y)
  {
    CenturyMod4(48, y);
    CenturyMod100(48, y);
    Shift400(y);
  }

  lemma YearLength(y: int)
    requires y >= 0
    ensures YearStart(y + 1) == YearStart(y) + if Leap(y + 1) then 366 else 365
  {
    Step4(y);
    Step100(y);
    Step400(y);
    CenturyDivides(y + 1);
  }

  lemma {:induction false} YearStartGrows(y: int, z: int)
    requires 0 <= y < z
    ensures YearStart(y + 1) <= YearStart(z)
    decreases z
  {
    if y + 1 < z {
      YearStartGrows(y, z - 1);
      YearLength(z - 1);
    }
  }

  /** Months counted from March have their civil lengths, and February ends the year. */
  lemma MonthLength(d: YearMonthDay)
    requires ValidDate(d) && InEra(d)
    ensures var m := MarchMonth(d.month);
            && 0 <= m <= 11
            && (m < 11 ==> MonthStart(m + 1) == MonthStart(m) + DaysInMonth(d.year, d.month))
            && (m == 11 ==>
                  YearStart(MarchYear(d) + 1) == YearStart(MarchYear(d)) + MonthStart(m) + DaysInMonth(d.year, 2))
  {
    if d.month == 2 {
      YearLength(MarchYear(d));
      LeapShift(d.year);
    }
  }

  lemma MonthStartGrows(m: int, n: int)
    requires 0 <= m < n
    ensures MonthStart(m + 1) <= MonthStart(n)
  {
  }

  lemma LastMonth()
    ensures MonthStart(0) == 0 && MonthStart(11) == 337
  {
  }

  // ----- From a day number to a date -----------------------------------------------------------

  /** The March-year, day of the year and month that `CivilDate` finds are the right ones. */
  lemma Century(a: int, b: int)
    requires a >= 0 && b == (4 * a + 3) / 146097
    ensures b >= 0 && 36524 * b + b / 4 <= a
    ensures a - (36524 * b + b / 4) <= if b % 4 == 3 then 36524 else 36523
  {
    var k, r := b / 4, b % 4;
    assert b == 4 * k + r;
  }

  lemma YearInCentury(c: int, d: int)
    requires 0 <= c <= 36524 && d == (4 * c + 3) / 1461
    ensures 0 <= d <= 99 && 365 * d + d / 4 <= c
    ensures c - (365 * d + d / 4) <= if d % 4 == 3 then 365 else 364
    ensures d == 99 && c <= 36523 ==> c - (365 * d + d / 4) <= 364
  {
    var k, r := d / 4, d % 4;
    assert d == 4 * k + r;
  }

  lemma MonthInYear(e: int, m: int)
    requires 0 <= e <= 365 && m == (5 * e + 2) / 153
    ensures 0 <= m <= 11 && MonthStart(m) <= e && (m < 11 ==> e < MonthStart(m + 1))
  {
  }

  /** The parts `CivilDate` computes: March-year `y`, day of that year `e` and month `m`. */
  lemma CivilParts(j: int) returns (y: int, e: int, m: int)
    requires j >= -32044
    ensures y >= 0 && 0 <= e && 0 <= m <= 11
    ensures CivilDate(j) == YearMonthDay(y - 4800 + m / 10, m + 3 - 12 * (m / 10), e - MonthStart(m) + 1)
    ensures j + 32044 == YearStart(y) + e
    ensures MonthStart(m) <= e && (m < 11 ==> e < MonthStart(m + 1))
    ensures e <= if Leap(y + 1) then 365 else 364
  {
    hide *;
    var a := j + 32044;
    var b := (4 * a + 3) / 146097;
    Century(a, b);
    YearStartInCentury(b, 0);
    var c := a - (b * 146097) / 4;
    var d := (4 * c + 3) / 1461;
    YearInCentury(c, d);
    YearStartInCentury(b, d);
    LeapInCentury(b, d);
    y, e := 100 * b + d, c - (1461 * d) / 4;
    m := (5 * e + 2) / 153;
    MonthInYear(e, m);
    CivilUnfold(j, a, b, c, d, e, m);
  }

  lemma QuotOfNonNegative(a: int, b: int)
    requires a >= 0 && b > 0
    ensures Quot(a, b) == a / b
  {
  }

  lemma CivilUnfold(j: int, a: int, b: int, c: int, d: int, e: int, m: int)
    requires a == j + 32044 && a >= 0 && b >= 0 && c >= 0 && d >= 0 && e >= 0 && m >= 0
    requires b == (4 * a + 3) / 146097 && c == a - (b * 146097) / 4
    requires d == (4 * c + 3) / 1461 && e == c - (1461 * d) / 4 && m == (5 * e + 2) / 153
    ensures CivilDate(j) == YearMonthDay(b * 100 + d - 4800 + m / 10, m + 3 - 12 * (m / 10), e - MonthStart(m) + 1)
  {
    hide Quot;
    QuotOfNonNegative(4 * a + 3, 146097);
    QuotOfNonNegative(b * 146097, 4);
    QuotOfNonNegative(4 * c + 3, 1461);
    QuotOfNonNegative(1461 * d, 4);
    QuotOfNonNegative(5 * e + 2, 153);
    QuotOfNonNegative(m, 10);
    QuotOfNonNegative(153 * m + 2, 5);
  }

  lemma MarchDate(y: int, m: int, e: int)
    requires y >= 0 && 0 <= m <= 11 && MonthStart(m) <= e && (m < 11 ==> e < MonthStart(m + 1))
    requires e <= if Leap(y + 1) then 365 else 364
    ensures var d := YearMonthDay(y - 4800 + m / 10, m + 3 - 12 * (m / 10), e - MonthStart(m) + 1);
            ValidDate(d) && InEra(d) && MarchYear(d) == y && MarchMonth(d.month) == m
  {
    var d := YearMonthDay(y - 4800 + m / 10, m + 3 - 12 * (m / 10), e - MonthStart(m) + 1);
    if m == 11 {
      LeapShift(d.year);
    }
  }

  /** Every day number from -32044 on is the number of the valid date computed from it. */
  lemma CivilDateIsRight(j: int)
    requires j >= -32044
    ensures var d := CivilDate(j); ValidDate(d) && InEra(d) && JulianDayNumber(d.year, d.month, d.day) == j
  {
    hide *;
    var y, e, m := CivilParts(j);
    MarchDate(y, m, e);
    JulianFromMarch(CivilDate(j));
  }

  lemma CenturyMod4(b: int, e: int)
    ensures (100 * b + e) % 4 == e % 4
  {
    assert 100 * b + e == 4 * (25 * b) + e;
  }

  lemma CenturyMod100(b: int, e: int)
    ensures (100 * b + e) % 100 == e % 100
  {
  }

  lemma CenturyMod400(b: int)
    ensures (100 * b) % 400 == 100 * (b % 4)
  {
    var q, r := b / 4, b % 4;
    assert 100 * b == 400 * q + 100 * r;
  }

  lemma LeapInCentury(b: int, d: int)
    requires 0 <= b && 0 <= d < 100
    ensures Leap(100 * b + d + 1) <==> d % 4 == 3 && (d != 99 || b % 4 == 3)
  {
    CenturyMod4(b, d + 1);
    CenturyMod100(b, d + 1);
    if d == 99 {
      assert 100 * b + d + 1 == 100 * (b + 1);
      CenturyMod400(b + 1);
    }
  }

  // ----- Order and uniqueness ------------------------------------------------------------------

  lemma JulianIncreases(d: YearMonthDay, e: YearMonthDay)
    requires ValidDate(d) && InEra(d) && ValidDate(e) && InEra(e) && Before(d, e)
    ensures JulianDayNumber(d.year, d.month, d.day) < JulianDayNumber(e.year, e.month, e.day)
  {
    hide JulianDayNumber, YearStart, MonthStart, DaysInMonth;
    JulianFromMarch(d);
    JulianFromMarch(e);
    MonthLength(d);
    MonthLength(e);
    var m, n := MarchMonth(d.month), MarchMonth(e.month);
    if MarchYear(d) < MarchYear(e) {
      YearStartGrows(MarchYear(d), MarchYear(e));
      if m < 11 {
        MonthStartGrows(m, 11);
        YearLength(MarchYear(d));
        LastMonth();
      }
    } else if m < n {
      MonthStartGrows(m, n);
    }
  }

  /** Day numbers order valid dates as the calendar does. */
  lemma JulianOrders(d: YearMonthDay, e: YearMonthDay)
    requires ValidDate(d) && InEra(d) && ValidDate(e) && InEra(e)
    ensures Before(d, e) <==> JulianDayNumber(d.year, d.month, d.day) < JulianDayNumber(e.year, e.month, e.day)
  {
    if Before(d, e) {
      JulianIncreases(d, e);
    } else if d != e {
      JulianIncreases(e, d);
    }
  }

  lemma EraStart(d: YearMonthDay)
    requires ValidDate(d) && InEra(d)
    ensures JulianDayNumber(d.year, d.month, d.day) >= -32044
  {
    JulianFromMarch(d);
    if MarchYear(d) > 0 {
      YearStartGrows(0, MarchYear(d));
    }
  }

  /** The conversions are mutually inverse on all valid dates of the era. */
  lemma DateRoundTrip(d: YearMonthDay)
    requires ValidDate(d) && InEra(d)
    ensures CivilDate(JulianDayNumber(d.year, d.month, d.day)) == d
  {
    var j := JulianDayNumber(d.year, d.month, d.day);
    EraStart(d);
    CivilDateIsRight(j);
    JulianOrders(d, CivilDate(j));
    JulianOrders(CivilDate(j), d);
  }

  /** Consecutive day numbers are consecutive Gregorian dates. */
  lemma NextDayNumber(j: int)
    requires j >= -32044
    ensures CivilDate(j + 1) == NextDay(CivilDate(j))
  {
    hide JulianDayNumber, CivilDate, YearStart, MonthStart;
    CivilDateIsRight(j);
    var d := CivilDate(j);
    var e := NextDay(d);
    JulianFromMarch(d);
    MonthLength(d);
    LastMonth();
    assert ValidDate(e) && InEra(e);
    JulianFromMarch(e);
    DateRoundTrip(e);
  }

  // ----- 32-bit arithmetic ---------------------------------------------------------------------

  /** Every intermediate value of `getYearMonthDay` fits in 32 bits. */
  ghost predicate CivilDateFits(j: int) {
    var a := j + 32044;
    var b := Quot(4 * a + 3, 146097);
    var c := a - Quot(b * 146097, 4);
    var d := Quot(4 * c + 3, 1461);
    var e := c - Quot(1461 * d, 4);
    var m := Quot(5 * e + 2, 153);
    && Int32(a) && Int32(4 * a) && Int32(4 * a + 3) && Int32(b * 146097)
    && Int32(4 * c + 3) && Int32(1461 * d) && Int32(5 * e + 2) && Int32(153 * m + 2)
    && Int32(b * 100 + d - 4800 + Quot(m, 10))
  }

  /** Every intermediate value of `getJulianDayNumber` fits in 32 bits. */
  ghost predicate JulianFits(d: YearMonthDay) {
    var a := Quot(14 - d.month, 12);
    var y := d.year + 4800 - a;
    var m := d.month + 12 * a - 3;
    && Int32(d.year + 4800) && Int32(y) && Int32(153 * m + 2)
    && Int32(d.day + Quot(153 * m + 2, 5) + y * 365) && Int32(y * 365)
    && Int32(d.day + Quot(153 * m + 2, 5) + y * 365 + Quot(y, 4))
    && Int32(d.day + Quot(153 * m + 2, 5) + y * 365 + Quot(y, 4) - Quot(y, 100))
    && Int32(d.day + Quot(153 * m + 2, 5) + y * 365 + Quot(y, 4) - Quot(y, 100) + Quot(y, 400))
  }

  lemma CivilDateFitsBelow(j: int)
    requires 0 <= j <= 536838867
    ensures CivilDateFits(j)
  {
    hide Leap, YearStart, MonthStart;
    var a := j + 32044;
    var b := (4 * a + 3) / 146097;
    Century(a, b);
    YearStartInCentury(b, 0);
    var c := a - (b * 146097) / 4;
    var d := (4 * c + 3) / 1461;
    YearInCentury(c, d);
    YearStartInCentury(b, d);
    var e := c - (1461 * d) / 4;
    MonthInYear(e, (5 * e + 2) / 153);
  }

  lemma JulianFitsBelow(d: YearMonthDay)
    requires ValidDate(d) && -4800 < d.year <= 1500000
    ensures JulianFits(d)
  {
    var a := Quot(14 - d.month, 12);
    assert 0 <= a <= 1;
    var y := d.year + 4800 - a;
    assert 0 <= y / 4 <= y && 0 <= y / 100 <= y && 0 <= y / 400 <= y;
  }

  lemma YearBound(j: int)
    requires 0 <= j <= 536838867
    ensures -4800 < CivilDate(j).year <= 1500000
  {
    hide Leap, MonthStart, CivilDate;
    var y, e, m := CivilParts(j);
  }

  /** From day zero on, `getYearMonthDay` overflows exactly above 536838867, and up to there the
      conversion back does not overflow either. */
  lemma NoOverflowExactly(j: int)
    requires j >= 0
    ensures CivilDateFits(j) <==> j <= 536838867
    ensures j <= 536838867 ==> JulianFits(CivilDate(j))
  {
    if j <= 536838867 {
      hide *;
      CivilDateFitsBelow(j);
      CivilDateIsRight(j);
      YearBound(j);
      JulianFitsBelow(CivilDate(j));
    }
  }

  // ----- UTC broken-down time ------------------------------------------------------------------

  const SECONDS_PER_DAY := 86400
  const JULIAN_1970_01_01 := 2440588

  lemma EpochDay()
    ensures JulianDayNumber(1970, 1, 1) == JULIAN_1970_01_01
  {
  }

  datatype Tm = Tm(sec: int, min: int, hour: int, mday: int, mon: int, year: int, wday: int, yday: int)

  function WeekDay(j: int): int { Rem(j + 1, 7) }

  function FromUtc(year: int, month: int, day: int, hour: int, minute: int, seconds: int): int {
    var secondsInDay := hour * 3600 + minute * 60 + seconds;
    var days := JulianDayNumber(year, month, day) - JULIAN_1970_01_01;
    days * SECONDS_PER_DAY + secondsInDay
  }

  function FromUtcTime(utc: Tm): int {
    FromUtc(utc.year + 1900, utc.mon + 1, utc.mday, utc.hour, utc.min, utc.sec)
  }

  /** Seconds whose day number lies in the range of `NoOverflowExactly`. */
  predicate InRange(t: int) {
    -JULIAN_1970_01_01 * SECONDS_PER_DAY <= t < (536838868 - JULIAN_1970_01_01) * SECONDS_PER_DAY
  }

  predicate ValidTm(utc: Tm) {
    && 0 <= utc.sec < 60 && 0 <= utc.min < 60 && 0 <= utc.hour < 24 && 0 <= utc.wday < 7
    && ValidDate(YearMonthDay(utc.year + 1900, utc.mon + 1, utc.mday))
  }

  method FillHMS(seconds: int, utc: Tm) returns (r: Tm)
    requires 0 <= seconds < SECONDS_PER_DAY
    ensures r == utc.(sec := r.sec, min := r.min, hour := r.hour)
    ensures 0 <= r.sec < 60 && 0 <= r.min < 60 && 0 <= r.hour < 24
    ensures r.hour * 3600 + r.min * 60 + r.sec == seconds
  {
    r := utc.(sec := seconds % 60);
    var minutes := seconds / 60;
    r := r.(min := minutes % 60);
    r := r.(hour := minutes / 60);
  }

  /** Days since the epoch and seconds of the day, rounding down also for negative times. */
  method SplitDay(secondsSinceEpoch: int) returns (days: int, seconds: int)
    ensures days == secondsSinceEpoch / SECONDS_PER_DAY && seconds == secondsSinceEpoch % SECONDS_PER_DAY
  {
    seconds := Rem(secondsSinceEpoch, SECONDS_PER_DAY);
    days := Quot(secondsSinceEpoch, SECONDS_PER_DAY);
    if seconds < 0 {
      seconds := seconds + SECONDS_PER_DAY;
      days := days - 1;
    }
  }

  /** `toUtcTime`: all fields in range, negative times included, and `fromUtcTime` undoes it. */
  method ToUtcTime(secondsSinceEpoch: int, yday: bool) returns (utc: Tm)
    requires InRange(secondsSinceEpoch)
    ensures ValidTm(utc) && FromUtcTime(utc) == secondsSinceEpoch
    ensures utc.wday == (secondsSinceEpoch / SECONDS_PER_DAY + 4) % 7
    ensures yday ==> 0 <= utc.yday < if Leap(utc.year + 1900) then 366 else 365
    ensures yday ==>
              (secondsSinceEpoch / SECONDS_PER_DAY - utc.yday) * SECONDS_PER_DAY
              == FromUtc(utc.year + 1900, 1, 1, 0, 0, 0)
    ensures !yday ==> utc.yday == 0
  {
    hide JulianDayNumber, CivilDate, Leap;
    utc := Tm(0, 0, 0, 0, 0, 0, 0, 0);
    var days, seconds := SplitDay(secondsSinceEpoch);
    utc := FillHMS(seconds, utc);
    var j := days + JULIAN_1970_01_01;
    CivilDateIsRight(j);
    YearBound(j);
    var ymd := CivilDate(j);
    utc := utc.(year := ymd.year - 1900);
    utc := utc.(mon := ymd.month - 1);
    utc := utc.(mday := ymd.day);
    utc := utc.(wday := WeekDay(j));
    if yday {
      DayOfYear(ymd);
      utc := utc.(yday := j - JulianDayNumber(ymd.year, 1, 1));
    }
  }

  lemma DayOfYear(d: YearMonthDay)
    requires ValidDate(d) && InEra(d) && d.year > -4800
    ensures 0 <= JulianDayNumber(d.year, d.month, d.day) - JulianDayNumber(d.year, 1, 1)
            < if Leap(d.year) then 366 else 365
  {
    var first, next := YearMonthDay(d.year, 1, 1), YearMonthDay(d.year + 1, 1, 1);
    hide JulianDayNumber, YearStart, MonthStart, Leap;
    JulianOrders(d, first);
    JulianOrders(d, next);
    JulianFromMarch(first);
    JulianFromMarch(next);
    YearLength(MarchYear(first));
    LeapShift(d.year);
  }

  lemma DayOfSecond(days: int, rest: int)
    requires 0 <= rest < SECONDS_PER_DAY
    ensures (days * SECONDS_PER_DAY + rest) / SECONDS_PER_DAY == days
    ensures (days * SECONDS_PER_DAY + rest) % SECONDS_PER_DAY == rest
  {
  }

  /** Distinct times have distinct broken-down forms, because one function undoes the other. */
  lemma {:induction false} UtcIsExact(utc: Tm, t: int)
    requires ValidTm(utc) && InEra(YearMonthDay(utc.year + 1900, utc.mon + 1, utc.mday)) && FromUtcTime(utc) == t
    ensures var j := t / SECONDS_PER_DAY + JULIAN_1970_01_01;
            && CivilDate(j) == YearMonthDay(utc.year + 1900, utc.mon + 1, utc.mday)
            && t % SECONDS_PER_DAY == utc.hour * 3600 + utc.min * 60 + utc.sec
  {
    hide JulianDayNumber, CivilDate, ValidDate;
    var d := YearMonthDay(utc.year + 1900, utc.mon + 1, utc.mday);
    var days := JulianDayNumber(d.year, d.month, d.day) - JULIAN_1970_01_01;
    var rest := utc.hour * 3600 + utc.min * 60 + utc.sec;
    assert t == days * SECONDS_PER_DAY + rest && 0 <= rest < SECONDS_PER_DAY;
    DayOfSecond(days, rest);
    DateRoundTrip(d);
  }
}
