/** The day arithmetic of fnd_DateTime.cpp against the Gregorian calendar, in both directions and
    for years before 2000 too. */
module Calendar {
  import opened Arithmetic

  // ---------- the Gregorian calendar ----------

  datatype Date = Date(year: int, month: int, day: int)

  function Leap(year: int): (r: int)
    ensures 0 <= r <= 1
  {
    if year % 400 == 0 then 1 else if year % 100 == 0 then 0 else if year % 4 == 0 then 1 else 0
  }

  function MonthLength(year: int, month: int): int {
    if month == 2 then 28 + Leap(year) else if month == 4 || month == 6 || month == 9 || month == 11 then 30 else 31
  }

  predicate ValidDate(d: Date) { 1 <= d.month <= 12 && 1 <= d.day <= MonthLength(d.year, d.month) }

  function NextDay(d: Date): Date {
    if d.day < MonthLength(d.year, d.month) then d.(day := d.day + 1)
    else if d.month < 12 then Date(d.year, d.month + 1, 1)
    else Date(d.year + 1, 1, 1)
  }

  // ---------- counting days ----------

  /** Years that start in March: the leap day is the last day of its year. */
  function MarchYear(d: Date): int { if d.month <= 2 then d.year - 1 else d.year }

  function MarchMonth(d: Date): int { if d.month <= 2 then d.month + 9 else d.month - 3 }

  /** Days before the first of month m of a March year. */
  function MonthStart(m: int): int { (153 * m + 2) / 5 }

  /** Days from 1 March 2000 to 1 March of year 2000 + y. */
  function YearStart(y: int): int { 365 * y + y / 4 - y / 100 + y / 400 }

  /** Days since 1 January 2000. */
  function DayNumber(d: Date): int {
    YearStart(MarchYear(d) - 2000) + MonthStart(MarchMonth(d)) + d.day - 1 + 60
  }

  lemma ModIs(a: int, q: int, r: int, k: int)
    requires k == 4 || k == 100 || k == 400
    requires 0 <= r < k && a == k * q + r
    ensures a / k == q && a % k == r
  {
    if k == 4 {
      assert a == 4 * q + r;
    } else if k == 100 {
      assert a == 100 * q + r;
    } else {
      assert a == 400 * q + r;
    }
  }

  lemma YearLength(y: int)
    ensures YearStart(y + 1) == YearStart(y) + 365 + Leap(y + 2001)
  {
    var q, r := y / 400, y % 400;
    assert y == 400 * q + r;
    QuotientStep(y, 4);
    QuotientStep(y, 100);
    QuotientStep(y, 400);
    LeapShift(y + 1);
  }

  lemma QuotientStep(y: int, k: nat)
    requires k == 4 || k == 100 || k == 400
    ensures (y + 1) / k == y / k + if (y + 1) % k == 0 then 1 else 0
  {}

  lemma LeapShift(y: int)
    ensures Leap(y + 2000) == Leap(y)
    ensures Leap(y) == (if y % 4 == 0 then 1 else 0) - (if y % 100 == 0 then 1 else 0) + (if y % 400 == 0 then 1 else 0)
  {
    ModIs(y + 2000, y / 4 + 500, y % 4, 4);
    ModIs(y + 2000, y / 100 + 20, y % 100, 100);
    ModIs(y + 2000, y / 400 + 5, y % 400, 400);
    if y % 400 == 0 { ModIs(y, 4 * (y / 400), 0, 100); }
    if y % 100 == 0 { ModIs(y, 25 * (y / 100), 0, 4); }
  }

  lemma MonthStarts()
    ensures MonthStart(0) == 0 && MonthStart(1) == 31 && MonthStart(2) == 61 && MonthStart(3) == 92
    ensures MonthStart(4) == 122 && MonthStart(5) == 153 && MonthStart(6) == 184 && MonthStart(7) == 214
    ensures MonthStart(8) == 245 && MonthStart(9) == 275 && MonthStart(10) == 306 && MonthStart(11) == 337
  {}

  function DayOfYear(d: Date): int { MonthStart(MarchMonth(d)) + d.day - 1 }

  /** From one day to the next within a March year, and across its end. */
  lemma NextDayOfYear(d: Date)
    requires ValidDate(d)
    ensures ValidDate(NextDay(d))
    ensures if d.month == 2 && d.day == MonthLength(d.year, 2)
      then MarchYear(NextDay(d)) == MarchYear(d) + 1 && DayOfYear(NextDay(d)) == 0 && DayOfYear(d) == 364 + Leap(d.year)
      else MarchYear(NextDay(d)) == MarchYear(d) && DayOfYear(NextDay(d)) == DayOfYear(d) + 1
  {
    hide Leap, MonthStart;
    MonthStarts();
  }

  /** DayNumber is the calendar's day count: 0 on 1 January 2000, and one more every day. */
  lemma NextDayNumber(d: Date)
    requires ValidDate(d)
    ensures DayNumber(Date(2000, 1, 1)) == 0
    ensures ValidDate(NextDay(d)) && DayNumber(NextDay(d)) == DayNumber(d) + 1
  {
    Epoch();
    hide YearStart, Leap, MonthStart, NextDay;
    NextDayOfYear(d);
    YearLength(MarchYear(d) - 2000);
  }

  lemma Epoch()
    ensures DayNumber(Date(2000, 1, 1)) == 0
  {}

  // ---------- the day count is one to one ----------

  lemma DayOfYearRange(d: Date)
    requires ValidDate(d)
    ensures 0 <= DayOfYear(d) < 365 + Leap(MarchYear(d) + 1)
  {
    hide Leap, MonthStart;
    MonthStarts();
  }

  lemma {:induction false} YearsGrow(y: int, z: int)
    requires y < z
    ensures YearStart(y) + 365 + Leap(y + 2001) <= YearStart(z)
    decreases z - y
  {
    hide YearStart;
    YearLength(y);
    if y + 1 < z {
      YearsGrow(y + 1, z);
    }
  }

  lemma SameDayOfYear(d: Date, e: Date)
    requires ValidDate(d) && ValidDate(e) && MarchYear(d) == MarchYear(e) && DayOfYear(d) == DayOfYear(e)
    ensures d == e
  {
    hide Leap, MonthStart;
    MonthStarts();
  }

  /** Two dates with the same number are the same date. */
  lemma DayNumberInjective(d: Date, e: Date)
    requires ValidDate(d) && ValidDate(e) && DayNumber(d) == DayNumber(e)
    ensures d == e
  {
    hide YearStart, MonthStart, Leap;
    DayOfYearRange(d);
    DayOfYearRange(e);
    var y, z := MarchYear(d) - 2000, MarchYear(e) - 2000;
    if y < z { YearsGrow(y, z); }
    if z < y { YearsGrow(z, y); }
    SameDayOfYear(d, e);
  }

  // ---------- the code ----------

  /** IsLeapYear: correct for negative years too. */
  method IsLeapYear(year: int) returns (leap: int)
    ensures leap == Leap(year)
  {
    RemZero(year, 400);
    RemZero(year, 100);
    RemZero(year, 4);
    if Rem(year, 400) == 0 { return 1; }
    else if Rem(year, 100) == 0 { return 0; }
    else if Rem(year, 4) == 0 { return 1; }
    else { return 0; }
  }

  lemma RemZero(a: int, b: int)
    requires b == 400 || b == 100 || b == 4
    ensures Rem(a, b) == 0 <==> a % b == 0
  {
    var z := if a >= 0 then a else -a;
    QuotRem(z, b);
    hide Quot, Rem;
    if a < 0 {
      if z % b == 0 { ModIs(a, -(z / b), 0, b); } else { ModIs(a, -(z / b) - 1, b - z % b, b); }
    }
  }

  /** The formula of DateToDays counts years of either sign correctly: the leap day correction
      is what truncation loses below zero. */
  lemma TruncatedYears(y: int)
    ensures Quot(146097 * Quot(y, 100), 4) + Quot(1461 * Rem(y, 100), 4) + (if y < 0 then Leap(y) else 1)
         == YearStart(y) + 1
  {
    hide YearStart, Leap, Quot, Rem;
    var z := if y >= 0 then y else -y;
    QuotRem(z, 100);
    QuotRem(146097 * (z / 100), 4);
    QuotRem(1461 * (z % 100), 4);
    CenturySplit(z);
    if y < 0 { NegativeYears(z); }
  }

  lemma CenturySplit(z: int)
    requires z >= 0
    ensures 146097 * (z / 100) / 4 + 1461 * (z % 100) / 4 == YearStart(z)
  {
    var q, r := z / 100, z % 100;
    assert 146097 * q / 4 == 36524 * q + q / 4;
    assert 1461 * r / 4 == 365 * r + r / 4;
    assert z / 4 == 25 * q + r / 4;
    assert z / 400 == q / 4;
  }

  /** Floors of negatives are ceilings. */
  lemma NegativeYears(z: int)
    requires z > 0
    ensures YearStart(-z) == -YearStart(z) + Leap(-z) - 1
  {
    NegativeFloor(z, 4);
    NegativeFloor(z, 100);
    NegativeFloor(z, 400);
    LeapShift(-z);
  }

  lemma NegativeFloor(z: int, k: nat)
    requires z > 0 && (k == 4 || k == 100 || k == 400)
    ensures (-z) / k == -(z / k) - if (-z) % k == 0 then 0 else 1
  {}

  /** DateToDays */
  method DateToDays(year: int, month: int, day: int) returns (days: int)
    requires 1 <= month <= 12
    ensures days == DayNumber(Date(year, month, day))
  {
    hide YearStart, Quot, Rem, Leap;
    var y, m, d := year, month, day;
    d := d - 1;
    y := y - 2000;
    if m <= 2 {
      m := m + 9;
      y := y - 1;
    } else {
      m := m - 3;
    }
    var offset := 1;
    if y < 0 { offset := IsLeapYear(y); }
    TruncatedYears(y);
    assert Quot(153 * m + 2, 5) == MonthStart(m) by { QuotRem(153 * m + 2, 5); }
    days := Quot(146097 * Quot(y, 100), 4) + Quot(1461 * Rem(y, 100), 4) + Quot(153 * m + 2, 5) + d + 59 + offset;
  }

  /** Years of a 400-year cycle that are not past a leap day at its end. */
  lemma CycleStart(c4: int, c1: int, y4: int, y1: int)
    requires 0 <= c1 <= 3 && 0 <= y4 <= 24 && 0 <= y1 <= 3
    ensures YearStart(400 * c4 + 100 * c1 + 4 * y4 + y1) == 146097 * c4 + 36524 * c1 + 1461 * y4 + 365 * y1
  {
    var r := 100 * c1 + 4 * y4 + y1;
    assert (400 * c4 + r) / 400 == c4;
    assert (400 * c4 + r) / 100 == 4 * c4 + c1;
    assert (400 * c4 + r) / 4 == 100 * c4 + 25 * c1 + y4;
  }

  /** The month a day of a March year falls in. */
  lemma MonthOf(ydays: int)
    requires 0 <= ydays < 365
    ensures var m := (5 * ydays + 2) / 153;
      0 <= m <= 11 && MonthStart(m) <= ydays && (m < 11 ==> ydays < MonthStart(m + 1))
  {
    var m := (5 * ydays + 2) / 153;
    assert 153 * m <= 5 * ydays + 2 < 153 * m + 153;
  }

  function RegularDate(y: int, ydays: int): Date {
    var m := (5 * ydays + 2) / 153;
    Date(if m <= 9 then 2000 + y else 2001 + y, if m <= 9 then m + 3 else m - 9, ydays - MonthStart(m) + 1)
  }

  lemma RegularDateIs(y: int, ydays: int)
    requires 0 <= ydays < 365
    ensures var d := RegularDate(y, ydays); ValidDate(d) && DayNumber(d) == YearStart(y) + ydays + 60
  {
    hide MonthStart, YearStart, Leap;
    MonthOf(ydays);
    MonthStarts();
  }

  lemma LeapDayIs(y: int)
    requires Leap(y + 2001) == 1
    ensures var d := Date(y + 2001, 2, 29); ValidDate(d) && DayNumber(d) == YearStart(y) + 365 + 60
  {
    hide MonthStart, YearStart, Leap;
    MonthStarts();
  }

  /** The fourth year of a group, and of a cycle, ends with a leap day. */
  lemma LeapDays(c4: int, c1: int, y4: int)
    requires 0 <= c1 <= 3 && 0 <= y4 <= 24
    ensures y4 < 24 || c1 == 3 ==> Leap(400 * c4 + 100 * c1 + 4 * y4 + 3 + 2001) == 1
  {
    var r := 100 * c1 + 4 * y4 + 4;
    LeapShift(400 * c4 + r);
    LeapPeriod(c4, r);
    hide Leap;
    if y4 < 24 { LeapFourth(c1, y4 + 1); }
  }

  lemma LeapPeriod(c4: int, r: int)
    ensures Leap(400 * c4 + r) == Leap(r) && Leap(400) == 1
  {
    ModPeriod(c4, r, 4);
    ModPeriod(c4, r, 100);
    ModPeriod(c4, r, 400);
  }

  lemma ModPeriod(c4: int, r: int, k: int)
    requires k == 4 || k == 100 || k == 400
    ensures (400 * c4 + r) % k == r % k
  {
    ModIs(400 * c4 + r, (if k == 4 then 100 * c4 else if k == 100 then 4 * c4 else c4) + r / k, r % k, k);
  }

  lemma LeapFourth(c1: int, k: int)
    requires 0 <= c1 <= 3 && 1 <= k <= 24
    ensures Leap(100 * c1 + 4 * k) == 1
  {
    ModIs(100 * c1 + 4 * k, c1, 4 * k, 100);
    ModIs(100 * c1 + 4 * k, 25 * c1 + k, 0, 4);
  }

  lemma FloorDivision(n: int, b: int)
    requires b > 0
    ensures Rem(n, b) >= 0 ==> Quot(n, b) * b + Rem(n, b) == n && Rem(n, b) < b
    ensures Rem(n, b) < 0 ==> (Quot(n, b) - 1) * b + (Rem(n, b) + b) == n && 0 <= Rem(n, b) + b < b
  {
    QuotRem(if n >= 0 then n else -n, b);
    hide Quot;
  }

  /** The pieces of a 400-year cycle. */
  lemma CycleParts(ds: int)
    requires 0 <= ds < 146097
    ensures var c1, c1ds := ds / 36524, ds % 36524;
      var y4, y4ds := c1ds / 1461, c1ds % 1461;
      var y1, ydays := y4ds / 365, y4ds % 365;
      && ds == 36524 * c1 + 1461 * y4 + 365 * y1 + ydays
      && 0 <= c1 <= 4 && 0 <= y4 <= 24 && 0 <= y1 <= 4 && 0 <= ydays < 365
      && (c1 == 4 ==> y4 == y1 == ydays == 0) && (y1 == 4 ==> ydays == 0 && y4 < 24)
  {
    assert ds == 36524 * (ds / 36524) + ds % 36524;
  }

  /** DaysToDate: the date of any day, before 2000 too. */
  method DaysToDate(days: int) returns (date: Date)
    ensures ValidDate(date) && DayNumber(date) == days
  {
    hide YearStart, MonthStart, Leap, Quot, Rem;
    var n := days - 60;
    var c4, c4ds := Quot(n, 146097), Rem(n, 146097);
    FloorDivision(n, 146097);
    if c4ds < 0 {
      c4ds := c4ds + 146097;
      c4 := c4 - 1;
    }
    assert n == c4 * 146097 + c4ds && 0 <= c4ds < 146097;
    var c1, y4, y1, ydays;
    c1, y4, y1, ydays := SplitCycle(c4ds);
    CycleStart(c4, if c1 == 4 then 3 else c1, if c1 == 4 then 24 else y4, if c1 == 4 || y1 == 4 then 3 else y1);
    LeapDays(c4, if c1 == 4 then 3 else c1, if c1 == 4 then 24 else y4);
    date := DateOf(c4, c1, y4, y1, ydays);
    if c1 == 4 {
      LeapDayIs(400 * c4 + 399);
    } else if y1 == 4 {
      LeapDayIs(400 * c4 + 100 * c1 + 4 * y4 + 3);
    } else {
      RegularDateIs(400 * c4 + 100 * c1 + 4 * y4 + y1, ydays);
    }
  }

  method SplitCycle(c4ds: int) returns (c1: int, y4: int, y1: int, ydays: int)
    requires 0 <= c4ds < 146097
    ensures c4ds == 36524 * c1 + 1461 * y4 + 365 * y1 + ydays
    ensures 0 <= c1 <= 4 && 0 <= y4 <= 24 && 0 <= y1 <= 4 && 0 <= ydays < 365
    ensures (c1 == 4 ==> y4 == y1 == ydays == 0) && (y1 == 4 ==> ydays == 0 && y4 < 24)
  {
    hide Quot, Rem;
    CycleParts(c4ds);
    QuotRem(c4ds, 36524);
    c1 := Quot(c4ds, 36524);
    var c1ds := Rem(c4ds, 36524);
    QuotRem(c1ds, 1461);
    y4 := Quot(c1ds, 1461);
    var y4ds := Rem(c1ds, 1461);
    QuotRem(y4ds, 365);
    y1, ydays := Quot(y4ds, 365), Rem(y4ds, 365);
  }

  /** The second half of DaysToDate: March-based years and months back to the calendar's. */
  method DateOf(c4: int, c1: int, y4: int, y1: int, ydays: int) returns (date: Date)
    requires 0 <= ydays < 365
    ensures date == if y1 == 4 || c1 == 4 then Date(2000 + c4 * 400 + c1 * 100 + y4 * 4 + y1, 2, 29)
      else RegularDate(400 * c4 + 100 * c1 + 4 * y4 + y1, ydays)
  {
    hide Quot;
    var year := 2000 + c4 * 400 + c1 * 100 + y4 * 4 + y1;
    QuotRem(5 * ydays + 2, 153);
    var month := Quot(5 * ydays + 2, 153);
    QuotRem(153 * month + 2, 5);
    var day := ydays - Quot(153 * month + 2, 5) + 1;
    if y1 == 4 || c1 == 4 {
      month := 11;
      day := 29;
      year := year - 1;
    }
    if month <= 9 {
      month := month + 3;
    } else {
      month := month - 9;
      year := year + 1;
    }
    date := Date(year, month, day);
  }

  /** The two functions are inverse to each other. */
  method DateRoundTrip(d: Date) returns (e: Date)
    requires ValidDate(d)
    ensures e == d
  {
    var n := DateToDays(d.year, d.month, d.day);
    e := DaysToDate(n);
    DayNumberInjective(d, e);
  }

  method DaysRoundTrip(n: int) returns (m: int)
    ensures m == n
  {
    var d := DaysToDate(n);
    m := DateToDays(d.year, d.month, d.day);
  }

  // ---------- weekdays ----------

  /** DaysToWeekday: 0 is Sunday. */
  function Weekday(days: int): int { Rem(Rem(days + 6, 7) + 7, 7) }

  /** Weekdays step by one modulo 7, before 2000 too; 1 January 2000 was a Saturday. */
  lemma WeekdaySteps(days: int)
    ensures 0 <= Weekday(days) < 7 && Weekday(0) == 6
    ensures Weekday(days + 1) == if Weekday(days) == 6 then 0 else Weekday(days) + 1
  {
    WeekdayIs(days);
    WeekdayIs(days + 1);
    WeekdayIs(0);
    hide Weekday;
  }

  lemma WeekdayIs(days: int)
    ensures Weekday(days) == (days + 6) % 7
  {
    var a := days + 6;
    var z := if a >= 0 then a else -a;
    QuotRem(z, 7);
    QuotRem(Rem(a, 7) + 7, 7);
    hide Quot, Rem;
  }

  // ---------- milliseconds ----------

  /** AlignedDays: the division is done from 1 January of year 1, where the count is positive. */
  function AlignedDays(ms: int): int { Quot(ms + 730119 * 86400000, 86400000) - 730119 }

  function MilliSecondsOnDay(ms: int): int { Rem(ms + 730119 * 86400000, 86400000) }

  /** FromParamaters keeps a day count and a time of day. */
  method FromParameters(date: Date, hour: int, minute: int, second: int, milli: int) returns (ms: int)
    requires 1 <= date.month <= 12
    ensures ms == 86400000 * DayNumber(date) + MilliSeconds(hour, minute, second, milli)
  {
    hide DayNumber;
    var days := DateToDays(date.year, date.month, date.day);
    ms := milli + 1000 * second + 1000 * 60 * minute + 1000 * 60 * 60 * hour + 1000 * 60 * 60 * 24 * days;
  }

  function MilliSeconds(hour: int, minute: int, second: int, milli: int): int {
    milli + 1000 * (second + 60 * (minute + 60 * hour))
  }

  predicate ValidTime(hour: int, minute: int, second: int, milli: int) {
    0 <= hour < 24 && 0 <= minute < 60 && 0 <= second < 60 && 0 <= milli < 1000
  }

  /** The day is recovered exactly from 1 January of year 1 on, and at midnight: before that, C
      division rounds the time of day up to the next day. */
  lemma DayRecovered(days: int, time: int)
    requires 0 <= time < 86400000
    ensures AlignedDays(86400000 * days + time) == days <==> (days >= -730119 || time == 0)
    ensures days >= -730119 ==> MilliSecondsOnDay(86400000 * days + time) == time
  {
    var a := 86400000 * (days + 730119) + time;
    assert 86400000 * days + time + 730119 * 86400000 == a;
    QuotRem(if a >= 0 then a else -a, 86400000);
    hide Quot, Rem;
    if a >= 0 {
      DivisionIs(a, days + 730119, time);
    } else if time > 0 {
      DivisionIs(-a, -(days + 730119) - 1, 86400000 - time);
    } else {
      DivisionIs(-a, -(days + 730119), 0);
    }
  }

  /** Two milliseconds past midnight on the last day before year 1 counts as the next day. */
  lemma DayMisread()
    ensures AlignedDays(86400000 * -730120 + 2) == -730119
  {
    hide AlignedDays;
    DayAbove(-730120, 2);
  }

  lemma DayAbove(days: int, time: int)
    requires days < -730119 && 0 < time < 86400000
    ensures AlignedDays(86400000 * days + time) == days + 1
  {
    var a := 86400000 * (days + 730119) + time;
    assert 86400000 * days + time + 730119 * 86400000 == a;
    QuotRem(-a, 86400000);
    DivisionIs(-a, -(days + 730119) - 1, 86400000 - time);
    hide Quot, Rem;
  }

  /** What the checked constructor accepts starts in 1900.  Earlier times come only from the operators
      and from the constructor of fields, which check nothing. */
  const MIN_MILLISECONDS := -3155673600000

  lemma CheckedDayRecovered(days: int, time: int)
    requires 0 <= time < 86400000 && 86400000 * days + time >= MIN_MILLISECONDS
    ensures AlignedDays(86400000 * days + time) == days && MilliSecondsOnDay(86400000 * days + time) == time
    ensures MIN_MILLISECONDS == 86400000 * DayNumber(Date(1900, 1, 1))
  {
    hide AlignedDays, MilliSecondsOnDay;
    DayRecovered(days, time);
  }

  lemma DivisionIs(a: int, q: int, r: int)
    requires 0 <= r < 86400000 && a == 86400000 * q + r
    ensures a / 86400000 == q && a % 86400000 == r
  {}

  function GetHour(ms: int): int { Rem(Quot(Quot(Quot(MilliSecondsOnDay(ms), 1000), 60), 60), 24) }

  function GetMinute(ms: int): int { Rem(Quot(Quot(MilliSecondsOnDay(ms), 1000), 60), 60) }

  function GetSecond(ms: int): int { Rem(Rem(MilliSecondsOnDay(ms), 1000), 60) }

  function GetMilliSecond(ms: int): int { Rem(MilliSecondsOnDay(ms), 1000) }

  /** The getters undo FromParamaters, except GetSecond: it gives the milliseconds modulo 60, so it
      is right only where that happens to be the second. */
  lemma FieldsRecovered(days: int, hour: int, minute: int, second: int, milli: int)
    requires days >= -730119 && ValidTime(hour, minute, second, milli)
    ensures var ms := 86400000 * days + MilliSeconds(hour, minute, second, milli);
      && AlignedDays(ms) == days && GetHour(ms) == hour && GetMinute(ms) == minute && GetMilliSecond(ms) == milli
      && GetSecond(ms) == milli % 60
  {
    hide AlignedDays, MilliSecondsOnDay, MilliSeconds, Quot, Rem;
    TimeParts(hour, minute, second, milli);
    DayRecovered(days, MilliSeconds(hour, minute, second, milli));
  }

  /** The divisions of the getters, one after another. */
  lemma TimeParts(hour: int, minute: int, second: int, milli: int)
    requires ValidTime(hour, minute, second, milli)
    ensures var time := MilliSeconds(hour, minute, second, milli);
      var seconds := Quot(time, 1000);
      var minutes := Quot(seconds, 60);
      && 0 <= time < 86400000 && Rem(time, 1000) == milli && Rem(milli, 60) == milli % 60
      && Rem(minutes, 60) == minute && Rem(Quot(minutes, 60), 24) == hour
  {
    hide Quot, Rem;
    var minutes := minute + 60 * hour;
    var seconds := second + 60 * minutes;
    SplitAt1000(seconds, milli);
    SplitAt60(minutes, second);
    SplitAt60(hour, minute);
    SplitAt24(0, hour);
    QuotRem(milli, 60);
  }

  lemma SplitAt1000(q: nat, r: nat)
    requires r < 1000
    ensures Quot(r + 1000 * q, 1000) == q && Rem(r + 1000 * q, 1000) == r
  {}

  lemma SplitAt60(q: nat, r: nat)
    requires r < 60
    ensures Quot(r + 60 * q, 60) == q && Rem(r + 60 * q, 60) == r
  {}

  lemma SplitAt24(q: nat, r: nat)
    requires r < 24
    ensures Quot(r + 24 * q, 24) == q && Rem(r + 24 * q, 24) == r
  {}

  /** One second past midnight reads as second 0. */
  lemma SecondLost()
    ensures GetSecond(86400000 * 0 + MilliSeconds(0, 0, 1, 0)) == 0 != 1
  {
    hide GetSecond, GetMinute, GetHour, GetMilliSecond, AlignedDays;
    FieldsRecovered(0, 0, 0, 1, 0);
  }
}
