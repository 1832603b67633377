/** Civil dates from seconds since the epoch, `ngx_gmtime`. */
module Calendar {

  // ----- the proleptic Gregorian calendar, day by day

  predicate Leap(y: nat) {
    y % 4 == 0 && (y % 100 != 0 || y % 400 == 0)
  }

  function YearDays(y: nat): nat {
    if Leap(y) then 366 else 365
  }

  function MonthDays(y: nat, m: nat): nat
    requires 1 <= m <= 12
  {
    if m == 2 then if Leap(y) then 29 else 28
    else if m == 4 || m == 6 || m == 9 || m == 11 then 30
    else 31
  }

  /** Days from January 1, 1970 to January 1 of year `y`. */
  function YearStart(y: nat): nat
    requires y >= 1970
  {
    if y == 1970 then 0 else YearStart(y - 1) + YearDays(y - 1)
  }

  /** Days of year `y` before month `m`. */
  function MonthStart(y: nat, m: nat): nat
    requires 1 <= m <= 12
  {
    if m == 1 then 0 else MonthStart(y, m - 1) + MonthDays(y, m - 1)
  }

  datatype Date = Date(year: nat, month: nat, day: nat)

  predicate IsDate(d: Date) {
    d.year >= 1970 && 1 <= d.month <= 12 && 1 <= d.day <= MonthDays(d.year, d.month)
  }

  /** Days from January 1, 1970 to the date. */
  function DayNumber(d: Date): nat
    requires IsDate(d)
  {
    YearStart(d.year) + MonthStart(d.year, d.month) + d.day - 1
  }

  /** Sunday is 0; January 1, 1970 was a Thursday. */
  function Weekday(day: nat): nat {
    if day == 0 then 4 else (Weekday(day - 1) + 1) % 7
  }

  // ----- a day has one date

  /** Days from March 1 to the first day of the `k`-th month, March being the first. */
  function MarchMonth(k: nat): nat {
    if k <= 1 then 0 else if k == 2 then 31 else if k == 3 then 61 else if k == 4 then 92
    else if k == 5 then 122 else if k == 6 then 153 else if k == 7 then 184 else if k == 8 then 214
    else if k == 9 then 245 else if k == 10 then 275 else if k == 11 then 306 else 337
  }

  lemma MonthTable(y: nat, m: nat)
    requires 1 <= m <= 12
    ensures MonthStart(y, m) ==
      (if m <= 2 then 31 * (m - 1) else MarchMonth(m - 2) + 59 + YearDays(y) - 365)
  {
    if m > 1 { MonthTable(y, m - 1); }
  }

  /** A date lies in its year. */
  lemma InYear(d: Date)
    requires IsDate(d)
    ensures YearStart(d.year) <= DayNumber(d) < YearStart(d.year + 1)
  {
    MonthTable(d.year, d.month);
  }

  lemma {:induction false} YearsGrow(y: nat, z: nat)
    requires 1970 <= y <= z
    ensures YearStart(y) <= YearStart(z)
  {
    if y < z { YearsGrow(y, z - 1); }
  }

  /** Different dates have different day numbers. */
  lemma OneDate(d: Date, e: Date)
    requires IsDate(d) && IsDate(e) && DayNumber(d) == DayNumber(e)
    ensures d == e
  {
    InYear(d);
    InYear(e);
    if d.year < e.year { YearsGrow(d.year + 1, e.year); }
    if e.year < d.year { YearsGrow(e.year + 1, d.year); }
    MonthTable(d.year, d.month);
    MonthTable(e.year, e.month);
  }

  // ----- years that begin in March

  /** Days from March 1 of year 0 to March 1 of year `y`. */
  function MarchStart(y: nat): int {
    365 * y + y / 4 - y / 100 + y / 400
  }

  lemma {:induction false} YearStartClosed(y: nat)
    requires y >= 1970
    ensures YearStart(y) + 719162 == MarchStart(y - 1)
  {
    if y > 1970 {
      YearStartClosed(y - 1);
      MarchStep(y - 2);
    }
  }

  lemma MarchStep(y: nat)
    ensures MarchStart(y + 1) == MarchStart(y) + YearDays(y + 1)
  {
    Quotient(y, 4);
    Quotient(y, 100);
    Quotient(y, 400);
  }

  lemma Quotient(y: nat, k: nat)
    requires k == 4 || k == 100 || k == 400
    ensures (y + 1) / k == y / k + if (y + 1) % k == 0 then 1 else 0
  {
  }

  /** How far the mean year of 146097 / 400 days is off. */
  lemma MeanYear(y: nat)
    ensures 400 * MarchStart(y) == 146097 * y + 4 * (y % 100) - 100 * (y % 4) - y % 400
  {
    assert y == 4 * (y / 4) + y % 4;
    assert y == 100 * (y / 100) + y % 100;
    assert y == 400 * (y / 400) + y % 400;
  }

  /** The guess of the year is right or one too large. */
  lemma YearGuess(days: nat, year: nat)
    requires year == (days + 2) * 400 / 146097 && year > 0
    ensures MarchStart(year - 1) <= days < MarchStart(year + 1)
  {
    MeanYear(year - 1);
    MeanYear(year + 1);
    assert 146097 * year <= 400 * (days + 2) < 146097 * (year + 1);
    CenturyError(year + 1);
    CenturyError(year - 1);
  }

  lemma CenturyError(y: nat)
    ensures -800 <= 4 * (y % 100) - 100 * (y % 4) - y % 400 <= 396
  {
  }

  // ----- the conversion

  datatype Tm = Tm(sec: nat, min: nat, hour: nat, mday: int, mon: int, year: int, wday: nat)

  /** The conversion of a 64-bit word to `int`. */
  function Int32(w: int): int {
    (w + 0x8000_0000) % 0x1_0000_0000 - 0x8000_0000
  }

  /** The fields tell date and time of day `t` seconds after the epoch. */
  predicate Tells(tp: Tm, t: nat) {
    && tp.year >= 0 && tp.mon >= 0 && tp.mday >= 0
    && IsDate(Date(tp.year, tp.mon, tp.mday)) && DayNumber(Date(tp.year, tp.mon, tp.mday)) == t / 86400
    && tp.wday == Weekday(t / 86400)
    && tp.hour < 24 && tp.min < 60 && tp.sec < 60
    && t % 86400 == 3600 * tp.hour + 60 * tp.min + tp.sec
  }

  /** The first second of the year 2 to the 31. */
  const YEAR_LIMIT := 67767976233532800

  /** The year that begins in March, and the day in it, of the day counted from March 1 of year 0. */
  method MarchYear(days: nat) returns (year: nat, yday: int)
    requires days >= 719468
    ensures year >= 1969 && days == MarchStart(year) + yday && 0 <= yday < YearDays(year + 1)
  {
    year := (days + 2) * 400 / (365 * 400 + 100 - 4 + 1);
    yday := days - (365 * year + year / 4 - year / 100 + year / 400);
    YearGuess(days, year);
    if yday < 0 {
      var leap := if year % 4 == 0 && (year % 100 != 0 || year % 400 == 0) then 1 else 0;
      MarchStep(year - 1);
      yday := 365 + leap + yday;
      year := year - 1;
    }
    MarchStep(year);
    LateYear(year, days);
  }

  lemma LateYear(year: nat, days: nat)
    requires 719468 <= days < MarchStart(year + 1)
    ensures year >= 1969
  {
    MeanYear(year + 1);
    CenturyError(year + 1);
  }

  /** `ngx_gmtime` tells the time up to the last year that fits the field, and not beyond; no
      intermediate value leaves the 64-bit word. */
  method GmTime(t: nat) returns (tp: Tm)
    requires t < 0x8000_0000_0000_0000
    ensures Tells(tp, t) <==> t < YEAR_LIMIT
  {
    var n := t;
    var days := n / 86400;
    assert (days + 719470) * 400 < 0x1_0000_0000_0000_0000;
    var wday := (4 + days) % 7;
    n := n % 86400;
    var hour := n / 3600;
    n := n % 3600;
    var min := n / 60;
    var sec := n % 60;

    var since: int := days;
    since := since - (31 + 28) + 719527;
    var year, yday := MarchYear(since);
    ghost var march := year;

    var mon := (yday + 31) * 10 / 306;
    var mday := yday - (367 * mon / 12 - 30) + 1;
    MarchDay(yday, mon, mday);
    if yday >= 306 {
      year := year + 1;
      mon := mon - 10;
    } else {
      mon := mon + 2;
    }
    ghost var d := Date(year, mon, mday);
    tp := Tm(sec, min, hour, mday, mon, Int32(year), wday);
    MarchDate(days, march, yday, d);
    WeekdayClosed(days);
    DayTime(t, hour, min, sec);
    Judge(t, tp, d);
  }

  lemma MarchDay(yday: nat, mon: nat, mday: int)
    requires yday < 366 && mon == (yday + 31) * 10 / 306 && mday == yday - (367 * mon / 12 - 30) + 1
    ensures 1 <= mon <= 12 && mday >= 1 && yday == MarchMonth(mon) + mday - 1
    ensures mon < 12 ==> yday < MarchMonth(mon + 1)
    ensures yday >= 306 <==> mon >= 11
  {
  }

  /** From a day of a year that begins in March to the date. */
  lemma MarchDate(day: nat, march: nat, yday: nat, d: Date)
    requires march >= 1969 && yday < YearDays(march + 1) && day + 719468 == MarchStart(march) + yday
    requires d.year == (if yday >= 306 then march + 1 else march)
    requires 1 <= d.month <= 12 && d.day >= 1
    requires var k := if d.month <= 2 then d.month + 10 else d.month - 2;
      yday == MarchMonth(k) + d.day - 1 && (k < 12 ==> yday < MarchMonth(k + 1)) && (yday >= 306 <==> k >= 11)
    requires d.year >= 1970
    ensures IsDate(d) && DayNumber(d) == day
  {
    YearStartClosed(d.year);
    MarchStep(march - 1);
    MonthTable(d.year, d.month);
  }

  lemma {:induction false} WeekdayClosed(day: nat)
    ensures Weekday(day) == (4 + day) % 7
  {
    if day > 0 { WeekdayClosed(day - 1); }
  }

  lemma DayTime(t: nat, hour: nat, min: nat, sec: nat)
    requires hour == t % 86400 / 3600 && min == t % 86400 % 3600 / 60 && sec == t % 86400 % 3600 % 60
    ensures hour < 24 && min < 60 && sec < 60 && t % 86400 == 3600 * hour + 60 * min + sec
  {
  }

  lemma LastYear(t: nat, d: Date)
    requires IsDate(d) && DayNumber(d) == t / 86400
    ensures d.year < 0x8000_0000 <==> t < YEAR_LIMIT
  {
    InYear(d);
    YearStartClosed(0x8000_0000);
    assert YearStart(0x8000_0000) == 784351576777;
    if d.year < 0x8000_0000 { YearsGrow(d.year + 1, 0x8000_0000); } else { YearsGrow(0x8000_0000, d.year); }
  }

  /** The field of the year holds the year iff the time is below the limit. */
  lemma Judge(t: nat, tp: Tm, d: Date)
    requires IsDate(d) && DayNumber(d) == t / 86400
    requires tp.year == Int32(d.year) && tp.mon == d.month && tp.mday == d.day
    requires tp.wday == Weekday(t / 86400) && tp.hour < 24 && tp.min < 60 && tp.sec < 60
    requires t % 86400 == 3600 * tp.hour + 60 * tp.min + tp.sec
    ensures Tells(tp, t) <==> t < YEAR_LIMIT
  {
    LastYear(t, d);
    assert d.year < 0x8000_0000 ==> Int32(d.year) == d.year;
    assert Int32(d.year) < 0x8000_0000;
    if Tells(tp, t) { OneDate(d, Date(tp.year, tp.mon, tp.mday)); }
  }
}
