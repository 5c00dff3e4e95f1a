/**
 Calendar conversion: gmtime_r and mktime against the day count of the proleptic Gregorian
 calendar in closed form.
 */
module TimeUtil {
  import opened Words

  const INT_MAX := 0x7FFF_FFFF
  const DAY := 86400

  /** Integer division and remainder as C has them: towards zero. */
  function CDiv(a: int, b: int): int
    requires b > 0
  {
    if a >= 0 then a / b else -(-a / b)
  }

  function CMod(a: int, b: int): int
    requires b > 0
  {
    a - b * CDiv(a, b)
  }

  // ---------- The Gregorian calendar ----------

  predicate Leap(y: int) { y % 4 == 0 && (y % 100 != 0 || y % 400 == 0) }

  function YearLength(y: int): int { if Leap(y) then 366 else 365 }

  /** Days from 1 January 1970 to 1 January of year y, by counting leap years. */
  function DaysBeforeYear(y: int): int {
    365 * (y - 1970) + (y - 1969) / 4 - (y - 1901) / 100 + (y - 1601) / 400
  }

  const BEFORE_MONTH: seq<int> := [0, 31, 59, 90, 120, 151, 181, 212, 243, 273, 304, 334, 365]

  /** Days before month m (from 0) of year y. */
  function DaysBeforeMonth(y: int, m: int): int
    requires 0 <= m <= 12
  {
    BEFORE_MONTH[m] + if m > 1 && Leap(y) then 1 else 0
  }

  predicate IsDate(y: int, m: int, d: int) {
    0 <= m < 12 && 1 <= d <= DaysBeforeMonth(y, m + 1) - DaysBeforeMonth(y, m)
  }

  function DayNumber(y: int, m: int, d: int): int
    requires 0 <= m <= 12
  {
    DaysBeforeYear(y) + DaysBeforeMonth(y, m) + d - 1
  }

  /** The same for any month, carried into the year. */
  function CarriedDay(y: int, m: int, d: int): int { DayNumber(y + m / 12, m % 12, d) }

  lemma CarriedInYear(y: int, m: int, d: int)
    requires 0 <= m <= 12
    ensures CarriedDay(y, m, d) == DayNumber(y, m, d)
  {
    if m == 12 {
      YearStep(y);
      MonthEnds(y);
      MonthEnds(y + 1);
    }
  }

  /** A negative month is a day of an earlier year. */
  lemma CarriedBelow(y: int, m: int, d: int)
    requires m < 0
    ensures CarriedDay(y, m, d) < DaysBeforeYear(y) + d - 1
  {
    hide DaysBeforeYear;
    var z, n := y + m / 12, m % 12;
    MonthStep(z, n);
    MonthsMono(z, n, 12);
    YearsMono(z, y);
  }

  /** The closed form steps by the length of the year. */
  lemma YearStep(y: int)
    ensures DaysBeforeYear(y + 1) == DaysBeforeYear(y) + YearLength(y)
  {
    StepDiv(y - 1969, 4);
    StepDiv(y - 1901, 100);
    StepDiv(y - 1601, 400);
    ModShift(y - 1968, 4, 492);
    ModShift(y - 1900, 100, 19);
    ModShift(y - 1600, 400, 4);
    FourDivides(y);
  }

  /** Every century is a multiple of four. */
  lemma FourDivides(y: int)
    ensures y % 100 == 0 ==> y % 4 == 0
    ensures y % 400 == 0 ==> y % 100 == 0
  {
  }

  lemma StepDiv(a: int, b: int)
    requires b > 1
    ensures (a + 1) / b == a / b + if (a + 1) % b == 0 then 1 else 0
  {
    var q, r := a / b, a % b;
    assert a == q * b + r;
    if r + 1 == b {
      DivModUnique(a + 1, b, q + 1, 0);
    } else {
      DivModUnique(a + 1, b, q, r + 1);
    }
  }

  lemma ModShift(a: int, b: int, k: int)
    requires b > 0
    ensures (a + b * k) % b == a % b
  {
    DivModUnique(a + b * k, b, a / b + k, a % b);
  }

  lemma {:induction false} YearsMono(y: int, z: int)
    requires y < z
    ensures DaysBeforeYear(y) + YearLength(y) <= DaysBeforeYear(z)
    decreases z - y
  {
    hide DaysBeforeYear, Leap;
    if y + 1 == z {
      YearStep(y);
    } else {
      YearsMono(y, z - 1);
      YearStep(z - 1);
    }
  }

  lemma MonthsMono(y: int, m: int, n: int)
    requires 0 <= m < n <= 12
    ensures DaysBeforeMonth(y, m + 1) <= DaysBeforeMonth(y, n) <= YearLength(y)
  {
  }

  /** Different dates are different days: the fields gmtime_r finds are the only ones. */
  lemma DateIsUnique(y: int, m: int, d: int, y': int, m': int, d': int)
    requires IsDate(y, m, d) && IsDate(y', m', d') && DayNumber(y, m, d) == DayNumber(y', m', d')
    ensures y == y' && m == m' && d == d'
  {
    hide DaysBeforeYear;
    MonthsMono(y, m, 12);
    MonthsMono(y', m', 12);
    DayInYear(y, m, d);
    DayInYear(y', m', d');
    if y < y' {
      YearsMono(y, y');
    } else if y' < y {
      YearsMono(y', y);
    }
    if m < m' {
      if m + 1 < m' { MonthsMono(y, m, m'); }
    } else if m' < m {
      if m' + 1 < m { MonthsMono(y, m', m); }
    }
  }

  lemma DayInYear(y: int, m: int, d: int)
    requires IsDate(y, m, d)
    ensures 0 <= DaysBeforeMonth(y, m) + d - 1 < YearLength(y)
  {
    MonthsMono(y, m, 12);
  }

  // ---------- The helpers ----------

  /** is_leap: the remainders of C agree on being zero. */
  method IsLeap(year: int) returns (r: bool)
    ensures r <==> Leap(year)
  {
    CModZero(year, 4);
    CModZero(year, 100);
    CModZero(year, 400);
    r := CMod(year, 4) == 0 && (CMod(year, 100) != 0 || CMod(year, 400) == 0);
  }

  lemma CModZero(a: int, b: int)
    requires b > 0
    ensures CMod(a, b) == 0 <==> a % b == 0
  {
    if a < 0 {
      NegDivMod(a, b);
    }
  }

  /** Rounding towards zero, set right, is rounding down. */
  lemma NegDivMod(a: int, b: int)
    requires a < 0 && b > 0
    ensures CMod(a, b) == 0 ==> CDiv(a, b) == a / b && a % b == 0
    ensures CMod(a, b) != 0 ==> CDiv(a, b) - 1 == a / b && CMod(a, b) + b == a % b && a % b != 0
    ensures -b < CMod(a, b) <= 0
  {
    var q, r := -a / b, -a % b;
    assert -a == b * q + r;
    assert CDiv(a, b) == -q && CMod(a, b) == a + b * q == -r by {
      assert b * -q == -(b * q);
    }
    if r == 0 {
      assert b * -q == -(b * q);
      DivModUnique(a, b, -q, 0);
    } else {
      assert b * (-q - 1) == -(b * q) - b;
      DivModUnique(a, b, -q - 1, b - r);
    }
  }

  /** The day, cut to an int, and the second within it, as gmtime_r computes them. */
  method SplitDay(t: int) returns (days: int, rem: int)
    ensures days == Signed32(t / DAY) && rem == t % DAY
  {
    days := Signed32(CDiv(t, DAY));
    rem := CMod(t, DAY);
    if t < 0 { NegDivMod(t, DAY); }
    if rem < 0 {
      rem := rem + DAY;
      SignedPred(CDiv(t, DAY));
      days := Signed32(days - 1);
    }
  }

  lemma SignedPred(x: int)
    ensures Signed32(Signed32(x) - 1) == Signed32(x - 1)
  {
    var y := x + 0x8000_0000;
    ModShift(y - 1, 0x1_0000_0000, -(y / 0x1_0000_0000));
    assert y - 1 + 0x1_0000_0000 * -(y / 0x1_0000_0000) == y % 0x1_0000_0000 - 1;
  }

  /** The weekday of a day: 0 is Sunday, and 1 January 1970 was a Thursday. */
  function Weekday(day: int): int { (day + 4) % 7 }

  method ComputeWeekday(days: int) returns (w: int)
    requires -INT_MAX - 1 <= days <= INT_MAX
    ensures 0 <= w < 7
    ensures w == Weekday(days) <==> days <= INT_MAX - 4
  {
    var d := Signed32(days + 4);
    w := CMod(d, 7);
    if d < 0 { NegDivMod(d, 7); }
    if w < 0 { w := w + 7; }
    WrappedWeekday(days);
    assert w == d % 7;
  }

  /** The sum wraps for the last four days of the range, and 2^32 is not a multiple of seven. */
  lemma WrappedWeekday(days: int)
    requires -INT_MAX - 1 <= days <= INT_MAX
    ensures Signed32(days + 4) % 7 == (days + 4) % 7 <==> days <= INT_MAX - 4
  {
    var d := days + 4;
    if days <= INT_MAX - 4 {
      DivModUnique(d + 0x8000_0000, 0x1_0000_0000, 0, d + 0x8000_0000);
    } else {
      DivModUnique(d + 0x8000_0000, 0x1_0000_0000, 1, d - 0x8000_0000);
      assert Signed32(d) == d - 0x1_0000_0000;
      assert 0x1_0000_0000 == 7 * 613566756 + 4;
      assert d == 0x8000_0000 || d == 0x8000_0001 || d == 0x8000_0002 || d == 0x8000_0003;
    }
  }

  // ---------- gmtime_r and mktime ----------

  /** The year that holds a day, and the day within that year. */
  method FindYear(day: int) returns (year: int, days: int)
    ensures DaysBeforeYear(year) + days == day && 0 <= days < YearLength(year)
  {
    hide DaysBeforeYear, Leap;
    year, days := 1970, day;
    Epoch();
    var leap := IsLeap(year);
    while days >= (if leap then 366 else 365)
      invariant DaysBeforeYear(year) + days == day && (leap <==> Leap(year))
      invariant days >= 0 || days == day
      decreases days
    {
      YearStep(year);
      days := days - if leap then 366 else 365;
      year := year + 1;
      leap := IsLeap(year);
    }
    while days < 0
      invariant DaysBeforeYear(year) + days == day && days < YearLength(year)
      decreases -days
    {
      year := year - 1;
      YearStep(year);
      leap := IsLeap(year);
      days := days + if leap then 366 else 365;
    }
  }

  lemma Epoch()
    ensures DaysBeforeYear(1970) == 0
  {
  }

  /** days_in_month, with the leap day. */
  function MonthLength(y: int, m: int): int
    requires 0 <= m < 12
  {
    [31, 28, 31, 30, 31, 30, 31, 31, 30, 31, 30, 31][m] + if m == 1 && Leap(y) then 1 else 0
  }

  lemma MonthStep(y: int, m: int)
    requires 0 <= m < 12
    ensures DaysBeforeMonth(y, m + 1) == DaysBeforeMonth(y, m) + MonthLength(y, m)
  {
    hide Leap;
  }

  lemma MonthEnds(y: int)
    ensures DaysBeforeMonth(y, 0) == 0 && DaysBeforeMonth(y, 12) == YearLength(y)
  {
    hide Leap;
  }

  method FindMonth(year: int, yday: int) returns (mon: int, mday: int)
    requires 0 <= yday < YearLength(year)
    ensures IsDate(year, mon, mday) && DaysBeforeMonth(year, mon) + mday - 1 == yday
  {
    hide DaysBeforeMonth, Leap, MonthLength;
    MonthEnds(year);
    var days := yday;
    mon := 0;
    while mon < 12
      invariant 0 <= mon <= 12 && 0 <= days && DaysBeforeMonth(year, mon) + days == yday
    {
      MonthStep(year, mon);
      var dim := MonthLength(year, mon);
      if days < dim { break; }
      days := days - dim;
      mon := mon + 1;
    }
    mday := days + 1;
  }

  class Tm {
    var sec: int
    var min: int
    var hour: int
    var mday: int
    var mon: int
    var year: int
    var wday: int
    var yday: int
    var isdst: int

    constructor () { }

    /** The fields are in range and name the instant t. */
    ghost predicate Denotes(t: int)
      reads this
    {
      && IsDate(year + 1900, mon, mday) && 0 <= hour < 24 && 0 <= min < 60 && 0 <= sec < 60
      && t == DAY * DayNumber(year + 1900, mon, mday) + 3600 * hour + 60 * min + sec
      && yday == DaysBeforeMonth(year + 1900, mon) + mday - 1 && isdst == 0
    }

    /**
     gmtime_r, before 1970 too.  The day count is cut to an int: the fields name t exactly when
     it fits, and the weekday is that of the day exactly up to the fourth day from the last.
     */
    method GmtimeR(t: int)
      modifies this
      ensures Denotes(DAY * Signed32(t / DAY) + t % DAY) && 0 <= wday < 7
      ensures Denotes(t) <==> -INT_MAX - 1 <= t / DAY <= INT_MAX
      ensures wday == Weekday(Signed32(t / DAY)) <==> Signed32(t / DAY) <= INT_MAX - 4
    {
      hide DaysBeforeYear, DaysBeforeMonth, Leap, Weekday, Signed32;
      var days, rem := SplitDay(t);
      hour := rem / 3600;
      min := rem % 3600 / 60;
      sec := rem % 3600 % 60;
      Clock(rem);
      wday := ComputeWeekday(days);
      var y, d := FindYear(days);
      year := y - 1900;
      yday := d;
      isdst := 0;
      mon, mday := FindMonth(y, d);
      assert t == DAY * (t / DAY) + t % DAY;
    }

    /**
     mktime: the instant the fields name, with months outside 0 to 11 carried into the year.
     Earlier years and negative months are not counted at all, so exactly the years before
     1970 and the negative months are wrong.
     */
    method Mktime() returns (t: int)
      requires mon <= 12 && -INT_MAX <= 3600 * hour <= INT_MAX && -INT_MAX <= 60 * min <= INT_MAX
      requires year + 1900 <= INT_MAX
      ensures t == DAY * CarriedDay(year + 1900, mon, mday) + 3600 * hour + 60 * min + sec <==>
        year + 1900 >= 1970 && mon >= 0
      ensures year + 1900 < 1970 && mon >= 0 ==>
        t == DAY * (DaysBeforeMonth(year + 1900, mon) + mday - 1) + 3600 * hour + 60 * min + sec
    {
      hide DaysBeforeYear, DaysBeforeMonth, Leap, MonthLength;
      var y := year + 1900;
      var days := 0;
      Epoch();
      var i := 1970;
      while i < y
        invariant i <= y || i == 1970
        invariant days == DaysBeforeYear(i)
      {
        YearStep(i);
        var leap := IsLeap(i);
        days := days + if leap then 366 else 365;
        i := i + 1;
      }
      MonthEnds(y);
      ghost var years := days;
      var m := 0;
      while m < mon
        invariant 0 <= m && (m <= mon || m == 0) && days == years + DaysBeforeMonth(y, m)
      {
        MonthStep(y, m);
        days := days + MonthLength(y, m);
        m := m + 1;
      }
      days := days + mday - 1;
      t := days * DAY + hour * 3600 + min * 60 + sec;
      if mon >= 0 { CarriedInYear(y, mon, mday); } else { CarriedBelow(y, mon, mday); }
      if y < 1970 { YearsMono(y, 1970); }
    }
  }

  lemma Clock(rem: int)
    requires 0 <= rem < DAY
    ensures 0 <= rem / 3600 < 24 && 0 <= rem % 3600 / 60 < 60 && 0 <= rem % 3600 % 60 < 60
    ensures rem == 3600 * (rem / 3600) + 60 * (rem % 3600 / 60) + rem % 3600 % 60
  {
  }

  /** mktime undoes gmtime_r exactly from 1970 on, for as long as the day count fits an int. */
  method ThereAndBack(t: int) returns (r: int)
    ensures r == t <==> 0 <= t && t / DAY <= INT_MAX
  {
    hide DaysBeforeYear, DaysBeforeMonth, Leap, Signed32;
    var tm := new Tm();
    tm.GmtimeR(t);
    ghost var day := Signed32(t / DAY);
    YearOf(day, t % DAY, tm.year + 1900, tm.mon, tm.mday, 3600 * tm.hour + 60 * tm.min + tm.sec);
    r := tm.Mktime();
    if day < 0 { FirstYear(t, r); }
  }

  /** The epoch separates the years. */
  lemma YearOf(day: int, sec: int, y: int, m: int, d: int, rem: int)
    requires IsDate(y, m, d) && 0 <= rem < DAY && 0 <= sec < DAY && day <= INT_MAX
    requires DAY * day + sec == DAY * DayNumber(y, m, d) + rem
    ensures day == DayNumber(y, m, d) && sec == rem
    ensures day >= 0 <==> y >= 1970
    ensures y <= INT_MAX
    ensures 0 <= DaysBeforeMonth(y, m) + d - 1 < 366
  {
    DayInYear(y, m, d);
    Epoch();
    hide DaysBeforeYear, DaysBeforeMonth, Leap;
    if y < 1970 {
      YearsMono(y, 1970);
    } else {
      if y > 1970 { YearsMono(1970, y); }
      FarYears(y);
    }
  }

  /** What mktime gives for an earlier year is an instant of the first year. */
  lemma FirstYear(t: int, r: int)
    requires Signed32(t / DAY) < 0 && 0 <= r < DAY * 366
    ensures r != t
  {
    assert 0 <= r / DAY < 366;
  }

  /** The last day an int can count falls on another weekday than gmtime_r says. */
  method LastDayHasWrongWeekday() returns (w: int)
    ensures w != Weekday(INT_MAX)
  {
    var tm := new Tm();
    assert DAY * INT_MAX / DAY == INT_MAX;
    hide Weekday, DaysBeforeYear, DaysBeforeMonth, Leap;
    tm.GmtimeR(DAY * INT_MAX);
    w := tm.wday;
  }

  /** The second before the epoch, and the first day an int cannot count, do not come back. */
  method TwoThatDoNotComeBack() returns (early: int, late: int)
    ensures early != -1 && late != DAY * (INT_MAX + 1)
  {
    early := ThereAndBack(-1);
    assert DAY * (INT_MAX + 1) / DAY == INT_MAX + 1;
    late := ThereAndBack(DAY * (INT_MAX + 1));
  }

  lemma FarYears(y: int)
    requires y >= 1970
    ensures y > INT_MAX ==> DaysBeforeYear(y) > INT_MAX
  {
    hide Leap;
    assert (y - 1969) / 4 >= (y - 1901) / 100 - 1;
  }
}
