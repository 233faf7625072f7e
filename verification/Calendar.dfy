/** Dates: unix_converttime of kernel/time.c and the calendar arithmetic of ctime
    in ulib/time.c. */
module Calendar {

  const EPOCH := 1970

  datatype Date = Date(year: nat, month: nat, day: nat, hour: nat, minute: nat, second: nat)

  predicate Leap(year: nat) { year % 4 == 0 && (year % 100 != 0 || year % 400 == 0) }

  function YearDays(year: nat): nat { if Leap(year) then 366 else 365 }

  const MDAYS: seq<nat> := [31, 28, 31, 30, 31, 30, 31, 31, 30, 31, 30, 31]

  function MonthDays(year: nat, month: nat): (r: nat)
    requires 1 <= month <= 12
    ensures 28 <= r <= 31
  {
    MDAYS[month - 1] + (if month == 2 && Leap(year) then 1 else 0)
  }

  /** A date of the Gregorian calendar from 1970 on. */
  predicate Valid(d: Date) {
    && EPOCH <= d.year && 1 <= d.month <= 12 && 1 <= d.day <= MonthDays(d.year, d.month)
    && d.hour < 24 && d.minute < 60 && d.second < 60
  }

  /** Days from the epoch to the first of January. */
  function BeforeYear(year: nat): nat {
    if year <= EPOCH then 0 else BeforeYear(year - 1) + YearDays(year - 1)
  }

  /** Days from the first of January to the first of the month. */
  function BeforeMonth(year: nat, month: nat): nat
    requires 1 <= month <= 13
  {
    if month == 1 then 0 else BeforeMonth(year, month - 1) + MonthDays(year, month - 1)
  }

  function Days(d: Date): int
    requires Valid(d)
  {
    BeforeYear(d.year) + BeforeMonth(d.year, d.month) + d.day - 1
  }

  function Seconds(d: Date): int
    requires Valid(d)
  {
    Days(d) * 86400 + d.hour * 3600 + d.minute * 60 + d.second
  }

  /** Reduction to a 32-bit int. */
  function Wrapped(x: int): int {
    var r := x % 0x1_0000_0000;
    if r < 0x8000_0000 then r else r - 0x1_0000_0000
  }

  lemma WrappedAdd(x: int, y: int)
    ensures Wrapped(Wrapped(x) + y) == Wrapped(x + y)
  {
  }

  /** unix_converttime. Its seconds are reduced to an int after each sum; the days need
      no reduction of their own, since only their product modulo 2^32 counts. */
  method Converttime(d: Date) returns (seconds: int)
    requires Valid(d)
    ensures seconds == Wrapped(Seconds(d))
    ensures seconds == Seconds(d) <==> Seconds(d) < 0x8000_0000
  {
    hide Wrapped;
    var days := 0;
    var i := EPOCH;
    while i < d.year
      invariant EPOCH <= i <= d.year && days == BeforeYear(i)
    {
      days := days + if Leap(i) then 366 else 365;
      i := i + 1;
    }
    i := 1;
    while i < d.month
      invariant 1 <= i <= d.month && days == BeforeYear(d.year) + BeforeMonth(d.year, i)
    {
      days := days + MDAYS[i - 1];
      if i == 2 && Leap(d.year) {
        days := days + 1;
      }
      i := i + 1;
    }
    days := days + d.day - 1;
    seconds := Wrapped(days * 86400);
    WrappedAdd(days * 86400, d.hour * 3600);
    seconds := Wrapped(seconds + d.hour * 3600);
    WrappedAdd(days * 86400 + d.hour * 3600, d.minute * 60);
    seconds := Wrapped(seconds + d.minute * 60);
    WrappedAdd(days * 86400 + d.hour * 3600 + d.minute * 60, d.second);
    seconds := Wrapped(seconds + d.second);
    WrappedFits(Seconds(d));
  }

  lemma WrappedFits(x: nat)
    ensures Wrapped(x) == x <==> x < 0x8000_0000
  {
  }

  /** Days before a month, without the table. */
  lemma MonthsClosed(year: nat, month: nat)
    requires 1 <= month <= 13
    ensures BeforeMonth(year, month) == (367 * month - 362) / 12 - (if month <= 2 then 0 else if Leap(year) then 1 else 2)
  {
    if month > 1 {
      MonthsClosed(year, month - 1);
    }
  }

  /** Days before a year, without counting years. */
  lemma {:induction false} YearsClosed(year: nat)
    requires year >= EPOCH
    ensures BeforeYear(year) == 365 * (year - 1970) + (year - 1) / 4 - (year - 1) / 100 + (year - 1) / 400 - 477
    decreases year
  {
    if year > EPOCH {
      YearsClosed(year - 1);
      LeapDays(year - 1);
    }
  }

  lemma LeapDays(y: nat)
    requires y > 0
    ensures y / 4 - y / 100 + y / 400 == (y - 1) / 4 - (y - 1) / 100 + (y - 1) / 400 + if Leap(y) then 1 else 0
  {
    Crosses(y, 4);
    Crosses(y, 100);
    Crosses(y, 400);
    assert y % 400 == 0 ==> y % 100 == 0;
    assert y % 100 == 0 ==> y % 4 == 0;
  }

  lemma Crosses(y: nat, k: nat)
    requires y > 0 && (k == 4 || k == 100 || k == 400)
    ensures y / k == (y - 1) / k + if y % k == 0 then 1 else 0
  {
  }

  /** The seconds of a date, in closed form. */
  lemma SecondsClosed(d: Date)
    requires Valid(d)
    ensures var y := d.year - 1;
            var days := 365 * (d.year - 1970) + y / 4 - y / 100 + y / 400 - 477
                        + (367 * d.month - 362) / 12 - (if d.month <= 2 then 0 else if Leap(d.year) then 1 else 2) + d.day - 1;
            Seconds(d) == days * 86400 + d.hour * 3600 + d.minute * 60 + d.second
  {
    YearsClosed(d.year);
    MonthsClosed(d.year, d.month);
    hide BeforeYear, BeforeMonth;
  }

  /** The first second that does not fit. */
  lemma TooLate()
    ensures var d := Date(2038, 1, 19, 3, 14, 8);
            Valid(d) && Seconds(d) == 0x8000_0000 && Wrapped(Seconds(d)) == -0x8000_0000
  {
    var year := EPOCH;
    while year < 2038
      invariant EPOCH <= year <= 2038 && BeforeYear(year) == 365 * (year - 1970) + (year - 1969) / 4
    {
      year := year + 1;
    }
  }

  lemma YearIsMonths(year: nat)
    ensures BeforeMonth(year, 13) == YearDays(year)
  {
    assert BeforeMonth(year, 2) == 31;
    assert BeforeMonth(year, 3) == 59 + (if Leap(year) then 1 else 0);
    assert BeforeMonth(year, 5) == 120 + (if Leap(year) then 1 else 0);
    assert BeforeMonth(year, 7) == 181 + (if Leap(year) then 1 else 0);
    assert BeforeMonth(year, 9) == 243 + (if Leap(year) then 1 else 0);
    assert BeforeMonth(year, 11) == 304 + (if Leap(year) then 1 else 0);
  }

  /** ctime's fields: the date that many seconds after the epoch. The month table
      is never overrun. */
  method Ctime(time: nat) returns (d: Date)
    ensures Valid(d) && Seconds(d) == time
  {
    var t := time;
    var second := t % 60;
    t := t / 60;
    var minute := t % 60;
    t := t / 60;
    var hour := t % 24;
    t := t / 24;
    ghost var days := t;
    assert time == days * 86400 + hour * 3600 + minute * 60 + second;
    var year := EPOCH;
    while true
      invariant EPOCH <= year && 0 <= t && days == BeforeYear(year) + t
      decreases t
    {
      var length := if Leap(year) then 366 else 365;
      if t >= length {
        t := t - length;
        year := year + 1;
      } else {
        break;
      }
    }
    YearIsMonths(year);
    ghost var rest := t;
    var month := 0;
    while true
      invariant 0 <= month < 12 && 0 <= t && rest == BeforeMonth(year, month + 1) + t && rest < BeforeMonth(year, 13)
      decreases 12 - month
    {
      var length := MDAYS[month];
      if month == 1 && Leap(year) {
        length := length + 1;
      }
      if t >= length {
        t := t - length;
        month := month + 1;
      } else {
        break;
      }
    }
    d := Date(year, month + 1, t + 1, hour, minute, second);
  }

  // ----- dates and seconds determine each other -----

  lemma {:induction false} YearsApart(y: nat, z: nat)
    requires EPOCH <= y < z
    ensures BeforeYear(y) + YearDays(y) <= BeforeYear(z)
    decreases z
  {
    if y + 1 < z {
      YearsApart(y, z - 1);
    }
  }

  lemma {:induction false} MonthsApart(year: nat, m: nat, n: nat)
    requires 1 <= m < n <= 13
    ensures BeforeMonth(year, m) + MonthDays(year, m) <= BeforeMonth(year, n)
    decreases n
  {
    if m + 1 < n {
      MonthsApart(year, m, n - 1);
    }
  }

  lemma WithinYear(d: Date)
    requires Valid(d)
    ensures BeforeYear(d.year) <= Days(d) < BeforeYear(d.year) + YearDays(d.year)
  {
    YearIsMonths(d.year);
    if d.month < 12 {
      MonthsApart(d.year, d.month, 13);
    }
  }

  /** No two dates share a day. */
  lemma SameDay(d: Date, e: Date)
    requires Valid(d) && Valid(e) && Days(d) == Days(e)
    ensures d.year == e.year && d.month == e.month && d.day == e.day
  {
    WithinYear(d);
    WithinYear(e);
    if d.year < e.year {
      YearsApart(d.year, e.year);
    } else if e.year < d.year {
      YearsApart(e.year, d.year);
    } else if d.month < e.month {
      MonthsApart(d.year, d.month, e.month);
    } else if e.month < d.month {
      MonthsApart(d.year, e.month, d.month);
    }
  }

  /** No two dates share a second. */
  lemma SameDate(d: Date, e: Date)
    requires Valid(d) && Valid(e) && Seconds(d) == Seconds(e)
    ensures d == e
  {
    assert Days(d) == Days(e);
    SameDay(d, e);
  }

  /** ctime's fields undo unix_converttime, for every valid date whose seconds fit
      an int. */
  method ThereAndBack(d: Date) returns (e: Date)
    requires Valid(d) && Seconds(d) < 0x8000_0000
    ensures e == d
  {
    var t := Converttime(d);
    e := Ctime(t);
    SameDate(d, e);
  }
}
