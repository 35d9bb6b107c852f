/** Calendar arithmetic: the clock's date-time turned into seconds by counting years and months, and
    turned back into date and time fields by a closed formula. */
module Calendar {
  import opened Wrappers

  const I32_MAX := 0x7FFF_FFFF

  datatype DateTime = DateTime(year: nat, month: nat, day: nat, hours: nat, minutes: nat, second: nat)

  datatype Civil = Civil(year: int, month: int, day: int)

  predicate IsLeapYear(y: int) { y % 4 == 0 && (y % 100 != 0 || y % 400 == 0) }

  function Leap(y: int): nat { if IsLeapYear(y) then 1 else 0 }

  const DAYS_IN_MONTH: seq<nat> := [31, 28, 31, 30, 31, 30, 31, 31, 30, 31, 30, 31]

  function MonthLength(y: int, m: nat): nat
    requires 1 <= m <= 12
  {
    DAYS_IN_MONTH[m - 1] + if m == 2 then Leap(y) else 0
  }

  /** A date-time the clock can show, from 1970 on. */
  predicate Valid(t: DateTime)
  {
    && 1970 <= t.year && 1 <= t.month <= 12 && 1 <= t.day <= MonthLength(t.year, t.month)
    && t.hours < 24 && t.minutes < 60 && t.second < 60
  }

  // ---------------------------------------------------------------- counting days

  function DaysBeforeYear(y: nat): nat { if y <= 1970 then 0 else DaysBeforeYear(y - 1) + 365 + Leap(y - 1) }

  function DaysBeforeMonth(y: int, m: nat): nat
    requires m <= 13
  {
    if m <= 1 then 0 else DaysBeforeMonth(y, m - 1) + MonthLength(y, m - 1)
  }

  function DayNumber(t: DateTime): nat
    requires 1 <= t.day && t.month <= 13
  {
    DaysBeforeYear(t.year) + DaysBeforeMonth(t.year, t.month) + t.day - 1
  }

  function UnixTime(t: DateTime): nat
    requires 1 <= t.day && t.month <= 13
  {
    DayNumber(t) * 24 * 3600 + (t.hours * 3600 + t.minutes * 60 + t.second)
  }

  /** `as_unix_timestamp` */
  method AsUnixTimestamp(t: DateTime) returns (r: nat)
    requires 1 <= t.day && t.month <= 13
    ensures r == UnixTime(t)
  {
    var days := 0;
    var y := 1970;
    while y < t.year
      invariant 1970 <= y && (y <= t.year || y == 1970) && days == DaysBeforeYear(y)
    {
      days := days + if IsLeapYear(y) then 366 else 365;
      y := y + 1;
    }
    var m := 1;
    while m < t.month
      invariant 1 <= m && (m <= t.month || m == 1) && days == DaysBeforeYear(t.year) + DaysBeforeMonth(t.year, m)
    {
      days := days + DAYS_IN_MONTH[m - 1];
      if IsLeapYear(t.year) && m == 2 {
        days := days + 1;
      }
      m := m + 1;
    }
    days := days + (t.day - 1);
    r := days * 24 * 3600 + (t.hours * 3600 + t.minutes * 60 + t.second);
  }

  // ---------------------------------------------------------------- what the count means

  /** The last day of a month of the Gregorian calendar. */
  function LastDay(y: int, m: int): int
  {
    if m == 4 || m == 6 || m == 9 || m == 11 then 30
    else if m != 2 then 31
    else if y % 400 == 0 || (y % 4 == 0 && y % 100 != 0) then 29
    else 28
  }

  /** The same time on the next day of the calendar. */
  function Tomorrow(t: DateTime): (r: DateTime)
    requires Valid(t)
    ensures Valid(r)
  {
    LastDayIs(t.year, t.month);
    if t.day < LastDay(t.year, t.month) then t.(day := t.day + 1)
    else if t.month < 12 then LastDayIs(t.year, t.month + 1); t.(month := t.month + 1, day := 1)
    else t.(year := t.year + 1, month := 1, day := 1)
  }

  lemma TomorrowCounts(t: DateTime)
    requires Valid(t)
    ensures DayNumber(Tomorrow(t)) == DayNumber(t) + 1
  {
    hide DaysBeforeYear, LastDay, IsLeapYear;
    LastDayIs(t.year, t.month);
    if t.day == LastDay(t.year, t.month) {
      if t.month == 12 {
        MonthTable(t.year);
        NextYear(t.year);
      }
    }
  }

  /** The count of seconds is that of the start of the day and the seconds of the day. */
  lemma SecondsOfDay(t: DateTime)
    requires Valid(t)
    ensures UnixTime(t) == 86400 * DayNumber(t) + 3600 * t.hours + 60 * t.minutes + t.second
  {
    hide DayNumber;
  }

  /** From any moment to the same time on the next day the count grows by 86400. With the count of days 0 on
      the first of January 1970, it is the number of seconds since then. */
  lemma CountsSeconds(t: DateTime)
    requires Valid(t)
    ensures UnixTime(Tomorrow(t)) == UnixTime(t) + 86400
    ensures t.year == 1970 && t.month == 1 && t.day == 1 ==> UnixTime(t) == 3600 * t.hours + 60 * t.minutes + t.second
  {
    hide UnixTime, DayNumber, Tomorrow;
    TomorrowCounts(t);
    SecondsOfDay(t);
    SecondsOfDay(Tomorrow(t));
    SameTime(t);
    if t.year == 1970 && t.month == 1 && t.day == 1 { FirstDay(t); }
  }

  lemma SameTime(t: DateTime)
    requires Valid(t)
    ensures var r := Tomorrow(t); r.hours == t.hours && r.minutes == t.minutes && r.second == t.second
  {
    hide LastDay;
  }

  lemma FirstDay(t: DateTime)
    requires t.year == 1970 && t.month == 1 && t.day == 1
    ensures DayNumber(t) == 0
  {
  }

  lemma LastDayIs(y: nat, m: nat)
    requires 1 <= m <= 12
    ensures LastDay(y, m) == MonthLength(y, m) >= 28
  {
    Multiples(y);
  }

  lemma NextYear(y: nat)
    requires y >= 1970
    ensures DaysBeforeYear(y + 1) == DaysBeforeYear(y) + 365 + Leap(y)
  {
  }

  // ---------------------------------------------------------------- the closed form

  /** A cast of a 64-bit count to `i32`. */
  function ToI32(x: nat): int
  {
    var w := x % 0x1_0000_0000;
    if w <= I32_MAX then w else w - 0x1_0000_0000
  }

  /** Division of machine integers, which truncates toward zero. */
  function TruncDiv(a: int, k: nat): int
    requires k > 0
  {
    if a >= 0 then a / k else -((-a) / k)
  }

  function Era(z: int): int { TruncDiv(if z >= 0 then z else z - 146096, 146097) }

  function YearOfEra(doe: int): int { (doe - doe / 1460 + doe / 36524 - doe / 146096) / 365 }

  /** Days of an era before its year `yoe`, years counted from March. */
  function YearStart(yoe: int): int { 365 * yoe + yoe / 4 - yoe / 100 }

  /** Days of a March-based year before its month `mp`. */
  function MonthStart(mp: int): int { (153 * mp + 2) / 5 }

  /** The date that is `z` days after 1 March of the year 0. */
  function CivilFromDays(z: int): Civil
  {
    var era := Era(z);
    var doe := z - era * 146097;
    var yoe := YearOfEra(doe);
    var doy := doe - YearStart(yoe);
    var mp := (5 * doy + 2) / 153;
    var d := doy - MonthStart(mp) + 1;
    var m := if mp < 10 then mp + 3 else mp - 9;
    var y := yoe + era * 400;
    Civil(if m <= 2 then y + 1 else y, m, d)
  }

  datatype Fields = Fields(date: Civil, hour: nat, minute: nat, second: nat)

  /** The date and time fields that `get_fat_timedate` computes, before it packs them. */
  function Decode(unix: nat): Outcome<Fields>
  {
    var inDay := unix % 86400;
    var days := ToI32(unix / 86400);
    if days + 719468 > I32_MAX then Panicked
    else Returned(Fields(CivilFromDays(days + 719468), inDay / 3600, inDay % 3600 / 60, inDay % 60))
  }

  // ---------------------------------------------------------------- days of a civil date

  /** The day count of a date by its March-based year: the inverse the formula is meant to have. */
  function CivilDays(c: Civil): int
  {
    var y := if c.month <= 2 then c.year - 1 else c.year;
    var mp := if c.month <= 2 then c.month + 9 else c.month - 3;
    y / 400 * 146097 + YearStart(y % 400) + MonthStart(mp) + c.day - 1
  }

  function LeapsBefore(y: nat): int
    requires y >= 1
  {
    (y - 1) / 4 - (y - 1) / 100 + (y - 1) / 400
  }

  lemma LeapsStep(y: nat)
    requires y >= 1
    ensures LeapsBefore(y + 1) == LeapsBefore(y) + Leap(y)
  {
    assert y / 4 == (y - 1) / 4 + if y % 4 == 0 then 1 else 0;
    assert y / 100 == (y - 1) / 100 + if y % 100 == 0 then 1 else 0;
    assert y / 400 == (y - 1) / 400 + if y % 400 == 0 then 1 else 0;
    Multiples(y);
  }

  lemma Multiples(y: nat)
    ensures y % 400 == 0 ==> y % 100 == 0
    ensures y % 100 == 0 ==> y % 4 == 0
  {
    if y % 400 == 0 { assert y == 100 * (4 * (y / 400)); }
    if y % 100 == 0 { assert y == 4 * (25 * (y / 100)); }
  }

  lemma {:induction false} YearsClosed(y: nat)
    requires y >= 1970
    ensures DaysBeforeYear(y) == 365 * (y - 1970) + LeapsBefore(y) - 477
  {
    if y > 1970 {
      YearsClosed(y - 1);
      LeapsStep(y - 1);
    }
  }

  lemma MonthsClosed(y: int, m: nat)
    requires 1 <= m <= 12
    ensures DaysBeforeMonth(y, m) == if m <= 2 then MonthStart(m + 9) - 306 else MonthStart(m - 3) + 59 + Leap(y)
  {
    MonthTable(y);
  }

  lemma MonthTable(y: int)
    ensures DaysBeforeMonth(y, 1) == 0 && DaysBeforeMonth(y, 2) == 31
    ensures DaysBeforeMonth(y, 3) == 59 + Leap(y) && DaysBeforeMonth(y, 4) == 90 + Leap(y)
    ensures DaysBeforeMonth(y, 5) == 120 + Leap(y) && DaysBeforeMonth(y, 6) == 151 + Leap(y)
    ensures DaysBeforeMonth(y, 7) == 181 + Leap(y) && DaysBeforeMonth(y, 8) == 212 + Leap(y)
    ensures DaysBeforeMonth(y, 9) == 243 + Leap(y) && DaysBeforeMonth(y, 10) == 273 + Leap(y)
    ensures DaysBeforeMonth(y, 11) == 304 + Leap(y) && DaysBeforeMonth(y, 12) == 334 + Leap(y)
  {
    hide Leap;
  }

  /** An era of 400 years: the year start counts from it agree with counting leap years from year 0. */
  lemma EraClosed(y: nat)
    ensures y / 400 * 146097 + YearStart(y % 400) == 365 * y + y / 4 - y / 100 + y / 400
  {
    var e, r := y / 400, y % 400;
    assert y == 400 * e + r;
    assert y / 4 == 100 * e + r / 4;
    assert y / 100 == 4 * e + r / 100;
  }

  /** Counting loops and March-based closed form agree on every date from 1970 on. */
  lemma DayNumberClosed(t: DateTime)
    requires Valid(t)
    ensures DayNumber(t) + 719468 == CivilDays(Civil(t.year, t.month, t.day))
  {
    hide DaysBeforeYear, DaysBeforeMonth, YearStart;
    YearsClosed(t.year);
    MonthsClosed(t.year, t.month);
    if t.month <= 2 {
      EraClosed(t.year - 1);
    } else {
      EraClosed(t.year);
      LeapsStep(t.year);
    }
  }

  // ---------------------------------------------------------------- the formula inverts the count

  /** Is the March-based year `yoe` of an era 366 days long? */
  predicate LongYear(yoe: int) { yoe % 4 == 3 && (yoe % 100 != 99 || yoe == 399) }

  /** The quotients of the formula, from the place of a day in centuries, four-year cycles and years. */
  lemma Quotients(c: int, q: int, r: int, doy: int)
    requires 0 <= c < 4 && 0 <= q < 25 && 0 <= r < 4 && 0 <= doy <= 365
    requires doy == 365 ==> r == 3 && (q == 24 ==> c == 3)
    ensures var doe := 36524 * c + 1461 * q + 365 * r + doy;
            var e := if 24 * c + q + 365 * r + doy >= 1460 then 1 else 0;
            var last := if doe == 146096 then 1 else 0;
      && 0 <= doe < 146097
      && doe / 1460 == 25 * c + q + e && doe / 36524 == c + last && doe / 146096 == last
      && 0 <= doy - e <= 364
  {
    var doe := 36524 * c + 1461 * q + 365 * r + doy;
    var rem := 24 * c + q + 365 * r + doy;
    assert doe == 1460 * (25 * c + q) + rem && rem < 2920;
    assert doe - 36524 * c <= 36524;
  }

  /** The year-of-era formula finds the year of every day of the era. */
  lemma YearFound(yoe: int, doy: int)
    requires 0 <= yoe < 400 && 0 <= doy <= (if LongYear(yoe) then 365 else 364)
    ensures YearOfEra(YearStart(yoe) + doy) == yoe
    ensures 0 <= YearStart(yoe) + doy < 146097
  {
    hide YearStart, LongYear;
    var c, q, r := yoe / 100, yoe % 100 / 4, yoe % 4;
    YearParts(yoe);
    YearOf(c, q, r);
    Quotients(c, q, r, doy);
    var e := if 24 * c + q + 365 * r + doy >= 1460 then 1 else 0;
    Numerator(c, q, r, doy, e, YearStart(yoe) + doy);
  }

  lemma Numerator(c: int, q: int, r: int, doy: int, e: int, doe: int)
    requires doe == 36524 * c + 1461 * q + 365 * r + doy && 0 <= doy - e <= 364
    requires doe / 1460 == 25 * c + q + e && doe / 36524 - doe / 146096 == c
    ensures YearOfEra(doe) == 100 * c + 4 * q + r
  {
    assert doe - doe / 1460 + doe / 36524 - doe / 146096 == 365 * (100 * c + 4 * q + r) + (doy - e);
  }

  lemma YearParts(yoe: int)
    requires 0 <= yoe < 400
    ensures yoe == 100 * (yoe / 100) + 4 * (yoe % 100 / 4) + yoe % 4
    ensures yoe / 4 == 25 * (yoe / 100) + yoe % 100 / 4
    ensures 0 <= yoe / 100 < 4 && 0 <= yoe % 100 / 4 < 25
  {
    var u := yoe % 100;
    assert yoe == 100 * (yoe / 100) + u;
    assert u == 4 * (u / 4) + u % 4;
    assert yoe == 4 * (25 * (yoe / 100) + u / 4) + u % 4;
  }

  /** Every day of the era lies in the year the formula finds, at a day that year has. */
  lemma YearCovers(doe: int)
    requires 0 <= doe < 146097
    ensures var yoe := YearOfEra(doe);
            var doy := doe - YearStart(yoe);
      0 <= yoe < 400 && 0 <= doy <= if LongYear(yoe) then 365 else 364
  {
    hide YearStart, LongYear, YearOfEra;
    var c := if doe >= 109572 then 3 else doe / 36524;
    var t := doe - 36524 * c;
    var q := if t >= 35064 then 24 else t / 1461;
    var u := t - 1461 * q;
    var r := if u >= 1095 then 3 else u / 365;
    var yoe := 100 * c + 4 * q + r;
    var doy := u - 365 * r;
    YearOf(c, q, r);
    assert doe == YearStart(yoe) + doy;
    YearFound(yoe, doy);
  }

  lemma YearOf(c: int, q: int, r: int)
    requires 0 <= c < 4 && 0 <= q < 25 && 0 <= r < 4
    ensures var yoe := 100 * c + 4 * q + r;
      && 0 <= yoe < 400 && YearStart(yoe) == 36524 * c + 1461 * q + 365 * r
      && (LongYear(yoe) <==> r == 3 && (q == 24 ==> c == 3))
  {
    var yoe := 100 * c + 4 * q + r;
    assert yoe / 100 == c && yoe % 100 == 4 * q + r;
    assert yoe == 4 * (25 * c + q) + r;
  }

  lemma MonthFound(mp: int, d: int)
    requires 0 <= mp < 12 && 1 <= d <= (if mp == 11 then 29 else MonthStart(mp + 1) - MonthStart(mp))
    ensures (5 * (MonthStart(mp) + d - 1) + 2) / 153 == mp
  {
    var doy := MonthStart(mp) + d - 1;
    assert 153 * mp <= 5 * doy + 2 < 153 * mp + 153;
  }

  /** A date that exists, in any year from 1 on. */
  predicate RealDate(c: Civil)
  {
    1 <= c.year && 1 <= c.month <= 12 && 1 <= c.day <= MonthLength(c.year, c.month)
  }

  /** The closed form recovers every date from its day count. */
  lemma DateRecovered(c: Civil)
    requires RealDate(c)
    ensures CivilFromDays(CivilDays(c)) == c
  {
    hide YearOfEra, YearStart, MonthStart;
    var y := if c.month <= 2 then c.year - 1 else c.year;
    var mp := if c.month <= 2 then c.month + 9 else c.month - 3;
    var yoe, doy := y % 400, MonthStart(mp) + c.day - 1;
    DayOfYear(c);
    MonthFound(mp, c.day);
    YearFound(yoe, doy);
    var z := CivilDays(c);
    assert z == y / 400 * 146097 + (YearStart(yoe) + doy);
    assert Era(z) == y / 400;
  }

  /** The March-based day of a date fits its month and its year. */
  lemma DayOfYear(c: Civil)
    requires RealDate(c)
    ensures var y := if c.month <= 2 then c.year - 1 else c.year;
            var mp := if c.month <= 2 then c.month + 9 else c.month - 3;
      && 1 <= c.day <= (if mp == 11 then 29 else MonthStart(mp + 1) - MonthStart(mp))
      && 0 <= MonthStart(mp) + c.day - 1 <= if LongYear(y % 400) then 365 else 364
  {
    if c.month == 2 { LongIfLeap(c.year - 1); }
  }

  lemma LongIfLeap(y: nat)
    ensures IsLeapYear(y + 1) <==> LongYear(y % 400)
  {
    var r := y % 400;
    SameRemainders(y / 400, r + 1);
    assert y + 1 == 400 * (y / 400) + (r + 1);
    Remainders(r);
  }

  lemma SameRemainders(e: int, n: int)
    ensures (400 * e + n) % 4 == n % 4 && (400 * e + n) % 100 == n % 100 && (400 * e + n) % 400 == n % 400
  {
    Remainder4(100 * e, n);
    Remainder100(4 * e, n);
    Remainder400(e, n);
  }

  lemma Remainder4(a: int, n: int)
    ensures (4 * a + n) % 4 == n % 4
  {
    assert 4 * a + n == 4 * (a + n / 4) + n % 4;
  }

  lemma Remainder100(a: int, n: int)
    ensures (100 * a + n) % 100 == n % 100
  {
    assert 100 * a + n == 100 * (a + n / 100) + n % 100;
  }

  lemma Remainder400(a: int, n: int)
    ensures (400 * a + n) % 400 == n % 400
  {
    assert 400 * a + n == 400 * (a + n / 400) + n % 400;
  }

  lemma Remainders(r: int)
    requires 0 <= r < 400
    ensures (r + 1) % 4 == 0 <==> r % 4 == 3
    ensures (r + 1) % 100 == 0 <==> r % 100 == 99
    ensures (r + 1) % 400 == 0 <==> r == 399
  {
  }

  /** The closed form is one-to-one: the date it gives has the day count it was given. */
  lemma CountRecovered(z: int)
    ensures CivilDays(CivilFromDays(z)) == z
  {
    hide YearOfEra, YearStart, MonthStart, LongYear;
    EraFloor(z);
    var era := Era(z);
    var doe := z - era * 146097;
    YearCovers(doe);
    var yoe := YearOfEra(doe);
    var doy := doe - YearStart(yoe);
    MonthCovers(doy);
    var y := yoe + era * 400;
    assert y / 400 == era && y % 400 == yoe;
  }

  lemma EraFloor(z: int)
    ensures 0 <= z - Era(z) * 146097 < 146097
  {
  }

  lemma MonthCovers(doy: int)
    requires 0 <= doy <= 365
    ensures 0 <= (5 * doy + 2) / 153 < 12
  {
  }

  // ---------------------------------------------------------------- the round trip

  /** What the fields of `t` should come out as. */
  function FieldsOf(t: DateTime): Fields { Fields(Civil(t.year, t.month, t.day), t.hours, t.minutes, t.second) }

  /** The quotient and the remainder of a number written with its last digit apart. */
  lemma Digits(k: nat, q: int, r: nat)
    requires r < k
    ensures (k * q + r) / k == q && (k * q + r) % k == r
  {
    var a := k * q + r;
    assert k * (q - a / k) == a % k - r;
    if q > a / k { SpareDigit(k, q - a / k); } else if q < a / k { SpareDigit(k, a / k - q); }
  }

  lemma SpareDigit(k: nat, n: int)
    requires n >= 1
    ensures k * n >= k
  {
  }

  lemma SplitTime(t: DateTime)
    requires Valid(t)
    ensures UnixTime(t) / 86400 == DayNumber(t)
    ensures var inDay := UnixTime(t) % 86400;
      inDay / 3600 == t.hours && inDay % 3600 / 60 == t.minutes && inDay % 60 == t.second
  {
    hide DayNumber;
    var inHour := 60 * t.minutes + t.second;
    var inDay := 3600 * t.hours + inHour;
    Digits(86400, DayNumber(t), inDay);
    Digits(3600, t.hours, inHour);
    Digits(60, t.minutes, t.second);
    Digits(60, 60 * t.hours + t.minutes, t.second);
  }

  /** Decoding recovers every field of the encoded date-time exactly while the day count, shifted to
      the year 0, fits the 32-bit integer it is computed in; later dates come out wrong or panic. */
  lemma DecodeEncode(t: DateTime)
    requires Valid(t)
    ensures Decode(UnixTime(t)) == Returned(FieldsOf(t)) <==> DayNumber(t) + 719468 <= I32_MAX
  {
    hide DayNumber, CivilDays, CivilFromDays;
    SplitTime(t);
    DayNumberClosed(t);
    var c := Civil(t.year, t.month, t.day);
    if DayNumber(t) + 719468 <= I32_MAX {
      DateRecovered(c);
    } else if DayNumber(t) > I32_MAX {
      WrapsAway(DayNumber(t));
      CountRecovered(ToI32(DayNumber(t)) + 719468);
    }
  }

  lemma WrapsAway(n: nat)
    requires n > I32_MAX
    ensures ToI32(n) < n
  {
  }

  /** The cast gives the number of 32 signed bits that is the same modulo two to the 32. */
  lemma CastExact(n: nat)
    ensures -0x8000_0000 <= ToI32(n) < 0x8000_0000 && (n - ToI32(n)) % 0x1_0000_0000 == 0
  {
    var q := n / 0x1_0000_0000;
    assert n - n % 0x1_0000_0000 == q * 0x1_0000_0000;
    assert n - n % 0x1_0000_0000 + 0x1_0000_0000 == (q + 1) * 0x1_0000_0000;
  }

  // ---------------------------------------------------------------- the packed fields

  /** Hour in 5 bits, minute in 6, seconds by two in 5. The parts do not overlap, so `|` adds. */
  function PackTime(f: Fields): nat
  {
    f.hour * 2048 % 0x1_0000 + f.minute * 32 + f.second / 2
  }

  /** Year from 1980 in 7 bits, month in 4, day in 5; the shift drops what exceeds 16 bits. */
  function PackDate(f: Fields): int
  {
    var fatYear := if f.date.year >= 1980 then (f.date.year - 1980) % 0x1_0000 else 0;
    fatYear * 512 % 0x1_0000 + f.date.month * 32 + f.date.day
  }

  function UnpackDate(d: int): Civil { Civil(1980 + d / 512, d / 32 % 16, d % 32) }

  lemma TimeUnpacks(t: DateTime)
    requires Valid(t)
    ensures var p := PackTime(FieldsOf(t));
      p < 0x1_0000 && p / 2048 == t.hours && p / 32 % 64 == t.minutes && p % 32 == t.second / 2
  {
    var half := t.second / 2;
    var low := 32 * t.minutes + half;
    Digits(0x1_0000, 0, t.hours * 2048);
    Digits(2048, t.hours, low);
    Digits(32, 64 * t.hours + t.minutes, half);
    Digits(64, t.hours, t.minutes);
  }

  /** The packed date unpacks to the same date exactly from 1980 to 2107. */
  lemma DateUnpacks(t: DateTime)
    requires Valid(t)
    ensures UnpackDate(PackDate(FieldsOf(t))) == Civil(t.year, t.month, t.day) <==> 1980 <= t.year <= 2107
  {
    var fatYear := if t.year >= 1980 then (t.year - 1980) % 0x1_0000 else 0;
    ShiftDrops(fatYear);
    UnpackParts(fatYear % 128, t.month, t.day);
  }

  /** Whatever the year, the packed date holds its distance from 1980 modulo 128, or 0 before that. */
  lemma PackedYear(f: Fields)
    ensures PackDate(f) == (if f.date.year >= 1980 then (f.date.year - 1980) % 128 else 0) * 512 + f.date.month * 32 + f.date.day
  {
    var fatYear := if f.date.year >= 1980 then (f.date.year - 1980) % 0x1_0000 else 0;
    ShiftDrops(fatYear);
    if f.date.year >= 1980 { SameSevenBits(f.date.year - 1980); }
  }

  lemma SameSevenBits(n: nat)
    ensures n % 0x1_0000 % 128 == n % 128
  {
    var q, r := n / 0x1_0000, n % 0x1_0000;
    assert n == 128 * (512 * q + r / 128) + r % 128;
    Digits(128, 512 * q + r / 128, r % 128);
  }

  lemma ShiftDrops(y: nat)
    ensures y * 512 % 0x1_0000 == y % 128 * 512
  {
    assert y * 512 == 0x1_0000 * (y / 128) + y % 128 * 512;
  }

  lemma UnpackParts(high: nat, m: nat, d: nat)
    requires m < 16 && d < 32
    ensures UnpackDate(high * 512 + m * 32 + d) == Civil(1980 + high, m, d)
  {
    var p := high * 512 + m * 32 + d;
    assert p == 32 * (16 * high + m) + d;
    assert p / 32 == 16 * high + m;
  }
}
