/** Proleptic Gregorian calendar arithmetic on whole days counted from
    1970-01-01, and the `'%A, %d %B at %H:%M'` rendering of a local
    instant given in seconds. */
module Calendar {

  const SecondsPerDay := 86400

  /** A calendar date. */
  datatype Date = Date(year: int, month: int, day: int)

  predicate IsLeapYear(y: int) {
    y % 4 == 0 && (y % 100 != 0 || y % 400 == 0)
  }

  function DaysInMonth(y: int, m: int): int
    requires 1 <= m <= 12
  {
    if m == 2 then (if IsLeapYear(y) then 29 else 28)
    else if m == 4 || m == 6 || m == 9 || m == 11 then 30
    else 31
  }

  predicate ValidDate(d: Date) {
    1 <= d.month <= 12 && 1 <= d.day <= DaysInMonth(d.year, d.month)
  }

  /** Day of a March-based year (March 1 is 0) on which month `mp` starts,
      `mp` counting from March as 0. */
  function MonthStart(mp: int): int {
    (153 * mp + 2) / 5
  }

  /** The number of days from 1970-01-01 to a date: years are counted from
      March, in 400-year eras of 146097 days. */
  function DaysFromCivil(d: Date): int
    requires 1 <= d.month <= 12
  {
    var y := if d.month <= 2 then d.year - 1 else d.year;
    var era := y / 400;
    var yoe := y - era * 400;
    var mp := if d.month > 2 then d.month - 3 else d.month + 9;
    var doy := MonthStart(mp) + d.day - 1;
    var doe := yoe * 365 + yoe / 4 - yoe / 100 + doy;
    era * 146097 + doe - 719468
  }

  /** Days of an era before the March-based year `yoe` of it starts. */
  function YearStart(yoe: int): int {
    365 * yoe + yoe / 4 - yoe / 100
  }

  /** Whether March-based year `yoe` of an era has a February 29. */
  predicate LongYear(yoe: int) {
    (yoe + 1) % 4 == 0 && ((yoe + 1) % 100 != 0 || yoe == 399)
  }

  /** The March-based year of an era in which day `doe` of the era falls,
      found in the manner of CPython: whole centuries (36524 days), then whole
      four-year cycles (1461 days), then whole years (365 days); a
      quotient of 4 is the last day of the preceding long period. */
  function YearOfEra(doe: int): (yoe: int)
    requires 0 <= doe < 146097
    ensures 0 <= yoe < 400
    ensures YearStart(yoe) <= doe < YearStart(yoe) + (if LongYear(yoe) then 366 else 365)
  {
    var cent := if doe / 36524 == 4 then 3 else doe / 36524;
    var r1 := doe - cent * 36524;
    var quad := r1 / 1461;
    var r2 := r1 - quad * 1461;
    var yr := if r2 / 365 == 4 then 3 else r2 / 365;
    var yoe := cent * 100 + quad * 4 + yr;
    assert 0 <= cent <= 3 && 0 <= r1 && (r1 == 36524 ==> cent == 3) && r1 <= 36524;
    assert 0 <= quad <= 24 && 0 <= r2 <= 1460 && (quad == 24 ==> r2 < 1460 || cent == 3);
    assert 0 <= yr <= 3 && yr * 365 <= r2;
    assert yoe / 4 == cent * 25 + quad && yoe / 100 == cent;
    assert YearStart(yoe) == cent * 36524 + quad * 1461 + yr * 365;
    assert r2 - yr * 365 == 365 ==> yr == 3 && (quad < 24 || cent == 3);
    yoe
  }

  /** The date of day `doe` of era `era`; era 0 starts on 0000-03-01. */
  function DateInEra(era: int, doe: int): (d: Date)
    requires 0 <= doe < 146097
    ensures ValidDate(d)
  {
    var yoe := YearOfEra(doe);
    var doy := doe - YearStart(yoe);
    var mp := (5 * doy + 2) / 153;
    MonthOfYearBounds(doy, LongYear(yoe));
    var day := doy - MonthStart(mp) + 1;
    var month := if mp < 10 then mp + 3 else mp - 9;
    LongYearIsLeap(era, yoe);
    Date(yoe + era * 400 + (if month <= 2 then 1 else 0), month, day)
  }

  /** The date of day `z` counted from 1970-01-01, which is day 719468
      of the era starting 0000-03-01. */
  function CivilFromDays(z: int): (d: Date)
    ensures ValidDate(d)
  {
    DateInEra((z + 719468) / 146097, (z + 719468) % 146097)
  }

  /** The length of month `mp` of a March-based year (March is 0, February
      is 11), in a year with or without February 29. */
  function MonthLength(mp: int, long: bool): int {
    if mp == 11 then (if long then 29 else 28)
    else if mp == 1 || mp == 3 || mp == 6 || mp == 8 then 30 else 31
  }

  /** The month of day `doy` of a March-based year, and its day in that month. */
  lemma MonthOfYearBounds(doy: int, long: bool)
    requires 0 <= doy < (if long then 366 else 365)
    ensures var mp := (5 * doy + 2) / 153;
      && 0 <= mp < 12
      && MonthStart(mp) <= doy
      && doy - MonthStart(mp) < MonthLength(mp, long)
  {
    var mp := (5 * doy + 2) / 153;
    assert 153 * mp <= 5 * doy + 2 < 153 * mp + 153;
    assert 0 <= mp < 12;
    var s, s1 := MonthStart(mp), MonthStart(mp + 1);
    assert 5 * s <= 153 * mp + 2 < 5 * s + 5;
    assert 5 * s1 <= 153 * mp + 155 < 5 * s1 + 5;
    if mp == 11 {
      assert s == 337;
    } else {
      assert doy < s1;
      MonthStartNext(mp, long);
    }
  }

  /** The March-based year `yoe` of an era holds a February 29 exactly when
      the calendar year its February belongs to is a leap year. */
  lemma LongYearIsLeap(era: int, yoe: int)
    requires 0 <= yoe < 400
    ensures LongYear(yoe) == IsLeapYear(yoe + era * 400 + 1)
  {
    var x := yoe + 1;
    var y := x + era * 400;
    assert y % 4 == x % 4 by {
      ShiftMod4(x, era * 100);
    }
    assert y % 100 == x % 100 by {
      ShiftMod100(x, era * 4);
    }
    assert y % 400 == x % 400 by {
      ShiftMod400(x, era);
    }
  }

  lemma ShiftMod4(x: int, k: int)
    ensures (x + 4 * k) % 4 == x % 4
  {
    assert x + 4 * k == 4 * (x / 4 + k) + x % 4;
  }

  lemma ShiftMod100(x: int, k: int)
    ensures (x + 100 * k) % 100 == x % 100
  {
    assert x + 100 * k == 100 * (x / 100 + k) + x % 100;
  }

  lemma ShiftMod400(x: int, k: int)
    ensures (x + 400 * k) % 400 == x % 400
  {
    assert x + 400 * k == 400 * (x / 400 + k) + x % 400;
  }

  /** Reading a day's date back gives the same day: `CivilFromDays` is
      injective, so different days get different `Date` values. (The
      printed text omits the year, so days whole years apart with the same
      weekday can print alike.) */
  lemma DaysOfCivil(z: int)
    ensures DaysFromCivil(CivilFromDays(z)) == z
  {
    var z0 := z + 719468;
    DaysOfDateInEra(z0 / 146097, z0 % 146097);
  }

  lemma DaysOfDateInEra(era: int, doe: int)
    requires 0 <= doe < 146097
    ensures DaysFromCivil(DateInEra(era, doe)) == era * 146097 + doe - 719468
  {
    var yoe := YearOfEra(doe);
    var doy := doe - YearStart(yoe);
    var mp := (5 * doy + 2) / 153;
    MonthOfYearBounds(doy, LongYear(yoe));
    var d := DateInEra(era, doe);
    assert MarchYear(d) == yoe + era * 400 && MarchMonth(d) == mp && MonthStart(mp) + d.day - 1 == doy;
    EraOfYear(era, yoe);
    DaysFromCivilParts(d);
  }

  lemma EraOfYear(era: int, yoe: int)
    requires 0 <= yoe < 400
    ensures (yoe + era * 400) / 400 == era
  {
  }

  /** Each day of a month, counted from the start of the March-based year,
      is found in that month again by `DateInEra`, and lies within the year. */
  lemma MonthOfDay(mp: int, off: int, long: bool)
    requires 0 <= mp < 12 && 0 <= off < MonthLength(mp, long)
    ensures MonthStart(mp) + off < (if long then 366 else 365)
    ensures (5 * (MonthStart(mp) + off) + 2) / 153 == mp
  {
    var s := MonthStart(mp);
    assert 5 * s <= 153 * mp + 2 < 5 * s + 5;
    if mp < 11 {
      var s1 := MonthStart(mp + 1);
      assert 5 * s1 <= 153 * mp + 155 < 5 * s1 + 5;
      MonthStartNext(mp, long);
      assert s1 <= 337;
    } else {
      assert s == 337;
    }
  }

  /** Consecutive March-based years of an era follow each other without gap. */
  lemma YearStartStep(yoe: int)
    requires 0 <= yoe < 399
    ensures YearStart(yoe + 1) == YearStart(yoe) + (if LongYear(yoe) then 366 else 365)
  {
    assert (yoe + 1) / 4 - yoe / 4 == (if (yoe + 1) % 4 == 0 then 1 else 0);
    assert (yoe + 1) / 100 - yoe / 100 == (if (yoe + 1) % 100 == 0 then 1 else 0);
  }

  lemma {:induction false} YearStartMonotone(a: int, b: int)
    requires 0 <= a <= b < 400
    ensures YearStart(a) <= YearStart(b)
  {
    if a < b {
      YearStartMonotone(a, b - 1);
      YearStartStep(b - 1);
    }
  }

  /** The year of an era is the only one whose days include `doe`. */
  lemma YearOfEraUnique(doe: int, yoe: int)
    requires 0 <= doe < 146097 && 0 <= yoe < 400
    requires YearStart(yoe) <= doe < YearStart(yoe) + (if LongYear(yoe) then 366 else 365)
    ensures YearOfEra(doe) == yoe
  {
    var y := YearOfEra(doe);
    if y < yoe {
      YearStartStep(y);
      YearStartMonotone(y + 1, yoe);
    } else if yoe < y {
      YearStartStep(yoe);
      YearStartMonotone(yoe + 1, y);
    }
  }

  /** The date `DateInEra` finds for day `day` of month `mp` of year `yoe` of an era. */
  lemma DateInEraOf(era: int, yoe: int, mp: int, day: int)
    requires 0 <= yoe < 400 && 0 <= mp < 12 && 1 <= day <= MonthLength(mp, LongYear(yoe))
    requires YearStart(yoe) + MonthStart(mp) + day - 1 < 146097
    ensures var month := if mp < 10 then mp + 3 else mp - 9;
      DateInEra(era, YearStart(yoe) + MonthStart(mp) + day - 1)
      == Date(yoe + era * 400 + (if month <= 2 then 1 else 0), month, day)
  {
    var doy := MonthStart(mp) + day - 1;
    var doe := YearStart(yoe) + doy;
    MonthOfDay(mp, day - 1, LongYear(yoe));
    YearOfEraUnique(doe, yoe);
    assert doe - YearStart(YearOfEra(doe)) == doy;
    assert (5 * doy + 2) / 153 == mp;
  }

  lemma EraOfDays(z: int, era: int, doe: int)
    requires 0 <= doe < 146097 && z + 719468 == era * 146097 + doe
    ensures (z + 719468) / 146097 == era && (z + 719468) % 146097 == doe
  {
  }

  /** The March-based year and month a date falls in. */
  function MarchYear(d: Date): int {
    if d.month <= 2 then d.year - 1 else d.year
  }

  function MarchMonth(d: Date): int {
    if d.month > 2 then d.month - 3 else d.month + 9
  }

  lemma DaysFromCivilParts(d: Date)
    requires 1 <= d.month <= 12
    ensures var y := MarchYear(d);
      DaysFromCivil(d) + 719468
      == (y / 400) * 146097 + YearStart(y - (y / 400) * 400) + MonthStart(MarchMonth(d)) + d.day - 1
  {
  }

  /** A valid date's month has the length of its month of the March-based
      year, so its day lies within that month. */
  lemma DayWithinMarchMonth(d: Date)
    requires ValidDate(d)
    ensures var y := MarchYear(d);
      && DaysInMonth(d.year, d.month) == MonthLength(MarchMonth(d), LongYear(y - (y / 400) * 400))
      && d.day <= MonthLength(MarchMonth(d), LongYear(y - (y / 400) * 400))
  {
    var y := MarchYear(d);
    LongYearIsLeap(y / 400, y - (y / 400) * 400);
  }

  lemma YearFitsEra(yoe: int, doy: int)
    requires 0 <= yoe < 400 && 0 <= doy < (if LongYear(yoe) then 366 else 365)
    ensures YearStart(yoe) + doy < 146097
  {
    if yoe < 399 {
      YearStartStep(yoe);
      YearStartMonotone(yoe + 1, 399);
    }
  }

  /** The date of a day count, given the count's era and day of that era. */
  lemma CivilFromEraDay(z: int, era: int, doe: int)
    requires 0 <= doe < 146097 && z + 719468 == era * 146097 + doe
    ensures CivilFromDays(z) == DateInEra(era, doe)
  {
    EraOfDays(z, era, doe);
  }

  /** The date `DateInEra` finds for a valid date's era, year, month and day. */
  lemma DateInEraOfDate(d: Date, era: int, yoe: int)
    requires ValidDate(d) && era == MarchYear(d) / 400 && yoe == MarchYear(d) - era * 400
    requires YearStart(yoe) + MonthStart(MarchMonth(d)) + d.day - 1 < 146097
    ensures d.day <= MonthLength(MarchMonth(d), LongYear(yoe))
    ensures DateInEra(era, YearStart(yoe) + MonthStart(MarchMonth(d)) + d.day - 1) == d
  {
    DayWithinMarchMonth(d);
    DateInEraOf(era, yoe, MarchMonth(d), d.day);
  }

  /** Counting the days of a valid date and converting back gives the date:
      every valid date is the date of exactly one day. */
  lemma CivilOfDays(d: Date)
    requires ValidDate(d)
    ensures CivilFromDays(DaysFromCivil(d)) == d
  {
    var y := MarchYear(d);
    var era := y / 400;
    var yoe := y - era * 400;
    var mp := MarchMonth(d);
    DayWithinMarchMonth(d);
    MonthOfDay(mp, d.day - 1, LongYear(yoe));
    YearFitsEra(yoe, MonthStart(mp) + d.day - 1);
    var doe := YearStart(yoe) + MonthStart(mp) + d.day - 1;
    var z := DaysFromCivil(d);
    assert z + 719468 == era * 146097 + doe by {
      DaysFromCivilParts(d);
    }
    CivilFromEraDay(z, era, doe);
    DateInEraOfDate(d, era, yoe);
  }

  /** The date of the following day: the next day of the month, else the
      first of the next month, else January 1 of the next year. */
  function NextDate(d: Date): (n: Date)
    requires ValidDate(d)
    ensures ValidDate(n)
  {
    if d.day < DaysInMonth(d.year, d.month) then Date(d.year, d.month, d.day + 1)
    else if d.month < 12 then Date(d.year, d.month + 1, 1)
    else Date(d.year + 1, 1, 1)
  }

  /** Each month of a March-based year after March starts where the previous
      one ends, that month's length (30 or 31 days) later. This is the one
      place the table of month lengths is checked against `MonthStart`. */
  lemma MonthStartNext(mp: int, long: bool)
    requires 0 <= mp < 11
    ensures MonthStart(mp + 1) == MonthStart(mp) + MonthLength(mp, long)
  {
    assert mp == 0 || mp == 1 || mp == 2 || mp == 3 || mp == 4 || mp == 5
        || mp == 6 || mp == 7 || mp == 8 || mp == 9 || mp == 10;
  }

  /** Within a March-based year: the next day of the month, or the first of
      the next month (December 31 to January 1 included). */
  lemma DaysNextInYear(d: Date)
    requires ValidDate(d) && (d.day < DaysInMonth(d.year, d.month) || d.month != 2)
    ensures DaysFromCivil(NextDate(d)) == DaysFromCivil(d) + 1
  {
    var n := NextDate(d);
    var y := MarchYear(d);
    var yoe := y - (y / 400) * 400;
    var mp := MarchMonth(d);
    assert MarchYear(n) == y;
    var base := (y / 400) * 146097 + YearStart(yoe);
    assert DaysFromCivil(d) + 719468 == base + MonthStart(mp) + d.day - 1 by {
      DaysFromCivilParts(d);
    }
    assert DaysFromCivil(n) + 719468 == base + MonthStart(MarchMonth(n)) + n.day - 1 by {
      DaysFromCivilParts(n);
    }
    if d.day == DaysInMonth(d.year, d.month) {
      assert MarchMonth(n) == mp + 1 && n.day == 1;
      DayWithinMarchMonth(d);
      MonthStartNext(mp, LongYear(yoe));
    }
  }

  /** The last day of February is followed by March 1, the first day of the
      next March-based year, which may start the next era. */
  lemma DaysNextYear(d: Date)
    requires ValidDate(d) && d.month == 2 && d.day == DaysInMonth(d.year, 2)
    ensures DaysFromCivil(NextDate(d)) == DaysFromCivil(d) + 1
  {
    var n := NextDate(d);
    var y := MarchYear(d);
    var era := y / 400;
    var yoe := y - era * 400;
    DayWithinMarchMonth(d);
    assert d.day == MonthLength(11, LongYear(yoe));
    assert MarchYear(n) == y + 1 && MarchMonth(n) == 0;
    var era2 := (y + 1) / 400;
    var yoe2 := y + 1 - era2 * 400;
    assert DaysFromCivil(d) + 719468 == era * 146097 + YearStart(yoe) + 337 + d.day - 1 by {
      DaysFromCivilParts(d);
    }
    assert DaysFromCivil(n) + 719468 == era2 * 146097 + YearStart(yoe2) by {
      DaysFromCivilParts(n);
    }
    NextYearStart(era, yoe);
  }

  /** The day of its era on which the March-based year after year `yoe` of
      era `era` starts, counted from the start of era `era`. */
  lemma NextYearStart(era: int, yoe: int)
    requires 0 <= yoe < 400
    ensures var y := era * 400 + yoe + 1;
      (y / 400 - era) * 146097 + YearStart(y - (y / 400) * 400)
      == YearStart(yoe) + (if LongYear(yoe) then 366 else 365)
  {
    if yoe < 399 {
      EraOfYear(era, yoe + 1);
      YearStartStep(yoe);
    } else {
      EraOfYear(era + 1, 0);
    }
  }

  /** The day count of the next date is one more. */
  lemma DaysNext(d: Date)
    requires ValidDate(d)
    ensures DaysFromCivil(NextDate(d)) == DaysFromCivil(d) + 1
  {
    if d.month == 2 && d.day == DaysInMonth(d.year, 2) {
      DaysNextYear(d);
    } else {
      DaysNextInYear(d);
    }
  }

  /** The date of day `z + 1` is the date after that of day `z`: the
      conversion walks the calendar one day at a time, so with one known
      date (`Reminders.DateExample`) it is fixed on every day. */
  lemma CivilNext(z: int)
    ensures CivilFromDays(z + 1) == NextDate(CivilFromDays(z))
  {
    var d := CivilFromDays(z);
    DaysOfCivil(z);
    DaysNext(d);
    CivilOfCount(NextDate(d), z + 1);
  }

  lemma CivilOfCount(d: Date, z: int)
    requires ValidDate(d) && DaysFromCivil(d) == z
    ensures CivilFromDays(z) == d
  {
    CivilOfDays(d);
  }

  /** Day of the week, Monday being 0; 1970-01-01 was a Thursday. */
  function Weekday(z: int): (w: int)
    ensures 0 <= w < 7
  {
    (z + 3) % 7
  }

  /** 1970-01-01 was a Thursday, and each day's weekday follows the previous day's. */
  lemma WeekdayNext(z: int)
    ensures Weekday(0) == 3
    ensures Weekday(z + 1) == (Weekday(z) + 1) % 7
  {
  }

  function WeekdayName(w: int): string
    requires 0 <= w < 7
  {
    ["Monday", "Tuesday", "Wednesday", "Thursday", "Friday", "Saturday", "Sunday"][w]
  }

  function MonthName(m: int): string
    requires 1 <= m <= 12
  {
    ["January", "February", "March", "April", "May", "June", "July",
     "August", "September", "October", "November", "December"][m - 1]
  }

  /** The decimal digit character for `n`. */
  function Digit(n: int): (c: char)
    requires 0 <= n < 10
    ensures '0' <= c <= '9' && DigitValue(c) == n
  {
    ('0' as int + n) as char
  }

  /** The value of a decimal digit character. */
  function DigitValue(c: char): int {
    c as int - '0' as int
  }

  /** Two decimal digits. */
  predicate IsTwoDigits(s: string) {
    |s| == 2 && '0' <= s[0] <= '9' && '0' <= s[1] <= '9'
  }

  /** The number two decimal digits stand for. */
  function TwoDigitValue(s: string): int
    requires |s| == 2
  {
    DigitValue(s[0]) * 10 + DigitValue(s[1])
  }

  /** A number below 100 as two decimal digits, zero-padded, which read
      back as that number. */
  function TwoDigits(n: int): (s: string)
    requires 0 <= n < 100
    ensures IsTwoDigits(s) && TwoDigitValue(s) == n
  {
    [Digit(n / 10), Digit(n % 10)]
  }

  /** The hour and minute of a local instant on its own day. */
  function ClockOf(local: int): (hm: (int, int))
    ensures 0 <= hm.0 < 24 && 0 <= hm.1 < 60
    ensures 0 <= local % SecondsPerDay - (hm.0 * 3600 + hm.1 * 60) < 60
  {
    var secs := local % SecondsPerDay;
    (secs / 3600, secs % 3600 / 60)
  }

  /** `s` is the `'%A, %d %B at %H:%M'` text of second `secs` of day `z`:
      the weekday's name, `", "`, the day of the month as two digits, a
      space, the month's name, `" at "`, and the hour and minute as two
      digits each around a colon, which make up `secs` but for its last
      seconds. */
  predicate Renders(s: string, z: int, secs: int) {
    var w := WeekdayName(Weekday(z));
    var d := CivilFromDays(z);
    var m := MonthName(d.month);
    && |s| == |w| + |m| + 14
    && s[..|w|] == w && s[|w|..|w| + 2] == ", "
    && IsTwoDigits(s[|w| + 2..|w| + 4]) && TwoDigitValue(s[|w| + 2..|w| + 4]) == d.day
    && s[|w| + 4] == ' ' && s[|w| + 5..|w| + 5 + |m|] == m && s[|w| + 5 + |m|..|s| - 5] == " at "
    && IsTwoDigits(s[|s| - 5..|s| - 3]) && s[|s| - 3] == ':' && IsTwoDigits(s[|s| - 2..])
    && var hour, minute := TwoDigitValue(s[|s| - 5..|s| - 3]), TwoDigitValue(s[|s| - 2..]);
    && hour < 24 && minute < 60
    && 0 <= secs - (hour * 3600 + minute * 60) < 60
  }

  /** Where each piece of the `'%A, %d %B at %H:%M'` layout ends up in the text. */
  lemma LayoutPieces(w: string, dd: string, m: string, hh: string, mm: string)
    requires |dd| == 2 && |hh| == 2 && |mm| == 2
    ensures var s := w + ", " + dd + " " + m + " at " + hh + ":" + mm;
      && |s| == |w| + |m| + 14
      && s[..|w|] == w && s[|w|..|w| + 2] == ", " && s[|w| + 2..|w| + 4] == dd
      && s[|w| + 4] == ' ' && s[|w| + 5..|w| + 5 + |m|] == m && s[|w| + 5 + |m|..|s| - 5] == " at "
      && s[|s| - 5..|s| - 3] == hh && s[|s| - 3] == ':' && s[|s| - 2..] == mm
  {
    var a := w + ", " + dd + " " + m;
    var s := a + " at " + hh + ":" + mm;
    assert s == a + (" at " + hh + ":" + mm);
    assert a[..|w|] == w && a[|w|..|w| + 2] == ", " && a[|w| + 2..|w| + 4] == dd;
    assert a[|w| + 4] == ' ' && a[|w| + 5..] == m;
  }

  /** `strftime('%A, %d %B at %H:%M')` of a local instant, in seconds from
      1970-01-01 00:00 local time. */
  function FormatLocal(local: int): string {
    var z := local / SecondsPerDay;
    var d := CivilFromDays(z);
    var hm := ClockOf(local);
    WeekdayName(Weekday(z)) + ", " + TwoDigits(d.day) + " " + MonthName(d.month)
      + " at " + TwoDigits(hm.0) + ":" + TwoDigits(hm.1)
  }

  /** The text `FormatLocal` prints names the local instant's weekday, day
      of the month, month, hour and minute. */
  lemma FormatLocalRenders(local: int)
    ensures Renders(FormatLocal(local), local / SecondsPerDay, local % SecondsPerDay)
  {
    var z := local / SecondsPerDay;
    var d := CivilFromDays(z);
    var hm := ClockOf(local);
    LayoutPieces(WeekdayName(Weekday(z)), TwoDigits(d.day), MonthName(d.month), TwoDigits(hm.0), TwoDigits(hm.1));
  }
}
