/** Day numbers and Gregorian dates (section 3.2.1 of ISO 8601:2004), for all years. */
module Calendar {

  datatype Date = Date(y: int, m: int, d: int)

  const DAY_MS := 86_400_000

  predicate IsLeap(y: int) {
    y % 4 == 0 && (y % 100 != 0 || y % 400 == 0)
  }

  function DaysInMonth(y: int, m: int): int {
    if m == 2 then (if IsLeap(y) then 29 else 28)
    else if m == 4 || m == 6 || m == 9 || m == 11 then 30
    else 31
  }

  predicate ValidDate(t: Date) {
    1 <= t.m <= 12 && 1 <= t.d <= DaysInMonth(t.y, t.m)
  }

  /** The calendar's own rule for the next day. */
  function NextDay(t: Date): Date {
    if t.d < DaysInMonth(t.y, t.m) then Date(t.y, t.m, t.d + 1)
    else if t.m < 12 then Date(t.y, t.m + 1, 1)
    else Date(t.y + 1, 1, 1)
  }

  /** Division that truncates toward zero, as the program's operator does. */
  function Quot(a: int, b: int): int
    requires b > 0
  {
    if a >= 0 then a / b else -((-a) / b)
  }

  // Both directions start the year in March, so that the leap day is its last day, and count years
  // within a 400-year era.

  /** Days before year `yoe` of an era. */
  function YearStart(yoe: int): int {
    365 * yoe + yoe / 4 - yoe / 100
  }

  /** The year of the era of a day of the era. */
  function YearOf(doe: int): int {
    (doe - doe / 1460 + doe / 36_524 - doe / 146_096) / 365
  }

  /** Days before month `mp` of a March year, March being 0. */
  function MonthStart(mp: int): int {
    (153 * mp + 2) / 5
  }

  function MonthOf(mp: int): int {
    if mp < 10 then mp + 3 else mp - 9
  }

  /** Day number of a date, counted from 1970-01-01. */
  function DaysFromCivil(y0: int, m: int, d: int): int {
    var y := if m <= 2 then y0 - 1 else y0;
    var era := Quot(if y >= 0 then y else y - 399, 400);
    var yoe := y - era * 400;
    var mp := if m > 2 then m - 3 else m + 9;
    var doy := MonthStart(mp) + d - 1;
    var doe := YearStart(yoe) + doy;
    era * 146_097 + doe - 719_468
  }

  /** Date of a day number. */
  function CivilFromDays(z0: int): Date {
    var z := z0 + 719_468;
    var era := Quot(if z >= 0 then z else z - 146_096, 146_097);
    var doe := z - era * 146_097;
    var yoe := YearOf(doe);
    var y := yoe + era * 400;
    var doy := doe - YearStart(yoe);
    var mp := (5 * doy + 2) / 153;
    var d := doy - MonthStart(mp) + 1;
    var m := MonthOf(mp);
    Date(if m <= 2 then y + 1 else y, m, d)
  }

  /** Length of the March year `yoe` of an era; its last day is the leap day. */
  function YearLength(yoe: int): int {
    if IsLeap(yoe + 1) then 366 else 365
  }

  lemma EraOfYear(y: int)
    ensures Quot(if y >= 0 then y else y - 399, 400) == y / 400
  {
  }

  lemma EraOfDay(z: int, era: int, doe: int)
    requires z == era * 146_097 + doe && 0 <= doe < 146_097
    ensures Quot(if z >= 0 then z else z - 146_096, 146_097) == era
  {
    assert z / 146_097 == era;
  }

  /** In centuries, olympiads and single years the start of a year is linear. */
  lemma YearStartSplit(c: int, b: int, a: int)
    requires 0 <= c < 4 && 0 <= b < 25 && 0 <= a < 4
    ensures var yoe := 100 * c + 4 * b + a;
            && yoe / 4 == 25 * c + b && yoe / 100 == c
            && YearStart(yoe) == 36_524 * c + 1461 * b + 365 * a
            && (IsLeap(yoe + 1) <==> a == 3 && (b != 24 || c == 3))
  {
  }

  lemma Split(yoe: int) returns (c: int, b: int, a: int)
    requires 0 <= yoe < 400
    ensures 0 <= c < 4 && 0 <= b < 25 && 0 <= a < 4 && yoe == 100 * c + 4 * b + a
  {
    c, b, a := yoe / 100, yoe % 100 / 4, yoe % 4;
  }

  /** The quotients in the year formula, exactly: the correction terms cancel the leap days. */
  lemma YearOfSplit(c: int, b: int, a: int, doy: int)
    requires 0 <= c < 4 && 0 <= b < 25 && 0 <= a < 4
    requires 0 <= doy <= 365 && (doy == 365 ==> a == 3 && (b != 24 || c == 3))
    ensures var doe := 36_524 * c + 1461 * b + 365 * a + doy;
            0 <= doe < 146_097 && YearOf(doe) == 100 * c + 4 * b + a
  {
    var doe := 36_524 * c + 1461 * b + 365 * a + doy;
    var last := if doe == 146_096 then 1 else 0;
    var spill := if 24 * c + b + 365 * a + doy >= 1460 then 1 else 0;
    assert doe / 36_524 == c + last;
    assert doe / 146_096 == last;
    assert doe / 1460 == 25 * c + b + spill;
    assert doe - doe / 1460 + doe / 36_524 - doe / 146_096 == 365 * (100 * c + 4 * b + a) + doy - spill;
  }

  lemma YearOfDay(yoe: int, doy: int)
    requires 0 <= yoe < 400 && 0 <= doy < YearLength(yoe)
    ensures 0 <= YearStart(yoe) + doy < 146_097
    ensures YearOf(YearStart(yoe) + doy) == yoe
  {
    var c, b, a := Split(yoe);
    YearStartSplit(c, b, a);
    YearOfSplit(c, b, a, doy);
  }

  lemma YearStartStep(yoe: int)
    requires 0 <= yoe < 400
    ensures YearStart(yoe + 1) == YearStart(yoe) + (if yoe == 399 then 365 else YearLength(yoe))
  {
  }

  /** Every day of an era lies in the year the formula names. */
  lemma DayInItsYear(doe: int)
    requires 0 <= doe < 146_097
    ensures 0 <= YearOf(doe) < 400
    ensures 0 <= doe - YearStart(YearOf(doe)) < YearLength(YearOf(doe))
  {
    var y := YearWith(doe, 400);
    YearOfDay(y, doe - YearStart(y));
  }

  /** The year that holds day `doe`, by search from the end: years tile the era. */
  lemma {:induction false} YearWith(doe: int, hi: int) returns (y: int)
    requires 0 < hi <= 400 && 0 <= doe
    requires if hi == 400 then doe < 146_097 else doe < YearStart(hi)
    ensures 0 <= y < 400 && 0 <= doe - YearStart(y) < YearLength(y)
    decreases hi
  {
    y := hi - 1;
    YearStartStep(y);
    if doe < YearStart(y) {
      y := YearWith(doe, y);
    }
  }

  // Months of the year that starts in March

  /** The month formula inverts the month table: day `doy` of a March year lies in month
      `(5 * doy + 2) / 153`. */
  lemma MonthOfDay(doy: int)
    requires 0 <= doy <= 365
    ensures var mp := (5 * doy + 2) / 153; 0 <= mp < 12 && MonthStart(mp) <= doy && (mp < 11 ==> doy < MonthStart(mp + 1))
  {
  }

  lemma MonthLengths(y: int, mp: int)
    requires 0 <= mp < 11
    ensures MonthStart(mp + 1) - MonthStart(mp) == DaysInMonth(y, MonthOf(mp))
  {
  }

  lemma DayOfMonth(mp: int, doy: int)
    requires 0 <= mp < 12 && MonthStart(mp) <= doy <= 365 && (mp < 11 ==> doy < MonthStart(mp + 1))
    ensures (5 * doy + 2) / 153 == mp
  {
  }

  lemma Mod4InEra(era: int, yoe: int)
    ensures (400 * era + yoe) % 4 == yoe % 4
  {
    assert (400 * era + yoe) / 4 == 100 * era + yoe / 4;
  }

  lemma Mod100InEra(era: int, yoe: int)
    ensures (400 * era + yoe) % 100 == yoe % 100
  {
    assert (400 * era + yoe) / 100 == 4 * era + yoe / 100;
  }

  lemma Mod400InEra(era: int, yoe: int)
    ensures (400 * era + yoe) % 400 == yoe % 400
  {
    assert (400 * era + yoe) / 400 == era + yoe / 400;
  }

  /** Leap years do not depend on the era. */
  lemma LeapInEra(era: int, yoe: int)
    ensures IsLeap(400 * era + yoe) <==> IsLeap(yoe)
  {
    Mod4InEra(era, yoe);
    Mod100InEra(era, yoe);
    Mod400InEra(era, yoe);
  }

  /** A date written as era, year of the era (from March) and day of that year. */
  function DateAt(era: int, yoe: int, mp: int, d: int): Date {
    var y := 400 * era + yoe;
    Date(if MonthOf(mp) <= 2 then y + 1 else y, MonthOf(mp), d)
  }

  function DayNumberAt(era: int, yoe: int, mp: int, d: int): int {
    era * 146_097 + YearStart(yoe) + MonthStart(mp) + d - 1 - 719_468
  }

  lemma CivilOfEra(n: int, era: int, doe: int, yoe: int, doy: int, mp: int)
    requires n + 719_468 == era * 146_097 + doe && 0 <= doe < 146_097
    requires YearOf(doe) == yoe && doe - YearStart(yoe) == doy && (5 * doy + 2) / 153 == mp
    ensures CivilFromDays(n) == DateAt(era, yoe, mp, doy - MonthStart(mp) + 1)
  {
    EraOfDay(n + 719_468, era, doe);
  }

  lemma CivilAt(n: int, era: int, yoe: int, doy: int, mp: int)
    requires 0 <= yoe < 400 && 0 <= doy < YearLength(yoe)
    requires 0 <= mp < 12 && MonthStart(mp) <= doy && (mp < 11 ==> doy < MonthStart(mp + 1))
    requires n == era * 146_097 + YearStart(yoe) + doy - 719_468
    ensures CivilFromDays(n) == DateAt(era, yoe, mp, doy - MonthStart(mp) + 1)
  {
    YearOfDay(yoe, doy);
    DayOfMonth(mp, doy);
    CivilOfEra(n, era, YearStart(yoe) + doy, yoe, doy, mp);
  }

  lemma DaysAt(era: int, yoe: int, mp: int, d: int)
    requires 0 <= yoe < 400 && 0 <= mp < 12
    ensures var t := DateAt(era, yoe, mp, d);
            DaysFromCivil(t.y, t.m, t.d) == DayNumberAt(era, yoe, mp, d)
  {
    var y := 400 * era + yoe;
    EraOfYear(y);
    assert y / 400 == era;
  }

  lemma ValidAt(era: int, yoe: int, mp: int, d: int)
    requires 0 <= yoe < 400 && 0 <= mp < 12
    ensures ValidDate(DateAt(era, yoe, mp, d)) <==>
            1 <= d && (if mp < 11 then MonthStart(mp) + d - 1 < MonthStart(mp + 1)
                       else MonthStart(mp) + d - 1 < YearLength(yoe))
  {
    LeapInEra(era, yoe + 1);
    if mp < 11 {
      MonthLengths(DateAt(era, yoe, mp, d).y, mp);
    }
  }

  /** The coordinates of a valid date. */
  lemma Coordinates(t: Date) returns (era: int, yoe: int, mp: int)
    requires 1 <= t.m <= 12
    ensures 0 <= yoe < 400 && 0 <= mp < 12 && t == DateAt(era, yoe, mp, t.d)
  {
    var y := if t.m <= 2 then t.y - 1 else t.y;
    era, yoe := y / 400, y % 400;
    mp := if t.m > 2 then t.m - 3 else t.m + 9;
  }

  lemma DayInYear(mp: int, d: int, yoe: int)
    requires 0 <= mp < 12 && 1 <= d
    requires if mp < 11 then MonthStart(mp) + d - 1 < MonthStart(mp + 1) else MonthStart(mp) + d - 1 < YearLength(yoe)
    ensures 0 <= MonthStart(mp) + d - 1 < YearLength(yoe)
  {
  }

  /** Every day number is the day number of a valid date, the one the program computes. */
  lemma DaysOfCivil(z: int)
    ensures ValidDate(CivilFromDays(z))
    ensures DaysFromCivil(CivilFromDays(z).y, CivilFromDays(z).m, CivilFromDays(z).d) == z
  {
    var era, doe := (z + 719_468) / 146_097, (z + 719_468) % 146_097;
    DayInItsYear(doe);
    var yoe := YearOf(doe);
    var doy := doe - YearStart(yoe);
    MonthOfDay(doy);
    var mp := (5 * doy + 2) / 153;
    CivilAt(z, era, yoe, doy, mp);
    DaysAt(era, yoe, mp, doy - MonthStart(mp) + 1);
    ValidAt(era, yoe, mp, doy - MonthStart(mp) + 1);
  }

  /** Every valid date comes back from its day number. */
  lemma CivilOfDays(t: Date, n: int)
    requires ValidDate(t) && DaysFromCivil(t.y, t.m, t.d) == n
    ensures CivilFromDays(n) == t
  {
    var era, yoe, mp := Coordinates(t);
    ValidAt(era, yoe, mp, t.d);
    DayInYear(mp, t.d, yoe);
    DaysAt(era, yoe, mp, t.d);
    CivilAt(n, era, yoe, MonthStart(mp) + t.d - 1, mp);
  }

  /** The next day in coordinates: within the month, into the next month, or into the next March year. */
  lemma NextAt(era: int, yoe: int, mp: int, d: int) returns (era': int, yoe': int, mp': int, d': int)
    requires 0 <= yoe < 400 && 0 <= mp < 12 && ValidDate(DateAt(era, yoe, mp, d))
    ensures 0 <= yoe' < 400 && 0 <= mp' < 12 && NextDay(DateAt(era, yoe, mp, d)) == DateAt(era', yoe', mp', d')
    ensures DayNumberAt(era', yoe', mp', d') == DayNumberAt(era, yoe, mp, d) + 1
    ensures ValidDate(DateAt(era', yoe', mp', d'))
  {
    var t := DateAt(era, yoe, mp, d);
    era', yoe', mp', d' := era, yoe, mp, d + 1;
    if d == DaysInMonth(t.y, t.m) {
      mp', d' := mp + 1, 1;
      if mp < 11 {
        MonthLengths(t.y, mp);
      } else {
        ValidAt(era, yoe, mp, d);
        ValidAt(era, yoe, mp, d + 1);
        YearStartStep(yoe);
        mp' := 0;
        yoe', era' := if yoe < 399 then yoe + 1 else 0, if yoe < 399 then era else era + 1;
      }
    }
  }

  /** The day number of the next date is the next day number. */
  lemma NextDayNumber(t: Date, n: int)
    requires ValidDate(t) && DaysFromCivil(t.y, t.m, t.d) == n
    ensures ValidDate(NextDay(t))
    ensures DaysFromCivil(NextDay(t).y, NextDay(t).m, NextDay(t).d) == n + 1
  {
    var era, yoe, mp := Coordinates(t);
    DaysAt(era, yoe, mp, t.d);
    var era', yoe', mp', d' := NextAt(era, yoe, mp, t.d);
    DaysAt(era', yoe', mp', d');
  }

  /** Consecutive day numbers are consecutive dates. */
  lemma ConsecutiveDays(z: int)
    ensures CivilFromDays(z + 1) == NextDay(CivilFromDays(z))
  {
    var t := CivilFromDays(z);
    DaysOfCivil(z);
    NextDayNumber(t, z);
    CivilOfDays(NextDay(t), z + 1);
  }

  /** The calendar is pinned down: any assignment of valid dates to day numbers that starts at
      1970-01-01 and goes from each day to the next is the one the program computes, in both directions
      of time. */
  lemma {:induction false} OnlyCalendar(f: int -> Date, z: int)
    requires f(0) == Date(1970, 1, 1)
    requires forall n :: ValidDate(f(n)) && f(n + 1) == NextDay(f(n))
    ensures f(z) == CivilFromDays(z)
    decreases if z < 0 then -z else z
  {
    hide CivilFromDays, NextDay, ValidDate;
    if z == 0 {
      FirstDay();
    } else if z > 0 {
      OnlyCalendar(f, z - 1);
      ConsecutiveDays(z - 1);
      assert f(z - 1 + 1) == NextDay(f(z - 1));
    } else {
      OnlyCalendar(f, z + 1);
      assert f(z + 1) == NextDay(f(z)) && ValidDate(f(z));
      NextDayInjective(f(z), z);
    }
  }

  lemma FirstDay()
    ensures CivilFromDays(0) == Date(1970, 1, 1)
  {
    CivilAt(0, 4, 369, 306, 10);
  }

  lemma NextDayInjective(t: Date, z: int)
    requires ValidDate(t) && NextDay(t) == CivilFromDays(z + 1)
    ensures t == CivilFromDays(z)
  {
    var n := DaysFromCivil(t.y, t.m, t.d);
    NextDayNumber(t, n);
    DaysOfCivil(z + 1);
    CivilOfDays(t, n);
  }
}
