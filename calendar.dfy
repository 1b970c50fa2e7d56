/** Local calendar arithmetic used by the recurrence generator and the
    client form: an instant is a count of milliseconds in one fixed local
    time zone without daylight-saving changes; day 0 is 1970-01-01.
    Civil dates are converted with the proleptic Gregorian day-count
    formulas (days_from_civil / civil_from_days). */
module Calendar {

  import opened Common

  const MsPerMinute: int := 60_000
  const MsPerHour: int := 3_600_000
  const MsPerDay: int := 86_400_000

  /** A JavaScript Date: a valid instant, or the invalid date (NaN time value),
      against which every comparison is false. */
  datatype JsDate = Time(ms: int) | InvalidDate

  /** Calendar day of an instant (floor division: also right before 1970). */
  function DayOf(t: int): int
  {
    t / MsPerDay
  }

  /** Milliseconds elapsed since local midnight. */
  function MsOfDay(t: int): int
  {
    t % MsPerDay
  }

  function Midnight(day: int): int
  {
    day * MsPerDay
  }

  /** Day of the week, 0 = Sunday .. 6 = Saturday; day 0 (1970-01-01) was a Thursday. */
  function Weekday(day: int): (w: int)
    ensures 0 <= w < 7
  {
    (day + 4) % 7
  }

  /** date-fns getDay. */
  function GetDay(t: int): int
  {
    Weekday(DayOf(t))
  }

  /** date-fns addDays: same local time, n days later. */
  function AddDays(t: int, n: int): int
  {
    t + n * MsPerDay
  }

  lemma DayOfMidnightPlus(day: int, x: int)
    requires 0 <= x < MsPerDay
    ensures DayOf(Midnight(day) + x) == day
    ensures MsOfDay(Midnight(day) + x) == x
  {
  }

  /** n days after a midnight falls on the day n days later. */
  lemma AddDaysFromMidnight(day: int, n: int)
    ensures DayOf(AddDays(Midnight(day), n)) == day + n
  {
    assert AddDays(Midnight(day), n) == Midnight(day + n) + 0;
    DayOfMidnightPlus(day + n, 0);
  }

  lemma AddDayNext(t: int)
    ensures DayOf(AddDays(t, 1)) == DayOf(t) + 1
    ensures MsOfDay(AddDays(t, 1)) == MsOfDay(t)
  {
  }

  // ---------------------------------------------------------------------
  // Time of day: "HH:MM"

  /** Hours and minutes read from a "HH:MM" string. */
  datatype Clock = Clock(hours: nat, minutes: nat)

  predicate ValidClock(c: Clock)
  {
    c.hours < 24 && c.minutes < 60
  }

  function ClockMs(c: Clock): nat
  {
    c.hours * MsPerHour + c.minutes * MsPerMinute
  }

  lemma ClockWithinDay(c: Clock)
    requires ValidClock(c)
    ensures ClockMs(c) < MsPerDay
  {
  }

  /** Reads a time picker value "HH:MM"; None for anything else. */
  function ParseClock(s: string): (r: Option<Clock>)
    ensures r.Some? ==> ValidClock(r.value)
  {
    if |s| == 5 && '0' <= s[0] <= '9' && '0' <= s[1] <= '9' && s[2] == ':'
       && '0' <= s[3] <= '9' && '0' <= s[4] <= '9'
    then
      var h := (s[0] as int - '0' as int) * 10 + (s[1] as int - '0' as int);
      var m := (s[3] as int - '0' as int) * 10 + (s[4] as int - '0' as int);
      if h < 24 && m < 60 then Some(Clock(h, m)) else None
    else None
  }

  /** Date.prototype.setHours(h, m, 0, 0): same calendar day, the given clock
      time, seconds and milliseconds zero. Hours past 23 roll over into the
      following days exactly as the JavaScript method does. */
  function SetHours(t: int, c: Clock): int
  {
    Midnight(DayOf(t)) + ClockMs(c)
  }

  // ---------------------------------------------------------------------
  // Civil dates

  datatype CivilDate = CivilDate(year: int, month: int, day: int)

  predicate IsLeapYear(y: int)
  {
    y % 4 == 0 && (y % 100 != 0 || y % 400 == 0)
  }

  function DaysInMonth(y: int, m: int): (n: int)
    ensures 28 <= n <= 31
  {
    if m == 2 then (if IsLeapYear(y) then 29 else 28)
    else if m == 4 || m == 6 || m == 9 || m == 11 then 30
    else 31
  }

  predicate ValidDate(d: CivilDate)
  {
    1 <= d.month <= 12 && 1 <= d.day <= DaysInMonth(d.year, d.month)
  }

  /** The formulas count years from 1 March, in eras of 400 years (146097
      days); `YearStart(yoe)` is the day of the era on which its year `yoe`
      begins. */
  function YearStart(yoe: int): int
  {
    yoe * 365 + yoe / 4 - yoe / 100
  }

  /** The year of the era holding day `doe` of the era. */
  function YearOfEra(doe: int): int
  {
    (doe - doe / 1460 + doe / 36524 - doe / 146096) / 365
  }

  /** The day of a March-based year on which month `mp` (0 = March) begins. */
  function MonthStart(mp: int): int
  {
    (153 * mp + 2) / 5
  }

  /** Day number of a civil date (days_from_civil). */
  function DaysFromCivil(d: CivilDate): int
  {
    var y := if d.month <= 2 then d.year - 1 else d.year;
    var era := y / 400;
    var yoe := y - era * 400;
    var mp := (d.month + 9) % 12;
    var doy := MonthStart(mp) + d.day - 1;
    var doe := YearStart(yoe) + doy;
    era * 146097 + doe - 719468
  }

  /** Civil date of a day number (civil_from_days). */
  function CivilFromDays(n: int): CivilDate
  {
    var z := n + 719468;
    var era := z / 146097;
    var doe := z - era * 146097;
    var yoe := YearOfEra(doe);
    var doy := doe - YearStart(yoe);
    var mp := (5 * doy + 2) / 153;
    var day := doy - MonthStart(mp) + 1;
    var month := if mp < 10 then mp + 3 else mp - 9;
    CivilDate(yoe + era * 400 + (if month <= 2 then 1 else 0), month, day)
  }

  /** The year found for a day of the era is the one whose span holds the
      day; only a year followed by a leap day has a 366th day. */
  lemma YearOfEraBounds(doe: int)
    requires 0 <= doe < 146097
    ensures 0 <= YearOfEra(doe) <= 399
    ensures 0 <= doe - YearStart(YearOfEra(doe)) <= 365
    ensures doe - YearStart(YearOfEra(doe)) == 365 ==> LeapDayFollows(YearOfEra(doe))
  {
    if doe == 146096 {
      LastDayOfEra();
    } else {
      var c, b, t := EraBlocks(doe);
      var a := YearInBlock(c, b, t);
      YearStartInBlock(c, b, a);
      if t - 365 * a == 365 {
        BlockEndsLeap(c, b);
      }
    }
  }

  /** Year `yoe` of an era ends with a 29th of February: the next year of the
      era is a multiple of 4, and of 400 if it is one of 100. */
  predicate LeapDayFollows(yoe: int)
  {
    (yoe + 1) % 4 == 0 && ((yoe + 1) % 100 != 0 || yoe == 399)
  }

  /** The era's last day is the 366th day of its last year. */
  lemma LastDayOfEra()
    ensures YearOfEra(146096) == 399 && 146096 - YearStart(399) == 365 && LeapDayFollows(399)
  {
  }

  /** A block other than a century's last ends in a leap day. */
  lemma BlockEndsLeap(c: int, b: int)
    requires 0 <= c <= 3 && 0 <= b <= 23
    ensures LeapDayFollows(100 * c + 4 * b + 3)
  {
    assert (100 * c + 4 * b + 4) % 100 == 4 * b + 4;
  }

  /** A day of the era, short of its last, is a day `t` of the four-year block
      `b` of the century `c`; a century's last block is one day short. */
  lemma EraBlocks(doe: int) returns (c: int, b: int, t: int)
    requires 0 <= doe < 146096
    ensures doe == 36524 * c + 1461 * b + t
    ensures 0 <= c <= 3 && 0 <= b <= 24 && 0 <= t <= 1460 && (b == 24 ==> t < 1460)
  {
    c := doe / 36524;
    var s := doe - 36524 * c;
    b := s / 1461;
    t := s - 1461 * b;
  }

  /** The year `a` of the block the formula finds for its day `t`: the day
      falls in that year, and only the block's last day is a 366th. */
  lemma YearInBlock(c: int, b: int, t: int) returns (a: int)
    requires 0 <= c <= 3 && 0 <= b <= 24 && 0 <= t <= 1460 && (b == 24 ==> t < 1460)
    ensures 0 <= a <= 3 && YearOfEra(36524 * c + 1461 * b + t) == 100 * c + 4 * b + a
    ensures 0 <= t - 365 * a <= 365 && (t - 365 * a == 365 ==> t == 1460 && a == 3 && b <= 23)
  {
    var e := (24 * c + b + t) / 1460;
    assert 0 <= e <= 1 && (t == 1460 ==> e == 1);
    a := (t - e) / 365;
    var doe := 36524 * c + 1461 * b + t;
    assert doe / 1460 == 25 * c + b + e;
    assert doe / 36524 == c;
    assert doe / 146096 == 0;
    assert doe - doe / 1460 + doe / 36524 - doe / 146096 == 365 * (100 * c + 4 * b) + (t - e);
  }

  /** Year `a` of block `b` of century `c` starts after the days of the
      earlier centuries, blocks and years. */
  lemma YearStartInBlock(c: int, b: int, a: int)
    requires 0 <= c <= 3 && 0 <= b <= 24 && 0 <= a <= 3
    ensures YearStart(100 * c + 4 * b + a) == 36524 * c + 1461 * b + 365 * a
  {
    assert (100 * c + 4 * b + a) / 4 == 25 * c + b;
    assert (100 * c + 4 * b + a) / 100 == c;
  }

  /** The month found for a day of a March-based year: it starts on or before
      that day, and the day falls within its length; the 29th of February is
      the year's 366th day. */
  lemma MonthOfYear(doy: int)
    requires 0 <= doy <= 365
    ensures var mp := (5 * doy + 2) / 153;
      var day := doy - MonthStart(mp) + 1;
      var month := if mp < 10 then mp + 3 else mp - 9;
      0 <= mp <= 11 && 1 <= day &&
      if month == 2 then day <= 28 || (day == 29 && doy == 365) else day <= DaysInMonth(0, month)
  {
  }

  /** The civil date of a March-based year `yoe` of era `era`, on day `doy`
      of that year. */
  function EraDate(era: int, yoe: int, doy: int): CivilDate
  {
    var mp := (5 * doy + 2) / 153;
    var month := if mp < 10 then mp + 3 else mp - 9;
    CivilDate(yoe + era * 400 + (if month <= 2 then 1 else 0), month, doy - MonthStart(mp) + 1)
  }

  /** A day number splits into an era, a year of the era and a day of that
      year, and its civil date is the one these name. */
  lemma CivilParts(n: int) returns (era: int, yoe: int, doy: int)
    ensures 0 <= yoe <= 399 && 0 <= doy <= 365
    ensures doy == 365 ==> LeapDayFollows(yoe)
    ensures n == era * 146097 + YearStart(yoe) + doy - 719468
    ensures CivilFromDays(n) == EraDate(era, yoe, doy)
  {
    var z := n + 719468;
    era := z / 146097;
    var doe := z - era * 146097;
    YearOfEraBounds(doe);
    yoe := YearOfEra(doe);
    doy := doe - YearStart(yoe);
  }

  /** Every day number names a valid civil date, and numbering that date
      gives the day number back. */
  lemma CivilRoundTrip(n: int)
    ensures ValidDate(CivilFromDays(n))
    ensures DaysFromCivil(CivilFromDays(n)) == n
  {
    var era, yoe, doy := CivilParts(n);
    EraDateValid(era, yoe, doy);
    EraDateNumbered(era, yoe, doy);
  }

  lemma EraDateValid(era: int, yoe: int, doy: int)
    requires 0 <= yoe <= 399 && 0 <= doy <= 365
    requires doy == 365 ==> LeapDayFollows(yoe)
    ensures ValidDate(EraDate(era, yoe, doy))
  {
    MonthOfYear(doy);
    var c := EraDate(era, yoe, doy);
    if c.month != 2 {
      assert DaysInMonth(c.year, c.month) == DaysInMonth(0, c.month);
    } else if doy == 365 {
      LeapInEra(yoe, era);
    }
  }

  lemma EraDateNumbered(era: int, yoe: int, doy: int)
    requires 0 <= yoe <= 399 && 0 <= doy <= 365
    ensures DaysFromCivil(EraDate(era, yoe, doy)) == era * 146097 + YearStart(yoe) + doy - 719468
  {
    MonthOfYear(doy);
    var mp := (5 * doy + 2) / 153;
    EraOfYear(yoe, era);
    MarchBased(mp);
  }

  lemma EraOfYear(yoe: int, era: int)
    requires 0 <= yoe <= 399
    ensures (yoe + era * 400) / 400 == era
  {
  }

  /** Months counted from March (0) map back to the same count. */
  lemma MarchBased(mp: int)
    requires 0 <= mp <= 11
    ensures ((if mp < 10 then mp + 3 else mp - 9) + 9) % 12 == mp
  {
  }

  /** A year of the era followed by a leap day gives a leap calendar year,
      whatever the era. */
  lemma LeapInEra(yoe: int, era: int)
    requires 0 <= yoe <= 399
    requires LeapDayFollows(yoe)
    ensures IsLeapYear(yoe + era * 400 + 1)
  {
    EraShift4(yoe + 1, era);
    EraShift100(yoe + 1, era);
    EraShift400(yoe + 1, era);
  }

  /** Whole eras change neither the year's remainder by 4, by 100 nor by 400. */
  lemma EraShift4(x: int, era: int)
    ensures (x + era * 400) % 4 == x % 4
  {
    var k := era * 100;
    assert x + era * 400 == x + 4 * k;
  }

  lemma EraShift100(x: int, era: int)
    ensures (x + era * 400) % 100 == x % 100
  {
    var k := era * 4;
    assert x + era * 400 == x + 100 * k;
  }

  lemma EraShift400(x: int, era: int)
    ensures (x + era * 400) % 400 == x % 400
  {
  }

  /** Consecutive days of one month have consecutive day numbers. */
  lemma DaysFromCivilNextDay(y: int, m: int, d: int)
    ensures DaysFromCivil(CivilDate(y, m, d + 1)) == DaysFromCivil(CivilDate(y, m, d)) + 1
  {
  }

  /** The day numbering agrees with the calendar: 1970-01-01 is day 0, and
      2024-09-02 (day 19968) was a Monday. */
  lemma CalendarAnchors()
    ensures DaysFromCivil(CivilDate(1970, 1, 1)) == 0
    ensures CivilFromDays(0) == CivilDate(1970, 1, 1)
    ensures DaysFromCivil(CivilDate(2024, 9, 2)) == 19968 && Weekday(19968) == 1
  {
    EpochNumbered();
    EpochFromDayZero();
    KnownMonday();
  }

  lemma EpochNumbered()
    ensures DaysFromCivil(CivilDate(1970, 1, 1)) == 0
  {
    assert (153 * 10 + 2) / 5 == 306;
    assert 1969 / 400 == 4;
  }

  lemma EpochFromDayZero()
    ensures CivilFromDays(0) == CivilDate(1970, 1, 1)
  {
    assert 719468 / 146097 == 4;
    assert (135080 - 135080 / 1460 + 135080 / 36524 - 135080 / 146096) / 365 == 369;
    assert (5 * 306 + 2) / 153 == 10;
    assert (153 * 10 + 2) / 5 == 306;
  }

  lemma KnownMonday()
    ensures DaysFromCivil(CivilDate(2024, 9, 2)) == 19968 && Weekday(19968) == 1
  {
    assert (153 * 6 + 2) / 5 == 184;
    assert 2024 / 400 == 5;
  }

  /** First and last day numbers of the month containing a day. */
  function MonthFirstDay(day: int): int
  {
    var c := CivilFromDays(day);
    DaysFromCivil(CivilDate(c.year, c.month, 1))
  }

  function MonthLastDay(day: int): int
  {
    var c := CivilFromDays(day);
    DaysFromCivil(CivilDate(c.year, c.month, DaysInMonth(c.year, c.month)))
  }

  lemma MonthSpan(day: int)
    ensures MonthFirstDay(day) + 27 <= MonthLastDay(day) <= MonthFirstDay(day) + 30
  {
    var c := CivilFromDays(day);
    var k := DaysInMonth(c.year, c.month);
    assert DaysFromCivil(CivilDate(c.year, c.month, k)) == DaysFromCivil(CivilDate(c.year, c.month, 1)) + k - 1;
  }

  /** A day lies in its own month, and an instant between the start and the
      end of its month. */
  lemma MonthContains(t: int)
    ensures MonthFirstDay(DayOf(t)) <= DayOf(t) <= MonthLastDay(DayOf(t))
    ensures StartOfMonth(t) <= t <= EndOfMonth(t)
  {
    var day := DayOf(t);
    MonthContainsDay(day);
    DayOfMidnightPlus(day, MsOfDay(t));
  }

  lemma MonthContainsDay(day: int)
    ensures MonthFirstDay(day) <= day <= MonthLastDay(day)
  {
    CivilRoundTrip(day);
    var c := CivilFromDays(day);
    DaysFromCivilInMonth(c.year, c.month, c.day);
    DaysFromCivilInMonth(c.year, c.month, DaysInMonth(c.year, c.month));
  }

  /** Day `d` of a month is numbered d - 1 days after its first day. */
  lemma DaysFromCivilInMonth(y: int, m: int, d: int)
    ensures DaysFromCivil(CivilDate(y, m, d)) == DaysFromCivil(CivilDate(y, m, 1)) + d - 1
  {
  }

  /** date-fns startOfMonth: local midnight of the first day of the month. */
  function StartOfMonth(t: int): int
  {
    Midnight(MonthFirstDay(DayOf(t)))
  }

  /** date-fns endOfMonth: 23:59:59.999 on the last day of the month. */
  function EndOfMonth(t: int): int
  {
    Midnight(MonthLastDay(DayOf(t))) + MsPerDay - 1
  }

  /** Date.prototype.setMonth(getMonth() + n): the month moves by n (carrying
      into the year), the day of the month is kept and overflows into the next
      month when that month is shorter (31 August + 6 months is 3 March in a
      non-leap year), and the time of day is kept. */
  function AddMonths(t: int, n: int): int
  {
    var c := CivilFromDays(DayOf(t));
    var total := c.month - 1 + n;
    var first := DaysFromCivil(CivilDate(c.year + total / 12, total % 12 + 1, 1));
    Midnight(first + c.day - 1) + MsOfDay(t)
  }

  lemma AddMonthsKeepsTimeOfDay(t: int, n: int)
    ensures MsOfDay(AddMonths(t, n)) == MsOfDay(t)
  {
    var c := CivilFromDays(DayOf(t));
    var total := c.month - 1 + n;
    var first := DaysFromCivil(CivilDate(c.year + total / 12, total % 12 + 1, 1));
    DayOfMidnightPlus(first + c.day - 1, MsOfDay(t));
  }
}
