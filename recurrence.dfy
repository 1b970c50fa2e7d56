/** The recurrence date generator: walk day by day over a window, keep the
    days whose weekday matches, stamp each with the rule's clock time and keep
    the stamped instant if it passes the window's bounds. Three window
    policies: the month of the start date, an explicit (seasonal) range, and a
    rolling window of some months after the start. */
module Recurrence {

  import opened Common
  import opened Calendar

  /** The generator's input. `time` is the rule's "HH:MM" already read as a clock. */
  datatype RecurrenceConfig = RecurrenceConfig(
    dayOfWeek: int,
    time: Clock,
    startDate: int,
    endDate: Option<JsDate>,
    periodType: string)

  const DefaultMonthsAhead: int := 6

  const SeasonalEndMissing: string := "Une récurrence saisonnière doit avoir une date de fin"

  /** The upper bound a stamped instant is compared with: none, an instant, or an
      invalid date (every comparison with it is false). */
  datatype Upper = NoUpper | UpTo(ms: int) | NeverUpper

  function UpperOf(d: JsDate): Upper
  {
    match d
    case Time(x) => UpTo(x)
    case InvalidDate => NeverUpper
  }

  /** `t <= d` on JavaScript dates. */
  predicate NotAfter(t: int, d: JsDate)
  {
    d.Time? && t <= d.ms
  }

  predicate Admits(lo: int, hi: Upper, t: int)
  {
    lo <= t &&
    match hi
    case NoUpper => true
    case UpTo(h) => t <= h
    case NeverUpper => false
  }

  /** The instant at the given clock time on a day. */
  function At(day: int, time: Clock): int
  {
    Midnight(day) + ClockMs(time)
  }

  /** What one loop iteration contributes for the cursor `cur`. */
  function Candidate(cur: int, dow: int, time: Clock, lo: int, hi: Upper): seq<int>
  {
    if GetDay(cur) == dow && Admits(lo, hi, SetHours(cur, time)) then [SetHours(cur, time)] else []
  }

  /** Everything the loop `while (cur <= stop) { ...; cur = addDays(cur, 1) }`
      collects from cursor `cur` on. */
  function Sweep(cur: int, stop: int, dow: int, time: Clock, lo: int, hi: Upper): seq<int>
    decreases stop - cur
  {
    if cur > stop then []
    else Candidate(cur, dow, time, lo, hi) + Sweep(AddDays(cur, 1), stop, dow, time, lo, hi)
  }

  lemma SweepStep(cur: int, stop: int, dow: int, time: Clock, lo: int, hi: Upper)
    requires cur <= stop
    ensures Sweep(cur, stop, dow, time, lo, hi)
         == Candidate(cur, dow, time, lo, hi) + Sweep(AddDays(cur, 1), stop, dow, time, lo, hi)
  {
  }

  /** Day `d` is visited by the loop: the cursor reaches it, at the cursor's own
      time of day, without passing `stop`. */
  predicate Scanned(cur: int, stop: int, d: int)
  {
    DayOf(cur) <= d && cur + (d - DayOf(cur)) * MsPerDay <= stop
  }

  /** Every collected instant lies on a visited day, on the requested weekday, at
      the requested clock time, and passes the bounds. */
  lemma {:induction false} SweepSound(cur: int, stop: int, dow: int, time: Clock, lo: int, hi: Upper)
    requires ValidClock(time)
    ensures forall e :: e in Sweep(cur, stop, dow, time, lo, hi) ==>
      Scanned(cur, stop, DayOf(e)) && Weekday(DayOf(e)) == dow &&
      e == At(DayOf(e), time) && Admits(lo, hi, e)
    decreases stop - cur
  {
    if cur <= stop {
      var next := AddDays(cur, 1);
      SweepSound(next, stop, dow, time, lo, hi);
      AddDayNext(cur);
      ClockWithinDay(time);
      DayOfMidnightPlus(DayOf(cur), ClockMs(time));
      forall e | e in Sweep(next, stop, dow, time, lo, hi)
        ensures Scanned(cur, stop, DayOf(e))
      {
        assert Scanned(next, stop, DayOf(e));
      }
    }
  }

  /** Every visited day on the requested weekday whose stamped instant passes the
      bounds is collected. */
  lemma {:induction false} SweepComplete(cur: int, stop: int, dow: int, time: Clock, lo: int, hi: Upper, d: int)
    requires Scanned(cur, stop, d) && Weekday(d) == dow && Admits(lo, hi, At(d, time))
    ensures At(d, time) in Sweep(cur, stop, dow, time, lo, hi)
    decreases stop - cur
  {
    var next := AddDays(cur, 1);
    AddDayNext(cur);
    if d == DayOf(cur) {
      assert Candidate(cur, dow, time, lo, hi) == [At(d, time)];
    } else {
      assert Scanned(next, stop, d);
      SweepComplete(next, stop, dow, time, lo, hi, d);
    }
  }

  /** Membership in a sweep, both directions. */
  lemma SweepMembership(cur: int, stop: int, dow: int, time: Clock, lo: int, hi: Upper, e: int)
    requires ValidClock(time)
    ensures e in Sweep(cur, stop, dow, time, lo, hi) <==>
      Scanned(cur, stop, DayOf(e)) && Weekday(DayOf(e)) == dow &&
      e == At(DayOf(e), time) && Admits(lo, hi, e)
  {
    SweepSound(cur, stop, dow, time, lo, hi);
    if Scanned(cur, stop, DayOf(e)) && Weekday(DayOf(e)) == dow && e == At(DayOf(e), time) && Admits(lo, hi, e) {
      SweepComplete(cur, stop, dow, time, lo, hi, DayOf(e));
    }
  }

  /** The collected instants fall on strictly increasing days: they are strictly
      increasing, and no calendar day appears twice. */
  predicate IncreasingDays(r: seq<int>)
  {
    forall i, j :: 0 <= i < j < |r| ==> DayOf(r[i]) < DayOf(r[j]) && r[i] < r[j]
  }

  lemma {:induction false} SweepIncreasing(cur: int, stop: int, dow: int, time: Clock, lo: int, hi: Upper)
    requires ValidClock(time)
    ensures IncreasingDays(Sweep(cur, stop, dow, time, lo, hi))
    decreases stop - cur
  {
    if cur <= stop {
      var next := AddDays(cur, 1);
      var head := Candidate(cur, dow, time, lo, hi);
      var tail := Sweep(next, stop, dow, time, lo, hi);
      SweepIncreasing(next, stop, dow, time, lo, hi);
      SweepSound(next, stop, dow, time, lo, hi);
      AddDayNext(cur);
      ClockWithinDay(time);
      DayOfMidnightPlus(DayOf(cur), ClockMs(time));
      var r := head + tail;
      assert IncreasingDays(tail);
      forall i, j | 0 <= i < j < |r| ensures DayOf(r[i]) < DayOf(r[j]) && r[i] < r[j] {
        if i < |head| {
          var x := tail[j - |head|];
          assert r[j] == x && x in tail;
          assert r[i] == At(DayOf(cur), time) && DayOf(r[i]) == DayOf(cur);
          assert DayOf(cur) + 1 <= DayOf(x) && x == At(DayOf(x), time);
          assert At(DayOf(cur), time) < Midnight(DayOf(cur) + 1) <= Midnight(DayOf(x));
        } else {
          var i', j' := i - |head|, j - |head|;
          assert r[i] == tail[i'] && r[j] == tail[j'];
          assert 0 <= i' < j' < |tail|;
          assert DayOf(tail[i']) < DayOf(tail[j']) && tail[i'] < tail[j'];
        }
      }
    }
  }

  /** A weekday outside 0..6 never matches getDay: the sweep is empty. */
  lemma {:induction false} SweepNoSuchWeekday(cur: int, stop: int, dow: int, time: Clock, lo: int, hi: Upper)
    requires dow < 0 || dow > 6
    ensures Sweep(cur, stop, dow, time, lo, hi) == []
    decreases stop - cur
  {
    if cur <= stop {
      SweepNoSuchWeekday(AddDays(cur, 1), stop, dow, time, lo, hi);
    }
  }

  // ---------------------------------------------------------------------
  // The three window policies, as functions

  /** generateMonthlyDates: scan the whole calendar month of the start date and
      keep stamped instants between the start date and `endDate`, or the end of
      that month when there is no end date. */
  function MonthlyDates(config: RecurrenceConfig): seq<int>
  {
    var s := config.startDate;
    var end := if config.endDate.Some? then config.endDate.value else Time(EndOfMonth(s));
    Sweep(StartOfMonth(s), EndOfMonth(s), config.dayOfWeek, config.time, s, UpperOf(end))
  }

  /** generateSeasonalDates: throws without an end date; otherwise scans from the
      start date while the cursor is not after the end date, and keeps stamped
      instants between the two. */
  function SeasonalDates(config: RecurrenceConfig): Result<seq<int>>
  {
    match config.endDate
    case None => Failure(SeasonalEndMissing)
    case Some(InvalidDate) => Success([])
    case Some(Time(e)) =>
      Success(Sweep(config.startDate, e, config.dayOfWeek, config.time, config.startDate, UpTo(e)))
  }

  /** generateContinuousDates: scans from the start date to `monthsAhead` months
      later and checks only the lower bound. */
  function ContinuousDates(config: RecurrenceConfig, monthsAhead: int): seq<int>
  {
    var s := config.startDate;
    Sweep(s, AddMonths(s, monthsAhead), config.dayOfWeek, config.time, s, NoUpper)
  }

  /** generateEventDates: dispatch on the period type; an unknown type gives no dates. */
  function EventDates(config: RecurrenceConfig): Result<seq<int>>
  {
    if config.periodType == "monthly" then Success(MonthlyDates(config))
    else if config.periodType == "seasonal" then SeasonalDates(config)
    else if config.periodType == "continuous" then Success(ContinuousDates(config, DefaultMonthsAhead))
    else Success([])
  }

  // ---------------------------------------------------------------------
  // The generator loops

  /** The day-by-day scan all three policies share: from `start`, while the
      cursor is not after `stop`, stamp each day on the weekday `dow` with the
      clock time and keep the instant when it passes the bounds. */
  method ScanDays(start: int, stop: int, dow: int, time: Clock, lo: int, hi: Upper) returns (dates: seq<int>)
    ensures dates == Sweep(start, stop, dow, time, lo, hi)
  {
    dates := [];
    var currentDate := start;
    while currentDate <= stop
      invariant dates + Sweep(currentDate, stop, dow, time, lo, hi) == Sweep(start, stop, dow, time, lo, hi)
      decreases stop - currentDate
    {
      SweepStep(currentDate, stop, dow, time, lo, hi);
      ghost var before := dates;
      if GetDay(currentDate) == dow {
        var eventDate := SetHours(currentDate, time);
        if Admits(lo, hi, eventDate) {
          dates := dates + [eventDate];
        }
      }
      assert dates == before + Candidate(currentDate, dow, time, lo, hi);
      AppendAssoc(before, Candidate(currentDate, dow, time, lo, hi), Sweep(AddDays(currentDate, 1), stop, dow, time, lo, hi));
      currentDate := AddDays(currentDate, 1);
    }
  }

  method GenerateMonthlyDates(config: RecurrenceConfig) returns (dates: seq<int>)
    ensures dates == MonthlyDates(config)
  {
    var startDate := config.startDate;
    var end := if config.endDate.Some? then config.endDate.value else Time(EndOfMonth(startDate));
    var monthStart := StartOfMonth(startDate);
    var monthEnd := EndOfMonth(startDate);
    dates := ScanDays(monthStart, monthEnd, config.dayOfWeek, config.time, startDate, UpperOf(end));
  }

  method GenerateSeasonalDates(config: RecurrenceConfig) returns (r: Result<seq<int>>)
    ensures r == SeasonalDates(config)
  {
    if config.endDate.None? {
      return Failure(SeasonalEndMissing);
    }
    var startDate := config.startDate;
    match config.endDate.value {
      case InvalidDate =>
        // `currentDate <= endDate` is false at once: the loop never runs
        r := Success([]);
      case Time(endDate) =>
        var dates := ScanDays(startDate, endDate, config.dayOfWeek, config.time, startDate, UpTo(endDate));
        r := Success(dates);
    }
  }

  method GenerateContinuousDates(config: RecurrenceConfig, monthsAhead: int) returns (dates: seq<int>)
    ensures dates == ContinuousDates(config, monthsAhead)
  {
    var startDate := config.startDate;
    var endDate := AddMonths(startDate, monthsAhead);
    dates := ScanDays(startDate, endDate, config.dayOfWeek, config.time, startDate, NoUpper);
  }

  method GenerateEventDates(config: RecurrenceConfig) returns (r: Result<seq<int>>)
    ensures r == EventDates(config)
  {
    if config.periodType == "monthly" {
      var dates := GenerateMonthlyDates(config);
      r := Success(dates);
    } else if config.periodType == "seasonal" {
      r := GenerateSeasonalDates(config);
    } else if config.periodType == "continuous" {
      var dates := GenerateContinuousDates(config, DefaultMonthsAhead);
      r := Success(dates);
    } else {
      r := Success([]);
    }
  }

  // ---------------------------------------------------------------------
  // What the generator promises

  /** Occurrences of a weekly rule: each on the rule's weekday at the rule's
      clock time (seconds and milliseconds zero), strictly increasing, at most
      one per calendar day. */
  predicate WellFormedOccurrences(r: seq<int>, dow: int, time: Clock)
  {
    (forall i :: 0 <= i < |r| ==>
      GetDay(r[i]) == dow && MsOfDay(r[i]) == ClockMs(time) && r[i] == At(DayOf(r[i]), time)) &&
    IncreasingDays(r)
  }

  lemma SweepWellFormed(cur: int, stop: int, dow: int, time: Clock, lo: int, hi: Upper)
    requires ValidClock(time)
    ensures WellFormedOccurrences(Sweep(cur, stop, dow, time, lo, hi), dow, time)
  {
    var r := Sweep(cur, stop, dow, time, lo, hi);
    SweepSound(cur, stop, dow, time, lo, hi);
    SweepIncreasing(cur, stop, dow, time, lo, hi);
    ClockWithinDay(time);
    forall i | 0 <= i < |r| ensures MsOfDay(r[i]) == ClockMs(time) {
      assert r[i] in r;
      DayOfMidnightPlus(DayOf(r[i]), ClockMs(time));
    }
  }

  /** Whatever the policy, the generated instants are well-formed occurrences. */
  lemma EventDatesWellFormed(config: RecurrenceConfig)
    requires ValidClock(config.time)
    requires EventDates(config).Success?
    ensures WellFormedOccurrences(EventDates(config).value, config.dayOfWeek, config.time)
  {
    var s := config.startDate;
    if config.periodType == "monthly" {
      var end := if config.endDate.Some? then config.endDate.value else Time(EndOfMonth(s));
      SweepWellFormed(StartOfMonth(s), EndOfMonth(s), config.dayOfWeek, config.time, s, UpperOf(end));
    } else if config.periodType == "seasonal" {
      if config.endDate.value.Time? {
        var e := config.endDate.value.ms;
        SweepWellFormed(s, e, config.dayOfWeek, config.time, s, UpTo(e));
      }
    } else if config.periodType == "continuous" {
      SweepWellFormed(s, AddMonths(s, DefaultMonthsAhead), config.dayOfWeek, config.time, s, NoUpper);
    }
  }

  /** A weekday outside 0..6 yields no dates (and no error) under every policy
      that does not throw. */
  lemma EventDatesNoSuchWeekday(config: RecurrenceConfig)
    requires config.dayOfWeek < 0 || config.dayOfWeek > 6
    ensures config.periodType == "seasonal" && config.endDate.None? ==> EventDates(config) == Failure(SeasonalEndMissing)
    ensures !(config.periodType == "seasonal" && config.endDate.None?) ==> EventDates(config) == Success([])
  {
    var s := config.startDate;
    var dow := config.dayOfWeek;
    var end := if config.endDate.Some? then config.endDate.value else Time(EndOfMonth(s));
    SweepNoSuchWeekday(StartOfMonth(s), EndOfMonth(s), dow, config.time, s, UpperOf(end));
    SweepNoSuchWeekday(s, AddMonths(s, DefaultMonthsAhead), dow, config.time, s, NoUpper);
    if config.endDate.Some? && config.endDate.value.Time? {
      var e := config.endDate.value.ms;
      SweepNoSuchWeekday(s, e, dow, config.time, s, UpTo(e));
    }
  }

  /** Only `monthly`, `seasonal` and `continuous` produce dates; any other period
      type gives the empty list, and only `seasonal` can throw. */
  lemma EventDatesDispatch(config: RecurrenceConfig)
    ensures config.periodType !in {"monthly", "seasonal", "continuous"} ==> EventDates(config) == Success([])
    ensures EventDates(config).Failure? <==> config.periodType == "seasonal" && config.endDate.None?
  {
  }

  /** Monthly window: exactly the days of the start date's calendar month on the
      weekday, stamped, not before the start date and not after the end date
      (the end of the month when there is none; an end date past the month
      never extends it, and an invalid end date keeps nothing). */
  lemma MonthlyWindow(config: RecurrenceConfig, e: int)
    requires ValidClock(config.time)
    ensures e in MonthlyDates(config) <==>
      MonthFirstDay(DayOf(config.startDate)) <= DayOf(e) <= MonthLastDay(DayOf(config.startDate)) &&
      Weekday(DayOf(e)) == config.dayOfWeek && e == At(DayOf(e), config.time) &&
      config.startDate <= e &&
      match config.endDate
      case None => true
      case Some(Time(x)) => e <= x
      case Some(InvalidDate) => false
  {
    var s := config.startDate;
    var first := MonthFirstDay(DayOf(s));
    var last := MonthLastDay(DayOf(s));
    var end := if config.endDate.Some? then config.endDate.value else Time(EndOfMonth(s));
    SweepMembership(StartOfMonth(s), EndOfMonth(s), config.dayOfWeek, config.time, s, UpperOf(end), e);
    DayOfMidnightPlus(first, 0);
    ClockWithinDay(config.time);
    if e == At(DayOf(e), config.time) {
      assert Scanned(StartOfMonth(s), EndOfMonth(s), DayOf(e)) <==> first <= DayOf(e) <= last;
    }
  }

  /** Seasonal window with an end date: a visited day on the weekday whose
      stamped instant lies between start and end date, both compared as full
      timestamps. */
  lemma SeasonalWindow(config: RecurrenceConfig, e: int)
    requires ValidClock(config.time)
    requires config.endDate.Some? && config.endDate.value.Time?
    ensures SeasonalDates(config).Success?
    ensures e in SeasonalDates(config).value <==>
      Scanned(config.startDate, config.endDate.value.ms, DayOf(e)) &&
      Weekday(DayOf(e)) == config.dayOfWeek && e == At(DayOf(e), config.time) &&
      config.startDate <= e <= config.endDate.value.ms
  {
    var x := config.endDate.value.ms;
    SweepMembership(config.startDate, x, config.dayOfWeek, config.time, config.startDate, UpTo(x), e);
  }

  /** An end date before the start date gives an empty list, not an error. */
  lemma SeasonalEndBeforeStart(config: RecurrenceConfig)
    requires config.endDate.Some? && config.endDate.value.Time? && config.endDate.value.ms < config.startDate
    ensures SeasonalDates(config) == Success([])
  {
  }

  /** An end date at 00:00 on day `d` (what a date-only string yields) drops the
      occurrence on day `d` for every rule time after midnight. */
  lemma SeasonalMidnightEndDropsLastDay(config: RecurrenceConfig, d: int)
    requires ValidClock(config.time) && ClockMs(config.time) > 0
    requires config.endDate == Some(Time(Midnight(d)))
    ensures SeasonalDates(config).Success?
    ensures At(d, config.time) !in SeasonalDates(config).value
  {
    SeasonalWindow(config, At(d, config.time));
  }

  /** The same for a monthly rule whose explicit end date is midnight of a day. */
  lemma MonthlyMidnightEndDropsLastDay(config: RecurrenceConfig, d: int)
    requires ValidClock(config.time) && ClockMs(config.time) > 0
    requires config.endDate == Some(Time(Midnight(d)))
    ensures At(d, config.time) !in MonthlyDates(config)
  {
    MonthlyWindow(config, At(d, config.time));
  }

  /** Continuous window: visited days up to `monthsAhead` months later (setMonth
      with overflow); only the lower bound is checked. */
  lemma ContinuousWindow(config: RecurrenceConfig, monthsAhead: int, e: int)
    requires ValidClock(config.time)
    ensures e in ContinuousDates(config, monthsAhead) <==>
      Scanned(config.startDate, AddMonths(config.startDate, monthsAhead), DayOf(e)) &&
      Weekday(DayOf(e)) == config.dayOfWeek && e == At(DayOf(e), config.time) &&
      config.startDate <= e
  {
    var s := config.startDate;
    SweepMembership(s, AddMonths(s, monthsAhead), config.dayOfWeek, config.time, s, NoUpper, e);
  }

  /** The last day of the continuous window is visited, and its occurrence is kept
      even when its clock time lies after the window's end instant. */
  lemma ContinuousKeepsFinalDay(config: RecurrenceConfig, monthsAhead: int)
    requires ValidClock(config.time)
    requires var stop := AddMonths(config.startDate, monthsAhead);
      DayOf(config.startDate) <= DayOf(stop) && Weekday(DayOf(stop)) == config.dayOfWeek &&
      config.startDate <= At(DayOf(stop), config.time)
    ensures At(DayOf(AddMonths(config.startDate, monthsAhead)), config.time) in ContinuousDates(config, monthsAhead)
  {
    var s := config.startDate;
    var stop := AddMonths(s, monthsAhead);
    AddMonthsKeepsTimeOfDay(s, monthsAhead);
    assert s + (DayOf(stop) - DayOf(s)) * MsPerDay == stop;
    SweepComplete(s, stop, config.dayOfWeek, config.time, s, NoUpper, DayOf(stop));
  }
}
