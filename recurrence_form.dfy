/** The educator's "new recurrence" form: the default season window it
    proposes, and how its submit handler shapes the request body for
    POST /api/recurring-rules (or refuses to send one). A JavaScript `Date`
    the form manipulates is modelled by its local civil fields. */
module RecurrenceForm {

  import opened Common
  import opened Calendar
  import opened Recurrence
  import opened Store

  /** `a` is on or before `b` in calendar order. */
  predicate CivilLe(a: CivilDate, b: CivilDate)
  {
    a.year < b.year || (a.year == b.year && (a.month < b.month || (a.month == b.month && a.day <= b.day)))
  }

  /** The default window: 1 September to 30 June of the following year, for the
      season that started last September when today is before September
      (month index below 8) and for the one starting this September otherwise. */
  function SeasonDefaults(today: CivilDate): (r: (CivilDate, CivilDate))
    ensures ValidDate(r.0) && ValidDate(r.1)
    ensures r.0.month == 9 && r.0.day == 1 && r.1 == CivilDate(r.0.year + 1, 6, 30)
    ensures today.month - 1 < 8 ==> r.0.year == today.year - 1
    ensures today.month - 1 >= 8 ==> r.0.year == today.year
    ensures ValidDate(today) && today.month != 7 && today.month != 8 ==> CivilLe(r.0, today) && CivilLe(today, r.1)
    ensures ValidDate(today) && (today.month == 7 || today.month == 8) ==> CivilLe(r.1, today) && r.1 != today
  {
    var monthIndex := today.month - 1;
    var septemberYear := if monthIndex < 8 then today.year - 1 else today.year;
    var juneYear := if monthIndex < 8 then today.year else today.year + 1;
    (CivilDate(septemberYear, 9, 1), CivilDate(juneYear, 6, 30))
  }

  /** Date.prototype.setMonth(monthIndex) on the civil fields: a month index past
      11 carries into the year, and a day of the month the new month does not
      have spills into the month after. */
  function SetMonth(d: CivilDate, monthIndex: int): (r: CivilDate)
    requires 1 <= d.day <= 31
    ensures ValidDate(r)
    ensures d.day <= DaysInMonth(d.year + monthIndex / 12, monthIndex % 12 + 1) ==>
      r == CivilDate(d.year + monthIndex / 12, monthIndex % 12 + 1, d.day)
  {
    var y := d.year + monthIndex / 12;
    var m := monthIndex % 12 + 1;
    var n := DaysInMonth(y, m);
    if d.day <= n then CivilDate(y, m, d.day)
    else if m == 12 then CivilDate(y + 1, 1, d.day - n)
    else CivilDate(y, m + 1, d.day - n)
  }

  /** Date.prototype.setDate(0): the last day of the month before. */
  function SetDateZero(d: CivilDate): (r: CivilDate)
    requires 1 <= d.month <= 12
    ensures ValidDate(r) && r.day == DaysInMonth(r.year, r.month)
    ensures (r.year, r.month) == (if d.month == 1 then (d.year - 1, 12) else (d.year, d.month - 1))
  {
    if d.month == 1 then CivilDate(d.year - 1, 12, 31)
    else CivilDate(d.year, d.month - 1, DaysInMonth(d.year, d.month - 1))
  }

  /** A month picker value "yyyy-MM". */
  datatype YearMonth = YearMonth(year: int, month: int)

  /** The form fields the submit handler reads; an empty date or month input is None. */
  datatype FormState = FormState(
    kind: string,
    dayOfWeek: string,
    time: string,
    endTime: string,
    location: string,
    teamIds: seq<Id>,
    selectAllTeams: bool,
    periodType: string,
    startDate: Option<CivilDate>,
    endDate: Option<CivilDate>,
    selectedMonth: Option<YearMonth>,
    selectedChildrenIds: seq<Id>,
    selectAll: bool)

  /** The JSON body sent; a date travels as "yyyy-MM-dd", `null` and an omitted
      field are both None. */
  datatype FormRequest = FormRequest(
    kind: string,
    dayOfWeek: Option<int>,
    time: string,
    endTime: Option<string>,
    location: string,
    teamIds: seq<Id>,
    periodType: string,
    startDate: Option<CivilDate>,
    endDate: Option<CivilDate>,
    selectedChildrenIds: Option<seq<Id>>)

  /** What a submit does: show an error and send nothing, or send the body. */
  datatype Submission = Refused(message: string) | Sent(request: FormRequest)

  const NoMonth: string := "Veuillez sélectionner un mois"
  const NoTeam: string := "Sélectionnez au moins une équipe."
  const NoPlace: string := "Sélectionnez ou saisissez un lieu."

  /** The longest run of decimal digits at the start of a string. */
  function DigitPrefix(s: string): (r: string)
    ensures AllDigits(r) && r <= s
    ensures r == s || !IsDigit(s[|r|])
  {
    if s != [] && IsDigit(s[0]) then [s[0]] + DigitPrefix(s[1..]) else []
  }

  /** What follows the leading white space and an optional sign. */
  function Unsigned(t: string): string
  {
    if t != [] && (t[0] == '+' || t[0] == '-') then t[1..] else t
  }

  /** Without a radix, `0x` or `0X` announces a hexadecimal number. */
  predicate HexPrefixed(u: string)
  {
    |u| >= 2 && u[0] == '0' && (u[1] == 'x' || u[1] == 'X')
  }

  predicate IsHexDigit(c: char)
  {
    IsDigit(c) || 'a' <= c <= 'f' || 'A' <= c <= 'F'
  }

  predicate AllHexDigits(s: string)
  {
    forall i :: 0 <= i < |s| ==> IsHexDigit(s[i])
  }

  function HexDigitValue(c: char): (v: nat)
    requires IsHexDigit(c)
    ensures v < 16
  {
    if IsDigit(c) then DigitValue(c)
    else if 'a' <= c <= 'f' then c as int - 'a' as int + 10
    else c as int - 'A' as int + 10
  }

  /** Value of a string of hexadecimal digits. */
  function HexValue(s: string): nat
    requires AllHexDigits(s)
    decreases |s|
  {
    if s == [] then 0 else HexValue(s[..|s| - 1]) * 16 + HexDigitValue(s[|s| - 1])
  }

  /** The longest run of hexadecimal digits at the start of a string. */
  function HexPrefix(s: string): (r: string)
    ensures AllHexDigits(r) && r <= s
    ensures r == s || !IsHexDigit(s[|r|])
  {
    if s != [] && IsHexDigit(s[0]) then [s[0]] + HexPrefix(s[1..]) else []
  }

  /** The number a radix-less parseInt reads after the sign: the hexadecimal
      digits after `0x`, else the decimal digits; None when there are none. */
  function Magnitude(u: string): (r: Option<nat>)
    ensures r.Some? <==> if HexPrefixed(u) then |u| > 2 && IsHexDigit(u[2]) else u != [] && IsDigit(u[0])
  {
    if HexPrefixed(u) then
      var h := HexPrefix(u[2..]);
      if h == [] then None else Some(HexValue(h))
    else
      var d := DigitPrefix(u);
      if d == [] then None else Some(DecimalValue(d))
  }

  /** parseInt without a radix: leading white space is skipped, one `+` or
      `-` is read, then the longest run of hexadecimal digits after `0x` or
      `0X`, or else of decimal digits; without a digit the result is NaN,
      which JSON.stringify sends as null (None). */
  function ParseInt(s: string): (r: Option<int>)
    ensures var u := Unsigned(TrimStart(s));
      r.Some? <==> if HexPrefixed(u) then |u| > 2 && IsHexDigit(u[2]) else u != [] && IsDigit(u[0])
    ensures r.Some? && TrimStart(s)[0] == '-' ==> r.value <= 0
    ensures r.Some? && TrimStart(s)[0] != '-' ==> r.value >= 0
  {
    var t := TrimStart(s);
    match Magnitude(Unsigned(t))
    case None => None
    case Some(m) => if t[0] == '-' then Some(-(m as int)) else Some(m)
  }

  /** After `0x`, a run of hexadecimal digits followed by anything else reads
      as their hexadecimal value: parseInt("0x1F") is 31. */
  lemma ParseIntHexPrefix(x: char, h: string, rest: string)
    requires x == 'x' || x == 'X'
    requires h != [] && AllHexDigits(h)
    requires rest == [] || !IsHexDigit(rest[0])
    ensures ParseInt("0" + [x] + h + rest) == Some(HexValue(h))
  {
    var s := "0" + [x] + h + rest;
    assert TrimStart(s) == s && Unsigned(s) == s;
    assert HexPrefixed(s) && s[2..] == h + rest;
    HexPrefixOf(h, rest);
  }

  lemma {:induction false} HexPrefixOf(h: string, rest: string)
    requires AllHexDigits(h)
    requires rest == [] || !IsHexDigit(rest[0])
    ensures HexPrefix(h + rest) == h
  {
    if h != [] {
      assert (h + rest)[1..] == h[1..] + rest;
      HexPrefixOf(h[1..], rest);
    } else {
      assert h + rest == rest;
    }
  }

  /** "0x10" reads as sixteen, not as zero. */
  lemma ParseIntHexSixteen()
    ensures ParseInt("0x10") == Some(16)
  {
    ParseIntHexPrefix('x', "10", []);
    assert "0" + ['x'] + "10" + [] == "0x10";
    assert "10"[..1] == "1";
  }

  /** A run of digits followed by anything that is not a digit reads as the
      value of the digits, unless it is the `0x` of a hexadecimal number:
      parseInt("12abc") is 12. */
  lemma ParseIntDigitPrefix(d: string, rest: string)
    requires d != [] && AllDigits(d)
    requires rest == [] || !IsDigit(rest[0])
    requires !HexPrefixed(d + rest)
    ensures ParseInt(d + rest) == Some(DecimalValue(d))
  {
    var s := d + rest;
    assert !IsSpace(s[0]) && s[0] != '+' && s[0] != '-';
    assert TrimStart(s) == s && Unsigned(s) == s;
    DigitPrefixOf(d, rest);
  }

  lemma {:induction false} DigitPrefixOf(d: string, rest: string)
    requires AllDigits(d)
    requires rest == [] || !IsDigit(rest[0])
    ensures DigitPrefix(d + rest) == d
  {
    if d != [] {
      assert (d + rest)[1..] == d[1..] + rest;
      DigitPrefixOf(d[1..], rest);
    } else {
      assert d + rest == rest;
    }
  }

  /** Leading blanks and a minus sign are read: parseInt(" -3") is -3. */
  lemma ParseIntSigned(blanks: string, d: string)
    requires AllSpace(blanks) && d != [] && AllDigits(d)
    ensures ParseInt(blanks + "-" + d) == Some(-(DecimalValue(d) as int))
  {
    TrimStartBlanks(blanks, "-" + d);
    assert blanks + "-" + d == blanks + ("-" + d);
    assert Unsigned("-" + d) == d;
    DigitPrefixOf(d, []);
    assert d + [] == d;
  }

  lemma {:induction false} TrimStartBlanks(blanks: string, t: string)
    requires AllSpace(blanks) && (t == [] || !IsSpace(t[0]))
    ensures TrimStart(blanks + t) == t
  {
    if blanks != [] {
      assert (blanks + t)[1..] == blanks[1..] + t;
      TrimStartBlanks(blanks[1..], t);
    } else {
      assert blanks + t == t;
    }
  }

  /** Each weekday option "0" .. "6" (indeed any rendered number) is sent as
      its number. */
  lemma ParseIntOfRendered(n: nat)
    ensures ParseInt(NatToString(n)) == Some(n)
  {
    DecimalRoundTrip(n);
    ParseIntDigitPrefix(NatToString(n), []);
    assert NatToString(n) + [] == NatToString(n);
  }

  /** Every team of the page when "all teams" is ticked, else the ticked ones. */
  function TeamsToSend(form: FormState, teams: seq<Team>): seq<Id>
  {
    if form.selectAllTeams then TeamIds(teams) else form.teamIds
  }

  predicate MonthRequested(form: FormState)
  {
    form.periodType == "monthly"
  }

  /** handleSubmit: compute the window, choose the teams, check the place, then
      build the body. `teams` is the page's team list. */
  method HandleSubmit(form: FormState, teams: seq<Team>) returns (r: Submission)
    requires form.selectedMonth.Some? ==> 1 <= form.selectedMonth.value.month <= 12
    ensures r.Refused? <==>
      (MonthRequested(form) && form.selectedMonth.None?) || TeamsToSend(form, teams) == [] || Trim(form.location) == ""
    ensures MonthRequested(form) && form.selectedMonth.None? ==> r == Refused(NoMonth)
    ensures !(MonthRequested(form) && form.selectedMonth.None?) && TeamsToSend(form, teams) == [] ==> r == Refused(NoTeam)
    ensures (!(MonthRequested(form) && form.selectedMonth.None?) && TeamsToSend(form, teams) != [] &&
             Trim(form.location) == "") ==> r == Refused(NoPlace)
    ensures r.Refused? ==> r.message in {NoMonth, NoTeam, NoPlace}
    ensures r.Sent? ==>
      var q := r.request;
      q.kind == form.kind && q.time == form.time && q.periodType == form.periodType &&
      q.dayOfWeek == ParseInt(form.dayOfWeek) &&
      q.teamIds == TeamsToSend(form, teams) && |q.teamIds| > 0 &&
      (form.selectAllTeams ==> |q.teamIds| == |teams| && forall i :: 0 <= i < |teams| ==> q.teamIds[i] == teams[i].id) &&
      q.location == Trim(form.location) && q.location != "" && Trim(q.location) == q.location &&
      (q.endTime.Some? <==> form.endTime != "") && (q.endTime.Some? ==> q.endTime.value == form.endTime) &&
      (q.selectedChildrenIds.Some? <==> |q.teamIds| == 1 && !form.selectAll) &&
      (q.selectedChildrenIds.Some? ==> q.selectedChildrenIds.value == form.selectedChildrenIds)
    ensures r.Sent? && MonthRequested(form) ==>
      var ym := form.selectedMonth.value;
      r.request.startDate == Some(CivilDate(ym.year, ym.month, 1)) &&
      r.request.endDate == Some(CivilDate(ym.year, ym.month, DaysInMonth(ym.year, ym.month)))
    ensures r.Sent? && form.periodType == "continuous" ==>
      r.request.startDate == form.startDate && r.request.endDate == None
    ensures r.Sent? && form.periodType != "monthly" && form.periodType != "continuous" ==>
      r.request.startDate == form.startDate && r.request.endDate == form.endDate
  {
    var startDate := form.startDate;
    var endDate := form.endDate;
    if form.periodType == "monthly" {
      if form.selectedMonth.None? {
        return Refused(NoMonth);
      }
      var ym := form.selectedMonth.value;
      startDate := Some(CivilDate(ym.year, ym.month, 1));
      var monthDate := CivilDate(ym.year, ym.month, 1);
      monthDate := SetMonth(monthDate, (monthDate.month - 1) + 1);
      monthDate := SetDateZero(monthDate);
      endDate := Some(monthDate);
    } else if form.periodType == "continuous" {
      endDate := None;
    }

    var teamIdsToSend := if form.selectAllTeams then TeamIds(teams) else form.teamIds;
    if |teamIdsToSend| == 0 {
      return Refused(NoTeam);
    }
    if Trim(form.location) == "" {
      return Refused(NoPlace);
    }

    TrimIdempotent(form.location);
    var selection := if |teamIdsToSend| == 1 && !form.selectAll then Some(form.selectedChildrenIds) else None;
    var endTime := if form.endTime != "" then Some(form.endTime) else None;
    r := Sent(FormRequest(form.kind, ParseInt(form.dayOfWeek), form.time, endTime, Trim(form.location),
                          teamIdsToSend, form.periodType, startDate, endDate, selection));
  }

  /** A sent end date reaches the server as midnight of that day, so for a
      monthly or seasonal rule at any time after 00:00 the last day of the window
      (the last day of the chosen month, or 30 June for the default season) gets
      no occurrence. */
  lemma SentEndDropsLastDay(q: FormRequest, config: RecurrenceConfig)
    requires q.periodType == "monthly" || q.periodType == "seasonal"
    requires q.endDate.Some? && config.periodType == q.periodType
    requires config.endDate == Some(Time(Midnight(DaysFromCivil(q.endDate.value))))
    requires ValidClock(config.time) && ClockMs(config.time) > 0
    ensures EventDates(config).Success?
    ensures At(DaysFromCivil(q.endDate.value), config.time) !in EventDates(config).value
  {
    var d := DaysFromCivil(q.endDate.value);
    if q.periodType == "monthly" {
      MonthlyMidnightEndDropsLastDay(config, d);
    } else {
      SeasonalMidnightEndDropsLastDay(config, d);
    }
  }
}
