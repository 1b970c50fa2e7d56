/** POST /api/recurring-rules: validate the request, generate the occurrence
    dates once, then for each team create one rule and one event per date,
    team after team, without rolling back earlier teams when a write fails.
    GET /api/recurring-rules: the rules an educator or an admin may see. */
module RecurringRules {

  import opened Common
  import opened Calendar
  import opened Recurrence
  import opened Store

  /** The JSON body; a field that is absent (undefined) is None. */
  datatype RuleRequest = RuleRequest(
    kind: Option<string>,
    dayOfWeek: Option<int>,
    time: Option<string>,
    endTime: Option<string>,
    teamId: Option<Id>,
    teamIds: Option<seq<Id>>,
    location: Option<string>,
    startDate: Option<string>,
    endDate: Option<string>,
    periodType: Option<string>,
    selectedChildrenIds: Option<seq<Id>>)

  const MissingFields: string := "Tous les champs requis sont manquants (dont au moins une équipe)"
  const InvalidStart: string := "Date de début invalide"
  const InvalidEnd: string := "Date de fin invalide"

  /** The teams to expand for: a non-empty `teamIds` array wins, else `[teamId]`
      when `teamId` is truthy, else none. */
  function TeamList(req: RuleRequest): (r: seq<Id>)
    ensures |r| > 0 <==> (req.teamIds.Some? && |req.teamIds.value| > 0) || Truthy(req.teamId)
    ensures req.teamIds.Some? && |req.teamIds.value| > 0 ==> r == req.teamIds.value
    ensures forall t :: t in r ==> (req.teamIds.Some? && t in req.teamIds.value) || req.teamId == Some(t)
  {
    if req.teamIds.Some? && |req.teamIds.value| > 0 then req.teamIds.value
    else if Truthy(req.teamId) then [req.teamId.value]
    else []
  }

  /** `...(endTime && { endTime })`: the end time is stored only when truthy. */
  function EndTimeField(endTime: Option<string>): (r: Option<string>)
    ensures r.Some? <==> Truthy(endTime)
    ensures r.Some? ==> r == endTime
  {
    if Truthy(endTime) then endTime else None
  }

  /** What a request that passed every check carries into the expansion. */
  datatype Plan = Plan(
    teams: seq<Id>,
    kind: string,
    dayOfWeek: int,
    time: string,
    clock: Clock,
    endTime: Option<string>,
    location: string,
    startDate: int,
    endDate: Option<JsDate>,
    periodType: string,
    selection: Option<seq<Id>>,
    createdBy: Id)

  datatype Checked = Reject(status: nat, message: string) | Accept(plan: Plan)

  /** The time strings the model reads: "HH:MM" as a time picker sends it. */
  predicate TimeReadable(req: RuleRequest)
  {
    !Truthy(req.time) || ParseClock(req.time.value).Some?
  }

  /** The checks before any write, in the order the handler makes them. */
  function Validate(auth: Option<AuthUser>, req: RuleRequest, types: seq<EventType>, parse: string -> JsDate): Checked
    requires TimeReadable(req)
  {
    if auth.None? || !IsStaff(auth.value.role) then Reject(403, NotAuthorized)
    else
      var teams := TeamList(req);
      if !Truthy(req.kind) || req.dayOfWeek.None? || !Truthy(req.time) || !Truthy(req.location)
         || !Truthy(req.startDate) || !Truthy(req.periodType) || |teams| == 0
      then Reject(400, MissingFields)
      else if FindEventType(types, req.kind.value).None? then Reject(400, InvalidType)
      else
        var start := parse(req.startDate.value);
        var end := if Truthy(req.endDate) then Some(parse(req.endDate.value)) else None;
        if start.InvalidDate? then Reject(400, InvalidStart)
        else if req.periodType.value == "seasonal" && (!Truthy(req.endDate) || Trim(req.endDate.value) == "")
        then Reject(400, SeasonalEndMissing)
        else if req.periodType.value == "seasonal" && end.value.InvalidDate? then Reject(400, InvalidEnd)
        else
          Accept(Plan(teams, req.kind.value, req.dayOfWeek.value, req.time.value,
                      ParseClock(req.time.value).value, EndTimeField(req.endTime), req.location.value,
                      start.ms, end, req.periodType.value, Selection(req.selectedChildrenIds),
                      auth.value.userId))
  }

  function Config(plan: Plan): RecurrenceConfig
  {
    RecurrenceConfig(plan.dayOfWeek, plan.clock, plan.startDate, plan.endDate, plan.periodType)
  }

  /** The stored end date; an invalid date never reaches the store (see `Storable`). */
  function StoredEnd(d: Option<JsDate>): Option<int>
  {
    match d
    case Some(Time(x)) => Some(x)
    case _ => None
  }

  function RuleFor(plan: Plan, teamId: Id, id: Id): Rule
  {
    Rule(id, plan.kind, plan.dayOfWeek, plan.time, plan.endTime, teamId, plan.location,
         plan.startDate, StoredEnd(plan.endDate), plan.periodType, plan.selection)
  }

  function EventFor(plan: Plan, teamId: Id, ruleId: Id, date: int, id: Id): Event
  {
    Event(id, plan.kind, date, plan.time, plan.endTime, plan.location, teamId,
          true, Some(ruleId), false, false, plan.selection, plan.createdBy)
  }

  /** `dates.map(date => ({ ... }))` for one team, with the identifiers the
      database assigns. */
  function TeamEvents(plan: Plan, teamId: Id, ruleId: Id, dates: seq<int>, ids: seq<Id>): (r: seq<Event>)
    requires |ids| == |dates|
    ensures |r| == |dates|
  {
    if dates == [] then []
    else TeamEvents(plan, teamId, ruleId, dates[..|dates| - 1], ids[..|ids| - 1])
         + [EventFor(plan, teamId, ruleId, dates[|dates| - 1], ids[|ids| - 1])]
  }

  /** The j-th event of a team is the occurrence on the j-th date. */
  lemma {:induction false} TeamEventsAt(plan: Plan, teamId: Id, ruleId: Id, dates: seq<int>, ids: seq<Id>, j: nat)
    requires |ids| == |dates| && j < |dates|
    ensures TeamEvents(plan, teamId, ruleId, dates, ids)[j] == EventFor(plan, teamId, ruleId, dates[j], ids[j])
    decreases |dates|
  {
    if j < |dates| - 1 {
      TeamEventsAt(plan, teamId, ruleId, dates[..|dates| - 1], ids[..|ids| - 1], j);
    }
  }

  predicate IdShapes(n: nat, ruleIds: seq<Id>, eventIds: seq<seq<Id>>, count: nat)
  {
    |ruleIds| >= n && |eventIds| >= n && forall i :: 0 <= i < n ==> |eventIds[i]| == count
  }

  lemma IdShapesStep(n: nat, ruleIds: seq<Id>, eventIds: seq<seq<Id>>, count: nat, ids: seq<Id>)
    requires IdShapes(n, ruleIds, eventIds, count) && |eventIds| == n && |ruleIds| > n && |ids| == count
    ensures IdShapes(n + 1, ruleIds, eventIds + [ids], count)
  {
  }

  /** The rules created for the first teams. */
  function RulesFor(plan: Plan, teams: seq<Id>, ruleIds: seq<Id>): (r: seq<Rule>)
    requires |ruleIds| == |teams|
    ensures |r| == |teams|
  {
    if teams == [] then []
    else RulesFor(plan, teams[..|teams| - 1], ruleIds[..|teams| - 1])
         + [RuleFor(plan, teams[|teams| - 1], ruleIds[|teams| - 1])]
  }

  /** The i-th rule created is the one for the i-th team. */
  lemma {:induction false} RulesForAt(plan: Plan, teams: seq<Id>, ruleIds: seq<Id>, i: nat)
    requires |ruleIds| == |teams| && i < |teams|
    ensures RulesFor(plan, teams, ruleIds)[i] == RuleFor(plan, teams[i], ruleIds[i])
    decreases |teams|
  {
    if i < |teams| - 1 {
      RulesForAt(plan, teams[..|teams| - 1], ruleIds[..|teams| - 1], i);
    }
  }

  /** The events inserted for the first `n` teams, team after team. */
  function Expansion(plan: Plan, dates: seq<int>, n: nat, ruleIds: seq<Id>, eventIds: seq<seq<Id>>): (r: seq<Event>)
    requires n <= |plan.teams| && IdShapes(n, ruleIds, eventIds, |dates|)
  {
    if n == 0 then []
    else Expansion(plan, dates, n - 1, ruleIds, eventIds)
         + TeamEvents(plan, plan.teams[n - 1], ruleIds[n - 1], dates, eventIds[n - 1])
  }

  /** A write the database rejects on its own account (an identifier it cannot
      cast, a lost connection), for the team with the given index. */
  datatype Fault = NoFault | RuleWriteFails(team: nat) | EventsWriteFail(team: nat)

  /** The schema accepts the rule (and hence its events) for every team alike. */
  predicate Storable(plan: Plan)
  {
    RuleSchemaValid(RuleFor(plan, "", "")) && plan.endDate != Some(InvalidDate)
  }

  /** The schema rejects the rule for every team alike, so it throws at the
      first `RecurringRule.create`: the same as a failing write for team 0. */
  function EffectiveFault(plan: Plan, fault: Fault): (f: Fault)
    ensures !Storable(plan) ==> f == RuleWriteFails(0)
    ensures Storable(plan) ==> f == fault
  {
    if Storable(plan) then fault else RuleWriteFails(0)
  }

  /** How many rules, and how many teams' events, are written for `n` teams
      before the first failing write. */
  function RulesWritten(n: nat, fault: Fault): (k: nat)
    ensures k <= n
  {
    match fault
    case RuleWriteFails(i) => if i < n then i else n
    case EventsWriteFail(i) => if i < n then i + 1 else n
    case NoFault => n
  }

  function TeamsCompleted(n: nat, fault: Fault): (k: nat)
    ensures k <= RulesWritten(n, fault)
  {
    match fault
    case RuleWriteFails(i) => if i < n then i else n
    case EventsWriteFail(i) => if i < n then i else n
    case NoFault => n
  }

  datatype Created = Created(rules: seq<Rule>, eventsCreated: nat)

  /** Identifiers issued during the call, all new. */
  predicate FreshIds(ruleIds: seq<Id>, eventIds: seq<seq<Id>>, before: set<Id>, after: set<Id>)
  {
    (forall i :: 0 <= i < |ruleIds| ==> ruleIds[i] in after - before) &&
    (forall i, j :: 0 <= i < j < |ruleIds| ==> ruleIds[i] != ruleIds[j]) &&
    (forall i, k :: 0 <= i < |eventIds| && 0 <= k < |eventIds[i]| ==> eventIds[i][k] in after - before)
  }

  /** `n` new identifiers (what `insertMany` assigns). */
  method NewIds(db: Db, n: nat) returns (ids: seq<Id>)
    modifies db`issued
    ensures |ids| == n
    ensures old(db.issued) <= db.issued
    ensures forall k :: 0 <= k < n ==> ids[k] in db.issued - old(db.issued)
  {
    ids := [];
    while |ids| < n
      invariant |ids| <= n
      invariant old(db.issued) <= db.issued
      invariant forall k :: 0 <= k < |ids| ==> ids[k] in db.issued - old(db.issued)
    {
      var id := db.NewId();
      ids := ids + [id];
    }
  }

  /** The events of the first `n` teams use only their own identifiers. */
  lemma {:induction false} ExpansionIgnoresRest(plan: Plan, dates: seq<int>, n: nat,
                                                r1: seq<Id>, r2: seq<Id>, e1: seq<seq<Id>>, e2: seq<seq<Id>>)
    requires n <= |plan.teams| && IdShapes(n, r1, e1, |dates|) && IdShapes(n, r2, e2, |dates|)
    requires r1[..n] == r2[..n] && e1[..n] == e2[..n]
    ensures Expansion(plan, dates, n, r1, e1) == Expansion(plan, dates, n, r2, e2)
  {
    if n > 0 {
      assert r1[n - 1] == r1[..n][n - 1] == r2[..n][n - 1] == r2[n - 1];
      assert e1[n - 1] == e1[..n][n - 1] == e2[..n][n - 1] == e2[n - 1];
      assert r1[..n - 1] == r1[..n][..n - 1] && r2[..n - 1] == r2[..n][..n - 1];
      assert e1[..n - 1] == e1[..n][..n - 1] && e2[..n - 1] == e2[..n][..n - 1];
      ExpansionIgnoresRest(plan, dates, n - 1, r1, r2, e1, e2);
    }
  }

  /** Appending the identifiers of one more team appends that team's events. */
  lemma ExpansionAppend(plan: Plan, dates: seq<int>, i: nat, ruleIds: seq<Id>, eventIds: seq<seq<Id>>, ids: seq<Id>)
    requires i < |plan.teams| && IdShapes(i, ruleIds, eventIds, |dates|) && |eventIds| == i && |ruleIds| > i
    requires |ids| == |dates|
    ensures IdShapes(i + 1, ruleIds, eventIds + [ids], |dates|)
    ensures Expansion(plan, dates, i + 1, ruleIds, eventIds + [ids])
         == Expansion(plan, dates, i, ruleIds, eventIds) + TeamEvents(plan, plan.teams[i], ruleIds[i], dates, ids)
  {
    IdShapesStep(i, ruleIds, eventIds, |dates|, ids);
    ExpansionIgnoresRest(plan, dates, i, ruleIds, ruleIds, eventIds, eventIds + [ids]);
  }

  lemma AppendAssociative<T>(a: seq<T>, b: seq<T>, c: seq<T>)
    ensures (a + b) + c == a + (b + c)
  {
  }

  /** Every team contributes one event per date. */
  lemma {:induction false} ExpansionLength(plan: Plan, dates: seq<int>, n: nat, ruleIds: seq<Id>, eventIds: seq<seq<Id>>)
    requires n <= |plan.teams| && IdShapes(n, ruleIds, eventIds, |dates|)
    ensures |Expansion(plan, dates, n, ruleIds, eventIds)| == n * |dates|
  {
    if n > 0 {
      ExpansionLength(plan, dates, n - 1, ruleIds, eventIds);
      assert n * |dates| == (n - 1) * |dates| + |dates|;
    }
  }

  lemma RulesForStep(plan: Plan, teams: seq<Id>, ruleIds: seq<Id>, t: Id, r: Id)
    requires |ruleIds| == |teams|
    ensures RulesFor(plan, teams + [t], ruleIds + [r]) == RulesFor(plan, teams, ruleIds) + [RuleFor(plan, t, r)]
  {
    assert (teams + [t])[..|teams|] == teams;
    assert (ruleIds + [r])[..|teams|] == ruleIds;
  }

  lemma FreshRuleStep(ruleIds: seq<Id>, eventIds: seq<seq<Id>>, before: set<Id>, mid: set<Id>, r: Id)
    requires FreshIds(ruleIds, eventIds, before, mid) && before <= mid && r !in mid
    ensures FreshIds(ruleIds + [r], eventIds, before, mid + {r})
  {
  }

  lemma FreshEventsStep(ruleIds: seq<Id>, eventIds: seq<seq<Id>>, before: set<Id>, mid: set<Id>, after: set<Id>, ids: seq<Id>)
    requires FreshIds(ruleIds, eventIds, before, mid) && before <= mid <= after
    requires forall k :: 0 <= k < |ids| ==> ids[k] in after - mid
    ensures FreshIds(ruleIds, eventIds + [ids], before, after)
  {
  }

  /** The tables after the rules of the first `k` teams and the events of the
      first `i` teams were written, all under identifiers issued since
      `issued0`. */
  ghost predicate Progress(plan: Plan, dates: seq<int>, i: nat, k: nat,
                           rules0: seq<Rule>, events0: seq<Event>, issued0: set<Id>,
                           rules1: seq<Rule>, events1: seq<Event>, issued1: set<Id>,
                           ruleIds: seq<Id>, eventIds: seq<seq<Id>>)
  {
    i <= k <= |plan.teams| && |ruleIds| == k && |eventIds| == i && IdShapes(i, ruleIds, eventIds, |dates|) &&
    issued0 <= issued1 && FreshIds(ruleIds, eventIds, issued0, issued1) &&
    rules1 == rules0 + RulesFor(plan, plan.teams[..k], ruleIds) &&
    events1 == events0 + Expansion(plan, dates, i, ruleIds, eventIds)
  }

  lemma ProgressStart(plan: Plan, dates: seq<int>, rules0: seq<Rule>, events0: seq<Event>, issued0: set<Id>)
    ensures Progress(plan, dates, 0, 0, rules0, events0, issued0, rules0, events0, issued0, [], [])
  {
    assert plan.teams[..0] == [];
  }

  /** Issuing more identifiers keeps the written state as it is. */
  lemma ProgressIssued(plan: Plan, dates: seq<int>, i: nat, k: nat,
                       rules0: seq<Rule>, events0: seq<Event>, issued0: set<Id>,
                       rules1: seq<Rule>, events1: seq<Event>, issued1: set<Id>, issued2: set<Id>,
                       ruleIds: seq<Id>, eventIds: seq<seq<Id>>)
    requires Progress(plan, dates, i, k, rules0, events0, issued0, rules1, events1, issued1, ruleIds, eventIds)
    requires issued1 <= issued2
    ensures Progress(plan, dates, i, k, rules0, events0, issued0, rules1, events1, issued2, ruleIds, eventIds)
  {
  }

  /** `RecurringRule.create` for team `i` under the new identifier `r`. */
  lemma ProgressRule(plan: Plan, dates: seq<int>, i: nat,
                     rules0: seq<Rule>, events0: seq<Event>, issued0: set<Id>,
                     rules1: seq<Rule>, events1: seq<Event>, issued1: set<Id>,
                     ruleIds: seq<Id>, eventIds: seq<seq<Id>>, r: Id)
    requires Progress(plan, dates, i, i, rules0, events0, issued0, rules1, events1, issued1, ruleIds, eventIds)
    requires i < |plan.teams| && r !in issued1
    ensures Progress(plan, dates, i, i + 1, rules0, events0, issued0,
                     rules1 + [RuleFor(plan, plan.teams[i], r)], events1, issued1 + {r}, ruleIds + [r], eventIds)
  {
    assert plan.teams[..i + 1] == plan.teams[..i] + [plan.teams[i]];
    RulesForStep(plan, plan.teams[..i], ruleIds, plan.teams[i], r);
    ExpansionIgnoresRest(plan, dates, i, ruleIds, ruleIds + [r], eventIds, eventIds);
    FreshRuleStep(ruleIds, eventIds, issued0, issued1, r);
  }

  /** `Event.insertMany` for team `i`, whose rule was just written. */
  lemma ProgressEvents(plan: Plan, dates: seq<int>, i: nat,
                       rules0: seq<Rule>, events0: seq<Event>, issued0: set<Id>,
                       rules1: seq<Rule>, events1: seq<Event>, issued1: set<Id>, issued2: set<Id>,
                       ruleIds: seq<Id>, eventIds: seq<seq<Id>>, ids: seq<Id>)
    requires Progress(plan, dates, i, i + 1, rules0, events0, issued0, rules1, events1, issued1, ruleIds, eventIds)
    requires |ids| == |dates| && issued1 <= issued2
    requires forall k :: 0 <= k < |ids| ==> ids[k] in issued2 - issued1
    ensures Progress(plan, dates, i + 1, i + 1, rules0, events0, issued0,
                     rules1, events1 + TeamEvents(plan, plan.teams[i], ruleIds[i], dates, ids), issued2,
                     ruleIds, eventIds + [ids])
  {
    ExpansionAppend(plan, dates, i, ruleIds, eventIds, ids);
    FreshEventsStep(ruleIds, eventIds, issued0, issued1, issued2, ids);
    AppendAssociative(events0, Expansion(plan, dates, i, ruleIds, eventIds),
                      TeamEvents(plan, plan.teams[i], ruleIds[i], dates, ids));
  }

  /** One team handled in full: its rule and its events were written. */
  lemma TeamWritten(plan: Plan, dates: seq<int>, i: nat,
                    rules0: seq<Rule>, events0: seq<Event>, issued0: set<Id>,
                    rules1: seq<Rule>, events1: seq<Event>, issued1: set<Id>,
                    rules2: seq<Rule>, events2: seq<Event>, issued2: set<Id>,
                    ruleIds: seq<Id>, eventIds: seq<seq<Id>>, r: Id, ids: seq<Id>)
    requires Progress(plan, dates, i, i, rules0, events0, issued0, rules1, events1, issued1, ruleIds, eventIds)
    requires i < |plan.teams| && r !in issued1 && issued1 + {r} <= issued2
    requires |ids| == |dates| && forall k :: 0 <= k < |ids| ==> ids[k] in issued2 - (issued1 + {r})
    requires rules2 == rules1 + [RuleFor(plan, plan.teams[i], r)]
    requires events2 == events1 + TeamEvents(plan, plan.teams[i], r, dates, ids)
    ensures Progress(plan, dates, i + 1, i + 1, rules0, events0, issued0, rules2, events2, issued2,
                     ruleIds + [r], eventIds + [ids])
  {
    ProgressRule(plan, dates, i, rules0, events0, issued0, rules1, events1, issued1, ruleIds, eventIds, r);
    ProgressEvents(plan, dates, i, rules0, events0, issued0, rules2, events1, issued1 + {r}, issued2,
                   ruleIds + [r], eventIds, ids);
  }

  /** The rule of team `i` was written, its events were not. */
  lemma TeamRuleOnly(plan: Plan, dates: seq<int>, i: nat,
                     rules0: seq<Rule>, events0: seq<Event>, issued0: set<Id>,
                     rules1: seq<Rule>, events1: seq<Event>, issued1: set<Id>,
                     rules2: seq<Rule>, issued2: set<Id>,
                     ruleIds: seq<Id>, eventIds: seq<seq<Id>>, r: Id)
    requires Progress(plan, dates, i, i, rules0, events0, issued0, rules1, events1, issued1, ruleIds, eventIds)
    requires i < |plan.teams| && r !in issued1 && issued1 + {r} <= issued2
    requires rules2 == rules1 + [RuleFor(plan, plan.teams[i], r)]
    ensures Progress(plan, dates, i, i + 1, rules0, events0, issued0, rules2, events1, issued2, ruleIds + [r], eventIds)
  {
    ProgressRule(plan, dates, i, rules0, events0, issued0, rules1, events1, issued1, ruleIds, eventIds, r);
    ProgressIssued(plan, dates, i, i + 1, rules0, events0, issued0, rules2, events1, issued1 + {r}, issued2,
                   ruleIds + [r], eventIds);
  }

  /** The state after the expansion loop: the rules of the first
      `RulesWritten` teams and the events of the first `TeamsCompleted` teams
      were appended under new identifiers, and the answer is 201 with every
      rule and |teams| × |dates| events, or 500 after a failed write. */
  ghost predicate Expanded(plan: Plan, dates: seq<int>, fault: Fault,
                           rules0: seq<Rule>, events0: seq<Event>, issued0: set<Id>,
                           rules1: seq<Rule>, events1: seq<Event>, issued1: set<Id>,
                           resp: Response<Created>, ruleIds: seq<Id>, eventIds: seq<seq<Id>>)
  {
    var n := |plan.teams|;
    Progress(plan, dates, TeamsCompleted(n, fault), RulesWritten(n, fault),
             rules0, events0, issued0, rules1, events1, issued1, ruleIds, eventIds) &&
    (TeamsCompleted(n, fault) == n ==>
      resp == Ok(201, Created(rules1[|rules0|..], |events1| - |events0|))) &&
    (TeamsCompleted(n, fault) < n ==> resp == Fail(500, ServerError))
  }

  /** How far the writes for one team got. */
  datatype TeamWrite = RuleFailed | EventsFailed | Written

  /** The body of the loop for team `i`: `RecurringRule.create`, then
      `Event.insertMany` of one event per date; a write that throws ends the
      request. The ghost parameters describe what the earlier iterations
      wrote. */
  method WriteTeam(db: Db, plan: Plan, dates: seq<int>, i: nat, fault: Fault,
                   ghost rules0: seq<Rule>, ghost events0: seq<Event>, ghost issued0: set<Id>,
                   ghost ruleIds: seq<Id>, ghost eventIds: seq<seq<Id>>)
    returns (outcome: TeamWrite, rule: Rule, inserted: nat, ghost ruleId: Id, ghost ids: seq<Id>)
    requires i < |plan.teams|
    requires Progress(plan, dates, i, i, rules0, events0, issued0, db.rules, db.events, db.issued, ruleIds, eventIds)
    modifies db`rules, db`events, db`issued
    ensures outcome == RuleFailed <==> fault == RuleWriteFails(i)
    ensures outcome == EventsFailed <==> fault == EventsWriteFail(i)
    ensures outcome == RuleFailed ==>
      Progress(plan, dates, i, i, rules0, events0, issued0, db.rules, db.events, db.issued, ruleIds, eventIds)
    ensures outcome == EventsFailed ==>
      Progress(plan, dates, i, i + 1, rules0, events0, issued0, db.rules, db.events, db.issued, ruleIds + [ruleId], eventIds)
    ensures outcome == Written ==>
      Progress(plan, dates, i + 1, i + 1, rules0, events0, issued0, db.rules, db.events, db.issued,
               ruleIds + [ruleId], eventIds + [ids])
    ensures outcome != RuleFailed ==> db.rules == old(db.rules) + [rule]
    ensures |db.events| == |old(db.events)| + inserted
  {
    var teamId := plan.teams[i];
    var id := db.NewId();
    ruleId := id;
    rule := RuleFor(plan, teamId, id);
    ids := [];
    if fault == RuleWriteFails(i) {
      ProgressIssued(plan, dates, i, i, rules0, events0, issued0, db.rules, db.events, old(db.issued), db.issued,
                     ruleIds, eventIds);
      return RuleFailed, rule, 0, ruleId, ids;
    }
    db.rules := db.rules + [rule];
    if fault == EventsWriteFail(i) {
      TeamRuleOnly(plan, dates, i, rules0, events0, issued0, old(db.rules), db.events, old(db.issued), db.rules, db.issued,
                   ruleIds, eventIds, id);
      return EventsFailed, rule, 0, ruleId, ids;
    }
    var eventIdsOfTeam := NewIds(db, |dates|);
    ids := eventIdsOfTeam;
    var events := TeamEvents(plan, teamId, id, dates, eventIdsOfTeam);
    db.events := db.events + events;
    TeamWritten(plan, dates, i, rules0, events0, issued0, old(db.rules), old(db.events), old(db.issued),
                db.rules, db.events, db.issued, ruleIds, eventIds, id, ids);
    outcome, inserted := Written, |events|;
  }

  /** The `for (const teamId of teamIdsArray)` loop: per team, create the rule,
      then insert its events; stop at the first failing write. */
  method ExpandTeams(db: Db, plan: Plan, dates: seq<int>, fault: Fault)
    returns (resp: Response<Created>, ghost ruleIds: seq<Id>, ghost eventIds: seq<seq<Id>>)
    modifies db`rules, db`events, db`issued
    ensures Expanded(plan, dates, fault, old(db.rules), old(db.events), old(db.issued),
                     db.rules, db.events, db.issued, resp, ruleIds, eventIds)
  {
    ghost var rules0, events0, issued0 := db.rules, db.events, db.issued;
    ruleIds, eventIds := [], [];
    var createdRules: seq<Rule> := [];
    var totalEventsCreated: nat := 0;
    var i := 0;
    ProgressStart(plan, dates, rules0, events0, issued0);
    while i < |plan.teams|
      invariant i <= TeamsCompleted(|plan.teams|, fault)
      invariant Progress(plan, dates, i, i, rules0, events0, issued0, db.rules, db.events, db.issued, ruleIds, eventIds)
      invariant db.rules == rules0 + createdRules
      invariant totalEventsCreated == |db.events| - |events0|
    {
      var outcome, rule, inserted, ruleId, ids := WriteTeam(db, plan, dates, i, fault, rules0, events0, issued0, ruleIds, eventIds);
      if outcome == RuleFailed {
        assert RulesWritten(|plan.teams|, fault) == i && TeamsCompleted(|plan.teams|, fault) == i;
        return Fail(500, ServerError), ruleIds, eventIds;
      }
      if outcome == EventsFailed {
        assert RulesWritten(|plan.teams|, fault) == i + 1 && TeamsCompleted(|plan.teams|, fault) == i;
        return Fail(500, ServerError), ruleIds + [ruleId], eventIds;
      }
      AppendAssoc(rules0, createdRules, [rule]);
      createdRules := createdRules + [rule];
      ruleIds := ruleIds + [ruleId];
      eventIds := eventIds + [ids];
      totalEventsCreated := totalEventsCreated + inserted;
      i := i + 1;
    }
    assert RulesWritten(|plan.teams|, fault) == TeamsCompleted(|plan.teams|, fault) == |plan.teams|;
    DropPrefix(rules0, createdRules);
    resp := Ok(201, Created(createdRules, totalEventsCreated));
  }

  method PostRecurringRule(db: Db, auth: Option<AuthUser>, req: RuleRequest, parse: string -> JsDate, fault: Fault)
    returns (resp: Response<Created>, ghost ruleIds: seq<Id>, ghost eventIds: seq<seq<Id>>)
    requires TimeReadable(req)
    modifies db`rules, db`events, db`issued
    ensures match Validate(auth, req, old(db.eventTypes), parse)
      case Reject(status, message) =>
        resp == Fail(status, message) && db.rules == old(db.rules) && db.events == old(db.events)
      case Accept(plan) =>
        EventDates(Config(plan)).Success? &&
        Expanded(plan, EventDates(Config(plan)).value, EffectiveFault(plan, fault), old(db.rules), old(db.events), old(db.issued),
                 db.rules, db.events, db.issued, resp, ruleIds, eventIds)
  {
    var checked := Validate(auth, req, db.eventTypes, parse);
    if checked.Reject? {
      return Fail(checked.status, checked.message), [], [];
    }
    var plan := checked.plan;
    GenerationSucceeds(auth, req, db.eventTypes, parse);
    var generated := GenerateEventDates(Config(plan));
    resp, ruleIds, eventIds := ExpandTeams(db, plan, generated.value, EffectiveFault(plan, fault));
  }

  /** Validation leaves no way for the generator to throw: a seasonal rule that
      passed the checks has an end date. */
  lemma GenerationSucceeds(auth: Option<AuthUser>, req: RuleRequest, types: seq<EventType>, parse: string -> JsDate)
    requires TimeReadable(req)
    requires Validate(auth, req, types, parse).Accept?
    ensures EventDates(Config(Validate(auth, req, types, parse).plan)).Success?
  {
  }

  // ---------------------------------------------------------------------
  // Properties of the POST handler

  /** The 400 for missing fields is given exactly when one of the five fields
      is falsy, `dayOfWeek` is absent, or no team is named; a `dayOfWeek` of 0
      (Sunday) is accepted. */
  lemma MissingFieldsExactly(auth: Option<AuthUser>, req: RuleRequest, types: seq<EventType>, parse: string -> JsDate)
    requires TimeReadable(req)
    requires auth.Some? && IsStaff(auth.value.role)
    ensures Validate(auth, req, types, parse) == Reject(400, MissingFields) <==>
      !Truthy(req.kind) || req.dayOfWeek.None? || !Truthy(req.time) || !Truthy(req.location) ||
      !Truthy(req.startDate) || !Truthy(req.periodType) || |TeamList(req)| == 0
  {
  }

  /** A request that passes every check carries the teams of `TeamList`, a
      known type, a valid start, the normalised selection and end time, and,
      when seasonal, a valid end date. */
  lemma AcceptedPlan(auth: Option<AuthUser>, req: RuleRequest, types: seq<EventType>, parse: string -> JsDate)
    requires TimeReadable(req)
    requires Validate(auth, req, types, parse).Accept?
    ensures var plan := Validate(auth, req, types, parse).plan;
      auth.Some? && IsStaff(auth.value.role) && plan.createdBy == auth.value.userId &&
      plan.teams == TeamList(req) && |plan.teams| > 0 &&
      FindEventType(types, plan.kind).Some? &&
      parse(req.startDate.value) == Time(plan.startDate) &&
      plan.selection == Selection(req.selectedChildrenIds) &&
      plan.endTime == EndTimeField(req.endTime) &&
      (plan.periodType == "seasonal" ==> plan.endDate.Some? && plan.endDate.value.Time?)
  {
  }

  /** Team `t`'s event for the `j`-th date comes right after the events of
      the teams before it (at `t * |dates| + j`, by `ExpansionLength`): teams
      in request order, dates in generation order, and every event is a
      recurring, non-exceptional, non-custom occurrence linked to its team's
      rule. */
  lemma {:induction false} ExpansionAt(plan: Plan, dates: seq<int>, n: nat, ruleIds: seq<Id>, eventIds: seq<seq<Id>>,
                                       t: nat, j: nat)
    requires n <= |plan.teams| && IdShapes(n, ruleIds, eventIds, |dates|)
    requires t < n && j < |dates|
    ensures |Expansion(plan, dates, t, ruleIds, eventIds)| + j < |Expansion(plan, dates, n, ruleIds, eventIds)|
    ensures var e := Expansion(plan, dates, n, ruleIds, eventIds)[|Expansion(plan, dates, t, ruleIds, eventIds)| + j];
      e == EventFor(plan, plan.teams[t], ruleIds[t], dates[j], eventIds[t][j]) &&
      e.date == dates[j] && e.teamId == plan.teams[t] && e.recurringRuleId == Some(ruleIds[t]) &&
      e.isRecurring && !e.isException && !e.isCustom &&
      e.kind == plan.kind && e.selectedChildrenIds == plan.selection && e.endTime == plan.endTime
  {
    var prefix := Expansion(plan, dates, n - 1, ruleIds, eventIds);
    var last := TeamEvents(plan, plan.teams[n - 1], ruleIds[n - 1], dates, eventIds[n - 1]);
    var k := |Expansion(plan, dates, t, ruleIds, eventIds)| + j;
    assert Expansion(plan, dates, n, ruleIds, eventIds) == prefix + last;
    if t < n - 1 {
      ExpansionAt(plan, dates, n - 1, ruleIds, eventIds, t, j);
      assert (prefix + last)[k] == prefix[k];
    } else {
      TeamEventsAt(plan, plan.teams[t], ruleIds[t], dates, eventIds[t], j);
      assert (prefix + last)[k] == last[j];
    }
  }

  /** Without a failing write every team gets its rule and all its events:
      201 with one rule per team, in order, and |teams| × |dates| events. */
  lemma ExpandedWithoutFault(plan: Plan, dates: seq<int>,
                             rules0: seq<Rule>, events0: seq<Event>, issued0: set<Id>,
                             rules1: seq<Rule>, events1: seq<Event>, issued1: set<Id>,
                             resp: Response<Created>, ruleIds: seq<Id>, eventIds: seq<seq<Id>>)
    requires Expanded(plan, dates, NoFault, rules0, events0, issued0, rules1, events1, issued1, resp, ruleIds, eventIds)
    ensures resp.Ok? && resp.status == 201
    ensures |resp.body.rules| == |plan.teams| && |ruleIds| == |plan.teams|
    ensures forall t :: 0 <= t < |plan.teams| ==> resp.body.rules[t] == RuleFor(plan, plan.teams[t], ruleIds[t])
    ensures resp.body.eventsCreated == |plan.teams| * |dates|
    ensures |events1| == |events0| + |plan.teams| * |dates|
    ensures forall a, b :: 0 <= a < b < |ruleIds| ==> ruleIds[a] != ruleIds[b]
  {
    assert plan.teams[..|plan.teams|] == plan.teams;
    ExpansionLength(plan, dates, |plan.teams|, ruleIds, eventIds);
    forall t | 0 <= t < |plan.teams|
      ensures resp.body.rules[t] == RuleFor(plan, plan.teams[t], ruleIds[t])
    {
      RulesForAt(plan, plan.teams, ruleIds, t);
    }
  }

  /** A write that throws for team `i` ends the request with 500 and keeps what
      the earlier teams wrote: `i` complete teams, plus the rule of team `i`
      when only its events failed. */
  lemma ExpandedWithFault(plan: Plan, dates: seq<int>, fault: Fault,
                          rules0: seq<Rule>, events0: seq<Event>, issued0: set<Id>,
                          rules1: seq<Rule>, events1: seq<Event>, issued1: set<Id>,
                          resp: Response<Created>, ruleIds: seq<Id>, eventIds: seq<seq<Id>>)
    requires Expanded(plan, dates, fault, rules0, events0, issued0, rules1, events1, issued1, resp, ruleIds, eventIds)
    requires fault.RuleWriteFails? || fault.EventsWriteFail?
    requires fault.team < |plan.teams|
    ensures resp == Fail(500, ServerError)
    ensures |rules1| == |rules0| + fault.team + (if fault.EventsWriteFail? then 1 else 0)
    ensures |events1| == |events0| + fault.team * |dates|
    ensures rules1[..|rules0|] == rules0 && events1[..|events0|] == events0
  {
    ExpansionLength(plan, dates, fault.team, ruleIds, eventIds);
  }

  /** A type the schema does not list (a custom event type) passes the type
      check but makes the first `RecurringRule.create` throw: 500, nothing
      written. */
  lemma UnstorableWritesNothing(plan: Plan, dates: seq<int>, fault: Fault,
                                rules0: seq<Rule>, events0: seq<Event>, issued0: set<Id>,
                                rules1: seq<Rule>, events1: seq<Event>, issued1: set<Id>,
                                resp: Response<Created>, ruleIds: seq<Id>, eventIds: seq<seq<Id>>)
    requires |plan.teams| > 0 && !Storable(plan)
    requires Expanded(plan, dates, EffectiveFault(plan, fault), rules0, events0, issued0,
                      rules1, events1, issued1, resp, ruleIds, eventIds)
    ensures resp == Fail(500, ServerError) && rules1 == rules0 && events1 == events0
  {
    assert plan.teams[..0] == [];
  }

  lemma CustomKindUnstorable(plan: Plan)
    requires !KnownKind(plan.kind)
    ensures !Storable(plan)
  {
  }

  // ---------------------------------------------------------------------
  // GET

  /** `RecurringRule.find({ teamId: { $in: teamIds } })`, in stored order. */
  function RulesOfTeams(rules: seq<Rule>, teamIds: seq<Id>): (r: seq<Rule>)
    ensures forall x :: x in r <==> x in rules && x.teamId in teamIds
    ensures |r| <= |rules|
  {
    if rules == [] then []
    else (if rules[0].teamId in teamIds then [rules[0]] else []) + RulesOfTeams(rules[1..], teamIds)
  }

  /** GET /api/recurring-rules: 403 unless educator or admin; an admin sees
      every rule, an educator the rules of the teams they lead. */
  function ListRules(auth: Option<AuthUser>, teams: seq<Team>, rules: seq<Rule>): (r: Response<seq<Rule>>)
    ensures auth.None? || !IsStaff(auth.value.role) <==> r == Fail(403, NotAuthorized)
    ensures auth.Some? && auth.value.role == Admin ==> r == Ok(200, rules)
    ensures auth.Some? && auth.value.role == Educator ==>
      r.Ok? && r.status == 200 &&
      (forall x :: x in r.body <==>
        x in rules && exists t :: t in teams && t.educatorId == auth.value.userId && t.id == x.teamId)
  {
    if auth.None? || !IsStaff(auth.value.role) then Fail(403, NotAuthorized)
    else if auth.value.role == Educator then
      var mine := TeamsOf(teams, auth.value.userId);
      var ids := TeamIds(mine);
      forall x | x in rules
        ensures x.teamId in ids <==> exists t :: t in mine && t.id == x.teamId
      {
        InTeamIds(mine, x.teamId);
      }
      Ok(200, RulesOfTeams(rules, ids))
    else Ok(200, rules)
  }
}
