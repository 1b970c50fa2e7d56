/** GET /api/cron/send-reminders: for every event dated on the target day
    (a fixed number of days after today), remind parent 1 of each concerned
    child who has not answered yet, when that parent wants reminders. The
    e-mail service is an outcome per attempt. */
module Reminders {

  import opened Common
  import opened Calendar
  import opened Store
  import opened Availabilities

  /** REMINDER_DAYS_BEFORE when the environment does not set it. */
  const DefaultDaysBefore: int := 2

  /** The secret query parameter must equal CRON_SECRET; an unset CRON_SECRET
      (undefined) equals no parameter value (a string or null). */
  predicate SecretAccepted(secret: Option<string>, cronSecret: Option<string>)
  {
    secret.Some? && cronSecret.Some? && secret.value == cronSecret.value
  }

  /** The local day `daysBefore` days after today, from its first to its last
      millisecond. */
  function Window(now: int, daysBefore: int): (r: (int, int))
  {
    var today := Midnight(DayOf(now));
    var target := AddDays(today, daysBefore);
    var startOfDay := Midnight(DayOf(target));
    (startOfDay, startOfDay + MsPerDay - 1)
  }

  /** The window holds exactly the instants of the target day. */
  lemma WindowIsTargetDay(now: int, daysBefore: int, t: int)
    ensures Window(now, daysBefore).0 <= t <= Window(now, daysBefore).1 <==> DayOf(t) == DayOf(now) + daysBefore
  {
    AddDaysFromMidnight(DayOf(now), daysBefore);
  }

  /** `Event.find({ date: { $gte: startOfDay, $lte: endOfDay } })`. */
  function EventsBetween(events: seq<Event>, lo: int, hi: int): (r: seq<Event>)
    ensures forall e :: e in r <==> e in events && lo <= e.date <= hi
  {
    if events == [] then []
    else (if lo <= events[0].date <= hi then [events[0]] else []) + EventsBetween(events[1..], lo, hi)
  }

  /** `Child.find({ teamId })`, as identifiers. */
  function ChildIdsOfTeam(children: seq<Child>, teamId: Id): (r: seq<Id>)
    ensures forall id :: id in r <==> exists c :: c in children && c.teamId == teamId && c.id == id
  {
    if children == [] then []
    else
      (if children[0].teamId == teamId then [children[0].id] else []) + ChildIdsOfTeam(children[1..], teamId)
  }

  /** Without a targeted selection the handler reads `event.teamId._id`; a team
      that populate could not find is null there and the request fails. */
  predicate Crashes(e: Event, teams: seq<Team>)
  {
    !(e.selectedChildrenIds.Some? && |e.selectedChildrenIds.value| > 0) && FindTeam(teams, e.teamId).None?
  }

  /** Where the handler's pass over the events stops: the position of the
      first event that crashes, or the number of events when none does. */
  function FirstCrash(events: seq<Event>, teams: seq<Team>): (k: nat)
    ensures k <= |events|
    ensures k < |events| ==> Crashes(events[k], teams)
    ensures forall j :: 0 <= j < k ==> !Crashes(events[j], teams)
  {
    if events == [] then 0
    else if Crashes(events[0], teams) then 0
    else 1 + FirstCrash(events[1..], teams)
  }

  /** The children concerned by an event: its selection when non-empty, else
      every child of its team. */
  function Concerned(e: Event, children: seq<Child>): seq<Id>
  {
    if e.selectedChildrenIds.Some? && |e.selectedChildrenIds.value| > 0 then e.selectedChildrenIds.value
    else ChildIdsOfTeam(children, e.teamId)
  }

  /** A reminder is due: no answer for (event, child) or a pending one, the child
      and its parent 1 exist, and that parent has reminders on. */
  predicate Due(e: Event, childId: Id, avs: seq<Availability>, children: seq<Child>, users: seq<User>)
  {
    var k := KeyIndex(avs, e.id, childId);
    (k.None? || avs[k.value].status == "pending") &&
    FindChild(children, childId).Some? &&
    FindUser(users, FindChild(children, childId).value.parentId).Some? &&
    FindUser(users, FindChild(children, childId).value.parentId).value.settings.reminderEnabled
  }

  /** One call of sendReminderEmail. */
  datatype Attempt = Attempt(eventId: Id, childId: Id, parentId: Id)

  /** The attempts for one event, over its concerned children in order. */
  function EventAttempts(e: Event, ids: seq<Id>, avs: seq<Availability>, children: seq<Child>, users: seq<User>)
    : seq<Attempt>
  {
    if ids == [] then []
    else
      (if Due(e, ids[0], avs, children, users)
       then [Attempt(e.id, ids[0], FindChild(children, ids[0]).value.parentId)] else []) +
      EventAttempts(e, ids[1..], avs, children, users)
  }

  /** The attempts over a list of events, in order. */
  function AllAttempts(events: seq<Event>, avs: seq<Availability>, children: seq<Child>, users: seq<User>)
    : seq<Attempt>
  {
    if events == [] then []
    else
      var last := events[|events| - 1];
      AllAttempts(events[..|events| - 1], avs, children, users) +
      EventAttempts(last, Concerned(last, children), avs, children, users)
  }

  /** How many attempts the e-mail service accepted. */
  function Delivered(attempts: seq<Attempt>, delivered: Attempt -> bool): (n: nat)
    ensures n <= |attempts|
  {
    if attempts == [] then 0
    else Delivered(attempts[..|attempts| - 1], delivered) + (if delivered(attempts[|attempts| - 1]) then 1 else 0)
  }

  /** One more attempt adds one to the count when the service accepts it. */
  lemma DeliveredSnoc(attempts: seq<Attempt>, a: Attempt, delivered: Attempt -> bool)
    ensures Delivered(attempts + [a], delivered) == Delivered(attempts, delivered) + (if delivered(a) then 1 else 0)
  {
    DropLast(attempts, a);
  }

  /** A reminder for an event goes to a child iff the child is concerned and
      due, and it goes to the child's parent 1: parent 2 is never reminded. */
  lemma {:induction false} EventAttemptsMeans(e: Event, ids: seq<Id>, avs: seq<Availability>,
                                              children: seq<Child>, users: seq<User>, a: Attempt)
    ensures a in EventAttempts(e, ids, avs, children, users) <==>
      a.eventId == e.id && a.childId in ids && Due(e, a.childId, avs, children, users) &&
      a.parentId == FindChild(children, a.childId).value.parentId
  {
    if ids != [] {
      EventAttemptsMeans(e, ids[1..], avs, children, users, a);
      assert ids == [ids[0]] + ids[1..];
    }
  }

  /** An answer "present" or "absent" for (event, child), the only one under
      the unique key, stops the reminder. */
  lemma AnsweredNotDue(e: Event, childId: Id, avs: seq<Availability>, children: seq<Child>, users: seq<User>, i: nat)
    requires i < |avs| && avs[i].eventId == e.id && avs[i].childId == childId
    requires avs[i].status == "present" || avs[i].status == "absent"
    requires AvailabilityKeysUnique(avs)
    ensures !Due(e, childId, avs, children, users)
  {
    assert KeyIndex(avs, e.id, childId).Some?;
  }

  datatype Report = Report(targetDay: int, eventsProcessed: nat, emailsSent: nat, errors: nat)

  /** The inner loop: one attempt per due child of the event, counted as sent
      or failed; a failure does not stop the loop. */
  method RemindForEvent(db: Db, e: Event, ids: seq<Id>, delivered: Attempt -> bool,
                        attempts0: seq<Attempt>, sent0: nat, errors0: nat)
    returns (attempts: seq<Attempt>, sent: nat, errors: nat)
    requires sent0 == Delivered(attempts0, delivered) && sent0 + errors0 == |attempts0|
    ensures attempts == attempts0 + EventAttempts(e, ids, db.availabilities, db.children, db.users)
    ensures sent == Delivered(attempts, delivered) && sent + errors == |attempts|
  {
    attempts, sent, errors := attempts0, sent0, errors0;
    for i := 0 to |ids|
      invariant attempts + EventAttempts(e, ids[i..], db.availabilities, db.children, db.users) ==
        attempts0 + EventAttempts(e, ids, db.availabilities, db.children, db.users)
      invariant sent == Delivered(attempts, delivered) && sent + errors == |attempts|
    {
      var childId := ids[i];
      ghost var before := attempts;
      var k := KeyIndex(db.availabilities, e.id, childId);
      if k.None? || db.availabilities[k.value].status == "pending" {
        var child := FindChild(db.children, childId);
        if child.Some? && FindUser(db.users, child.value.parentId).Some? {
          var parent := FindUser(db.users, child.value.parentId).value;
          if parent.settings.reminderEnabled {
            var a := Attempt(e.id, childId, child.value.parentId);
            attempts := attempts + [a];
            DeliveredSnoc(before, a, delivered);
            if delivered(a) {
              sent := sent + 1;
            } else {
              errors := errors + 1;
            }
          }
        }
      }
      RemindStep(e, ids, i, db.availabilities, db.children, db.users, before, attempts);
    }
  }

  /** One child of the inner loop: the attempt it adds, if due, moves the
      loop's split of the event's attempts one child further. */
  lemma RemindStep(e: Event, ids: seq<Id>, i: nat, avs: seq<Availability>, children: seq<Child>, users: seq<User>,
                   before: seq<Attempt>, after: seq<Attempt>)
    requires i < |ids|
    requires after == before + (if Due(e, ids[i], avs, children, users)
                                then [Attempt(e.id, ids[i], FindChild(children, ids[i]).value.parentId)] else [])
    ensures after + EventAttempts(e, ids[i + 1..], avs, children, users) ==
      before + EventAttempts(e, ids[i..], avs, children, users)
  {
    SuffixStep(ids, i);
    assert ids[i..][1..] == ids[i + 1..];
  }

  /** The outer loop over the target day's events. It stops at the first event
      that has no selection and whose team is gone. */
  method RemindAll(db: Db, events: seq<Event>, delivered: Attempt -> bool)
    returns (crash: bool, attempts: seq<Attempt>, sent: nat, errors: nat)
    ensures sent == Delivered(attempts, delivered) && sent + errors == |attempts|
    ensures crash <==> FirstCrash(events, db.teams) < |events|
    ensures attempts == AllAttempts(events[..FirstCrash(events, db.teams)], db.availabilities, db.children, db.users)
  {
    sent, errors := 0, 0;
    attempts := [];
    for i := 0 to |events|
      invariant i <= FirstCrash(events, db.teams)
      invariant attempts == AllAttempts(events[..i], db.availabilities, db.children, db.users)
      invariant sent == Delivered(attempts, delivered) && sent + errors == |attempts|
    {
      var e := events[i];
      if Crashes(e, db.teams) {
        return true, attempts, sent, errors;
      }
      var ids := Concerned(e, db.children);
      PassStep(events, i, db.teams, db.availabilities, db.children, db.users);
      attempts, sent, errors := RemindForEvent(db, e, ids, delivered, attempts, sent, errors);
    }
    assert events[..|events|] == events;
    crash := false;
  }

  /** The handler: 401 for a wrong secret with nothing sent; otherwise one
      pass over the target day's events. It answers 500 at the first event
      that has no selection and whose team is gone, after the attempts for the
      events before it; otherwise it reports the target day, the number of
      events and the attempts split into sent and failed. */
  method SendReminders(db: Db, secret: Option<string>, cronSecret: Option<string>, now: int, daysBefore: int,
                       delivered: Attempt -> bool)
    returns (resp: Response<Report>, attempts: seq<Attempt>)
    ensures !SecretAccepted(secret, cronSecret) ==> resp == Fail(401, NotAuthorized) && attempts == []
    ensures SecretAccepted(secret, cronSecret) ==>
      var w := Window(now, daysBefore);
      var events := EventsBetween(db.events, w.0, w.1);
      var k := FirstCrash(events, db.teams);
      attempts == AllAttempts(events[..k], db.availabilities, db.children, db.users) &&
      if k == |events| then
        resp == Ok(200, Report(DayOf(now) + daysBefore, |events|, Delivered(attempts, delivered),
                               |attempts| - Delivered(attempts, delivered)))
      else
        resp == Fail(500, ServerError)
  {
    if !SecretAccepted(secret, cronSecret) {
      return Fail(401, NotAuthorized), [];
    }
    var w := Window(now, daysBefore);
    var events := EventsBetween(db.events, w.0, w.1);
    var crash, sent, errors;
    crash, attempts, sent, errors := RemindAll(db, events, delivered);
    if crash {
      return Fail(500, ServerError), attempts;
    }
    var targetDate := AddDays(Midnight(DayOf(now)), daysBefore);
    AddDaysFromMidnight(DayOf(now), daysBefore);
    resp := Ok(200, Report(DayOf(targetDate), |events|, sent, errors));
  }

  /** One step of the pass: an event that does not crash, before the first
      crash, is followed by the next one and adds its own attempts. */
  lemma PassStep(events: seq<Event>, i: nat, teams: seq<Team>, avs: seq<Availability>,
                 children: seq<Child>, users: seq<User>)
    requires i < |events| && i <= FirstCrash(events, teams) && !Crashes(events[i], teams)
    ensures i + 1 <= FirstCrash(events, teams)
    ensures AllAttempts(events[..i + 1], avs, children, users) ==
      AllAttempts(events[..i], avs, children, users) + EventAttempts(events[i], Concerned(events[i], children), avs, children, users)
  {
    PrefixStep(events, i);
    AllAttemptsSnoc(events[..i], events[i], avs, children, users);
  }

  lemma AllAttemptsSnoc(events: seq<Event>, e: Event, avs: seq<Availability>,
                        children: seq<Child>, users: seq<User>)
    ensures AllAttempts(events + [e], avs, children, users) ==
      AllAttempts(events, avs, children, users) + EventAttempts(e, Concerned(e, children), avs, children, users)
  {
    assert (events + [e])[..|events|] == events;
  }
}
