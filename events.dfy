/** GET /api/events: the query the handler builds by role and parameters,
    and the events it returns sorted by date. POST /api/events: the checks,
    the one-off event it creates, and the creation e-mails it attempts. */
module Events {

  import opened Common
  import opened Calendar
  import opened Ordering
  import opened Store

  // ---------------------------------------------------------------------
  // GET

  /** The search parameters; an absent parameter is None. */
  datatype EventParams = EventParams(teamId: Option<string>, startDate: Option<string>, endDate: Option<string>)

  /** The condition on `teamId` held by the query document. */
  datatype TeamCond = AnyTeam | TeamIn(ids: seq<Id>) | TeamIs(id: Id)

  /** The query document: the parent's `$or` (its children's ids and their
      teams), the `teamId` field and the `date` range, whose bounds are
      whatever `new Date(...)` gave. */
  datatype Query = Query(parentOr: Option<(seq<Id>, seq<Id>)>, team: TeamCond, date: Option<(JsDate, JsDate)>)

  /** The database can cast the query: no date bound is an invalid date. */
  predicate Castable(q: Query)
  {
    q.date.None? || (q.date.value.0.Time? && q.date.value.1.Time?)
  }

  predicate TeamMatches(cond: TeamCond, teamId: Id)
  {
    match cond
    case AnyTeam => true
    case TeamIn(ids) => teamId in ids
    case TeamIs(id) => teamId == id
  }

  /** The parent's `$or`: the selection names one of the children, or there is
      no selection and the event's team is one of the children's teams. */
  predicate ParentOrMatches(childIds: seq<Id>, childTeams: seq<Id>, e: Event)
  {
    (e.selectedChildrenIds.Some? && exists id :: id in e.selectedChildrenIds.value && id in childIds) ||
    (e.selectedChildrenIds.None? && e.teamId in childTeams)
  }

  /** Whether a stored event matches the query document. */
  predicate Matches(q: Query, e: Event)
  {
    (q.parentOr.None? || ParentOrMatches(q.parentOr.value.0, q.parentOr.value.1, e)) &&
    TeamMatches(q.team, e.teamId) &&
    (q.date.None? || (q.date.value.0.Time? && q.date.value.1.Time? &&
                      q.date.value.0.ms <= e.date <= q.date.value.1.ms))
  }

  function Filter(events: seq<Event>, q: Query): (r: seq<Event>)
    ensures forall e :: e in r <==> e in events && Matches(q, e)
    ensures |r| <= |events|
  {
    if events == [] then []
    else (if Matches(q, events[0]) then [events[0]] else []) + Filter(events[1..], q)
  }

  predicate ByDate(a: Event, b: Event)
  {
    a.date <= b.date
  }

  /** The date range is applied only when both bounds are given and read as dates. */
  function DateRange(params: EventParams, parse: string -> JsDate): Option<(int, int)>
  {
    if Truthy(params.startDate) && Truthy(params.endDate)
       && parse(params.startDate.value).Time? && parse(params.endDate.value).Time?
    then Some((parse(params.startDate.value).ms, parse(params.endDate.value).ms))
    else None
  }

  /** A bound that is not a date makes the database refuse the query. */
  predicate BadRange(params: EventParams, parse: string -> JsDate)
  {
    Truthy(params.startDate) && Truthy(params.endDate)
    && (parse(params.startDate.value).InvalidDate? || parse(params.endDate.value).InvalidDate?)
  }

  /** Who sees an event, stated on the tables: a parent through a child of
      theirs (as parent 1 or parent 2) named in the selection or, without a
      selection, in the event's team; an educator through a team they lead; an
      admin always. A `teamId` parameter narrows a parent's and an admin's view
      to that team and replaces an educator's own-teams restriction. The date
      range, when given, is inclusive. */
  predicate Visible(user: AuthUser, params: EventParams, range: Option<(int, int)>,
                    children: seq<Child>, teams: seq<Team>, e: Event)
  {
    var byRole :=
      match user.role
      case Parent =>
        (e.selectedChildrenIds.Some? &&
           exists c :: c in children && IsParentOf(c, user.userId) && c.id in e.selectedChildrenIds.value) ||
        (e.selectedChildrenIds.None? &&
           exists c :: c in children && IsParentOf(c, user.userId) && c.teamId == e.teamId)
      case Educator => exists t :: t in teams && t.educatorId == user.userId && t.id == e.teamId
      case Admin => true;
    var byTeam :=
      if Truthy(params.teamId) then
        e.teamId == params.teamId.value && (user.role == Educator || byRole)
      else byRole;
    byTeam && (range.None? || range.value.0 <= e.date <= range.value.1)
  }

  /** The parent's `$or` over their children's ids and teams holds exactly
      when a child of theirs is selected or, without a selection, is in the
      event's team. */
  lemma ParentOrMeansChild(children: seq<Child>, userId: Id, e: Event)
    ensures ParentOrMatches(ChildIds(ChildrenOf(children, userId)), TeamIdsOfChildren(ChildrenOf(children, userId)), e)
      <==>
      (e.selectedChildrenIds.Some? &&
         exists c :: c in children && IsParentOf(c, userId) && c.id in e.selectedChildrenIds.value) ||
      (e.selectedChildrenIds.None? &&
         exists c :: c in children && IsParentOf(c, userId) && c.teamId == e.teamId)
  {
    var kids := ChildrenOf(children, userId);
    InTeamIdsOfChildren(kids, e.teamId);
    if e.selectedChildrenIds.Some? {
      var sel := e.selectedChildrenIds.value;
      if exists id :: id in sel && id in ChildIds(kids) {
        var id :| id in sel && id in ChildIds(kids);
        InChildIds(kids, id);
      }
      if exists c :: c in children && IsParentOf(c, userId) && c.id in sel {
        var c :| c in children && IsParentOf(c, userId) && c.id in sel;
        InChildIds(kids, c.id);
      }
    }
  }

  /** The query built for a role matches exactly the visible events. */
  lemma QueryMeansVisible(user: AuthUser, params: EventParams, range: Option<(int, int)>,
                          children: seq<Child>, teams: seq<Team>, q: Query, e: Event)
    requires range.None? <==> q.date.None?
    requires range.Some? ==> q.date == Some((Time(range.value.0), Time(range.value.1)))
    requires user.role == Parent ==>
      q.parentOr == Some((ChildIds(ChildrenOf(children, user.userId)), TeamIdsOfChildren(ChildrenOf(children, user.userId))))
    requires user.role != Parent ==> q.parentOr.None?
    requires Truthy(params.teamId) ==> q.team == TeamIs(params.teamId.value)
    requires !Truthy(params.teamId) && user.role == Educator ==> q.team == TeamIn(TeamIds(TeamsOf(teams, user.userId)))
    requires !Truthy(params.teamId) && user.role != Educator ==> q.team == AnyTeam
    ensures Matches(q, e) <==> Visible(user, params, range, children, teams, e)
  {
    if user.role == Parent {
      ParentOrMeansChild(children, user.userId, e);
    } else if user.role == Educator {
      InTeamIds(TeamsOf(teams, user.userId), e.teamId);
    }
  }

  /** The query document, built as the handler builds it: by role, then the
      `teamId` parameter overwrites the team condition, then the date range. */
  method BuildQuery(user: AuthUser, params: EventParams, children: seq<Child>, teams: seq<Team>, parse: string -> JsDate)
    returns (query: Query)
    ensures Castable(query) <==> !BadRange(params, parse)
    ensures Castable(query) ==>
      forall e :: Matches(query, e) <==> Visible(user, params, DateRange(params, parse), children, teams, e)
  {
    query := Query(None, AnyTeam, None);
    if user.role == Parent {
      var kids := ChildrenOf(children, user.userId);
      query := Query(Some((ChildIds(kids), TeamIdsOfChildren(kids))), AnyTeam, None);
    } else if user.role == Educator {
      var owned := TeamsOf(teams, user.userId);
      query := Query(None, TeamIn(TeamIds(owned)), None);
    }
    if Truthy(params.teamId) {
      query := query.(team := TeamIs(params.teamId.value));
    }
    if Truthy(params.startDate) && Truthy(params.endDate) {
      query := query.(date := Some((parse(params.startDate.value), parse(params.endDate.value))));
    }
    if Castable(query) {
      var range := DateRange(params, parse);
      forall e | true
        ensures Matches(query, e) <==> Visible(user, params, range, children, teams, e)
      {
        QueryMeansVisible(user, params, range, children, teams, query, e);
      }
    }
  }

  /** GET: 401 without a caller; otherwise the events matching the query built
      for the caller's role and parameters, in ascending date order (a date
      bound that is not a date makes the query fail: 500). */
  method ListEvents(db: Db, auth: Option<AuthUser>, params: EventParams, parse: string -> JsDate)
    returns (resp: Response<seq<Event>>)
    ensures auth.None? ==> resp == Fail(401, NotAuthenticated)
    ensures auth.Some? && BadRange(params, parse) ==> resp == Fail(500, ServerError)
    ensures auth.Some? && !BadRange(params, parse) ==>
      resp.Ok? && resp.status == 200 &&
      SortedBy(resp.body, ByDate) &&
      (forall e :: multiset(resp.body)[e] ==
         (if Visible(auth.value, params, DateRange(params, parse), db.children, db.teams, e)
          then multiset(db.events)[e] else 0))
  {
    if auth.None? {
      return Fail(401, NotAuthenticated);
    }
    var query := BuildQuery(auth.value, params, db.children, db.teams, parse);
    if !Castable(query) {
      return Fail(500, ServerError);
    }
    var found := Filter(db.events, query);
    FilterCounts(db.events, query);
    SortBySorted(found, ByDate);
    resp := Ok(200, SortBy(found, ByDate));
  }

  /** The filter keeps every copy of a matching event and none of the others. */
  lemma {:induction false} FilterCounts(events: seq<Event>, q: Query)
    ensures forall e :: multiset(Filter(events, q))[e] == (if Matches(q, e) then multiset(events)[e] else 0)
  {
    if events != [] {
      FilterCounts(events[1..], q);
      assert events == [events[0]] + events[1..];
    }
  }

  /** An educator who names a team sees its events even when they do not lead it. */
  lemma EducatorTeamParamOverrides(user: AuthUser, params: EventParams, children: seq<Child>, teams: seq<Team>, e: Event)
    requires user.role == Educator && Truthy(params.teamId) && e.teamId == params.teamId.value
    ensures Visible(user, params, None, children, teams, e)
  {
  }

  /** A parent who names a team sees only events they would see anyway. */
  lemma ParentTeamParamNarrows(user: AuthUser, params: EventParams, range: Option<(int, int)>,
                               children: seq<Child>, teams: seq<Team>, e: Event)
    requires user.role == Parent && Visible(user, params, range, children, teams, e)
    ensures Visible(user, params.(teamId := None), range, children, teams, e)
    ensures Truthy(params.teamId) ==> e.teamId == params.teamId.value
  {
  }

  // ---------------------------------------------------------------------
  // POST

  datatype EventRequest = EventRequest(
    kind: Option<string>,
    date: Option<string>,
    time: Option<string>,
    location: Option<string>,
    teamId: Option<Id>,
    selectedChildrenIds: Option<seq<Id>>)

  const FieldsMissing: string := "Tous les champs requis sont manquants"

  /** A creation e-mail attempted for a child, addressed to a parent. */
  datatype Notice = Notice(parentId: Id, childId: Id)

  /** `Child.find({ _id: { $in: selection } })`, in stored order. */
  function SelectedChildren(children: seq<Child>, selection: seq<Id>): (r: seq<Child>)
    ensures forall c :: c in r <==> c in children && c.id in selection
  {
    if children == [] then []
    else (if children[0].id in selection then [children[0]] else []) + SelectedChildren(children[1..], selection)
  }

  /** The e-mails attempted for the selected children, in order: one to parent 1
      when that account has notifications enabled; a child whose parent 1 no
      longer exists ends the notifications (the failed lookup is caught once for
      the whole loop). */
  function Notices(users: seq<User>, kids: seq<Child>): seq<Notice>
  {
    if kids == [] then []
    else
      match FindUser(users, kids[0].parentId)
      case None => []
      case Some(p) => (if p.settings.enabled then [Notice(p.id, kids[0].id)] else []) + Notices(users, kids[1..])
  }

  /** Every notice goes to parent 1 of a listed child, and that parent has
      notifications enabled; parent 2 is never written to. */
  lemma {:induction false} NoticesSound(users: seq<User>, kids: seq<Child>, n: Notice)
    requires n in Notices(users, kids)
    ensures exists c :: c in kids && c.id == n.childId && c.parentId == n.parentId
    ensures exists u :: u in users && u.id == n.parentId && u.settings.enabled
  {
    var p := FindUser(users, kids[0].parentId).value;
    if n != Notice(p.id, kids[0].id) || !p.settings.enabled {
      NoticesSound(users, kids[1..], n);
      var c :| c in kids[1..] && c.id == n.childId && c.parentId == n.parentId;
      assert c in kids;
    }
  }

  /** When every listed child's parent 1 exists, each child whose parent has
      notifications enabled gets exactly its notice. */
  lemma {:induction false} NoticesComplete(users: seq<User>, kids: seq<Child>, i: nat)
    requires i < |kids| && forall c :: c in kids ==> FindUser(users, c.parentId).Some?
    requires FindUser(users, kids[i].parentId).value.settings.enabled
    ensures Notice(kids[i].parentId, kids[i].id) in Notices(users, kids)
  {
    assert kids[0] in kids;
    if i > 0 {
      assert forall c :: c in kids[1..] ==> c in kids;
      NoticesComplete(users, kids[1..], i - 1);
    }
  }

  /** A listed child whose parent 1 is missing ends the notices. */
  lemma NoticesStop(users: seq<User>, kids: seq<Child>, i: nat)
    requires i < |kids| && FindUser(users, kids[i].parentId).None?
    ensures Notices(users, kids[i..]) == []
  {
  }

  /** A listed child whose parent 1 exists: the notice it adds, if that parent
      has notifications on, moves the loop's split one child further. */
  lemma NotifyStep(users: seq<User>, kids: seq<Child>, i: nat, before: seq<Notice>, after: seq<Notice>)
    requires i < |kids| && FindUser(users, kids[i].parentId).Some?
    requires var p := FindUser(users, kids[i].parentId).value;
      after == before + (if p.settings.enabled then [Notice(p.id, kids[i].id)] else [])
    ensures after + Notices(users, kids[i + 1..]) == before + Notices(users, kids[i..])
  {
    assert kids[i..][1..] == kids[i + 1..];
  }

  /** The notification loop over the selected children. */
  method Notify(users: seq<User>, kids: seq<Child>) returns (sent: seq<Notice>)
    ensures sent == Notices(users, kids)
  {
    sent := [];
    var i := 0;
    while i < |kids|
      invariant 0 <= i <= |kids|
      invariant sent + Notices(users, kids[i..]) == Notices(users, kids)
    {
      var child := kids[i];
      var parent := FindUser(users, child.parentId);
      if parent.None? {
        NoticesStop(users, kids, i);
        assert sent + [] == sent;
        return;
      }
      ghost var before := sent;
      if parent.value.settings.enabled {
        sent := sent + [Notice(parent.value.id, child.id)];
      }
      NotifyStep(users, kids, i, before, sent);
      i := i + 1;
    }
  }

  /** POST: staff only; all five fields and a known type are required; the
      one-off event is stored with its selection normalised, then creation
      e-mails are attempted for a non-empty selection. E-mail failures never
      change the answer. */
  method PostEvent(db: Db, auth: Option<AuthUser>, req: EventRequest, parse: string -> JsDate)
    returns (resp: Response<Event>, sent: seq<Notice>)
    modifies db`events, db`issued
    ensures (auth.None? || !IsStaff(auth.value.role)) ==> resp == Fail(403, NotAuthorized)
    ensures auth.Some? && IsStaff(auth.value.role) ==>
      ((!Truthy(req.kind) || !Truthy(req.date) || !Truthy(req.time) || !Truthy(req.location) || !Truthy(req.teamId))
        <==> resp == Fail(400, FieldsMissing))
    ensures resp.Ok? ==>
      resp.status == 201 && db.events == old(db.events) + [resp.body] &&
      resp.body.id !in old(db.issued) && EventSchemaValid(resp.body) &&
      FindEventType(db.eventTypes, resp.body.kind).Some? &&
      Some(resp.body.kind) == req.kind && Time(resp.body.date) == parse(req.date.value) &&
      Some(resp.body.time) == req.time && Some(resp.body.location) == req.location &&
      Some(resp.body.teamId) == req.teamId && resp.body.endTime.None? &&
      !resp.body.isRecurring && resp.body.recurringRuleId.None? && !resp.body.isException && resp.body.isCustom &&
      resp.body.selectedChildrenIds == Selection(req.selectedChildrenIds) &&
      resp.body.createdBy == auth.value.userId
    ensures resp.Ok? ==>
      sent == (if Selection(req.selectedChildrenIds).Some?
               then Notices(db.users, SelectedChildren(db.children, req.selectedChildrenIds.value))
               else [])
    ensures resp.Fail? ==> db.events == old(db.events) && sent == []
    ensures auth.Some? && IsStaff(auth.value.role) && Truthy(req.kind) && Truthy(req.date) && Truthy(req.time) &&
            Truthy(req.location) && Truthy(req.teamId) ==>
      (resp == Fail(400, InvalidType) <==> FindEventType(db.eventTypes, req.kind.value).None?) &&
      (FindEventType(db.eventTypes, req.kind.value).Some? ==>
         if parse(req.date.value).Time? && KnownKind(req.kind.value) then resp.Ok?
         else resp == Fail(500, ServerError))
  {
    sent := [];
    if auth.None? || !IsStaff(auth.value.role) {
      return Fail(403, NotAuthorized), sent;
    }
    if !Truthy(req.kind) || !Truthy(req.date) || !Truthy(req.time) || !Truthy(req.location) || !Truthy(req.teamId) {
      return Fail(400, FieldsMissing), sent;
    }
    var eventTypeDoc := FindEventType(db.eventTypes, req.kind.value);
    if eventTypeDoc.None? {
      return Fail(400, InvalidType), sent;
    }
    var date := parse(req.date.value);
    if date.InvalidDate? {
      return Fail(500, ServerError), sent;
    }
    var id := db.NewId();
    var event := Event(id, req.kind.value, date.ms, req.time.value, None, req.location.value, req.teamId.value,
                       false, None, false, true, Selection(req.selectedChildrenIds), auth.value.userId);
    if !EventSchemaValid(event) {
      return Fail(500, ServerError), sent;
    }
    db.events := db.events + [event];
    if req.selectedChildrenIds.Some? && |req.selectedChildrenIds.value| > 0 {
      sent := Notify(db.users, SelectedChildren(db.children, req.selectedChildrenIds.value));
    }
    resp := Ok(201, event);
  }
}
