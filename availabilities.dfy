/** GET /api/availabilities: the answers a caller may read, narrowed by
    role and parameters, without orphans and, for staff looking at one
    event, restricted to children of that event's team. POST: a parent
    answers for one of their children; the answer is upserted on the
    (eventId, childId) key. */
module Availabilities {

  import opened Common
  import opened Store

  // ---------------------------------------------------------------------
  // GET

  datatype AvParams = AvParams(eventId: Option<Id>, childId: Option<Id>)

  /** The condition on `childId` held by the query document. */
  datatype ChildCond = AnyChild | ChildIn(ids: seq<Id>) | ChildIs(id: Id)

  datatype AvQuery = AvQuery(child: ChildCond, event: Option<Id>)

  predicate AvMatches(q: AvQuery, av: Availability)
  {
    (match q.child
     case AnyChild => true
     case ChildIn(ids) => av.childId in ids
     case ChildIs(id) => av.childId == id) &&
    (q.event.None? || av.eventId == q.event.value)
  }

  function FindAvailabilities(avs: seq<Availability>, q: AvQuery): (r: seq<Availability>)
    ensures forall av :: av in r <==> av in avs && AvMatches(q, av)
  {
    if avs == [] then []
    else (if AvMatches(q, avs[0]) then [avs[0]] else []) + FindAvailabilities(avs[1..], q)
  }

  /** Both the event and the child of the answer still exist. */
  predicate Resolved(events: seq<Event>, children: seq<Child>, av: Availability)
  {
    FindEvent(events, av.eventId).Some? && FindChild(children, av.childId).Some?
  }

  /** `filter(av => av.eventId != null && av.childId != null)` after populate. */
  function DropOrphans(avs: seq<Availability>, events: seq<Event>, children: seq<Child>): (r: seq<Availability>)
    ensures forall av :: av in r <==> av in avs && Resolved(events, children, av)
  {
    if avs == [] then []
    else (if Resolved(events, children, avs[0]) then [avs[0]] else []) + DropOrphans(avs[1..], events, children)
  }

  /** The child's team, populated: present only when the team still exists. */
  function ChildTeam(children: seq<Child>, teams: seq<Team>, childId: Id): Option<Id>
  {
    match FindChild(children, childId)
    case None => None
    case Some(c) => if FindTeam(teams, c.teamId).Some? then Some(c.teamId) else None
  }

  /** The event's team, populated: present only when the event and its team exist. */
  function EventTeam(events: seq<Event>, teams: seq<Team>, eventId: Id): Option<Id>
  {
    match FindEvent(events, eventId)
    case None => None
    case Some(e) => if FindTeam(teams, e.teamId).Some? then Some(e.teamId) else None
  }

  function SameTeamOnly(avs: seq<Availability>, children: seq<Child>, teams: seq<Team>, teamId: Id): (r: seq<Availability>)
    ensures forall av :: av in r <==> av in avs && ChildTeam(children, teams, av.childId) == Some(teamId)
  {
    if avs == [] then []
    else (if ChildTeam(children, teams, avs[0].childId) == Some(teamId) then [avs[0]] else [])
         + SameTeamOnly(avs[1..], children, teams, teamId)
  }

  /** Who reads an answer, stated on the tables. A `childId` parameter selects
      that child's answers for any caller, replacing a parent's restriction to
      their own children (as parent 1 or 2); an `eventId` parameter selects
      that event. Answers whose event or child is gone are dropped. Staff asking
      for an event whose team exists see only children whose team exists and is
      that team. */
  predicate AvVisible(user: AuthUser, params: AvParams, events: seq<Event>, children: seq<Child>,
                      teams: seq<Team>, av: Availability)
  {
    (if Truthy(params.childId) then av.childId == params.childId.value
     else user.role == Parent ==> exists c :: c in children && IsParentOf(c, user.userId) && c.id == av.childId) &&
    (Truthy(params.eventId) ==> av.eventId == params.eventId.value) &&
    Resolved(events, children, av) &&
    (Truthy(params.eventId) && IsStaff(user.role) && EventTeam(events, teams, params.eventId.value).Some? ==>
      ChildTeam(children, teams, av.childId) == EventTeam(events, teams, params.eventId.value))
  }

  /** GET: 401 without a caller; otherwise the visible answers in stored order. */
  method ListAvailabilities(db: Db, auth: Option<AuthUser>, params: AvParams) returns (resp: Response<seq<Availability>>)
    ensures auth.None? ==> resp == Fail(401, NotAuthenticated)
    ensures auth.Some? ==>
      resp.Ok? && resp.status == 200 &&
      forall av :: av in resp.body <==>
        av in db.availabilities && AvVisible(auth.value, params, db.events, db.children, db.teams, av)
  {
    if auth.None? {
      return Fail(401, NotAuthenticated);
    }
    var user := auth.value;
    var query := AvQuery(AnyChild, None);
    if user.role == Parent {
      var kids := ChildrenOf(db.children, user.userId);
      query := query.(child := ChildIn(ChildIds(kids)));
      forall id ensures id in ChildIds(kids) <==> exists c :: c in kids && c.id == id {
        InChildIds(kids, id);
      }
    }
    if Truthy(params.eventId) {
      query := query.(event := Some(params.eventId.value));
    }
    if Truthy(params.childId) {
      query := query.(child := ChildIs(params.childId.value));
    }
    var availabilities := FindAvailabilities(db.availabilities, query);
    availabilities := DropOrphans(availabilities, db.events, db.children);
    if Truthy(params.eventId) && IsStaff(user.role) {
      var eventTeam := EventTeam(db.events, db.teams, params.eventId.value);
      if eventTeam.Some? {
        availabilities := SameTeamOnly(availabilities, db.children, db.teams, eventTeam.value);
      }
    }
    resp := Ok(200, availabilities);
  }

  // ---------------------------------------------------------------------
  // POST

  datatype AvRequest = AvRequest(eventId: Option<Id>, childId: Option<Id>, status: Option<string>, comment: Option<string>)

  const AvFieldsMissing: string := "Événement, enfant et statut requis"
  const ChildNotOwned: string := "Enfant non trouvé ou non autorisé"
  const WrongTeam: string := "Cet enfant n'appartient pas à l'équipe de cet événement"

  /** `Child.findOne({ _id, $or: [{ parentId }, { parentId2 }] })`. */
  function OwnedChild(children: seq<Child>, id: Id, parent: Id): (r: Option<Child>)
    ensures r.Some? ==> r.value in children && r.value.id == id && IsParentOf(r.value, parent)
    ensures r.None? ==> forall c :: c in children && c.id == id ==> !IsParentOf(c, parent)
  {
    if children == [] then None
    else if children[0].id == id && IsParentOf(children[0], parent) then Some(children[0])
    else OwnedChild(children[1..], id, parent)
  }

  /** The position of the first answer with the key. */
  function KeyIndex(avs: seq<Availability>, eventId: Id, childId: Id): (r: Option<nat>)
    ensures r.None? <==> forall i :: 0 <= i < |avs| ==> (avs[i].eventId, avs[i].childId) != (eventId, childId)
    ensures r.Some? ==> r.value < |avs| && (avs[r.value].eventId, avs[r.value].childId) == (eventId, childId)
  {
    if avs == [] then None
    else if (avs[0].eventId, avs[0].childId) == (eventId, childId) then Some(0)
    else
      match KeyIndex(avs[1..], eventId, childId)
      case None => None
      case Some(i) => Some(i + 1)
  }

  /** `findOneAndUpdate({ eventId, childId }, …, { upsert: true })`: overwrite
      the answer with that key, keeping its identifier, or add a new one. */
  method Upsert(db: Db, eventId: Id, childId: Id, parentId: Id, status: string, comment: string)
    returns (av: Availability)
    modifies db`availabilities, db`issued
    ensures av.eventId == eventId && av.childId == childId && av.parentId == parentId
    ensures av.status == status && av.comment == comment
    ensures KeyIndex(old(db.availabilities), eventId, childId).Some? ==>
      var k := KeyIndex(old(db.availabilities), eventId, childId).value;
      av.id == old(db.availabilities)[k].id && db.availabilities == old(db.availabilities)[k := av]
    ensures KeyIndex(old(db.availabilities), eventId, childId).None? ==>
      av.id !in old(db.issued) && db.availabilities == old(db.availabilities) + [av]
    ensures av in db.availabilities
    ensures AvailabilityKeysUnique(old(db.availabilities)) ==>
      AvailabilityKeysUnique(db.availabilities) &&
      forall i :: (0 <= i < |db.availabilities| && db.availabilities[i].eventId == eventId &&
                   db.availabilities[i].childId == childId) ==> db.availabilities[i] == av
    ensures forall x :: x in old(db.availabilities) && (x.eventId, x.childId) != (eventId, childId) ==>
      x in db.availabilities
  {
    var k := KeyIndex(db.availabilities, eventId, childId);
    if k.Some? {
      av := Availability(db.availabilities[k.value].id, eventId, childId, parentId, status, comment);
      db.availabilities := db.availabilities[k.value := av];
      assert forall i :: 0 <= i < |db.availabilities| ==>
        (db.availabilities[i].eventId, db.availabilities[i].childId) ==
        (old(db.availabilities)[i].eventId, old(db.availabilities)[i].childId);
      forall x | x in old(db.availabilities) && (x.eventId, x.childId) != (eventId, childId)
        ensures x in db.availabilities
      {
        var i :| 0 <= i < |old(db.availabilities)| && old(db.availabilities)[i] == x;
        assert db.availabilities[i] == x;
      }
    } else {
      var id := db.NewId();
      av := Availability(id, eventId, childId, parentId, status, comment);
      db.availabilities := db.availabilities + [av];
    }
  }

  /** POST: parents only; event, child and status required; the child must be
      theirs (as parent 1 or 2); when the event's team exists the child's team
      must be that team: a different team is refused, and a child whose team
      no longer exists makes the comparison fail on a null (500). Then the
      answer is upserted with the caller as `parentId` and `''` for a missing
      comment. */
  method PostAvailability(db: Db, auth: Option<AuthUser>, req: AvRequest) returns (resp: Response<Availability>)
    modifies db`availabilities, db`issued
    ensures (auth.None? || auth.value.role != Parent) ==> resp == Fail(403, NotAuthorized)
    ensures auth.Some? && auth.value.role == Parent ==>
      ((!Truthy(req.eventId) || !Truthy(req.childId) || !Truthy(req.status)) <==> resp == Fail(400, AvFieldsMissing))
    ensures resp.Fail? && resp.status == 403 && resp.message == ChildNotOwned ==>
      forall c :: c in db.children && c.id == req.childId.value ==> !IsParentOf(c, auth.value.userId)
    ensures resp.Fail? ==> db.availabilities == old(db.availabilities)
    ensures resp.Fail? && resp.status == 400 && resp.message == WrongTeam ==>
      var child := OwnedChild(db.children, req.childId.value, auth.value.userId);
      child.Some? && EventTeam(db.events, db.teams, req.eventId.value).Some? &&
      EventTeam(db.events, db.teams, req.eventId.value).value != child.value.teamId
    ensures resp.Ok? ==>
      auth.Some? && auth.value.role == Parent && Truthy(req.eventId) && Truthy(req.childId) && Truthy(req.status) &&
      var child := OwnedChild(db.children, req.childId.value, auth.value.userId);
      child.Some? &&
      (EventTeam(db.events, db.teams, req.eventId.value).Some? ==>
        FindTeam(db.teams, child.value.teamId).Some? &&
        child.value.teamId == EventTeam(db.events, db.teams, req.eventId.value).value) &&
      resp.status == 201 && resp.body.eventId == req.eventId.value && resp.body.childId == req.childId.value &&
      resp.body.parentId == auth.value.userId && resp.body.status == req.status.value &&
      resp.body.comment == (if Truthy(req.comment) then req.comment.value else "") &&
      resp.body in db.availabilities
    ensures auth.Some? && auth.value.role == Parent && Truthy(req.eventId) && Truthy(req.childId) && Truthy(req.status) ==>
      var child := OwnedChild(db.children, req.childId.value, auth.value.userId);
      var eventTeam := EventTeam(db.events, db.teams, req.eventId.value);
      if child.None? then resp == Fail(403, ChildNotOwned)
      else if eventTeam.Some? && FindTeam(db.teams, child.value.teamId).None? then resp == Fail(500, ServerError)
      else if eventTeam.Some? && eventTeam.value != child.value.teamId then resp == Fail(400, WrongTeam)
      else resp.Ok?
    ensures resp.Ok? ==>
      var k := KeyIndex(old(db.availabilities), req.eventId.value, req.childId.value);
      (k.Some? ==> resp.body.id == old(db.availabilities)[k.value].id &&
                   db.availabilities == old(db.availabilities)[k.value := resp.body]) &&
      (k.None? ==> resp.body.id !in old(db.issued) && db.availabilities == old(db.availabilities) + [resp.body])
    ensures AvailabilityKeysUnique(old(db.availabilities)) ==> AvailabilityKeysUnique(db.availabilities)
  {
    if auth.None? || auth.value.role != Parent {
      return Fail(403, NotAuthorized);
    }
    if !Truthy(req.eventId) || !Truthy(req.childId) || !Truthy(req.status) {
      return Fail(400, AvFieldsMissing);
    }
    var child := OwnedChild(db.children, req.childId.value, auth.value.userId);
    if child.None? {
      return Fail(403, ChildNotOwned);
    }
    var eventTeam := EventTeam(db.events, db.teams, req.eventId.value);
    if eventTeam.Some? {
      if FindTeam(db.teams, child.value.teamId).None? {
        return Fail(500, ServerError);
      }
      if eventTeam.value != child.value.teamId {
        return Fail(400, WrongTeam);
      }
    }
    var comment := if Truthy(req.comment) then req.comment.value else "";
    var av := Upsert(db, req.eventId.value, req.childId.value, auth.value.userId, req.status.value, comment);
    resp := Ok(201, av);
  }
}
