/** The MongoDB collections the route handlers read and write, as tables of
    records held by one `Db` object. A table is a sequence in insertion
    order (the order a query without `sort` returns). Schema constraints
    that make an insert fail are stated as predicates, and so are the unique
    indexes. */
module Store {

  import opened Common

  datatype Settings = Settings(enabled: bool, reminderEnabled: bool)

  /** A user account; `email` is stored trimmed and lower-cased. */
  datatype User = User(id: Id, email: string, password: string, name: string, role: Role, settings: Settings)

  /** The User schema's `lowercase` and `trim` setters, which Mongoose also
      applies to the value of a query on `email`. */
  function NormalEmail(s: string): string
  {
    Trim(Lower(s))
  }

  datatype Team = Team(id: Id, name: string, category: string, educatorId: Id)

  /** A child; `parentId` is parent 1, `parentId2` the optional parent 2. */
  datatype Child = Child(id: Id, name: string, parentId: Id, parentId2: Option<Id>, teamId: Id, birthDate: int)

  /** An event; `selectedChildrenIds` None means "every child of the team". */
  datatype Event = Event(
    id: Id,
    kind: string,
    date: int,
    time: string,
    endTime: Option<string>,
    location: string,
    teamId: Id,
    isRecurring: bool,
    recurringRuleId: Option<Id>,
    isException: bool,
    isCustom: bool,
    selectedChildrenIds: Option<seq<Id>>,
    createdBy: Id)

  datatype Rule = Rule(
    id: Id,
    kind: string,
    dayOfWeek: int,
    time: string,
    endTime: Option<string>,
    teamId: Id,
    location: string,
    startDate: int,
    endDate: Option<int>,
    periodType: string,
    selectedChildrenIds: Option<seq<Id>>)

  /** An answer of a parent for a child and an event. An upsert does not run the
      schema's validators, so `status` is whatever string was sent. */
  datatype Availability = Availability(id: Id, eventId: Id, childId: Id, parentId: Id, status: string, comment: string)

  datatype LoginToken = LoginToken(id: Id, userId: Id, token: string, expiresAt: int)

  datatype Place = Place(id: Id, name: string)

  /** An event type; `title` is the stored `label`. */
  datatype EventType = EventType(id: Id, key: string, title: string, order: int)

  /** The event kinds the Event and RecurringRule schemas accept. */
  predicate KnownKind(kind: string)
  {
    kind == "training" || kind == "match" || kind == "tournament"
  }

  predicate KnownPeriod(p: string)
  {
    p == "monthly" || p == "seasonal" || p == "continuous"
  }

  /** The RecurringRule schema: enumerated type and period, weekday 0..6. */
  predicate RuleSchemaValid(r: Rule)
  {
    KnownKind(r.kind) && KnownPeriod(r.periodType) && 0 <= r.dayOfWeek <= 6 && r.time != "" && r.location != ""
  }

  /** The Event schema: enumerated type and the required strings. */
  predicate EventSchemaValid(e: Event)
  {
    KnownKind(e.kind) && e.time != "" && e.location != ""
  }

  /** How both event-creating handlers store a selection of children: a
      missing or empty list becomes null ("every child of the team"). */
  function Selection(ids: Option<seq<Id>>): (r: Option<seq<Id>>)
    ensures r.Some? <==> ids.Some? && |ids.value| > 0
    ensures r.Some? ==> r == ids
  {
    if ids.Some? && |ids.value| > 0 then ids else None
  }

  // ---------------------------------------------------------------------
  // Lookups (findById / findOne return the first matching document)

  function FindUser(users: seq<User>, id: Id): (r: Option<User>)
    ensures r.Some? ==> r.value in users && r.value.id == id
    ensures r.None? ==> forall u :: u in users ==> u.id != id
  {
    if users == [] then None
    else if users[0].id == id then Some(users[0])
    else FindUser(users[1..], id)
  }

  function FindUserByEmail(users: seq<User>, email: string): (r: Option<User>)
    ensures r.Some? ==> r.value in users && r.value.email == email
    ensures r.None? ==> forall u :: u in users ==> u.email != email
  {
    if users == [] then None
    else if users[0].email == email then Some(users[0])
    else FindUserByEmail(users[1..], email)
  }

  function FindChild(children: seq<Child>, id: Id): (r: Option<Child>)
    ensures r.Some? ==> r.value in children && r.value.id == id
    ensures r.None? ==> forall c :: c in children ==> c.id != id
  {
    if children == [] then None
    else if children[0].id == id then Some(children[0])
    else FindChild(children[1..], id)
  }

  function FindTeam(teams: seq<Team>, id: Id): (r: Option<Team>)
    ensures r.Some? ==> r.value in teams && r.value.id == id
    ensures r.None? ==> forall t :: t in teams ==> t.id != id
  {
    if teams == [] then None
    else if teams[0].id == id then Some(teams[0])
    else FindTeam(teams[1..], id)
  }

  function FindEvent(events: seq<Event>, id: Id): (r: Option<Event>)
    ensures r.Some? ==> r.value in events && r.value.id == id
    ensures r.None? ==> forall e :: e in events ==> e.id != id
  {
    if events == [] then None
    else if events[0].id == id then Some(events[0])
    else FindEvent(events[1..], id)
  }

  function FindEventType(types: seq<EventType>, key: string): (r: Option<EventType>)
    ensures r.Some? ==> r.value in types && r.value.key == key
    ensures r.None? ==> forall t :: t in types ==> t.key != key
  {
    if types == [] then None
    else if types[0].key == key then Some(types[0])
    else FindEventType(types[1..], key)
  }

  /** The parent is parent 1 or parent 2 of the child. */
  predicate IsParentOf(c: Child, parent: Id)
  {
    c.parentId == parent || c.parentId2 == Some(parent)
  }

  /** `Child.find({ $or: [{ parentId }, { parentId2: parentId }] })`. */
  function ChildrenOf(children: seq<Child>, parent: Id): (r: seq<Child>)
    ensures forall c :: c in r <==> c in children && IsParentOf(c, parent)
  {
    if children == [] then []
    else (if IsParentOf(children[0], parent) then [children[0]] else []) + ChildrenOf(children[1..], parent)
  }

  function ChildIds(children: seq<Child>): (r: seq<Id>)
    ensures |r| == |children|
    ensures forall i :: 0 <= i < |r| ==> r[i] == children[i].id
  {
    if children == [] then [] else [children[0].id] + ChildIds(children[1..])
  }

  function TeamIdsOfChildren(children: seq<Child>): (r: seq<Id>)
    ensures |r| == |children|
    ensures forall i :: 0 <= i < |r| ==> r[i] == children[i].teamId
  {
    if children == [] then [] else [children[0].teamId] + TeamIdsOfChildren(children[1..])
  }

  /** Teams whose `educatorId` is the given user. */
  function TeamsOf(teams: seq<Team>, educator: Id): (r: seq<Team>)
    ensures forall t :: t in r <==> t in teams && t.educatorId == educator
  {
    if teams == [] then []
    else (if teams[0].educatorId == educator then [teams[0]] else []) + TeamsOf(teams[1..], educator)
  }

  function TeamIds(teams: seq<Team>): (r: seq<Id>)
    ensures |r| == |teams|
    ensures forall i :: 0 <= i < |r| ==> r[i] == teams[i].id
  {
    if teams == [] then [] else [teams[0].id] + TeamIds(teams[1..])
  }

  lemma InChildIds(kids: seq<Child>, id: Id)
    ensures id in ChildIds(kids) <==> exists c :: c in kids && c.id == id
  {
    if id in ChildIds(kids) {
      var k :| 0 <= k < |kids| && ChildIds(kids)[k] == id;
      assert kids[k] in kids;
    }
    if exists c :: c in kids && c.id == id {
      var c :| c in kids && c.id == id;
      var k :| 0 <= k < |kids| && kids[k] == c;
      assert ChildIds(kids)[k] == id;
    }
  }

  lemma InTeamIdsOfChildren(kids: seq<Child>, id: Id)
    ensures id in TeamIdsOfChildren(kids) <==> exists c :: c in kids && c.teamId == id
  {
    if id in TeamIdsOfChildren(kids) {
      var k :| 0 <= k < |kids| && TeamIdsOfChildren(kids)[k] == id;
      assert kids[k] in kids;
    }
    if exists c :: c in kids && c.teamId == id {
      var c :| c in kids && c.teamId == id;
      var k :| 0 <= k < |kids| && kids[k] == c;
      assert TeamIdsOfChildren(kids)[k] == id;
    }
  }

  lemma InTeamIds(teams: seq<Team>, id: Id)
    ensures id in TeamIds(teams) <==> exists t :: t in teams && t.id == id
  {
    var ids := TeamIds(teams);
    if id in ids {
      var k :| 0 <= k < |ids| && ids[k] == id;
      assert teams[k] in teams;
    }
    if exists t :: t in teams && t.id == id {
      var t :| t in teams && t.id == id;
      var k :| 0 <= k < |teams| && teams[k] == t;
      assert ids[k] == id;
    }
  }

  // ---------------------------------------------------------------------
  // Unique indexes

  /** `{ eventId: 1, childId: 1 }` is unique. */
  predicate AvailabilityKeysUnique(avs: seq<Availability>)
  {
    forall i, j :: 0 <= i < j < |avs| ==>
      (avs[i].eventId, avs[i].childId) != (avs[j].eventId, avs[j].childId)
  }

  /** `token` is unique. */
  predicate TokensUnique(tokens: seq<LoginToken>)
  {
    forall i, j :: 0 <= i < j < |tokens| ==> tokens[i].token != tokens[j].token
  }

  /** `email` is unique. */
  predicate EmailsUnique(users: seq<User>)
  {
    forall i, j :: 0 <= i < j < |users| ==> users[i].email != users[j].email
  }

  /** `key` is unique. */
  predicate KeysUnique(types: seq<EventType>)
  {
    forall i, j :: 0 <= i < j < |types| ==> types[i].key != types[j].key
  }

  /** The longest string in a finite set, to exhibit one that is not in it. */
  ghost function LongestLength(s: set<string>): (n: nat)
    ensures forall x :: x in s ==> |x| <= n
    decreases |s|
  {
    if s == {} then 0
    else
      var x :| x in s;
      var m := LongestLength(s - {x});
      if |x| > m then |x| else m
  }

  lemma FreshIdExists(s: set<Id>)
    ensures exists x: Id :: x !in s
  {
    var w: string := seq(LongestLength(s) + 1, _ => 'x');
    assert w !in s;
  }

  /** The database. Every table is a field that the route handlers reassign;
      `issued` holds every identifier handed out so far. */
  class Db {
    var users: seq<User>
    var teams: seq<Team>
    var children: seq<Child>
    var events: seq<Event>
    var rules: seq<Rule>
    var availabilities: seq<Availability>
    var tokens: seq<LoginToken>
    var places: seq<Place>
    var eventTypes: seq<EventType>
    var issued: set<Id>

    /** Every stored row carries an identifier handed out by `NewId`. */
    predicate IdsIssued()
      reads this
    {
      (forall u :: u in users ==> u.id in issued) && (forall t :: t in teams ==> t.id in issued) &&
      (forall c :: c in children ==> c.id in issued) && (forall e :: e in events ==> e.id in issued) &&
      (forall r :: r in rules ==> r.id in issued) && (forall a :: a in availabilities ==> a.id in issued) &&
      (forall t :: t in tokens ==> t.id in issued) && (forall p :: p in places ==> p.id in issued) &&
      (forall k :: k in eventTypes ==> k.id in issued)
    }

    /** A new ObjectId, distinct from every identifier issued before, and so,
        while every stored row's identifier has been issued, from every
        stored one. */
    method NewId() returns (id: Id)
      modifies this`issued
      ensures id !in old(issued) && issued == old(issued) + {id}
      ensures old(IdsIssued()) ==> IdsIssued()
      ensures old(IdsIssued()) ==>
        (forall u :: u in users ==> u.id != id) && (forall t :: t in teams ==> t.id != id) &&
        (forall c :: c in children ==> c.id != id) && (forall e :: e in events ==> e.id != id) &&
        (forall r :: r in rules ==> r.id != id) && (forall a :: a in availabilities ==> a.id != id) &&
        (forall t :: t in tokens ==> t.id != id) && (forall p :: p in places ==> p.id != id) &&
        (forall k :: k in eventTypes ==> k.id != id)
    {
      FreshIdExists(issued);
      id :| id !in issued;
      issued := issued + {id};
    }
  }
}
