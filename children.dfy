/** /api/children. GET lists the children a caller may see: a parent only
    the children whose parent 1 they are, an educator those of the team asked
    for (or all), an admin all. POST lets a parent add a child of their own
    and an admin add a child for a given parent. */
module Children {

  import opened Common
  import opened Calendar
  import opened Store

  /** The query document `Child.find` receives. */
  datatype ChildQuery = AllChildren | WithParent(parentId: Id) | InTeam(teamId: Id)

  predicate QueryMatches(q: ChildQuery, c: Child)
  {
    match q
    case AllChildren => true
    case WithParent(p) => c.parentId == p
    case InTeam(t) => c.teamId == t
  }

  function FindChildren(children: seq<Child>, q: ChildQuery): (r: seq<Child>)
    ensures forall c :: c in r <==> c in children && QueryMatches(q, c)
  {
    if children == [] then []
    else (if QueryMatches(q, children[0]) then [children[0]] else []) + FindChildren(children[1..], q)
  }

  /** Who sees a child, as the role rules state it. */
  predicate SeesChild(user: AuthUser, teamId: Option<string>, c: Child)
  {
    match user.role
    case Parent => c.parentId == user.userId
    case Educator => Truthy(teamId) ==> c.teamId == teamId.value
    case Admin => true
  }

  /** GET: 401 without a caller; otherwise the children the caller sees, in
      stored order. */
  method ListChildren(db: Db, auth: Option<AuthUser>, teamId: Option<string>) returns (resp: Response<seq<Child>>)
    ensures auth.None? ==> resp == Fail(401, NotAuthenticated)
    ensures auth.Some? ==>
      resp.Ok? && resp.status == 200 &&
      forall c :: c in resp.body <==> c in db.children && SeesChild(auth.value, teamId, c)
  {
    if auth.None? {
      return Fail(401, NotAuthenticated);
    }
    var user := auth.value;
    var query := AllChildren;
    if user.role == Parent {
      query := WithParent(user.userId);
    } else if user.role == Educator {
      if Truthy(teamId) {
        query := InTeam(teamId.value);
      }
    }
    resp := Ok(200, FindChildren(db.children, query));
  }

  /** Parent 2 is not taken into account: a parent sees no child of which they
      are only parent 2. */
  lemma SecondParentSeesNothing(user: AuthUser, teamId: Option<string>, c: Child)
    requires user.role == Parent && c.parentId2 == Some(user.userId) && c.parentId != user.userId
    ensures !SeesChild(user, teamId, c)
  {
  }

  datatype ChildBody = ChildBody(name: Option<string>, teamId: Option<string>, birthDate: Option<string>,
                                 parentId: Option<string>)

  const FieldsRequired: string := "Tous les champs sont requis"
  const ParentRequired: string := "parentId requis (admin doit indiquer le parent)"

  /** The parent the new child gets: the caller when a parent, else the body's. */
  function NewParent(user: AuthUser, body: ChildBody): Option<string>
  {
    if user.role == Parent then Some(user.userId) else body.parentId
  }

  /** POST: parents and admins only; name, team and birth date are required;
      a parent becomes parent 1 of the child, an admin must name the parent. A
      birth date that is not a date fails the insert (500). */
  method PostChild(db: Db, auth: Option<AuthUser>, body: ChildBody, parse: string -> JsDate)
    returns (resp: Response<Child>)
    modifies db`children, db`issued
    ensures auth.None? || auth.value.role == Educator ==> resp == Fail(403, NotAuthorized)
    ensures auth.Some? && auth.value.role != Educator ==>
      (!Truthy(body.name) || !Truthy(body.teamId) || !Truthy(body.birthDate) ==> resp == Fail(400, FieldsRequired)) &&
      (Truthy(body.name) && Truthy(body.teamId) && Truthy(body.birthDate) && !Truthy(NewParent(auth.value, body)) ==>
        resp == Fail(400, ParentRequired))
    ensures resp.Ok? ==>
      auth.Some? && resp.status == 201 &&
      Some(resp.body.parentId) == NewParent(auth.value, body) && resp.body.parentId != "" &&
      (auth.value.role == Parent ==> resp.body.parentId == auth.value.userId) &&
      resp.body.parentId2.None? &&
      Some(resp.body.name) == body.name && Some(resp.body.teamId) == body.teamId &&
      parse(body.birthDate.value) == Time(resp.body.birthDate) &&
      resp.body.id !in old(db.issued) && db.children == old(db.children) + [resp.body]
    ensures resp.Fail? ==> db.children == old(db.children)
    ensures resp.Fail? && resp.status == 500 ==> parse(body.birthDate.value).InvalidDate?
    ensures auth.Some? && auth.value.role != Educator && Truthy(body.name) && Truthy(body.teamId) &&
            Truthy(body.birthDate) && Truthy(NewParent(auth.value, body)) ==>
      (resp.Ok? <==> parse(body.birthDate.value).Time?) &&
      (resp.Fail? ==> resp == Fail(500, ServerError))
  {
    if auth.None? || auth.value.role == Educator {
      return Fail(403, NotAuthorized);
    }
    if !Truthy(body.name) || !Truthy(body.teamId) || !Truthy(body.birthDate) {
      return Fail(400, FieldsRequired);
    }
    var parentId := NewParent(auth.value, body);
    if !Truthy(parentId) {
      return Fail(400, ParentRequired);
    }
    var birth := parse(body.birthDate.value);
    if birth.InvalidDate? {
      return Fail(500, ServerError);
    }
    var id := db.NewId();
    var child := Child(id, body.name.value, parentId.value, None, body.teamId.value, birth.ms);
    db.children := db.children + [child];
    resp := Ok(201, child);
  }
}
