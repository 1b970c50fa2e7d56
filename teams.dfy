/** /api/teams. GET: an educator sees the teams they coach, every other
    caller all teams. POST: staff create a team they coach. */
module Teams {

  import opened Common
  import opened Store

  const NameAndCategoryRequired: string := "Nom et catégorie requis"

  /** Who sees a team, as the role rules state it. */
  predicate SeesTeam(user: AuthUser, t: Team)
  {
    user.role == Educator ==> t.educatorId == user.userId
  }

  /** GET: 401 without a caller; otherwise the teams the caller sees, in stored
      order. */
  method ListTeams(db: Db, auth: Option<AuthUser>) returns (resp: Response<seq<Team>>)
    ensures auth.None? ==> resp == Fail(401, NotAuthenticated)
    ensures auth.Some? ==>
      resp.Ok? && resp.status == 200 &&
      forall t :: t in resp.body <==> t in db.teams && SeesTeam(auth.value, t)
    ensures auth.Some? && auth.value.role != Educator ==> resp == Ok(200, db.teams)
  {
    if auth.None? {
      return Fail(401, NotAuthenticated);
    }
    var teams := db.teams;
    if auth.value.role == Educator {
      teams := TeamsOf(db.teams, auth.value.userId);
    }
    resp := Ok(200, teams);
  }

  /** POST: staff only; name and category are required; the caller coaches the
      new team. */
  method PostTeam(db: Db, auth: Option<AuthUser>, name: Option<string>, category: Option<string>)
    returns (resp: Response<Team>)
    modifies db`teams, db`issued
    ensures auth.None? || !IsStaff(auth.value.role) ==> resp == Fail(403, NotAuthorized)
    ensures auth.Some? && IsStaff(auth.value.role) ==>
      ((!Truthy(name) || !Truthy(category)) <==> resp == Fail(400, NameAndCategoryRequired))
    ensures resp.Ok? ==>
      auth.Some? && resp.status == 201 &&
      resp.body.educatorId == auth.value.userId &&
      Some(resp.body.name) == name && Some(resp.body.category) == category &&
      resp.body.id !in old(db.issued) && db.teams == old(db.teams) + [resp.body]
    ensures resp.Fail? ==> db.teams == old(db.teams)
    ensures auth.Some? && IsStaff(auth.value.role) && Truthy(name) && Truthy(category) ==> resp.Ok?
  {
    if auth.None? || !IsStaff(auth.value.role) {
      return Fail(403, NotAuthorized);
    }
    if !Truthy(name) || !Truthy(category) {
      return Fail(400, NameAndCategoryRequired);
    }
    var id := db.NewId();
    var team := Team(id, name.value, category.value, auth.value.userId);
    db.teams := db.teams + [team];
    resp := Ok(201, team);
  }
}
