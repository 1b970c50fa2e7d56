/** /api/admin/families. GET groups the children, sorted by name, into one
    family per parent 1, in the order parents first appear, with the first
    co-parent found. DELETE removes the children of a parent (as parent 1 or
    2), their answers, the parent, and each co-parent no remaining child
    refers to. Both are for admins only. */
module Families {

  import opened Common
  import opened Ordering
  import opened Store

  datatype Person = Person(id: Id, name: string, email: string)

  datatype Member = Member(id: Id, name: string, teamName: string, teamCategory: string, birthDate: int)

  datatype Family = Family(parent1: Person, parent2: Option<Person>, children: seq<Member>)

  // ---------------------------------------------------------------------
  // GET

  predicate ByName(a: Child, b: Child)
  {
    StrLe(a.name, b.name)
  }

  /** Populating `parentId` of a child whose parent 1 is gone gives null, and
      reading `_id` from it fails; so does reading `name` from a team that
      populate could not find. */
  predicate Readable(c: Child, users: seq<User>, teams: seq<Team>)
  {
    FindUser(users, c.parentId).Some? && FindTeam(teams, c.teamId).Some?
  }

  /** A user as the families list shows it. */
  function PersonOf(users: seq<User>, id: Id): Person
  {
    match FindUser(users, id)
    case Some(u) => Person(id, u.name, u.email)
    case None => Person(id, "", "")
  }

  /** A child as the families list shows it; a team without category shows ''. */
  function MemberOf(c: Child, teams: seq<Team>): Member
  {
    match FindTeam(teams, c.teamId)
    case Some(t) => Member(c.id, c.name, t.name, t.category, c.birthDate)
    case None => Member(c.id, c.name, "", "", c.birthDate)
  }

  /** The parent 1 identifiers in order of first appearance. */
  function FirstAppearance(kids: seq<Child>): seq<Id>
  {
    if kids == [] then []
    else
      var seen := FirstAppearance(kids[..|kids| - 1]);
      var p := kids[|kids| - 1].parentId;
      if p in seen then seen else seen + [p]
  }

  /** The children whose parent 1 is `p`, in order. */
  function Members(kids: seq<Child>, p: Id): (r: seq<Child>)
    ensures forall c :: c in r <==> c in kids && c.parentId == p
  {
    if kids == [] then []
    else
      var last := kids[|kids| - 1];
      assert kids == kids[..|kids| - 1] + [last];
      Members(kids[..|kids| - 1], p) + (if last.parentId == p then [last] else [])
  }

  /** The co-parent shown for a family: that of the first child whose parent 2
      still exists. */
  function SecondParent(kids: seq<Child>, users: seq<User>): Option<Person>
  {
    if kids == [] then None
    else
      var before := SecondParent(kids[..|kids| - 1], users);
      var last := kids[|kids| - 1];
      if before.Some? then before
      else if last.parentId2.Some? && FindUser(users, last.parentId2.value).Some? then
        Some(PersonOf(users, last.parentId2.value))
      else None
  }

  function MembersOf(kids: seq<Child>, teams: seq<Team>): (r: seq<Member>)
    ensures |r| == |kids|
    ensures forall i :: 0 <= i < |kids| ==> r[i] == MemberOf(kids[i], teams)
  {
    if kids == [] then [] else MembersOf(kids[..|kids| - 1], teams) + [MemberOf(kids[|kids| - 1], teams)]
  }

  /** The family of parent 1 `p`, as the reference the handler is compared with. */
  function FamilyOf(kids: seq<Child>, p: Id, users: seq<User>, teams: seq<Team>): Family
  {
    var mine := Members(kids, p);
    Family(PersonOf(users, p), SecondParent(mine, users), MembersOf(mine, teams))
  }

  /** One family per parent 1 that has a child, each listed once. */
  lemma {:induction false} FirstAppearanceMeans(kids: seq<Child>)
    ensures forall p :: p in FirstAppearance(kids) <==> exists c :: c in kids && c.parentId == p
    ensures forall i, j :: 0 <= i < j < |FirstAppearance(kids)| ==> FirstAppearance(kids)[i] != FirstAppearance(kids)[j]
  {
    if kids != [] {
      var init := kids[..|kids| - 1];
      FirstAppearanceMeans(init);
      assert kids == init + [kids[|kids| - 1]];
    }
  }

  /** Once a family has a co-parent, later children never replace it. */
  lemma {:induction false} SecondParentKept(kids: seq<Child>, more: seq<Child>, users: seq<User>)
    requires SecondParent(kids, users).Some?
    ensures SecondParent(kids + more, users) == SecondParent(kids, users)
    decreases |more|
  {
    if more != [] {
      var init := more[..|more| - 1];
      SecondParentKept(kids, init, users);
      assert (kids + more)[..|kids + more| - 1] == kids + init;
    } else {
      assert kids + more == kids;
    }
  }

  /** Every child is listed exactly once: under its parent 1, at most once, and
      under no other family. */
  lemma ChildListedOnce(kids: seq<Child>, c: Child, p: Id)
    requires c in kids
    ensures c in Members(kids, c.parentId)
    ensures p != c.parentId ==> c !in Members(kids, p)
  {
  }

  lemma {:induction false} NoMembers(kids: seq<Child>, p: Id)
    requires forall c :: c in kids ==> c.parentId != p
    ensures Members(kids, p) == []
  {
    if kids != [] {
      NoMembers(kids[..|kids| - 1], p);
      assert kids[|kids| - 1] in kids;
    }
  }

  /** A step of the grouping loop: the child joins its parent 1's family. */
  lemma FamilyOfSnoc(kids: seq<Child>, c: Child, p: Id, users: seq<User>, teams: seq<Team>)
    ensures FamilyOf(kids + [c], p, users, teams) ==
      if c.parentId != p then FamilyOf(kids, p, users, teams)
      else
        var f := FamilyOf(kids, p, users, teams);
        Family(f.parent1,
               if f.parent2.Some? then f.parent2
               else if c.parentId2.Some? && FindUser(users, c.parentId2.value).Some? then Some(PersonOf(users, c.parentId2.value))
               else None,
               f.children + [MemberOf(c, teams)])
  {
    var all := kids + [c];
    assert all[..|all| - 1] == kids && all[|all| - 1] == c;
    var mine := Members(kids, p);
    if c.parentId == p {
      assert Members(all, p) == mine + [c];
      var more := mine + [c];
      assert more[..|more| - 1] == mine && more[|more| - 1] == c;
      assert MembersOf(more, teams) == MembersOf(mine, teams) + [MemberOf(c, teams)];
      assert SecondParent(more, users) ==
        if SecondParent(mine, users).Some? then SecondParent(mine, users)
        else if c.parentId2.Some? && FindUser(users, c.parentId2.value).Some? then Some(PersonOf(users, c.parentId2.value))
        else None;
    } else {
      assert Members(all, p) == mine;
    }
  }

  /** One iteration of the grouping loop, for the child at position `i`. */
  method Group(kids: seq<Child>, i: nat, users: seq<User>, teams: seq<Team>,
               fams: map<Id, Family>, order: seq<Id>)
    returns (fams': map<Id, Family>, order': seq<Id>)
    requires i < |kids| && Readable(kids[i], users, teams)
    requires order == FirstAppearance(kids[..i])
    requires forall p :: p in fams <==> p in order
    requires forall p :: p in fams ==> fams[p] == FamilyOf(kids[..i], p, users, teams)
    ensures order' == FirstAppearance(kids[..i + 1])
    ensures forall p :: p in fams' <==> p in order'
    ensures forall p :: p in fams' ==> fams'[p] == FamilyOf(kids[..i + 1], p, users, teams)
  {
    var c := kids[i];
    assert kids[..i + 1] == kids[..i] + [c];
    assert kids[..i + 1][..i] == kids[..i];
    forall p ensures FamilyOf(kids[..i + 1], p, users, teams) == FamilyOf(kids[..i] + [c], p, users, teams) {
    }
    fams', order' := fams, order;
    var parent1Id := c.parentId;
    if parent1Id !in fams {
      FirstAppearanceMeans(kids[..i]);
      var parent1 := FindUser(users, parent1Id).value;
      fams' := fams'[parent1Id := Family(Person(parent1Id, parent1.name, parent1.email), None, [])];
      order' := order + [parent1Id];
      NoMembers(kids[..i], parent1Id);
    }
    var family := fams'[parent1Id];
    if c.parentId2.Some? {
      var parent2 := FindUser(users, c.parentId2.value);
      if family.parent2.None? && parent2.Some? {
        family := family.(parent2 := Some(Person(c.parentId2.value, parent2.value.name, parent2.value.email)));
      }
    }
    var team := FindTeam(teams, c.teamId).value;
    family := family.(children := family.children + [Member(c.id, c.name, team.name, team.category, c.birthDate)]);
    fams' := fams'[parent1Id := family];
    forall p | p in fams' ensures fams'[p] == FamilyOf(kids[..i + 1], p, users, teams) {
      FamilyOfSnoc(kids[..i], c, p, users, teams);
    }
  }

  /** The grouping loop over the sorted children; it stops at the first child
      whose parent 1 or team cannot be read. */
  method GroupAll(kids: seq<Child>, users: seq<User>, teams: seq<Team>)
    returns (ok: bool, fams: map<Id, Family>, order: seq<Id>)
    ensures ok <==> forall j :: 0 <= j < |kids| ==> Readable(kids[j], users, teams)
    ensures ok ==> order == FirstAppearance(kids)
    ensures ok ==> forall p :: p in fams <==> p in order
    ensures ok ==> forall p :: p in fams ==> fams[p] == FamilyOf(kids, p, users, teams)
  {
    fams, order := map[], [];
    for i := 0 to |kids|
      invariant order == FirstAppearance(kids[..i])
      invariant forall p :: p in fams <==> p in order
      invariant forall p :: p in fams ==> fams[p] == FamilyOf(kids[..i], p, users, teams)
      invariant forall j :: 0 <= j < i ==> Readable(kids[j], users, teams)
    {
      if !Readable(kids[i], users, teams) {
        return false, fams, order;
      }
      fams, order := Group(kids, i, users, teams, fams, order);
    }
    assert kids[..|kids|] == kids;
    ok := true;
  }

  /** GET: 403 unless admin; 500 when some child's parent 1 or team is gone;
      otherwise, over the children sorted by name, one family per parent 1 in
      order of first appearance. */
  method ListFamilies(db: Db, auth: Option<AuthUser>) returns (resp: Response<seq<Family>>)
    ensures auth.None? || auth.value.role != Admin ==> resp == Fail(403, NotAuthorized)
    ensures auth.Some? && auth.value.role == Admin ==>
      var kids := SortBy(db.children, ByName);
      if forall c :: c in db.children ==> Readable(c, db.users, db.teams) then
        resp.Ok? && resp.status == 200 &&
        |resp.body| == |FirstAppearance(kids)| &&
        forall i :: 0 <= i < |resp.body| ==>
          resp.body[i] == FamilyOf(kids, FirstAppearance(kids)[i], db.users, db.teams)
      else resp == Fail(500, ServerError)
  {
    if auth.None? || auth.value.role != Admin {
      return Fail(403, NotAuthorized);
    }
    var kids := SortBy(db.children, ByName);
    var ok, fams, order := GroupAll(kids, db.users, db.teams);
    assert forall c :: c in db.children <==> c in kids by {
      assert multiset(kids) == multiset(db.children);
      forall c ensures c in db.children <==> c in kids {
        assert c in db.children <==> c in multiset(db.children);
        assert c in kids <==> c in multiset(kids);
      }
    }
    if !ok {
      return Fail(500, ServerError);
    }
    resp := Ok(200, seq(|order|, k requires 0 <= k < |order| => fams[order[k]]));
  }

  // ---------------------------------------------------------------------
  // DELETE

  const ParentIdRequired: string := "parentId requis"

  datatype Deleted = Deleted(deletedChildren: nat, deletedParents: nat)

  /** The co-parents found on the family's children, the deleted parent excepted. */
  function CoParents(kids: seq<Child>, parentId: Id): (r: set<Id>)
    ensures forall q :: q in r <==> q != parentId && exists c :: c in kids && c.parentId2 == Some(q)
  {
    set c | c in kids && c.parentId2.Some? && c.parentId2.value != parentId :: c.parentId2.value
  }

  /** Some child still names the user as parent 1 or 2. */
  predicate Referenced(children: seq<Child>, id: Id)
  {
    exists c :: c in children && IsParentOf(c, id)
  }

  function WithoutChildren(children: seq<Child>, ids: seq<Id>): (r: seq<Child>)
    ensures forall c :: c in r <==> c in children && c.id !in ids
  {
    if children == [] then []
    else (if children[0].id !in ids then [children[0]] else []) + WithoutChildren(children[1..], ids)
  }

  function WithoutAnswers(avs: seq<Availability>, ids: seq<Id>): (r: seq<Availability>)
    ensures forall av :: av in r <==> av in avs && av.childId !in ids
  {
    if avs == [] then []
    else (if avs[0].childId !in ids then [avs[0]] else []) + WithoutAnswers(avs[1..], ids)
  }

  function WithoutUser(users: seq<User>, id: Id): (r: seq<User>)
    ensures forall u :: u in r <==> u in users && u.id != id
  {
    if users == [] then []
    else (if users[0].id != id then [users[0]] else []) + WithoutUser(users[1..], id)
  }

  /** The loop filling `parent2Ids`. */
  method CollectCoParents(kids: seq<Child>, p: Id) returns (coParents: set<Id>)
    ensures coParents == CoParents(kids, p)
  {
    coParents := {};
    for i := 0 to |kids|
      invariant coParents == CoParents(kids[..i], p)
    {
      assert kids[..i + 1] == kids[..i] + [kids[i]];
      if kids[i].parentId2.Some? && kids[i].parentId2.value != p {
        coParents := coParents + {kids[i].parentId2.value};
      }
    }
    assert kids[..|kids|] == kids;
  }

  /** Removing the children found for `p` leaves none that names `p`. */
  lemma FamilyGone(children: seq<Child>, p: Id)
    ensures forall c :: c in WithoutChildren(children, ChildIds(ChildrenOf(children, p))) ==> !IsParentOf(c, p)
  {
    var kids := ChildrenOf(children, p);
    forall c | c in WithoutChildren(children, ChildIds(kids)) ensures !IsParentOf(c, p) {
      if IsParentOf(c, p) {
        InChildIds(kids, c.id);
      }
    }
  }

  /** The loop over `parent2Ids`: a co-parent is removed when no remaining
      child names it. */
  method RemoveUnreferenced(db: Db, coParents: set<Id>, p: Id)
    modifies db`users
    ensures forall u :: u in db.users <==>
      u in old(db.users) && !(u.id in coParents && !Referenced(db.children, u.id))
  {
    var pending := coParents;
    while pending != {}
      invariant pending <= coParents
      invariant forall u :: u in db.users <==>
        u in old(db.users) && !(u.id in coParents && u.id !in pending && !Referenced(db.children, u.id))
      decreases pending
    {
      var q :| q in pending;
      if !Referenced(db.children, q) {
        db.users := WithoutUser(db.users, q);
      }
      pending := pending - {q};
    }
  }

  /** DELETE: 403 unless admin, 400 without `parentId`. Otherwise every child
      naming the parent (as parent 1 or 2) and their answers are removed, then
      the parent, then each co-parent that no remaining child names. The
      report counts the children removed and 1 + (1 if a co-parent was found),
      whether or not that co-parent was removed. */
  method DeleteFamily(db: Db, auth: Option<AuthUser>, parentId: Option<string>) returns (resp: Response<Deleted>)
    modifies db`availabilities, db`children, db`users
    ensures auth.None? || auth.value.role != Admin ==> resp == Fail(403, NotAuthorized) && unchanged(db)
    ensures auth.Some? && auth.value.role == Admin && !Truthy(parentId) ==>
      resp == Fail(400, ParentIdRequired) && unchanged(db)
    ensures auth.Some? && auth.value.role == Admin && Truthy(parentId) ==>
      var p := parentId.value;
      var kids := ChildrenOf(old(db.children), p);
      var ids := ChildIds(kids);
      var coParents := CoParents(kids, p);
      resp == Ok(200, Deleted(|kids|, 1 + (if coParents != {} then 1 else 0))) &&
      db.children == WithoutChildren(old(db.children), ids) &&
      db.availabilities == WithoutAnswers(old(db.availabilities), ids) &&
      (forall c :: c in db.children ==> !IsParentOf(c, p)) &&
      forall u :: u in db.users <==>
        u in old(db.users) && u.id != p && !(u.id in coParents && !Referenced(db.children, u.id))
  {
    if auth.None? || auth.value.role != Admin {
      return Fail(403, NotAuthorized);
    }
    if !Truthy(parentId) {
      return Fail(400, ParentIdRequired);
    }
    var p := parentId.value;
    var kids := ChildrenOf(db.children, p);
    var coParents := CollectCoParents(kids, p);
    var ids := ChildIds(kids);
    db.availabilities := WithoutAnswers(db.availabilities, ids);
    db.children := WithoutChildren(db.children, ids);
    FamilyGone(old(db.children), p);
    db.users := WithoutUser(db.users, p);
    RemoveUnreferenced(db, coParents, p);
    resp := Ok(200, Deleted(|kids|, 1 + (if |coParents| > 0 then 1 else 0)));
  }
}
