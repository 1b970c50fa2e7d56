/** POST /api/admin/create-family: an admin creates parent 1, optionally
    parent 2, and the family's children in one request. The checks come in a
    fixed order; the writes that follow are sequential and are not undone
    when a later one fails. */
module CreateFamily {

  import opened Common
  import opened Calendar
  import opened Store

  datatype ChildRequest = ChildRequest(name: Option<string>, teamId: Option<string>, birthDate: Option<string>)

  /** The request body; `children` is None when it is missing or not an array. */
  datatype FamilyRequest = FamilyRequest(
    parentName: Option<string>,
    parentEmail: Option<string>,
    parent2Name: Option<string>,
    parent2Email: Option<string>,
    children: Option<seq<ChildRequest>>,
    role: Option<string>)

  datatype Person = Person(id: Id, name: string, email: string)

  datatype Created = Created(parent1: Person, parent2: Option<Person>, children: seq<(Id, string)>)

  const Parent1Required: string := "Nom et email du parent 1 requis"
  const RoleRequired: string := "Rôle requis et valide"
  const ChildRequired: string := "Au moins un enfant requis"

  function EmailTaken(email: string): string
  {
    "L'email " + email + " est déjà utilisé"
  }

  /** A child entry with a name, a team and a birth date; the others are skipped. */
  predicate Complete(r: ChildRequest)
  {
    Truthy(r.name) && Truthy(r.teamId) && Truthy(r.birthDate)
  }

  function CompleteOnes(rs: seq<ChildRequest>): (r: seq<ChildRequest>)
    ensures forall i :: 0 <= i < |r| ==> Complete(r[i])
    ensures |r| <= |rs|
  {
    if rs == [] then []
    else
      var last := rs[|rs| - 1];
      CompleteOnes(rs[..|rs| - 1]) + (if Complete(last) then [last] else [])
  }

  /** The child record stored for a complete entry. */
  predicate MadeFrom(c: Child, r: ChildRequest, parent1: Id, parent2: Option<Id>, parse: string -> JsDate)
    requires Complete(r)
  {
    c.name == r.name.value && c.teamId == r.teamId.value && parse(r.birthDate.value) == Time(c.birthDate) &&
    c.parentId == parent1 && c.parentId2 == parent2
  }

  /** The validation sequence: the first failing check decides the answer. */
  function Check(req: FamilyRequest, users: seq<User>): (r: Option<string>)
    ensures r.None? ==>
      Truthy(req.parentName) && Truthy(req.parentEmail) && Truthy(req.role) && RoleOf(req.role.value).Some? &&
      req.children.Some? && |req.children.value| > 0 &&
      FindUserByEmail(users, NormalEmail(req.parentEmail.value)).None? &&
      (Truthy(req.parent2Email) ==> FindUserByEmail(users, NormalEmail(req.parent2Email.value)).None?)
    ensures !Truthy(req.parentName) || !Truthy(req.parentEmail) ==> r == Some(Parent1Required)
    ensures Truthy(req.parentName) && Truthy(req.parentEmail) && !(Truthy(req.role) && RoleOf(req.role.value).Some?)
      ==> r == Some(RoleRequired)
  {
    if !Truthy(req.parentName) || !Truthy(req.parentEmail) then Some(Parent1Required)
    else if !Truthy(req.role) || RoleOf(req.role.value).None? then Some(RoleRequired)
    else if req.children.None? || |req.children.value| == 0 then Some(ChildRequired)
    else if FindUserByEmail(users, NormalEmail(req.parentEmail.value)).Some? then Some(EmailTaken(req.parentEmail.value))
    else if Truthy(req.parent2Email) && FindUserByEmail(users, NormalEmail(req.parent2Email.value)).Some? then
      Some(EmailTaken(req.parent2Email.value))
    else None
  }

  /** Parent 2 is requested with the e-mail parent 1 gets, once both are normalised. */
  predicate SharedEmail(req: FamilyRequest)
  {
    Truthy(req.parent2Name) && Truthy(req.parent2Email) && Truthy(req.parentEmail) &&
    NormalEmail(req.parent2Email.value) == NormalEmail(req.parentEmail.value)
  }

  /** An e-mail that is blank once trimmed: the schema's `required` refuses
      the user that would carry it. Parent 2's counts only when parent 2 is
      requested. */
  predicate BlankEmail(req: FamilyRequest)
  {
    (Truthy(req.parentEmail) && NormalEmail(req.parentEmail.value) == "") ||
    (Truthy(req.parent2Name) && Truthy(req.parent2Email) && NormalEmail(req.parent2Email.value) == "")
  }

  /** Every complete child entry carries a birth date that reads as a date. */
  predicate BirthDatesRead(rs: seq<ChildRequest>, parse: string -> JsDate)
  {
    forall i :: 0 <= i < |CompleteOnes(rs)| ==> parse(CompleteOnes(rs)[i].birthDate.value).Time?
  }

  /** The loop creating the children: complete entries become children of the
      new parents, in order; the first birth date that is not a date makes the
      insert fail and ends the loop, keeping the children created before. */
  method CreateChildren(db: Db, rs: seq<ChildRequest>, parent1: Id, parent2: Option<Id>, parse: string -> JsDate)
    returns (ok: bool, created: seq<Child>)
    modifies db`children, db`issued
    ensures db.children == old(db.children) + created
    ensures |created| <= |CompleteOnes(rs)|
    ensures forall i :: 0 <= i < |created| ==> MadeFrom(created[i], CompleteOnes(rs)[i], parent1, parent2, parse)
    ensures forall i :: 0 <= i < |created| ==> created[i].id !in old(db.issued) && created[i].id in db.issued
    ensures forall i, j :: 0 <= i < j < |created| ==> created[i].id != created[j].id
    ensures ok <==> |created| == |CompleteOnes(rs)|
    ensures !ok ==> parse(CompleteOnes(rs)[|created|].birthDate.value).InvalidDate?
    ensures old(db.issued) <= db.issued
  {
    created := [];
    for i := 0 to |rs|
      invariant db.children == old(db.children) + created
      invariant Built(rs, i, created, parent1, parent2, parse, old(db.issued), db.issued)
    {
      var r := rs[i];
      if !Complete(r) {
        BuiltSkip(rs, i, created, parent1, parent2, parse, old(db.issued), db.issued);
        continue;
      }
      var birth := parse(r.birthDate.value);
      if birth.InvalidDate? {
        BuiltStopped(rs, i, created, parent1, parent2, parse, old(db.issued), db.issued);
        return false, created;
      }
      ghost var issued := db.issued;
      var id := db.NewId();
      var child := Child(id, r.name.value, parent1, parent2, r.teamId.value, birth.ms);
      BuiltAdd(rs, i, created, child, parent1, parent2, parse, old(db.issued), issued, db.issued);
      db.children := db.children + [child];
      created := created + [child];
    }
    assert rs[..|rs|] == rs;
    ok := true;
  }

  /** What the loop has built from the first `i` entries: one child per
      complete entry, in order, each with a fresh and distinct identifier. */
  predicate Built(rs: seq<ChildRequest>, i: nat, created: seq<Child>, parent1: Id, parent2: Option<Id>,
                  parse: string -> JsDate, issued0: set<Id>, issued: set<Id>)
    requires i <= |rs|
  {
    |created| == |CompleteOnes(rs[..i])| &&
    (forall k :: 0 <= k < |created| ==> MadeFrom(created[k], CompleteOnes(rs[..i])[k], parent1, parent2, parse)) &&
    (forall k :: 0 <= k < |created| ==> created[k].id !in issued0 && created[k].id in issued) &&
    (forall k, j :: 0 <= k < j < |created| ==> created[k].id != created[j].id) &&
    issued0 <= issued
  }

  /** An incomplete entry is skipped. */
  lemma BuiltSkip(rs: seq<ChildRequest>, i: nat, created: seq<Child>, parent1: Id, parent2: Option<Id>,
                  parse: string -> JsDate, issued0: set<Id>, issued: set<Id>)
    requires i < |rs| && !Complete(rs[i])
    requires Built(rs, i, created, parent1, parent2, parse, issued0, issued)
    ensures Built(rs, i + 1, created, parent1, parent2, parse, issued0, issued)
  {
    CompleteOnesSnoc(rs[..i], rs[i]);
    assert rs[..i + 1] == rs[..i] + [rs[i]];
  }

  /** The loop stops at a complete entry: what it built is a prefix of the
      children of all complete entries, and the entry is the next of those. */
  lemma BuiltStopped(rs: seq<ChildRequest>, i: nat, created: seq<Child>, parent1: Id, parent2: Option<Id>,
                     parse: string -> JsDate, issued0: set<Id>, issued: set<Id>)
    requires i < |rs| && Complete(rs[i])
    requires Built(rs, i, created, parent1, parent2, parse, issued0, issued)
    ensures |created| < |CompleteOnes(rs)| && CompleteOnes(rs)[|created|] == rs[i]
    ensures forall k :: 0 <= k < |created| ==> MadeFrom(created[k], CompleteOnes(rs)[k], parent1, parent2, parse)
  {
    CompleteOnesSnoc(rs[..i], rs[i]);
    assert rs[..i + 1] == rs[..i] + [rs[i]];
    CompleteOnesPrefix(rs, i + 1);
    assert CompleteOnes(rs)[..|created|] == CompleteOnes(rs[..i]);
  }

  /** A complete entry adds its child, with an identifier not issued before. */
  lemma BuiltAdd(rs: seq<ChildRequest>, i: nat, created: seq<Child>, child: Child, parent1: Id, parent2: Option<Id>,
                 parse: string -> JsDate, issued0: set<Id>, issued: set<Id>, issued': set<Id>)
    requires i < |rs| && Complete(rs[i])
    requires Built(rs, i, created, parent1, parent2, parse, issued0, issued)
    requires MadeFrom(child, rs[i], parent1, parent2, parse)
    requires child.id !in issued && child.id in issued' && issued <= issued'
    ensures Built(rs, i + 1, created + [child], parent1, parent2, parse, issued0, issued')
  {
    CompleteOnesSnoc(rs[..i], rs[i]);
    assert rs[..i + 1] == rs[..i] + [rs[i]];
  }

  lemma CompleteOnesSnoc(rs: seq<ChildRequest>, r: ChildRequest)
    ensures CompleteOnes(rs + [r]) == CompleteOnes(rs) + (if Complete(r) then [r] else [])
  {
    assert (rs + [r])[..|rs|] == rs;
  }

  /** The complete entries of a prefix are a prefix of the complete entries. */
  lemma {:induction false} CompleteOnesPrefix(rs: seq<ChildRequest>, n: nat)
    requires n <= |rs|
    ensures |CompleteOnes(rs[..n])| <= |CompleteOnes(rs)|
    ensures CompleteOnes(rs)[..|CompleteOnes(rs[..n])|] == CompleteOnes(rs[..n])
    decreases |rs| - n
  {
    if n == |rs| {
      assert rs[..n] == rs;
    } else {
      var init := rs[..|rs| - 1];
      CompleteOnesPrefix(init, n);
      assert init[..n] == rs[..n];
      var k := |CompleteOnes(rs[..n])|;
      assert CompleteOnes(rs)[..k] == CompleteOnes(init)[..k];
    }
  }

  /** Each complete entry comes from the request. */
  lemma {:induction false} CompleteOnesFrom(rs: seq<ChildRequest>, i: nat)
    requires i < |CompleteOnes(rs)|
    ensures CompleteOnes(rs)[i] in rs
  {
    var init := rs[..|rs| - 1];
    if i < |CompleteOnes(init)| {
      CompleteOnesFrom(init, i);
      assert CompleteOnes(rs)[i] == CompleteOnes(init)[i];
      assert CompleteOnes(init)[i] in init;
    }
  }

  /** Parent 1, then parent 2 when both its name and e-mail are given, each
      with both notification flags on. A user whose trimmed e-mail is blank
      fails the schema's `required`: for parent 1 nothing is written, for
      parent 2 parent 1 stays. Parent 2 also fails the unique e-mail index
      exactly when its normalised e-mail is parent 1's, which was free before. */
  method CreateParents(db: Db, req: FamilyRequest, role: Role, password1: string, password2: string)
    returns (ok: bool, parent1: Person, parent2: Option<Person>)
    requires Truthy(req.parentName) && Truthy(req.parentEmail)
    requires Truthy(req.parent2Email) ==> FindUserByEmail(db.users, NormalEmail(req.parent2Email.value)).None?
    modifies db`users, db`issued
    ensures ok <==> !BlankEmail(req) && !SharedEmail(req)
    ensures NormalEmail(req.parentEmail.value) == "" ==> db.users == old(db.users)
    ensures NormalEmail(req.parentEmail.value) != "" ==>
      parent1 == Person(parent1.id, req.parentName.value, NormalEmail(req.parentEmail.value)) &&
      parent1.id !in old(db.issued) &&
      var user1 := User(parent1.id, parent1.email, password1, parent1.name, role, Settings(true, true));
      if !ok then db.users == old(db.users) + [user1]
      else
        (parent2.Some? <==> Truthy(req.parent2Name) && Truthy(req.parent2Email)) &&
        db.users == old(db.users) + [user1] +
          (if parent2.Some? then
             [User(parent2.value.id, NormalEmail(req.parent2Email.value), password2, req.parent2Name.value, role,
                   Settings(true, true))]
           else [])
  {
    parent2 := None;
    var email1 := NormalEmail(req.parentEmail.value);
    if email1 == "" {
      return false, Person("", req.parentName.value, email1), None;
    }
    var id1 := db.NewId();
    parent1 := Person(id1, req.parentName.value, email1);
    var user1 := User(id1, email1, password1, parent1.name, role, Settings(true, true));
    db.users := db.users + [user1];
    ok := true;
    if Truthy(req.parent2Name) && Truthy(req.parent2Email) {
      var email2 := NormalEmail(req.parent2Email.value);
      if email2 == "" {
        return false, parent1, None;
      }
      if FindUserByEmail(db.users, email2).Some? {
        // E11000: the only user with that e-mail is parent 1, created above.
        return false, parent1, None;
      }
      var id2 := db.NewId();
      db.users := db.users + [User(id2, email2, password2, req.parent2Name.value, role, Settings(true, true))];
      parent2 := Some(Person(id2, req.parent2Name.value, email2));
    }
  }

  /** The handler. Nothing is written unless every check passes. Then parent 1
      is created with the normalised e-mail, the role and both notification
      flags on; parent 2 only when both its name and e-mail are given (an
      e-mail equal to parent 1's after normalisation breaks the unique index,
      and a blank one the schema's `required`: 500, parent 1 stays); then the
      children. A blank parent 1 e-mail is a 500 with nothing written. */
  method PostFamily(db: Db, auth: Option<AuthUser>, req: FamilyRequest, password1: string, password2: string,
                    parse: string -> JsDate)
    returns (resp: Response<Created>)
    modifies db`users, db`children, db`issued
    ensures auth.None? || auth.value.role != Admin ==> resp == Fail(403, NotAuthorized) && unchanged(db)
    ensures auth.Some? && auth.value.role == Admin && Check(req, old(db.users)).Some? ==>
      resp == Fail(400, Check(req, old(db.users)).value) && unchanged(db)
    ensures resp.Ok? ==>
      auth.Some? && auth.value.role == Admin && Check(req, old(db.users)).None? &&
      resp.status == 201 &&
      var p1 := resp.body.parent1;
      var kids := CompleteOnes(req.children.value);
      p1.name == req.parentName.value && p1.email == NormalEmail(req.parentEmail.value) &&
      p1.id !in old(db.issued) &&
      (resp.body.parent2.Some? <==> Truthy(req.parent2Name) && Truthy(req.parent2Email)) &&
      db.users == old(db.users) +
        [User(p1.id, p1.email, password1, p1.name, RoleOf(req.role.value).value, Settings(true, true))] +
        (if resp.body.parent2.Some? then
           [User(resp.body.parent2.value.id, NormalEmail(req.parent2Email.value), password2, req.parent2Name.value,
                 RoleOf(req.role.value).value, Settings(true, true))]
         else []) &&
      |db.children| == |old(db.children)| + |kids| && |resp.body.children| == |kids| &&
      forall i :: 0 <= i < |kids| ==>
        var c := db.children[|old(db.children)| + i];
        MadeFrom(c, kids[i], p1.id, if resp.body.parent2.Some? then Some(resp.body.parent2.value.id) else None, parse) &&
        resp.body.children[i] == (c.id, c.name)
    ensures resp.Fail? && resp.status == 500 ==>
      auth.Some? && auth.value.role == Admin && Check(req, old(db.users)).None? &&
      (BlankEmail(req) || SharedEmail(req) ||
       exists r :: r in req.children.value && Complete(r) && parse(r.birthDate.value).InvalidDate?)
    ensures auth.Some? && auth.value.role == Admin && Check(req, old(db.users)).None? ==>
      (resp.Ok? <==> !BlankEmail(req) && !SharedEmail(req) && BirthDatesRead(req.children.value, parse)) &&
      (resp.Fail? ==> resp == Fail(500, ServerError))
  {
    if auth.None? || auth.value.role != Admin {
      return Fail(403, NotAuthorized);
    }
    var problem := Check(req, db.users);
    if problem.Some? {
      return Fail(400, problem.value);
    }
    var role := RoleOf(req.role.value).value;
    var parentsOk, person1, parent2 := CreateParents(db, req, role, password1, password2);
    if !parentsOk {
      return Fail(500, ServerError);
    }
    var id1 := person1.id;
    var ok, created := CreateChildren(db, req.children.value, id1,
                                      if parent2.Some? then Some(parent2.value.id) else None, parse);
    if !ok {
      CompleteOnesFrom(req.children.value, |created|);
      return Fail(500, ServerError);
    }
    resp := Ok(201, Created(person1, parent2,
                            seq(|created|, i requires 0 <= i < |created| => (created[i].id, created[i].name))));
  }
}
