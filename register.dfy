/** POST /api/auth/register: anyone may create an account of any role; no
    caller is required. The password hash is a function passed in. */
module Register {

  import opened Common
  import opened Store
  import opened Accounts

  datatype RegisterRequest = RegisterRequest(email: Option<string>, password: Option<string>,
                                             name: Option<string>, role: Option<string>)

  const FieldsRequired: string := "Tous les champs sont requis"
  const RoleInvalid: string := "Rôle invalide"
  const EmailInUse: string := "Cet email est déjà utilisé"

  /** The handler. The duplicate check runs the schema's setters on the
      e-mail, so it compares stored forms; an e-mail made only of white space
      passes it and then fails the schema's `required` (500). */
  method PostRegister(db: Db, req: RegisterRequest, hash: string -> string, sign: Claims -> string)
    returns (resp: Response<Session>)
    modifies db`users, db`issued
    ensures !Truthy(req.email) || !Truthy(req.password) || !Truthy(req.name) || !Truthy(req.role) ==>
      resp == Fail(400, FieldsRequired)
    ensures Truthy(req.email) && Truthy(req.password) && Truthy(req.name) && Truthy(req.role) ==>
      (RoleOf(req.role.value).None? ==> resp == Fail(400, RoleInvalid)) &&
      (RoleOf(req.role.value).Some? && FindUserByEmail(old(db.users), NormalEmail(req.email.value)).Some? ==>
        resp == Fail(400, EmailInUse)) &&
      (RoleOf(req.role.value).Some? && FindUserByEmail(old(db.users), NormalEmail(req.email.value)).None? ==>
        (resp.Ok? <==> NormalEmail(req.email.value) != ""))
    ensures resp.Ok? ==>
      resp.status == 201 &&
      var u := resp.body.user;
      u.id !in old(db.issued) && u.email == NormalEmail(req.email.value) && u.email != "" &&
      u.password == hash(req.password.value) && u.name == req.name.value &&
      Some(u.role) == RoleOf(req.role.value) && u.settings == Settings(true, true) &&
      resp.body == Open(u, sign) &&
      db.users == old(db.users) + [u]
    ensures resp.Fail? ==> db.users == old(db.users)
    ensures EmailsUnique(old(db.users)) ==> EmailsUnique(db.users)
  {
    if !Truthy(req.email) || !Truthy(req.password) || !Truthy(req.name) || !Truthy(req.role) {
      return Fail(400, FieldsRequired);
    }
    var role := RoleOf(req.role.value);
    if role.None? {
      return Fail(400, RoleInvalid);
    }
    var email := NormalEmail(req.email.value);
    if FindUserByEmail(db.users, email).Some? {
      return Fail(400, EmailInUse);
    }
    if email == "" {
      return Fail(500, ServerError);
    }
    var id := db.NewId();
    var user := User(id, email, hash(req.password.value), req.name.value, role.value, Settings(true, true));
    db.users := db.users + [user];
    resp := Ok(201, Open(user, sign));
  }
}
