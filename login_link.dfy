/** POST /api/auth/login-link: an admin issues a parent a six-digit login
    code, stored as a login-token row valid for a hundred years. The random
    draw (a whole number from 100000 to 999999) and the base URL, which comes
    from the environment, are parameters. */
module LoginLink {

  import opened Common
  import opened Calendar
  import opened Store

  const ParentIdRequired: string := "parentId requis"
  const ParentNotFound: string := "Parent introuvable"
  const NotAParent: string := "L'utilisateur n'est pas un parent"

  /** How long a code lasts: 100 × 365 days. */
  const CodeLifetime: int := 100 * 365 * MsPerDay

  datatype LoginLink = LoginLink(url: string, code: string, expiresAt: int, parentName: string,
                                 parentEmail: string, siteUrl: string, sendEmail: bool)

  /** A code drawn from 100000..999999 is written with exactly six digits. */
  lemma SixDigits(n: nat)
    requires 100000 <= n <= 999999
    ensures |NatToString(n)| == 6
  {
    var a := n / 10;
    var b := a / 10;
    var c := b / 10;
    var d := c / 10;
    var e := d / 10;
    assert 1 <= e < 10;
    assert |NatToString(d)| == 2;
    assert |NatToString(c)| == 3;
    assert |NatToString(b)| == 4;
    assert |NatToString(a)| == 5;
  }

  method CreateLoginLink(db: Db, auth: Option<AuthUser>, parentId: Option<string>, sendEmail: Option<bool>,
                         now: int, baseUrl: string, draw: nat) returns (resp: Response<LoginLink>)
    requires 100000 <= draw <= 999999
    modifies db`tokens, db`issued
    ensures auth.None? || auth.value.role != Admin ==> resp == Fail(403, NotAuthorized)
    ensures auth.Some? && auth.value.role == Admin ==>
      (!Truthy(parentId) ==> resp == Fail(400, ParentIdRequired)) &&
      (Truthy(parentId) && FindUser(db.users, parentId.value).None? ==> resp == Fail(404, ParentNotFound)) &&
      ((Truthy(parentId) && FindUser(db.users, parentId.value).Some? &&
        FindUser(db.users, parentId.value).value.role != Parent) ==> resp == Fail(400, NotAParent))
    ensures resp.Ok? ==>
      auth.Some? && auth.value.role == Admin && Truthy(parentId) &&
      var parent := FindUser(db.users, parentId.value);
      parent.Some? && parent.value.role == Parent &&
      resp.status == 200 &&
      |resp.body.code| == 6 && AllDigits(resp.body.code) && 100000 <= DecimalValue(resp.body.code) <= 999999 &&
      resp.body.url == baseUrl + "/login-by-token?token=" + resp.body.code &&
      resp.body.expiresAt == now + CodeLifetime &&
      resp.body.parentName == parent.value.name && resp.body.parentEmail == parent.value.email &&
      resp.body.siteUrl == baseUrl &&
      (resp.body.sendEmail <==> sendEmail == Some(true)) &&
      exists id :: id !in old(db.issued) &&
        db.tokens == old(db.tokens) + [LoginToken(id, parentId.value, resp.body.code, resp.body.expiresAt)]
    // the unique index on the code refuses a draw that is already taken
    ensures resp.Fail? && resp.status == 500 ==>
      exists t :: t in old(db.tokens) && |t.token| == 6 && AllDigits(t.token) && 100000 <= DecimalValue(t.token) <= 999999
    ensures auth.Some? && auth.value.role == Admin && Truthy(parentId) &&
            FindUser(db.users, parentId.value).Some? && FindUser(db.users, parentId.value).value.role == Parent ==>
      (resp.Ok? <==> forall t :: t in old(db.tokens) ==> t.token != NatToString(draw)) &&
      (resp.Ok? ==> resp.body.code == NatToString(draw) && DecimalValue(resp.body.code) == draw) &&
      (resp.Fail? ==> resp == Fail(500, ServerError))
    ensures resp.Fail? ==> db.tokens == old(db.tokens)
    ensures TokensUnique(old(db.tokens)) ==> TokensUnique(db.tokens)
  {
    if auth.None? || auth.value.role != Admin {
      return Fail(403, NotAuthorized);
    }
    if !Truthy(parentId) {
      return Fail(400, ParentIdRequired);
    }
    var parent := FindUser(db.users, parentId.value);
    if parent.None? {
      return Fail(404, ParentNotFound);
    }
    if parent.value.role != Parent {
      return Fail(400, NotAParent);
    }
    var code := NatToString(draw);
    DecimalRoundTrip(draw);
    SixDigits(draw);
    var expiresAt := now + CodeLifetime;
    if exists t :: t in db.tokens && t.token == code {
      return Fail(500, ServerError);
    }
    var id := db.NewId();
    db.tokens := db.tokens + [LoginToken(id, parentId.value, code, expiresAt)];
    resp := Ok(200, LoginLink(baseUrl + "/login-by-token?token=" + code, code, expiresAt, parent.value.name,
                              parent.value.email, baseUrl, sendEmail == Some(true)));
  }
}
