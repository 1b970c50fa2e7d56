/** POST /api/auth/login: an e-mail with either a password or a login code.
    A code, when given, takes precedence over the password; a valid code is
    left in place so that it can be used again, an expired one is deleted.
    Password hashes are compared by a function passed in (bcrypt is not
    modelled). */
module Login {

  import opened Common
  import opened Store
  import opened Accounts

  datatype LoginRequest = LoginRequest(email: Option<string>, password: Option<string>, code: Option<string>)

  const EmailRequired: string := "Email requis"
  const SecretRequired: string := "Mot de passe ou code requis"
  const BadCredentials: string := "Email ou mot de passe incorrect"
  const BadCode: string := "Code de connexion incorrect"
  const CodeExpired: string := "Code de connexion expiré"

  /** The handler trims, then lower-cases. */
  function LoginEmail(s: string): string
  {
    Lower(Trim(s))
  }

  /** The handler's normalisation is the schema's: the e-mail it looks up,
      after the query setters run on it once more, is the e-mail stored for
      the same input at registration. */
  lemma LoginEmailIsStoredForm(s: string)
    ensures LoginEmail(s) == NormalEmail(s)
    ensures NormalEmail(LoginEmail(s)) == NormalEmail(s)
  {
    LowerTrimCommute(s);
    LowerIdempotent(Trim(s));
    TrimIdempotent(Lower(s));
  }

  /** What the chain of checks decides: refuse, delete an expired code, or
      open a session. */
  datatype Decision = Refuse(status: int, message: string) | ExpireCode(index: nat) | Grant(user: User)

  function Decide(users: seq<User>, tokens: seq<LoginToken>, req: LoginRequest, now: int,
                  matches: (string, string) -> bool): (d: Decision)
    ensures d.Refuse? ==> d.status == 400 || d.status == 401
    ensures d.ExpireCode? ==>
      Truthy(req.code) && d.index < |tokens| && now > tokens[d.index].expiresAt &&
      tokens[d.index].token == Trim(req.code.value)
    ensures d.Grant? ==> Truthy(req.email) && d.user in users && d.user.email == NormalEmail(req.email.value)
    ensures d.Grant? && Truthy(req.code) ==>
      exists t :: t in tokens && t.userId == d.user.id && t.token == Trim(req.code.value) && now <= t.expiresAt
    ensures d.Grant? && !Truthy(req.code) ==> Truthy(req.password) && matches(req.password.value, d.user.password)
  {
    if !Truthy(req.email) then Refuse(400, EmailRequired)
    else if !Truthy(req.password) && !Truthy(req.code) then Refuse(400, SecretRequired)
    else
      LoginEmailIsStoredForm(req.email.value);
      match FindUserByEmail(users, NormalEmail(LoginEmail(req.email.value)))
      case None => Refuse(401, BadCredentials)
      case Some(user) =>
        if Truthy(req.code) then
          match TokenIndexFor(tokens, user.id, Trim(req.code.value))
          case None => Refuse(401, BadCode)
          case Some(k) => if now > tokens[k].expiresAt then ExpireCode(k) else Grant(user)
        else if matches(req.password.value, user.password) then Grant(user)
        else Refuse(401, BadCredentials)
  }

  /** The account the e-mail designates. */
  function Account(users: seq<User>, email: string): Option<User>
  {
    FindUserByEmail(users, NormalEmail(email))
  }

  /** When is a login granted: with a code, exactly when the account holds an
      unexpired row with that code; without, exactly when the password matches. */
  lemma GrantMeans(users: seq<User>, tokens: seq<LoginToken>, req: LoginRequest, now: int,
                   matches: (string, string) -> bool)
    requires TokensUnique(tokens)
    ensures Decide(users, tokens, req, now, matches).Grant? <==>
      Truthy(req.email) && Account(users, req.email.value).Some? &&
      var u := Account(users, req.email.value).value;
      if Truthy(req.code) then
        (exists t :: t in tokens && t.userId == u.id && t.token == Trim(req.code.value) && now <= t.expiresAt)
      else
        Truthy(req.password) && matches(req.password.value, u.password)
  {
    if Truthy(req.email) {
      LoginEmailIsStoredForm(req.email.value);
      assert FindUserByEmail(users, NormalEmail(LoginEmail(req.email.value))) == Account(users, req.email.value);
    }
    if Truthy(req.email) && Truthy(req.code) && Account(users, req.email.value).Some? {
      var u := Account(users, req.email.value).value;
      var code := Trim(req.code.value);
      if t :| t in tokens && t.userId == u.id && t.token == code && now <= t.expiresAt {
        var k := TokenIndexFor(tokens, u.id, code).value;
        var i :| 0 <= i < |tokens| && tokens[i] == t;
        assert i == k;
      }
    }
  }

  /** The row a code login looks up: the account's row with the trimmed code. */
  function CodeRow(users: seq<User>, tokens: seq<LoginToken>, req: LoginRequest): (r: Option<LoginToken>)
    requires Truthy(req.email) && Truthy(req.code)
    ensures r.Some? ==> r.value in tokens && r.value.token == Trim(req.code.value)
  {
    match Account(users, req.email.value)
    case None => None
    case Some(u) =>
      match TokenIndexFor(tokens, u.id, Trim(req.code.value))
      case None => None
      case Some(k) => Some(tokens[k])
  }

  /** A code stays usable: a code login that is granted is granted again, with
      the same answer, at every moment up to the expiry of the row it found. */
  lemma CodeReusable(users: seq<User>, tokens: seq<LoginToken>, req: LoginRequest, now: int,
                     matches: (string, string) -> bool)
    requires Decide(users, tokens, req, now, matches).Grant? && Truthy(req.code)
    ensures Truthy(req.email) && CodeRow(users, tokens, req).Some?
    ensures now <= CodeRow(users, tokens, req).value.expiresAt
    ensures forall later :: later <= CodeRow(users, tokens, req).value.expiresAt ==>
      Decide(users, tokens, req, later, matches) == Decide(users, tokens, req, now, matches)
  {
    LoginEmailIsStoredForm(req.email.value);
    assert FindUserByEmail(users, NormalEmail(LoginEmail(req.email.value))) == Account(users, req.email.value);
  }

  /** The handler. Only an expired code changes the store: its row is
      deleted. A granted code is not consumed. */
  method PostLogin(db: Db, req: LoginRequest, now: int, matches: (string, string) -> bool,
                   sign: Claims -> string) returns (resp: Response<Session>)
    modifies db`tokens
    ensures
      var d := Decide(db.users, old(db.tokens), req, now, matches);
      (d.Refuse? ==> resp == Fail(d.status, d.message) && db.tokens == old(db.tokens)) &&
      (d.ExpireCode? ==> resp == Fail(401, CodeExpired) && db.tokens == RemoveAt(old(db.tokens), d.index)) &&
      (d.Grant? ==> resp == Ok(200, Open(d.user, sign)) && db.tokens == old(db.tokens))
    ensures TokensUnique(old(db.tokens)) ==> TokensUnique(db.tokens)
  {
    if !Truthy(req.email) {
      return Fail(400, EmailRequired);
    }
    if !Truthy(req.password) && !Truthy(req.code) {
      return Fail(400, SecretRequired);
    }
    var email := LoginEmail(req.email.value);
    var found := FindUserByEmail(db.users, NormalEmail(email));
    if found.None? {
      return Fail(401, BadCredentials);
    }
    var user := found.value;
    if Truthy(req.code) {
      var row := TokenIndexFor(db.tokens, user.id, Trim(req.code.value));
      if row.None? {
        return Fail(401, BadCode);
      }
      if now > db.tokens[row.value].expiresAt {
        if TokensUnique(db.tokens) {
          RemoveAtUnique(db.tokens, row.value);
        }
        db.tokens := RemoveAt(db.tokens, row.value);
        return Fail(401, CodeExpired);
      }
    } else if !matches(req.password.value, user.password) {
      return Fail(401, BadCredentials);
    }
    resp := Ok(200, Open(user, sign));
  }
}
