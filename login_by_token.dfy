/** GET /api/auth/login-by-token: a one-time login link. Every call that
    finds the code deletes its row, whatever the outcome, so a link opens at
    most one session. */
module LoginByToken {

  import opened Common
  import opened Store
  import opened Accounts

  const TokenMissing: string := "Token manquant"
  const LinkInvalid: string := "Lien invalide ou expiré"
  const LinkExpired: string := "Lien expiré"
  const UserNotFound: string := "Utilisateur introuvable"

  method LoginWithToken(db: Db, token: Option<string>, now: int, sign: Claims -> string)
    returns (resp: Response<Session>)
    modifies db`tokens
    ensures !Truthy(token) ==> resp == Fail(400, TokenMissing) && db.tokens == old(db.tokens)
    ensures Truthy(token) && TokenIndex(old(db.tokens), token.value).None? ==>
      resp == Fail(401, LinkInvalid) && db.tokens == old(db.tokens)
    ensures Truthy(token) && TokenIndex(old(db.tokens), token.value).Some? ==>
      var k := TokenIndex(old(db.tokens), token.value).value;
      var row := old(db.tokens)[k];
      db.tokens == RemoveAt(old(db.tokens), k) &&
      (now > row.expiresAt ==> resp == Fail(401, LinkExpired)) &&
      (now <= row.expiresAt && FindUser(db.users, row.userId).None? ==> resp == Fail(404, UserNotFound)) &&
      (now <= row.expiresAt && FindUser(db.users, row.userId).Some? ==>
        resp == Ok(200, Open(FindUser(db.users, row.userId).value, sign)))
    ensures resp.Ok? ==> resp.body.user in db.users
    ensures TokensUnique(old(db.tokens)) ==> TokensUnique(db.tokens)
    // single use: once a call has found the code, no row with it is left,
    // so the same link is refused with 401 from then on
    ensures TokensUnique(old(db.tokens)) && (resp.Ok? || resp.status == 404 || resp == Fail(401, LinkExpired)) ==>
      Truthy(token) && forall t :: t in db.tokens ==> t.token != token.value
  {
    if !Truthy(token) {
      return Fail(400, TokenMissing);
    }
    var found := TokenIndex(db.tokens, token.value);
    if found.None? {
      return Fail(401, LinkInvalid);
    }
    var k := found.value;
    var row := db.tokens[k];
    if TokensUnique(db.tokens) {
      RemoveAtUnique(db.tokens, k);
    }
    if now > row.expiresAt {
      db.tokens := RemoveAt(db.tokens, k);
      return Fail(401, LinkExpired);
    }
    var user := FindUser(db.users, row.userId);
    if user.None? {
      db.tokens := RemoveAt(db.tokens, k);
      return Fail(404, UserNotFound);
    }
    db.tokens := RemoveAt(db.tokens, k);
    resp := Ok(200, Open(user.value, sign));
  }
}
