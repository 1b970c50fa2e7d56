/** POST /api/auth/change-password. The current password is checked only
    when it is supplied, so a parent who logged in with a code can set a
    password without knowing one. */
module ChangePassword {

  import opened Common
  import opened Store
  import opened Accounts

  const MinLength: nat := 6
  const TooShort: string := "Le nouveau mot de passe doit contenir au moins 6 caractères"
  const UserNotFound: string := "Utilisateur introuvable"
  const WrongCurrent: string := "Mot de passe actuel incorrect"
  const Changed: string := "Mot de passe modifié avec succès"

  method PostChangePassword(db: Db, auth: Option<AuthUser>, currentPassword: Option<string>,
                            newPassword: Option<string>, matches: (string, string) -> bool,
                            hash: string -> string) returns (resp: Response<string>)
    modifies db`users
    ensures auth.None? ==> resp == Fail(401, NotAuthenticated)
    ensures auth.Some? && (!Truthy(newPassword) || JsLength(newPassword.value) < MinLength) ==> resp == Fail(400, TooShort)
    ensures auth.Some? && Truthy(newPassword) && JsLength(newPassword.value) >= MinLength ==>
      (UserIndex(old(db.users), auth.value.userId).None? ==> resp == Fail(404, UserNotFound)) &&
      (UserIndex(old(db.users), auth.value.userId).Some? ==>
        var k := UserIndex(old(db.users), auth.value.userId).value;
        var stored := old(db.users)[k].password;
        (Truthy(currentPassword) && !matches(currentPassword.value, stored) ==> resp == Fail(400, WrongCurrent)) &&
        (!Truthy(currentPassword) || matches(currentPassword.value, stored) ==>
          resp == Ok(200, Changed) &&
          db.users == old(db.users)[k := old(db.users)[k].(password := hash(newPassword.value))]))
    ensures resp.Fail? ==> db.users == old(db.users)
    // only a password changes: identifiers, e-mails, roles and settings stay
    ensures |db.users| == |old(db.users)| &&
      forall i :: 0 <= i < |db.users| ==> db.users[i] == old(db.users)[i].(password := db.users[i].password)
    ensures EmailsUnique(old(db.users)) ==> EmailsUnique(db.users)
  {
    if auth.None? {
      return Fail(401, NotAuthenticated);
    }
    if !Truthy(newPassword) || JsLength(newPassword.value) < MinLength {
      return Fail(400, TooShort);
    }
    var found := UserIndex(db.users, auth.value.userId);
    if found.None? {
      return Fail(404, UserNotFound);
    }
    var k := found.value;
    if Truthy(currentPassword) && !matches(currentPassword.value, db.users[k].password) {
      return Fail(400, WrongCurrent);
    }
    db.users := db.users[k := db.users[k].(password := hash(newPassword.value))];
    resp := Ok(200, Changed);
  }
}
