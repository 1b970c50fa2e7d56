/** PUT /api/user/notification-settings: the caller replaces both
    notification flags at once; a flag left out of the body becomes true. */
module NotificationSettings {

  import opened Common
  import opened Store
  import opened Accounts

  const UserNotFound: string := "Utilisateur non trouvé"

  /** The user as returned, without the password. */
  datatype Profile = Profile(id: Id, email: string, name: string, role: Role, settings: Settings)

  /** A flag the body leaves out is stored as true. */
  function FlagOrTrue(flag: Option<bool>): (b: bool)
    ensures b <==> flag != Some(false)
  {
    if flag.Some? then flag.value else true
  }

  method PutSettings(db: Db, auth: Option<AuthUser>, enabled: Option<bool>, reminderEnabled: Option<bool>)
    returns (resp: Response<Profile>)
    modifies db`users
    ensures auth.None? ==> resp == Fail(401, NotAuthenticated)
    ensures auth.Some? && UserIndex(old(db.users), auth.value.userId).None? ==> resp == Fail(404, UserNotFound)
    ensures resp.Fail? ==> db.users == old(db.users)
    ensures resp.Ok? ==>
      auth.Some? && resp.status == 200 &&
      var k := UserIndex(old(db.users), auth.value.userId).value;
      var u := old(db.users)[k];
      (resp.body.settings.enabled <==> enabled != Some(false)) &&
      (resp.body.settings.reminderEnabled <==> reminderEnabled != Some(false)) &&
      resp.body == Profile(u.id, u.email, u.name, u.role, resp.body.settings) &&
      db.users == old(db.users)[k := u.(settings := resp.body.settings)]
    ensures auth.Some? && UserIndex(old(db.users), auth.value.userId).Some? ==> resp.Ok?
    ensures EmailsUnique(old(db.users)) ==> EmailsUnique(db.users)
  {
    if auth.None? {
      return Fail(401, NotAuthenticated);
    }
    var settings := Settings(FlagOrTrue(enabled), FlagOrTrue(reminderEnabled));
    var found := UserIndex(db.users, auth.value.userId);
    if found.None? {
      return Fail(404, UserNotFound);
    }
    var k := found.value;
    var u := db.users[k].(settings := settings);
    db.users := db.users[k := u];
    resp := Ok(200, Profile(u.id, u.email, u.name, u.role, u.settings));
  }
}
