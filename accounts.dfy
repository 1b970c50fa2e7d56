/** What the authentication routes share: the session they open, and the
    lookups and deletions on the user and login-token collections. The JWT
    signature is a function passed in; its cryptography is not modelled. */
module Accounts {

  import opened Common
  import opened Store

  /** The claims a session token carries. */
  datatype Claims = Claims(userId: Id, email: string, role: Role)

  /** Lifetime of the `token` cookie, in seconds (seven days). */
  const SessionMaxAge: nat := 60 * 60 * 24 * 7

  /** A successful login: the signed token, the cookie lifetime, and the user
      whose public fields the reply echoes. */
  datatype Session = Session(jwt: string, cookieMaxAge: nat, user: User)

  function Open(user: User, sign: Claims -> string): Session
  {
    Session(sign(Claims(user.id, user.email, user.role)), SessionMaxAge, user)
  }

  /** `User.findById`: the position of the user with that identifier, the
      one `Store.FindUser` finds. */
  function UserIndex(users: seq<User>, id: Id): (r: Option<nat>)
    ensures r.Some? ==> r.value < |users| && users[r.value].id == id
    ensures r.Some? ==> forall i :: 0 <= i < r.value ==> users[i].id != id
    ensures r.None? <==> forall u :: u in users ==> u.id != id
    ensures r.None? ==> FindUser(users, id).None?
    ensures r.Some? ==> FindUser(users, id) == Some(users[r.value])
  {
    if users == [] then None
    else if users[0].id == id then Some(0)
    else match UserIndex(users[1..], id)
      case None => None
      case Some(k) => Some(k + 1)
  }

  /** `LoginToken.findOne({ token })`: the position of the row with that code. */
  function TokenIndex(tokens: seq<LoginToken>, code: string): (r: Option<nat>)
    ensures r.Some? ==> r.value < |tokens| && tokens[r.value].token == code
    ensures r.None? <==> forall t :: t in tokens ==> t.token != code
  {
    if tokens == [] then None
    else if tokens[0].token == code then Some(0)
    else match TokenIndex(tokens[1..], code)
      case None => None
      case Some(k) => Some(k + 1)
  }

  /** `LoginToken.findOne({ userId, token })`. */
  function TokenIndexFor(tokens: seq<LoginToken>, userId: Id, code: string): (r: Option<nat>)
    ensures r.Some? ==> r.value < |tokens| && tokens[r.value].token == code && tokens[r.value].userId == userId
    ensures r.None? <==> forall t :: t in tokens ==> !(t.token == code && t.userId == userId)
  {
    if tokens == [] then None
    else if tokens[0].token == code && tokens[0].userId == userId then Some(0)
    else match TokenIndexFor(tokens[1..], userId, code)
      case None => None
      case Some(k) => Some(k + 1)
  }

  /** `deleteOne({ _id })` of a row that was just found. */
  function RemoveAt(tokens: seq<LoginToken>, k: nat): (r: seq<LoginToken>)
    requires k < |tokens|
    ensures |r| == |tokens| - 1
    ensures forall i :: 0 <= i < k ==> r[i] == tokens[i]
    ensures forall i :: k <= i < |r| ==> r[i] == tokens[i + 1]
  {
    tokens[..k] + tokens[k + 1..]
  }

  /** Deleting a row keeps the codes unique, and, because the codes are
      unique, no row with the deleted code is left. */
  lemma RemoveAtUnique(tokens: seq<LoginToken>, k: nat)
    requires k < |tokens| && TokensUnique(tokens)
    ensures TokensUnique(RemoveAt(tokens, k))
    ensures forall t :: t in RemoveAt(tokens, k) ==> t.token != tokens[k].token
  {
    var r := RemoveAt(tokens, k);
    forall i, j | 0 <= i < j < |r| ensures r[i].token != r[j].token {
      var i' := if i < k then i else i + 1;
      var j' := if j < k then j else j + 1;
      assert r[i] == tokens[i'] && r[j] == tokens[j'];
    }
    forall t | t in r ensures t.token != tokens[k].token {
      var i :| 0 <= i < |r| && r[i] == t;
      if i < k {
        assert r[i] == tokens[i];
      } else {
        assert r[i] == tokens[i + 1];
      }
    }
  }
}
