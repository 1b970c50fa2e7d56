/** GET /api/auth/can-register: whether the registration form may be shown.
    The first account can always be created; afterwards only an admin may
    create accounts through the form. A failure while counting answers no on
    both counts. */
module CanRegister {

  import opened Common
  import opened Store

  datatype Answer = Answer(allowed: bool, firstSetup: bool)

  function CanRegister(users: seq<User>, auth: Option<AuthUser>, failed: bool): (r: Answer)
    ensures failed ==> r == Answer(false, false)
    ensures !failed ==> (r.firstSetup <==> users == [])
    ensures r.firstSetup ==> r.allowed
    ensures r.allowed && users != [] ==> auth.Some? && auth.value.role == Admin
    ensures !failed && auth.Some? && auth.value.role == Admin ==> r.allowed
  {
    if failed then Answer(false, false)
    else Answer(|users| == 0 || (auth.Some? && auth.value.role == Admin), |users| == 0)
  }
}
