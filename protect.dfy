/** The stand-alone protect middleware: the same decision chain as the Auth file's protect,
    with the token verified under SECRET instead of REFRESH_SECRET. */
module ProtectMiddleware {
  import opened Common
  import opened Tables
  import AuthMiddleware

  /** protect: every failure is 401, including a user that no longer exists (never 404);
      success attaches exactly the user's id and role. */
  function Protect(header: Option<string>, verify: Verifier, users: map<Id, User>): (g: Gate<Principal>)
    ensures g.Halt? ==> g.status == 401
    ensures g.Next? <==> VerifiedId(header, verify, EnvSecret).Some? && VerifiedId(header, verify, EnvSecret).value in users
    ensures g.Next? ==>
              && Some(g.attached.id) == VerifiedId(header, verify, EnvSecret)
              && g.attached == Principal(g.attached.id, users[g.attached.id].role)
  {
    match VerifiedId(header, verify, EnvSecret)
    case None => Halt(401)
    case Some(id) => if id in users then Next(Principal(id, users[id].role)) else Halt(401)
  }

  /** The two protect gates differ only in the secret: wherever the verifier gives the token
      the same verdict under both secrets, they decide the same. */
  lemma AgreesWithAuthProtect(header: Option<string>, verify: Verifier, users: map<Id, User>)
    requires BearerToken(header).Some? ==>
               verify(EnvSecret, BearerToken(header).value) == verify(EnvRefreshSecret, BearerToken(header).value)
    ensures Protect(header, verify, users) == AuthMiddleware.Protect(header, verify, users)
  {
    assert VerifiedId(header, verify, EnvSecret) == VerifiedId(header, verify, EnvRefreshSecret);
  }
}
