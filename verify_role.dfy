/** The stand-alone verifyRoles middleware: the Auth file's chain (401, 404, 403, pass) with
    the token verified under SECRET. Routes pass it a single role name as a string, for which
    `includes` is a substring test. */
module VerifyRoleMiddleware {
  import opened Common
  import opened Tables

  function VerifyRoles(allowed: RoleArg, header: Option<string>, verify: Verifier, users: map<Id, User>): (g: Gate<User>)
    ensures g.Halt? ==> g.status in {401, 403, 404}
    ensures g == Halt(401) <==> VerifiedId(header, verify, EnvSecret).None?
    ensures g == Halt(404) <==> VerifiedId(header, verify, EnvSecret).Some? && VerifiedId(header, verify, EnvSecret).value !in users
    ensures g.Next? ==>
              var id := VerifiedId(header, verify, EnvSecret);
              id.Some? && id.value in users && g.attached == users[id.value] && Includes(allowed, g.attached.role)
    ensures g == Halt(403) ==>
              var id := VerifiedId(header, verify, EnvSecret).value;
              id in users && !Includes(allowed, users[id].role)
  {
    match VerifiedId(header, verify, EnvSecret)
    case None => Halt(401)
    case Some(id) =>
      if id !in users then Halt(404)
      else if !Includes(allowed, users[id].role) then Halt(403)
      else Next(users[id])
  }

  /** With a single role name as the argument, the substring test admits exactly the users
      whose role is that name, because no role name occurs inside another. */
  lemma SingleRoleIsExactMatch(role: string, header: Option<string>, verify: Verifier, users: map<Id, User>)
    requires role in UserRoles && RolesValid(users)
    requires VerifiedId(header, verify, EnvSecret).Some? && VerifiedId(header, verify, EnvSecret).value in users
    ensures var u := users[VerifiedId(header, verify, EnvSecret).value];
            VerifyRoles(RoleText(role), header, verify, users) == (if u.role == role then Next(u) else Halt(403))
  {
    var u := users[VerifiedId(header, verify, EnvSecret).value];
    RoleTextIsEquality(role, u.role);
  }

  /** The admin test route, `verifyRole('ADMIN')`: a TRAINEE is refused with 403. */
  lemma TraineeRefusedOnAdminRoute(header: Option<string>, verify: Verifier, users: map<Id, User>)
    requires VerifiedId(header, verify, EnvSecret).Some? && VerifiedId(header, verify, EnvSecret).value in users
    requires users[VerifiedId(header, verify, EnvSecret).value].role == TRAINEE
    ensures VerifyRoles(RoleText(ADMIN), header, verify, users) == Halt(403)
  {
    RoleTextIsEquality(ADMIN, TRAINEE);
  }
}
