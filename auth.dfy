/** The gates of the Auth middleware file: protect, verifyToken, verifyRoles and verifyStatus
    verify a Bearer token with REFRESH_SECRET; tokenExpirationMiddleware only decodes the
    token and logs the user out once it has expired. */
module AuthMiddleware {
  import opened Common
  import opened Tables

  /** protect: every failure is 401 (no header or scheme, a token that does not verify, a
      token without an id, a user that no longer exists); success attaches exactly the user's
      id and role. */
  function Protect(header: Option<string>, verify: Verifier, users: map<Id, User>): (g: Gate<Principal>)
    ensures g.Halt? ==> g.status == 401
    ensures g.Next? <==> VerifiedId(header, verify, EnvRefreshSecret).Some? &&
                         VerifiedId(header, verify, EnvRefreshSecret).value in users
    ensures g.Next? ==>
              && Some(g.attached.id) == VerifiedId(header, verify, EnvRefreshSecret)
              && g.attached == Principal(g.attached.id, users[g.attached.id].role)
  {
    match VerifiedId(header, verify, EnvRefreshSecret)
    case None => Halt(401)
    case Some(id) => if id in users then Next(Principal(id, users[id].role)) else Halt(401)
  }

  /** verifyToken: no user lookup; attaches the token's id claim, which may be absent. */
  function VerifyToken(header: Option<string>, verify: Verifier): (g: Gate<Option<Id>>)
    ensures g.Halt? ==> g.status == 401
    ensures g.Next? <==> BearerToken(header).Some? && verify(EnvRefreshSecret, BearerToken(header).value).Verified?
    ensures g.Next? ==> g.attached == verify(EnvRefreshSecret, BearerToken(header).value).claims.id
  {
    match BearerToken(header)
    case None => Halt(401)
    case Some(token) =>
      match verify(EnvRefreshSecret, token)
      case Verified(claims) => Next(claims.id)
      case _ => Halt(401)
  }

  /** verifyRoles(allowedRoles): token failures are 401, a missing user 404, a role the
      argument does not include 403; success attaches the whole user. */
  function VerifyRoles(allowed: RoleArg, header: Option<string>, verify: Verifier, users: map<Id, User>): (g: Gate<User>)
    ensures g.Halt? ==> g.status in {401, 403, 404}
    ensures g == Halt(401) <==> VerifiedId(header, verify, EnvRefreshSecret).None?
    ensures g == Halt(404) <==> VerifiedId(header, verify, EnvRefreshSecret).Some? &&
                                VerifiedId(header, verify, EnvRefreshSecret).value !in users
    ensures g.Next? ==>
              var id := VerifiedId(header, verify, EnvRefreshSecret);
              id.Some? && id.value in users && g.attached == users[id.value] && Includes(allowed, g.attached.role)
    ensures g == Halt(403) ==>
              var id := VerifiedId(header, verify, EnvRefreshSecret).value;
              id in users && !Includes(allowed, users[id].role)
  {
    match VerifiedId(header, verify, EnvRefreshSecret)
    case None => Halt(401)
    case Some(id) =>
      if id !in users then Halt(404)
      else if !Includes(allowed, users[id].role) then Halt(403)
      else Next(users[id])
  }

  /** verifyRoles admits only requests that protect admits, and for the same user. */
  lemma VerifyRolesImpliesProtect(allowed: RoleArg, header: Option<string>, verify: Verifier, users: map<Id, User>)
    requires VerifyRoles(allowed, header, verify, users).Next?
    ensures Protect(header, verify, users) ==
              Next(Principal(VerifiedId(header, verify, EnvRefreshSecret).value,
                             VerifyRoles(allowed, header, verify, users).attached.role))
  {
  }

  /** The user record verifyStatus attaches: the `select` names `id` and `status`, so the
      record has no `userstatus` member. The value of `status` is not modelled; only the id. */
  datatype StatusSelection = StatusSelection(id: Id)

  /** verifyStatus. The lookup selects a `status` column where the status column is named
      `userstatus`: if the store has no such column the query is rejected (401 from the catch);
      otherwise the selected record has no `userstatus`, the comparison with 'UNVERIFIED' is
      false, and the request passes. */
  function VerifyStatus(header: Option<string>, verify: Verifier, users: map<Id, User>, statusColumnExists: bool)
    : (g: Gate<StatusSelection>)
    ensures g.Halt? ==> g.status in {401, 404}
    ensures g == Halt(404) <==> statusColumnExists && VerifiedId(header, verify, EnvRefreshSecret).Some? &&
                                VerifiedId(header, verify, EnvRefreshSecret).value !in users
    ensures g == Halt(401) <==> !statusColumnExists || VerifiedId(header, verify, EnvRefreshSecret).None?
    ensures g.Next? <==> statusColumnExists && VerifiedId(header, verify, EnvRefreshSecret).Some? &&
                         VerifiedId(header, verify, EnvRefreshSecret).value in users
    ensures g.Next? ==> Some(g.attached.id) == VerifiedId(header, verify, EnvRefreshSecret)
  {
    match VerifiedId(header, verify, EnvRefreshSecret)
    case None => Halt(401)
    case Some(id) =>
      if !statusColumnExists then Halt(401)
      else if id !in users then Halt(404)
      else Next(StatusSelection(id))
  }

  /** verifyStatus never answers 403: an UNVERIFIED user passes like any other. */
  lemma VerifyStatusNeverForbids(header: Option<string>, verify: Verifier, users: map<Id, User>, statusColumnExists: bool, id: Id)
    requires statusColumnExists && VerifiedId(header, verify, EnvRefreshSecret) == Some(id) && id in users
    requires users[id].userstatus == UNVERIFIED
    ensures VerifyStatus(header, verify, users, statusColumnExists) == Next(StatusSelection(id))
  {
  }

  // ---------------------------------------------------------------------------
  // tokenExpirationMiddleware
  // ---------------------------------------------------------------------------

  /** The decision of tokenExpirationMiddleware: refuse (401), log the named user out, or pass
      with the decoded claims. The token is only decoded, never verified. */
  datatype ExpiryStep = Refuse | Expire(id: Option<Id>) | Pass(claims: Claims)

  function ExpiryDecision(header: Option<string>, decode: Decoder, now: Time): (d: ExpiryStep)
    ensures d == Refuse <==>
              AccessTokenField(header).None? ||
              decode(AccessTokenField(header).value).None? ||
              !HasExp(decode(AccessTokenField(header).value).value)
    ensures !d.Refuse? ==>
              var c := decode(AccessTokenField(header).value).value;
              HasExp(c) && (d.Expire? <==> ExpiredAt(c.exp.value, now))
    ensures d.Expire? ==> d.id == decode(AccessTokenField(header).value).value.id
    ensures d.Pass? ==> d.claims == decode(AccessTokenField(header).value).value
  {
    match AccessTokenField(header)
    case None => Refuse
    case Some(token) =>
      match decode(token)
      case None => Refuse
      case Some(c) =>
        if !HasExp(c) then Refuse
        else if ExpiredAt(c.exp.value, now) then Expire(c.id)
        else Pass(c)
  }

  /** tokenExpirationMiddleware. On expiry the named user is logged out (isLoggedIn false,
      refreshToken null) and the answer is 401; a token without an id, or for a user that does
      not exist, makes the update throw (500). */
  method TokenExpiration(db: Db, header: Option<string>, decode: Decoder, now: Time) returns (g: Gate<Claims>)
    requires db.Valid()
    modifies db`users
    ensures db.Valid()
    ensures var d := ExpiryDecision(header, decode, now);
            && (d.Refuse? ==> g == Halt(401) && db.users == old(db.users))
            && (d.Pass? ==> g == Next(d.claims) && db.users == old(db.users))
            && (d.Expire? && d.id.Some? && d.id.value in old(db.users) ==>
                  g == Halt(401) && db.users == LogOut(old(db.users), d.id.value))
            && (d.Expire? && !(d.id.Some? && d.id.value in old(db.users)) ==>
                  g == Halt(500) && db.users == old(db.users))
  {
    match ExpiryDecision(header, decode, now)
    case Refuse =>
      g := Halt(401);
    case Pass(claims) =>
      g := Next(claims);
    case Expire(id) =>
      if id.Some? && id.value in db.users {
        db.users := LogOut(db.users, id.value);
        g := Halt(401);
      } else {
        g := Halt(500);
      }
  }

  /** A token passes the expiry middleware only while its expiry, in milliseconds, is not
      before the current time. */
  lemma ExpiryPassIsFresh(header: Option<string>, decode: Decoder, now: Time)
    requires ExpiryDecision(header, decode, now).Pass?
    ensures var c := ExpiryDecision(header, decode, now).claims;
            c.exp.Some? && c.exp.value != 0 && now <= c.exp.value * 1000
  {
  }
}
