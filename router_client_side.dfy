/** POST /check-token, the client-side session check: the token is decoded (not verified);
    an expired token logs the user out by clearing only the logged-in flag. */
module ClientTokenRoute {
  import opened Common
  import opened Tables

  /** The decision of the route: refuse (401), expire the named user, or accept. */
  datatype CheckStep = Refuse | ExpireUser(id: Id) | Accept(claims: Claims)

  function CheckDecision(header: Option<string>, decode: Decoder, now: Time): (d: CheckStep)
    ensures d == Refuse <==>
              || AccessTokenField(header).None?
              || decode(AccessTokenField(header).value).None?
              || !HasExp(decode(AccessTokenField(header).value).value)
              || !Truthy(decode(AccessTokenField(header).value).value.id)
    ensures !d.Refuse? ==>
              var c := decode(AccessTokenField(header).value).value;
              && HasExp(c) && Truthy(c.id)
              && (d.ExpireUser? <==> ExpiredAt(c.exp.value, now))
              && (d.ExpireUser? ==> d.id == c.id.value)
              && (d.Accept? ==> d.claims == c)
  {
    match AccessTokenField(header)
    case None => Refuse
    case Some(token) =>
      match decode(token)
      case None => Refuse
      case Some(c) =>
        if !HasExp(c) || !Truthy(c.id) then Refuse
        else if ExpiredAt(c.exp.value, now) then ExpireUser(c.id.value)
        else Accept(c)
  }

  /** POST /check-token. Only the expired branch writes, and only isLoggedIn: the stored
      refresh token survives. An expired token for a user that does not exist makes the update
      throw (500). */
  method CheckToken(db: Db, header: Option<string>, decode: Decoder, now: Time)
    returns (status: nat, payload: Option<Claims>)
    requires db.Valid()
    modifies db`users
    ensures db.Valid()
    ensures var d := CheckDecision(header, decode, now);
            && (d.Refuse? ==> status == 401 && payload.None? && db.users == old(db.users))
            && (d.Accept? ==> status == 200 && payload == Some(d.claims) && db.users == old(db.users))
            && (d.ExpireUser? && d.id in old(db.users) ==>
                  status == 401 && payload.None? && db.users == MarkLoggedOut(old(db.users), d.id))
            && (d.ExpireUser? && d.id !in old(db.users) ==>
                  status == 500 && payload.None? && db.users == old(db.users))
  {
    match CheckDecision(header, decode, now)
    case Refuse =>
      return 401, None;
    case Accept(claims) =>
      return 200, Some(claims);
    case ExpireUser(id) =>
      if id !in db.users {
        return 500, None;
      }
      db.users := MarkLoggedOut(db.users, id);
      return 401, None;
  }

  /** The route and the expiry middleware disagree on the write: the route keeps the refresh
      token that the middleware clears. */
  lemma RouteKeepsRefreshToken(users: map<Id, User>, id: Id)
    requires id in users && users[id].refreshToken.Some?
    ensures MarkLoggedOut(users, id)[id].refreshToken.Some?
    ensures LogOut(users, id)[id].refreshToken.None?
  {
  }
}
