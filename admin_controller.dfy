/** POST /createuser of the admin controller: validation, the role allow-list, the email
    uniqueness check, and the initial user record with its tokens. */
module AdminController {
  import opened Common
  import opened Tables

  /** The user fields the reply exposes (the `select` of the create call). */
  datatype UserView = UserView(id: Id, email: string, role: string, userstatus: UserStatus)

  datatype CreateUserReply =
    | MissingCredentials
    | InvalidRole
    | UserExists
    | Created(user: UserView, accessToken: string, refreshToken: string)
  {
    function Status(): nat {
      if Created? then 201 else 400
    }
  }

  /** The record createuser inserts: unverified, every profile column null, and the refresh
      token stored. The write sets neither the logged-in flag nor the batch; the model takes
      their defaults to be "not logged in" and "no batch". */
  function InitialUser(id: Id, email: string, hashedPassword: string, role: string, refreshToken: string): (u: User)
    ensures u.id == id && u.email == email && u.password == hashedPassword && u.role == role
    ensures u.userstatus == UNVERIFIED
    ensures forall f :: u.Field(f).None?
    ensures u.refreshToken == Some(refreshToken) && !u.isLoggedIn && u.batchId.None?
  {
    User(id, email, hashedPassword, role, UNVERIFIED, map[], None, false, Some(refreshToken))
  }

  /** Inserting a row whose email no stored row has keeps emails unique. */
  lemma InsertKeepsEmailsUnique(users: map<Id, User>, id: Id, u: User)
    requires EmailsUnique(users) && id !in users && !EmailTaken(users, u.email)
    ensures EmailsUnique(users[id := u])
  {
    assert forall k :: k in users ==> users[k].email != u.email;
  }

  /** Once a user is inserted, its email is taken. CreateUser answers UserExists exactly when
      the email is taken beforehand, so together with its contract this lemma says that a
      second createuser with the same email is refused. */
  lemma InsertTakesEmail(users: map<Id, User>, id: Id, u: User)
    ensures EmailTaken(users[id := u], u.email)
  {
    assert users[id := u][id].email == u.email;
  }

  /** POST /createuser. The guards run in order: the three required fields, the role
      allow-list, an existing email (each a 400 with the user table unchanged); then the
      password is hashed, two tokens are signed with SECRET over {email, role}, and the user is
      inserted. */
  method CreateUser(db: Db, email: Option<string>, password: Option<string>, role: Option<string>,
                    hash: string -> string, sign: Signer)
    returns (r: CreateUserReply)
    requires db.Valid()
    modifies db`users
    ensures db.Valid()
    ensures r == MissingCredentials <==> !Truthy(email) || !Truthy(password) || !Truthy(role)
    ensures r == InvalidRole <==>
              Truthy(email) && Truthy(password) && Truthy(role) && role.value !in UserRoles
    ensures r == UserExists <==>
              Truthy(email) && Truthy(password) && Truthy(role) && role.value in UserRoles &&
              EmailTaken(old(db.users), email.value)
    ensures !r.Created? ==> db.users == old(db.users)
    ensures r.Created? ==>
              && r.user.id !in old(db.users)
              && r.refreshToken == sign(EnvSecret, EmailRole(email.value, role.value), SevenDays)
              && r.accessToken == sign(EnvSecret, EmailRole(email.value, role.value), FifteenMinutes)
              && db.users == old(db.users)[r.user.id :=
                   InitialUser(r.user.id, email.value, hash(password.value), role.value, r.refreshToken)]
              && r.user == UserView(r.user.id, email.value, role.value, UNVERIFIED)
  {
    if !Truthy(email) || !Truthy(password) || !Truthy(role) {
      return MissingCredentials;
    }
    if role.value !in UserRoles {
      return InvalidRole;
    }
    if EmailTaken(db.users, email.value) {
      return UserExists;
    }
    var hashed := hash(password.value);
    var refreshToken := sign(EnvSecret, EmailRole(email.value, role.value), SevenDays);
    var accessToken := sign(EnvSecret, EmailRole(email.value, role.value), FifteenMinutes);
    var id := FreshId(db.users.Keys);
    var u := InitialUser(id, email.value, hashed, role.value, refreshToken);
    InsertKeepsEmailsUnique(db.users, id, u);
    db.users := db.users[id := u];
    r := Created(UserView(id, email.value, role.value, UNVERIFIED), accessToken, refreshToken);
  }
}
