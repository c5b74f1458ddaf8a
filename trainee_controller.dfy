/** The trainee controller's account routes: login, refresh-token, the verification form,
    the profile edit, logout, and the getters that turn a stored file path into a public URL. */
module TraineeController {
  import opened Common
  import opened Tables

  // ---------------------------------------------------------------------------
  // POST /login
  // ---------------------------------------------------------------------------

  datatype LoginReply =
    | LoginMissingFields
    | LoginFailed
    | RoleMismatch
    | WrongPassword
    | LoggedIn(accessToken: string, refreshToken: string)
  {
    /** There is no 404: the "User not found" branch sits after `user.id` has been read. */
    function Status(): nat {
      match this
      case LoginMissingFields => 400
      case LoginFailed => 500
      case RoleMismatch => 403
      case WrongPassword => 401
      case LoggedIn(_, _) => 200
    }
  }

  /** POST /login. The tokens are signed from `user.id` before the null check, so an unknown
      email ends in the catch (500) and the 404 branch is never reached. The stored role must be
      the requested one (403) and the password must check (401); then the user is marked logged
      in and the refresh token is stored. */
  method Login(db: Db, email: Option<string>, password: Option<string>, role: Option<string>,
               passwordOk: (string, string) -> bool, sign: Signer)
    returns (r: LoginReply)
    requires db.Valid()
    modifies db`users
    ensures db.Valid()
    ensures r == LoginMissingFields <==> !Truthy(email) || !Truthy(password) || !Truthy(role)
    ensures r == LoginFailed <==>
              Truthy(email) && Truthy(password) && Truthy(role) && !EmailTaken(old(db.users), email.value)
    ensures !r.LoggedIn? ==> db.users == old(db.users)
    ensures Truthy(email) && Truthy(password) && Truthy(role) && EmailTaken(old(db.users), email.value) ==>
              var id := IdOfEmail(old(db.users), email.value);
              var u := old(db.users)[id];
              && (u.role != role.value ==> r == RoleMismatch)
              && (u.role == role.value && !passwordOk(password.value, u.password) ==> r == WrongPassword)
              && (u.role == role.value && passwordOk(password.value, u.password) ==>
                    && r == LoggedIn(sign(EnvSecret, IdRole(id, u.role), ThirtyMinutes),
                                     sign(EnvRefreshSecret, IdRole(id, u.role), OneYear))
                    && db.users == old(db.users)[id := u.(isLoggedIn := true, refreshToken := Some(r.refreshToken))])
  {
    if !Truthy(email) || !Truthy(password) || !Truthy(role) {
      return LoginMissingFields;
    }
    var found := LookupByEmail(db.users, email.value);
    if found.None? {
      // `user.id` of null throws before the 404 check.
      return LoginFailed;
    }
    var id := found.value;
    var u := db.users[id];
    var accessToken := sign(EnvSecret, IdRole(u.id, u.role), ThirtyMinutes);
    var refreshToken := sign(EnvRefreshSecret, IdRole(u.id, u.role), OneYear);
    if u.role != role.value {
      return RoleMismatch;
    }
    if !passwordOk(password.value, u.password) {
      return WrongPassword;
    }
    db.users := db.users[id := u.(isLoggedIn := true, refreshToken := Some(refreshToken))];
    r := LoggedIn(accessToken, refreshToken);
  }

  // ---------------------------------------------------------------------------
  // POST /refresh-token
  // ---------------------------------------------------------------------------

  datatype RefreshReply = RefreshMissing | RefreshRejected | RefreshExpired | RefreshFailed | Refreshed(accessToken: string)
  {
    function Status(): nat {
      match this
      case RefreshMissing => 400
      case RefreshRejected => 401
      case RefreshExpired => 401
      case RefreshFailed => 500
      case Refreshed(_) => 200
    }
  }

  /** POST /refresh-token: the token must verify with REFRESH_SECRET and be the one stored
      for the user it names. A token without an id makes the lookup itself fail (500). */
  function RefreshAccess(token: Option<string>, verify: Verifier, users: map<Id, User>, sign: Signer): (r: RefreshReply)
    ensures r == RefreshMissing <==> !Truthy(token)
    ensures r.Refreshed? <==>
              && Truthy(token)
              && verify(EnvRefreshSecret, token.value).Verified?
              && var id := verify(EnvRefreshSecret, token.value).claims.id;
                 id.Some? && id.value in users && users[id.value].refreshToken == token
    ensures r.Refreshed? ==>
              r.accessToken == sign(EnvSecret, IdOnly(verify(EnvRefreshSecret, token.value).claims.id.value), FiveMinutes)
    ensures r == RefreshExpired <==> Truthy(token) && verify(EnvRefreshSecret, token.value).TokenExpired?
    ensures r == RefreshRejected <==>
              && Truthy(token)
              && verify(EnvRefreshSecret, token.value).Verified?
              && var id := verify(EnvRefreshSecret, token.value).claims.id;
                 id.Some? && !(id.value in users && users[id.value].refreshToken == token)
    ensures r == RefreshFailed <==>
              && Truthy(token)
              && (|| verify(EnvRefreshSecret, token.value).TokenInvalid?
                  || (verify(EnvRefreshSecret, token.value).Verified? &&
                      verify(EnvRefreshSecret, token.value).claims.id.None?))
  {
    if !Truthy(token) then RefreshMissing
    else match verify(EnvRefreshSecret, token.value)
      case TokenExpired => RefreshExpired
      case TokenInvalid => RefreshFailed
      case Verified(claims) =>
        if claims.id.None? then RefreshFailed
        else if claims.id.value in users && users[claims.id.value].refreshToken == token then
          Refreshed(sign(EnvSecret, IdOnly(claims.id.value), FiveMinutes))
        else RefreshRejected
  }

  /** After a logout clears the stored refresh token, no refresh token is accepted for that
      user any more. */
  lemma LogoutRevokesRefresh(token: string, verify: Verifier, users: map<Id, User>, id: Id, sign: Signer)
    requires id in users
    requires verify(EnvRefreshSecret, token).Verified? && verify(EnvRefreshSecret, token).claims.id == Some(id)
    ensures !RefreshAccess(Some(token), verify, LogOut(users, id), sign).Refreshed?
  {
  }

  // ---------------------------------------------------------------------------
  // PUT /verify
  // ---------------------------------------------------------------------------

  /** The set of profile column names. */
  function ProfileFields(): set<string> {
    set f | f in ProfileFieldNames
  }

  /** The update data of the verification form: each profile column present in the form
      takes its value, every other column keeps its stored value (an absent key is
      `undefined`, which the ORM leaves unchanged). */
  function ApplyForm(profile: map<string, string>, form: map<string, string>): (r: map<string, string>)
    ensures forall f :: f in form && f in ProfileFields() ==> f in r && r[f] == form[f]
    ensures forall f :: !(f in form && f in ProfileFields()) ==> (f in r <==> f in profile) && (f in r ==> r[f] == profile[f])
  {
    map f | f in profile.Keys + (form.Keys * ProfileFields()) ::
      if f in form && f in ProfileFields() then form[f] else profile[f]
  }

  /** Submitting the same form twice stores the same values as submitting it once. */
  lemma ApplyFormIdempotent(profile: map<string, string>, form: map<string, string>)
    ensures ApplyForm(ApplyForm(profile, form), form) == ApplyForm(profile, form)
  {
    var once := ApplyForm(profile, form);
    var twice := ApplyForm(once, form);
    assert twice.Keys == once.Keys;
  }

  /** PUT /verify behind `protect`: writes the submitted profile columns and sets the status
      to VERIFIED. `new Date(dob)` of an absent or unparsable dob is an invalid date that the
      update rejects (500), as is an id whose user has gone. */
  method SubmitVerification(db: Db, id: Id, form: map<string, string>, validDate: string -> bool)
    returns (status: nat)
    requires db.Valid()
    modifies db`users
    ensures db.Valid()
    ensures status == 200 <==> id in old(db.users) && "dob" in form && validDate(form["dob"])
    ensures status != 200 ==> status == 500 && db.users == old(db.users)
    ensures status == 200 ==>
              db.users == old(db.users)[id := old(db.users)[id].(
                profile := ApplyForm(old(db.users)[id].profile, form), userstatus := VERIFIED)]
  {
    if id !in db.users || "dob" !in form || !validDate(form["dob"]) {
      return 500;
    }
    var u := db.users[id];
    db.users := db.users[id := u.(profile := ApplyForm(u.profile, form), userstatus := VERIFIED)];
    return 200;
  }

  // ---------------------------------------------------------------------------
  // PUT /edit/:id
  // ---------------------------------------------------------------------------

  /** The user update of the edit route, `...(value && { name: value })` for each column:
      a column is written only for a truthy value; every other column keeps its value. */
  function EditProfile(profile: map<string, string>, edits: map<string, Option<string>>): (r: map<string, string>)
    ensures forall f :: f in edits && Truthy(edits[f]) ==> f in r && r[f] == edits[f].value
    ensures forall f :: !(f in edits && Truthy(edits[f])) ==> (f in r <==> f in profile) && (f in r ==> r[f] == profile[f])
  {
    map f | f in profile.Keys + (set g | g in edits && Truthy(edits[g])) ::
      if f in edits && Truthy(edits[f]) then edits[f].value else profile[f]
  }

  /** The five columns the edit route may change, with the submitted values. */
  function EditableFields(fullName: Option<string>, nickname: Option<string>, address: Option<string>,
                          mobile: Option<string>, github: Option<string>): map<string, Option<string>> {
    map["fullName" := fullName, "nickname" := nickname, "address" := address, "mobile" := mobile, "github" := github]
  }

  /** An edit with no truthy value changes nothing. */
  lemma EmptyEditChangesNothing(profile: map<string, string>)
    ensures EditProfile(profile, EditableFields(None, None, None, None, None)) == profile
  {
    var r := EditProfile(profile, EditableFields(None, None, None, None, None));
    assert r.Keys == profile.Keys;
  }

  /** JavaScript truthiness of the numeric `profileSize`: present and non-zero. */
  predicate SizeTruthy(size: Option<int>) {
    size.Some? && size.value != 0
  }

  /** The `profile.updateMany` of the edit route: the user's PROFESSIONAL profiles take each
      truthy value; every other profile row is untouched. */
  function EditProfessionalProfiles(profiles: seq<Profile>, userId: Id, filepath: Option<string>,
                                    mimetype: Option<string>, size: Option<int>): (r: seq<Profile>)
    ensures |r| == |profiles|
    ensures forall i :: 0 <= i < |profiles| && !(profiles[i].userId == userId && profiles[i].kind == PROFESSIONAL) ==>
              r[i] == profiles[i]
    ensures forall i :: 0 <= i < |profiles| && profiles[i].userId == userId && profiles[i].kind == PROFESSIONAL ==>
              && r[i].id == profiles[i].id && r[i].userId == userId && r[i].kind == PROFESSIONAL
              && r[i].filepath == (if Truthy(filepath) then filepath.value else profiles[i].filepath)
              && r[i].mimetype == (if Truthy(mimetype) then mimetype.value else profiles[i].mimetype)
              && r[i].size == (if SizeTruthy(size) then size.value else profiles[i].size)
  {
    seq(|profiles|, i requires 0 <= i < |profiles| =>
      var p := profiles[i];
      if p.userId == userId && p.kind == PROFESSIONAL then
        p.(filepath := OrElse(filepath, p.filepath), mimetype := OrElse(mimetype, p.mimetype),
           size := if SizeTruthy(size) then size.value else p.size)
      else p)
  }

  /** The user block of the edit reply (the four columns it echoes after the update). */
  datatype EditedUser = EditedUser(fullName: Option<string>, nickname: Option<string>, address: Option<string>, mobile: Option<string>)

  /** The profile block of the edit reply: the three submitted values. */
  datatype EditedProfile = EditedProfile(filepath: Option<string>, mimetype: Option<string>, size: Option<int>)

  datatype EditReply = EditFailed | Edited(user: EditedUser, profile: Option<EditedProfile>)
  {
    function Status(): nat {
      if Edited? then 200 else 500
    }
  }

  /** The notification row the edit route stores for the edited user. */
  function ProfileNotification(notificationId: Id, userId: Id): (n: Notification)
    ensures n.id == notificationId && n.userId == userId && n.kind == "Profile"
    ensures n.title == "Profile Updated!"
    ensures n.description == "Your profile information has been successfully updated."
  {
    Notification(notificationId, userId, "Profile Updated!",
                 "Your profile information has been successfully updated.", "Profile")
  }

  /** `notification.create` of the edit route: one "Profile Updated!" row with a fresh id. */
  method NotifyProfileUpdated(db: Db, userId: Id)
    requires db.Valid()
    modifies db`notifications
    ensures db.Valid()
    ensures |db.notifications| == |old(db.notifications)| + 1
    ensures db.notifications == old(db.notifications) + [ProfileNotification(db.notifications[|old(db.notifications)|].id, userId)]
    ensures db.notifications[|old(db.notifications)|].id !in NotificationIds(old(db.notifications))
  {
    var nid := FreshId(NotificationIds(db.notifications));
    forall i | 0 <= i < |db.notifications| ensures db.notifications[i].id != nid {
      assert db.notifications[i].id in NotificationIds(db.notifications);
    }
    db.notifications := db.notifications + [ProfileNotification(nid, userId)];
  }

  /** PUT /edit/:id, given whether the Socket.IO server has been initialised. An unknown id is
      500 with no write. Otherwise only the truthy values among the five columns change, the
      PROFESSIONAL profile is updated only when some profile value is truthy, and one
      "Profile Updated!" notification with a fresh id is stored. Only then is the Socket.IO
      server asked for: without it the route answers 500 after all three writes; with it the
      route answers 200 and echoes the four columns and, when it was updated, the profile. */
  method EditUserWith(db: Db, id: Id, fullName: Option<string>, nickname: Option<string>, address: Option<string>,
                      mobile: Option<string>, github: Option<string>,
                      profileFilePath: Option<string>, profileMimeType: Option<string>, profileSize: Option<int>,
                      socketReady: bool)
    returns (r: EditReply)
    requires db.Valid()
    modifies db`users, db`profiles, db`notifications
    ensures db.Valid()
    ensures id !in old(db.users) ==>
              r == EditFailed && db.users == old(db.users) && db.profiles == old(db.profiles) &&
              db.notifications == old(db.notifications)
    ensures id in old(db.users) ==>
              var u := old(db.users)[id];
              var p := EditProfile(u.profile, EditableFields(fullName, nickname, address, mobile, github));
              && db.users == old(db.users)[id := u.(profile := p)]
              && |db.notifications| == |old(db.notifications)| + 1
              && db.notifications == old(db.notifications) + [ProfileNotification(db.notifications[|old(db.notifications)|].id, id)]
              && db.notifications[|old(db.notifications)|].id !in NotificationIds(old(db.notifications))
              && (r.Edited? <==> socketReady)
    ensures id in old(db.users) && (Truthy(profileFilePath) || Truthy(profileMimeType) || SizeTruthy(profileSize)) ==>
              db.profiles == EditProfessionalProfiles(old(db.profiles), id, profileFilePath, profileMimeType, profileSize)
    ensures !(Truthy(profileFilePath) || Truthy(profileMimeType) || SizeTruthy(profileSize)) ==>
              db.profiles == old(db.profiles)
    ensures r.Edited? ==>
              && r.user == EditedUser(db.users[id].Field("fullName"), db.users[id].Field("nickname"),
                                      db.users[id].Field("address"), db.users[id].Field("mobile"))
              && (r.profile.Some? <==> Truthy(profileFilePath) || Truthy(profileMimeType) || SizeTruthy(profileSize))
              && (r.profile.Some? ==> r.profile.value == EditedProfile(profileFilePath, profileMimeType, profileSize))
  {
    if id !in db.users {
      // `user.update` of a missing record throws.
      return EditFailed;
    }
    var u := db.users[id];
    db.users := db.users[id := u.(profile := EditProfile(u.profile, EditableFields(fullName, nickname, address, mobile, github)))];
    var profile: Option<EditedProfile> := None;
    if Truthy(profileFilePath) || Truthy(profileMimeType) || SizeTruthy(profileSize) {
      db.profiles := EditProfessionalProfiles(db.profiles, id, profileFilePath, profileMimeType, profileSize);
      profile := Some(EditedProfile(profileFilePath, profileMimeType, profileSize));
    }
    NotifyProfileUpdated(db, id);
    if !socketReady {
      // `socket.getIO()` throws when `init` was never called.
      return EditFailed;
    }
    var v := db.users[id];
    r := Edited(EditedUser(v.Field("fullName"), v.Field("nickname"), v.Field("address"), v.Field("mobile")), profile);
  }

  /** PUT /edit/:id as the program runs it: the server entry point never initialises Socket.IO,
      so every request is answered 500, yet for a known id the user, profile and notification
      writes have already been made. */
  method EditUserAsWritten(db: Db, id: Id, fullName: Option<string>, nickname: Option<string>, address: Option<string>,
                           mobile: Option<string>, github: Option<string>,
                           profileFilePath: Option<string>, profileMimeType: Option<string>, profileSize: Option<int>)
    returns (r: EditReply)
    requires db.Valid()
    modifies db`users, db`profiles, db`notifications
    ensures db.Valid()
    ensures r == EditFailed && r.Status() == 500
    ensures id in old(db.users) ==>
              var u := old(db.users)[id];
              db.users == old(db.users)[id := u.(profile := EditProfile(u.profile, EditableFields(fullName, nickname, address, mobile, github)))]
    ensures id in old(db.users) <==> |db.notifications| == |old(db.notifications)| + 1
    ensures id in old(db.users) ==>
              db.notifications == old(db.notifications) + [ProfileNotification(db.notifications[|old(db.notifications)|].id, id)]
    ensures id !in old(db.users) ==>
              db.users == old(db.users) && db.profiles == old(db.profiles) && db.notifications == old(db.notifications)
    ensures id in old(db.users) && (Truthy(profileFilePath) || Truthy(profileMimeType) || SizeTruthy(profileSize)) ==>
              db.profiles == EditProfessionalProfiles(old(db.profiles), id, profileFilePath, profileMimeType, profileSize)
    ensures !(Truthy(profileFilePath) || Truthy(profileMimeType) || SizeTruthy(profileSize)) ==>
              db.profiles == old(db.profiles)
  {
    r := EditUserWith(db, id, fullName, nickname, address, mobile, github, profileFilePath, profileMimeType, profileSize, false);
  }

  /** PUT /edit/:id as intended, with Socket.IO initialised: an unknown id is 500 with no write;
      a known id gets the three writes and a 200 reply echoing the edited columns and, when
      some profile value is truthy, the submitted profile. */
  method EditUser(db: Db, id: Id, fullName: Option<string>, nickname: Option<string>, address: Option<string>,
                  mobile: Option<string>, github: Option<string>,
                  profileFilePath: Option<string>, profileMimeType: Option<string>, profileSize: Option<int>)
    returns (r: EditReply)
    requires db.Valid()
    modifies db`users, db`profiles, db`notifications
    ensures db.Valid()
    ensures r == EditFailed <==> id !in old(db.users)
    ensures r == EditFailed ==>
              db.users == old(db.users) && db.profiles == old(db.profiles) && db.notifications == old(db.notifications)
    ensures r.Edited? ==>
              var u := old(db.users)[id];
              var p := EditProfile(u.profile, EditableFields(fullName, nickname, address, mobile, github));
              && db.users == old(db.users)[id := u.(profile := p)]
              && r.user == EditedUser(db.users[id].Field("fullName"), db.users[id].Field("nickname"),
                                      db.users[id].Field("address"), db.users[id].Field("mobile"))
              && |db.notifications| == |old(db.notifications)| + 1
              && db.notifications == old(db.notifications) + [ProfileNotification(db.notifications[|old(db.notifications)|].id, id)]
              && db.notifications[|old(db.notifications)|].id !in NotificationIds(old(db.notifications))
    ensures r.Edited? ==>
              (r.profile.Some? <==> Truthy(profileFilePath) || Truthy(profileMimeType) || SizeTruthy(profileSize))
    ensures r.Edited? && r.profile.Some? ==>
              r.profile.value == EditedProfile(profileFilePath, profileMimeType, profileSize) &&
              db.profiles == EditProfessionalProfiles(old(db.profiles), id, profileFilePath, profileMimeType, profileSize)
    ensures r.Edited? && r.profile.None? ==> db.profiles == old(db.profiles)
  {
    r := EditUserWith(db, id, fullName, nickname, address, mobile, github, profileFilePath, profileMimeType, profileSize, true);
  }

  // ---------------------------------------------------------------------------
  // POST /logout
  // ---------------------------------------------------------------------------

  /** POST /logout. A missing token is 400. The token is verified with SECRET: an expired
      token is 401 with no write (the write in that branch reads a variable the failed verify
      never assigned); any other failure, a token without an id, or an unknown user is 500. */
  method Logout(db: Db, accessToken: Option<string>, verify: Verifier) returns (status: nat)
    requires db.Valid()
    modifies db`users
    ensures db.Valid()
    ensures status == 400 <==> !Truthy(accessToken)
    ensures status == 401 <==> Truthy(accessToken) && verify(EnvSecret, accessToken.value).TokenExpired?
    ensures status == 200 <==>
              && Truthy(accessToken)
              && verify(EnvSecret, accessToken.value).Verified?
              && var id := verify(EnvSecret, accessToken.value).claims.id;
                 id.Some? && id.value in old(db.users)
    ensures status == 200 ==> db.users == LogOut(old(db.users), verify(EnvSecret, accessToken.value).claims.id.value)
    ensures status != 200 ==> db.users == old(db.users)
    ensures status in {200, 400, 401, 500}
  {
    if !Truthy(accessToken) {
      return 400;
    }
    match verify(EnvSecret, accessToken.value)
    case TokenExpired =>
      return 401;
    case TokenInvalid =>
      return 500;
    case Verified(claims) =>
      if claims.id.None? || claims.id.value !in db.users {
        return 500;
      }
      db.users := LogOut(db.users, claims.id.value);
      return 200;
  }

  // ---------------------------------------------------------------------------
  // Profile and certificate URLs
  // ---------------------------------------------------------------------------

  /** The public URL of a stored file path: its first "public" removed. */
  function PublicUrl(filepath: string): string {
    ReplaceFirst(filepath, "public", "")
  }

  /** A path under the public directory loses exactly its leading "public". */
  lemma PublicUrlOfPublicPath(rest: string)
    ensures PublicUrl("public" + rest) == rest
  {
    var s := "public" + rest;
    assert OccursAt(s, "public", 0);
    var i := IndexOf(s, "public");
    assert i == Some(0);
    assert s[6..] == rest;
  }

  /** A path without "public" is returned as it is. */
  lemma PublicUrlWithoutPublic(filepath: string)
    requires forall j: nat :: !OccursAt(filepath, "public", j)
    ensures PublicUrl(filepath) == filepath
  {
  }

  datatype UrlReply = UserNotFound | NothingFound | NoResponse | UrlFailed | Url(url: string)
  {
    /** None when the handler returns without answering. */
    function Status(): Option<nat> {
      match this
      case UserNotFound => Some(404)
      case NothingFound => Some(404)
      case NoResponse => None
      case UrlFailed => Some(500)
      case Url(_) => Some(200)
    }
  }

  /** The user's profiles of one kind, in table order. */
  function ProfilesOf(profiles: seq<Profile>, userId: Id, kind: ProfileKind): (r: seq<Profile>)
    ensures forall p :: p in r <==> p in profiles && p.userId == userId && p.kind == kind
  {
    Filter(profiles, (p: Profile) => p.userId == userId && p.kind == kind)
  }

  /** GET /:id/casual and GET /:id/pro. The casual route answers 404 for a user with no such
      profile; the professional route returns without answering. */
  function ProfileImage(users: map<Id, User>, profiles: seq<Profile>, id: Id, kind: ProfileKind): (r: UrlReply)
    ensures r == UserNotFound <==> id !in users
    ensures r == NothingFound <==> id in users && kind == CASUAL && ProfilesOf(profiles, id, kind) == []
    ensures r == NoResponse <==> id in users && kind == PROFESSIONAL && ProfilesOf(profiles, id, kind) == []
    ensures r.Url? ==>
              var own := ProfilesOf(profiles, id, kind);
              |own| > 0 && own[0] in profiles && r.url == PublicUrl(own[0].filepath)
    ensures !r.UrlFailed?
  {
    if id !in users then UserNotFound
    else
      var own := ProfilesOf(profiles, id, kind);
      if |own| == 0 then
        match kind
        case CASUAL => NothingFound
        case PROFESSIONAL => NoResponse
      else
        assert own[0] in own;
        Url(PublicUrl(own[0].filepath))
  }

  /** The user's certificates, in table order. */
  function CertificatesOf(certs: seq<Certificate>, userId: Id): (r: seq<Certificate>)
    ensures forall c :: c in r <==> c in certs && c.traineeId == userId
  {
    Filter(certs, (c: Certificate) => c.traineeId == userId)
  }

  /** GET /:id/certificate: the URL of the user's first certificate. A certificate without a
      file path (as issuance creates them) makes `replace` fail on null (500). */
  function CertificateUrl(users: map<Id, User>, certs: seq<Certificate>, id: Id): (r: UrlReply)
    ensures r == UserNotFound <==> id !in users
    ensures r == NothingFound <==> id in users && CertificatesOf(certs, id) == []
    ensures r == UrlFailed <==> id in users && CertificatesOf(certs, id) != [] && CertificatesOf(certs, id)[0].filepath.None?
    ensures r.Url? ==>
              var own := CertificatesOf(certs, id);
              |own| > 0 && own[0] in certs && own[0].filepath.Some? && r.url == PublicUrl(own[0].filepath.value)
    ensures !r.NoResponse?
  {
    if id !in users then UserNotFound
    else
      var own := CertificatesOf(certs, id);
      if |own| == 0 then NothingFound
      else
        assert own[0] in own;
        match own[0].filepath
        case None => UrlFailed
        case Some(path) => Url(PublicUrl(path))
  }
}
