/** The relational store the handlers read and write through the ORM client, as in-memory
    tables. A table whose rows are reached by a unique key is a map from that key; a table
    whose row order the handlers observe (`findMany` results, `[0]` of a relation) is a
    sequence of rows in insertion order. The composite unique key (userId, itemId) of the
    completion tables is the key of their maps, so a pair never has two rows. */
module Tables {
  import opened Common

  datatype UserStatus = UNVERIFIED | VERIFIED

  /** The nullable profile columns of a user that the verification form writes. */
  const ProfileFieldNames: seq<string> :=
    ["fullName", "nickname", "pob", "dob", "address", "mobile", "lastEdu", "lastEduInst",
     "major", "inCollege", "college", "currentMajor", "github",
     "skill1", "skill2", "skill3", "skill4", "skill5", "skill6", "skill7", "skill8",
     "confident"]

  /** A user row. `profile` holds the non-null profile columns (an absent key is null);
      `password` is the stored hash. */
  datatype User = User(
    id: Id,
    email: string,
    password: string,
    role: string,
    userstatus: UserStatus,
    profile: map<string, string>,
    batchId: Option<Id>,
    isLoggedIn: bool,
    refreshToken: Option<string>)
  {
    /** The value of a profile column, None for null. */
    function Field(name: string): Option<string> {
      if name in profile then Some(profile[name]) else None
    }
  }

  datatype ClassRow = ClassRow(className: string)

  datatype Lesson = Lesson(title: string, description: string, deadline: string, classId: Id, batchId: Id)

  datatype Challenge = Challenge(classId: Id)

  /** A row of lessonCompletion or challengeCompletion, without its key. */
  datatype Completion = Completion(completed: bool, completedAt: Option<Time>)

  datatype Certificate = Certificate(
    id: Id, traineeId: Id, classId: Id, status: string, createdAt: Time, filepath: Option<string>)

  datatype Note = Note(
    id: Id,
    content: string,
    visibility: Option<string>,
    graderId: Option<Id>,
    traineeId: Option<Id>,
    finalCompletionId: Option<Id>)

  /** A row of the notification table: whom it is for, its title, description and type. */
  datatype Notification = Notification(id: Id, userId: Id, title: string, description: string, kind: string)

  datatype CompletionStatus = NOTSUBMITTED | SUBMITTED | LATE | GRADED

  datatype FinalCompletion = FinalCompletion(userId: Id, status: CompletionStatus)

  datatype FileRow = FileRow(
    id: Id, filename: string, filepath: string, mimetype: string, size: nat, lessonId: Option<Id>)

  datatype ProfileKind = CASUAL | PROFESSIONAL

  datatype Profile = Profile(id: Id, userId: Id, kind: ProfileKind, filepath: string, mimetype: string, size: int)

  // ---------------------------------------------------------------------------
  // Table invariants
  // ---------------------------------------------------------------------------

  /** Every user is stored under its own id. */
  ghost predicate UsersKeyed(users: map<Id, User>) {
    forall k :: k in users ==> users[k].id == k
  }

  /** The unique constraint on email. */
  ghost predicate EmailsUnique(users: map<Id, User>) {
    forall a, b :: a in users && b in users && users[a].email == users[b].email ==> a == b
  }

  /** The role column holds one of the four enumeration values. */
  ghost predicate RolesValid(users: map<Id, User>) {
    forall k :: k in users ==> users[k].role in UserRoles
  }

  /** Whether some user row has this email (`findUnique({ where: { email } })` is not null). */
  predicate EmailTaken(users: map<Id, User>, email: string) {
    exists k :: k in users && users[k].email == email
  }

  /** The user holding an email, when one does (unique by EmailsUnique). */
  ghost function IdOfEmail(users: map<Id, User>, email: string): (id: Id)
    requires EmailTaken(users, email)
    ensures id in users && users[id].email == email
  {
    var k :| k in users && users[k].email == email; k
  }

  /** `user.findUnique({ where: { email } })`: the id of the user with that email, if any. */
  method LookupByEmail(users: map<Id, User>, email: string) returns (r: Option<Id>)
    requires EmailsUnique(users)
    ensures r.None? <==> !EmailTaken(users, email)
    ensures r.Some? ==> r.value == IdOfEmail(users, email)
  {
    if EmailTaken(users, email) {
      var k :| k in users && users[k].email == email;
      return Some(k);
    }
    return None;
  }

  /** The logout write of the logout route and of the expiry middleware: not logged in, no
      refresh token; every other column and every other user is kept. */
  function LogOut(users: map<Id, User>, id: Id): (r: map<Id, User>)
    requires id in users
    ensures r.Keys == users.Keys
    ensures !r[id].isLoggedIn && r[id].refreshToken.None?
    ensures r[id] == users[id].(isLoggedIn := false, refreshToken := None)
    ensures forall k :: k in users && k != id ==> r[k] == users[k]
  {
    users[id := users[id].(isLoggedIn := false, refreshToken := None)]
  }

  /** The write of the client-side token check: only the logged-in flag is cleared. */
  function MarkLoggedOut(users: map<Id, User>, id: Id): (r: map<Id, User>)
    requires id in users
    ensures r.Keys == users.Keys
    ensures r[id] == users[id].(isLoggedIn := false)
    ensures r[id].refreshToken == users[id].refreshToken
    ensures forall k :: k in users && k != id ==> r[k] == users[k]
  {
    users[id := users[id].(isLoggedIn := false)]
  }

  function CertificateIds(certs: seq<Certificate>): set<Id> {
    set i | 0 <= i < |certs| :: certs[i].id
  }

  function NoteIds(notes: seq<Note>): set<Id> {
    set i | 0 <= i < |notes| :: notes[i].id
  }

  function FileIds(files: seq<FileRow>): set<Id> {
    set i | 0 <= i < |files| :: files[i].id
  }

  function NotificationIds(ns: seq<Notification>): set<Id> {
    set i | 0 <= i < |ns| :: ns[i].id
  }

  function CertificateId(c: Certificate): Id { c.id }
  function NotificationId(n: Notification): Id { n.id }
  function NoteId(n: Note): Id { n.id }
  function FileId(f: FileRow): Id { f.id }

  ghost predicate DistinctCertificateIds(certs: seq<Certificate>) {
    DistinctKeys(certs, CertificateId)
  }

  ghost predicate DistinctNoteIds(notes: seq<Note>) {
    DistinctKeys(notes, NoteId)
  }

  ghost predicate DistinctFileIds(files: seq<FileRow>) {
    DistinctKeys(files, FileId)
  }

  ghost predicate DistinctNotificationIds(ns: seq<Notification>) {
    DistinctKeys(ns, NotificationId)
  }

  /** Whether a certificate row exists for the (trainee, class) pair. */
  predicate HasCertificate(certs: seq<Certificate>, traineeId: Id, classId: Id) {
    exists i :: 0 <= i < |certs| && certs[i].traineeId == traineeId && certs[i].classId == classId
  }

  /** The intended invariant of certificate issuance: at most one row per (trainee, class). */
  ghost predicate OneCertificatePerPair(certs: seq<Certificate>) {
    forall i, j :: 0 <= i < j < |certs| ==>
      certs[i].traineeId != certs[j].traineeId || certs[i].classId != certs[j].classId
  }

  /** The store. Each field is one table. */
  class Db {
    var users: map<Id, User>
    var classes: map<Id, ClassRow>
    var lessons: map<Id, Lesson>
    var challenges: map<Id, Challenge>
    var lessonCompletions: map<(Id, Id), Completion>
    var challengeCompletions: map<(Id, Id), Completion>
    var certificates: seq<Certificate>
    var notes: seq<Note>
    var finalCompletions: map<Id, FinalCompletion>
    var files: seq<FileRow>
    var profiles: seq<Profile>
    var notifications: seq<Notification>

    /** The constraints the database keeps (keys, unique email, the role enumeration, row ids)
        and the one the certificate workflow intends (one certificate per trainee and class). */
    ghost predicate Valid()
      reads this
    {
      && UsersKeyed(users)
      && EmailsUnique(users)
      && RolesValid(users)
      && DistinctCertificateIds(certificates)
      && OneCertificatePerPair(certificates)
      && DistinctNoteIds(notes)
      && DistinctFileIds(files)
      && DistinctNotificationIds(notifications)
    }

    /** An empty store. */
    constructor ()
      ensures Valid()
      ensures users == map[] && classes == map[] && lessons == map[] && challenges == map[]
      ensures lessonCompletions == map[] && challengeCompletions == map[]
      ensures certificates == [] && notes == [] && finalCompletions == map[]
      ensures files == [] && profiles == [] && notifications == []
    {
      users, classes, lessons, challenges := map[], map[], map[], map[];
      lessonCompletions, challengeCompletions := map[], map[];
      certificates, notes, finalCompletions := [], [], map[];
      files, profiles, notifications := [], [], [];
    }
  }
}
