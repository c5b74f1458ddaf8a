/** The lesson and challenge completion routes (POST /lesson, POST /challenge), the
    percentage route (GET /percentage) and the helpers behind them: progress counting,
    the certificate eligibility test and check-then-create certificate issuance. */
module CompletionLesson {
  import opened Common
  import opened Tables

  /** Which of the two completion routes runs: they differ only in the table they write. */
  datatype Track = LessonTrack | ChallengeTrack

  datatype Progress = Progress(
    completedLessons: nat, totalLessons: nat, completedChallenges: nat, totalChallenges: nat)

  // ---------------------------------------------------------------------------
  // calculateProgress
  // ---------------------------------------------------------------------------

  /** The keys counted by `count({ where: { userId, completed: true } })`. */
  function CompletedKeys(rows: map<(Id, Id), Completion>, userId: Id): set<(Id, Id)> {
    set k | k in rows && k.0 == userId && rows[k].completed
  }

  function CompletedCount(rows: map<(Id, Id), Completion>, userId: Id): nat {
    |CompletedKeys(rows, userId)|
  }

  /** calculateProgress: the user's completed rows on each track against the number of all
      lessons and all challenges, whichever class or batch they belong to. */
  function CalculateProgress(
    lessons: map<Id, Lesson>, challenges: map<Id, Challenge>,
    lessonRows: map<(Id, Id), Completion>, challengeRows: map<(Id, Id), Completion>,
    userId: Id): Progress
  {
    Progress(CompletedCount(lessonRows, userId), |lessons|,
             CompletedCount(challengeRows, userId), |challenges|)
  }

  /** The totals are global: they are the same for every user. */
  lemma TotalsAreGlobal(
    lessons: map<Id, Lesson>, challenges: map<Id, Challenge>,
    lessonRows: map<(Id, Id), Completion>, challengeRows: map<(Id, Id), Completion>,
    u: Id, v: Id)
    ensures var p := CalculateProgress(lessons, challenges, lessonRows, challengeRows, u);
            var q := CalculateProgress(lessons, challenges, lessonRows, challengeRows, v);
            p.totalLessons == q.totalLessons == |lessons| && p.totalChallenges == q.totalChallenges == |challenges|
  {
  }

  /** A user with no completion rows has no progress: no error, all counts zero. */
  lemma UnknownUserCountsZero(rows: map<(Id, Id), Completion>, userId: Id)
    requires forall k :: k in rows ==> k.0 != userId
    ensures CompletedCount(rows, userId) == 0
  {
    assert CompletedKeys(rows, userId) == {};
  }

  /** The pairs (userId, x) for x in a set of ids are as many as the ids. */
  lemma {:induction false} PairsCount(userId: Id, ids: set<Id>)
    ensures |set x | x in ids :: (userId, x)| == |ids|
    decreases |ids|
  {
    if ids != {} {
      var x :| x in ids;
      PairsCount(userId, ids - {x});
      var rest := set y | y in ids - {x} :: (userId, y);
      assert (set y | y in ids :: (userId, y)) == rest + {(userId, x)};
      assert (userId, x) !in rest;
    }
  }

  lemma SubsetSmaller<T>(a: set<T>, b: set<T>)
    requires a <= b
    ensures |a| <= |b|
  {
    assert b == a + (b - a);
  }

  /** When every completion row names an existing item (the relation the rows stand for),
      a user's completed count never exceeds the number of items. */
  lemma CompletedAtMostTotal<T>(rows: map<(Id, Id), Completion>, items: map<Id, T>, userId: Id)
    requires forall k :: k in rows ==> k.1 in items
    ensures CompletedCount(rows, userId) <= |items|
  {
    var pairs := set x | x in items.Keys :: (userId, x);
    PairsCount(userId, items.Keys);
    assert CompletedKeys(rows, userId) <= pairs by {
      forall k | k in CompletedKeys(rows, userId) ensures k in pairs {
        assert k.1 in items.Keys && k == (userId, k.1);
      }
    }
    SubsetSmaller(CompletedKeys(rows, userId), pairs);
    assert |items.Keys| == |items|;
  }

  // ---------------------------------------------------------------------------
  // The upsert on the composite key
  // ---------------------------------------------------------------------------

  /** The upsert of the completion routes: update and create both leave the pair's row with
      completed = true and completedAt = now. */
  function Mark(rows: map<(Id, Id), Completion>, key: (Id, Id), now: Time): map<(Id, Id), Completion> {
    rows[key := Completion(true, Some(now))]
  }

  /** A fresh completion raises that user's completed count by exactly one and leaves every
      other user's count alone. */
  lemma MarkCountsOnce(rows: map<(Id, Id), Completion>, key: (Id, Id), now: Time, u: Id)
    requires !(key in rows && rows[key].completed)
    ensures u == key.0 ==> CompletedCount(Mark(rows, key, now), u) == CompletedCount(rows, u) + 1
    ensures u != key.0 ==> CompletedCount(Mark(rows, key, now), u) == CompletedCount(rows, u)
  {
    var after := Mark(rows, key, now);
    if u == key.0 {
      assert CompletedKeys(after, u) == CompletedKeys(rows, u) + {key};
      assert key !in CompletedKeys(rows, u);
    } else {
      assert CompletedKeys(after, u) == CompletedKeys(rows, u);
    }
  }

  /** Marking twice is marking once: the map has one row per pair whatever the repetition. */
  lemma MarkIdempotent(rows: map<(Id, Id), Completion>, key: (Id, Id), now: Time, later: Time)
    ensures Mark(Mark(rows, key, now), key, later).Keys == Mark(rows, key, now).Keys == rows.Keys + {key}
    ensures Mark(Mark(rows, key, now), key, later)[key].completed
  {
  }

  // ---------------------------------------------------------------------------
  // Percentages
  // ---------------------------------------------------------------------------

  /** GET /percentage: completed / total * 100, and 0 when there is nothing to complete. */
  function Percentage(completed: nat, total: nat): (pct: real)
    ensures total == 0 ==> pct == 0.0
    ensures total > 0 ==> pct * (total as real) == (completed as real) * 100.0
    ensures completed <= total ==> 0.0 <= pct <= 100.0
  {
    if total > 0 then (completed as real) / (total as real) * 100.0 else 0.0
  }

  datatype PercentageReply = UserIdRequired | Percentages(lessonPercentage: real, challengePercentage: real)
  {
    function Status(): nat {
      if UserIdRequired? then 400 else 200
    }
  }

  /** GET /percentage over the tables. */
  function PercentageRoute(
    userId: Option<Id>,
    lessons: map<Id, Lesson>, challenges: map<Id, Challenge>,
    lessonRows: map<(Id, Id), Completion>, challengeRows: map<(Id, Id), Completion>): (r: PercentageReply)
    ensures r.Status() == 400 <==> !Truthy(userId)
    ensures r.Percentages? ==>
              var p := CalculateProgress(lessons, challenges, lessonRows, challengeRows, userId.value);
              r.lessonPercentage == Percentage(p.completedLessons, p.totalLessons) &&
              r.challengePercentage == Percentage(p.completedChallenges, p.totalChallenges)
  {
    if !Truthy(userId) then UserIdRequired
    else
      var p := CalculateProgress(lessons, challenges, lessonRows, challengeRows, userId.value);
      Percentages(Percentage(p.completedLessons, p.totalLessons),
                  Percentage(p.completedChallenges, p.totalChallenges))
  }

  // ---------------------------------------------------------------------------
  // checkAndIssueCertificate
  // ---------------------------------------------------------------------------

  /** `(completed / total) * 100` in JavaScript: None stands for NaN (0 / 0) and Infinity
      (n / 0), neither of which equals 100. */
  function ProgressRatio(completed: nat, total: nat): (r: Option<real>)
    ensures r.None? <==> total == 0
    ensures r.Some? ==> r.value * (total as real) == (completed as real) * 100.0
  {
    if total == 0 then None else Some((completed as real) / (total as real) * 100.0)
  }

  /** The test of checkAndIssueCertificate: both ratios are exactly 100. */
  predicate Eligible(p: Progress) {
    && ProgressRatio(p.completedLessons, p.totalLessons) == Some(100.0)
    && ProgressRatio(p.completedChallenges, p.totalChallenges) == Some(100.0)
  }

  /** A ratio of integer counts is exactly 100 iff the total is positive and all are done. */
  lemma RatioIsHundredIff(completed: nat, total: nat)
    ensures ProgressRatio(completed, total) == Some(100.0) <==> total > 0 && completed == total
  {
    if total > 0 {
      var t := total as real;
      var c := completed as real;
      assert ProgressRatio(completed, total).value * t == c * 100.0;
      if completed == total {
        assert c / t == 1.0;
      }
    }
  }

  /** Eligibility for integer counts: on both tracks there is something to complete and
      everything is completed. */
  lemma EligibleIff(p: Progress)
    ensures Eligible(p) <==>
              && p.totalLessons > 0 && p.completedLessons == p.totalLessons
              && p.totalChallenges > 0 && p.completedChallenges == p.totalChallenges
  {
    RatioIsHundredIff(p.completedLessons, p.totalLessons);
    RatioIsHundredIff(p.completedChallenges, p.totalChallenges);
  }

  /** With no lessons or no challenges at all, nobody is ever eligible. */
  lemma EmptyTrackNeverEligible(p: Progress)
    requires p.totalLessons == 0 || p.totalChallenges == 0
    ensures !Eligible(p)
  {
    EligibleIff(p);
  }

  // ---------------------------------------------------------------------------
  // issueCertificate
  // ---------------------------------------------------------------------------

  datatype CertificateMessage = CompletionCertificate | CertificateAlreadyIssued

  /** The reply object: its message and the two names its text is built from (the trainee's
      full name, possibly null, and the class name). */
  datatype CertificateReply = CertificateReply(
    message: CertificateMessage, traineeName: Option<string>, className: string)

  /** The status a newly issued certificate row carries. */
  const IssuedStatus: string := "Issued"

  /** issueCertificate(userId, classId). `classId` None stands for `undefined`. Returns None
      when the helper throws: the class lookup by an undefined id is rejected by the ORM
      before anything is written; a missing trainee or class makes the reply text read a
      property of null, after the new row (if any) has been created. */
  method IssueCertificate(db: Db, userId: Id, classId: Option<Id>, now: Time)
    returns (r: Option<CertificateReply>)
    requires db.Valid()
    modifies db`certificates
    ensures db.Valid()
    ensures classId.None? ==> r.None? && db.certificates == old(db.certificates)
    ensures classId.Some? && HasCertificate(old(db.certificates), userId, classId.value) ==>
              db.certificates == old(db.certificates)
    ensures classId.Some? && !HasCertificate(old(db.certificates), userId, classId.value) ==>
              && |db.certificates| == |old(db.certificates)| + 1
              && db.certificates[..|old(db.certificates)|] == old(db.certificates)
              && var c := db.certificates[|old(db.certificates)|];
                 c.id !in CertificateIds(old(db.certificates)) &&
                 c.traineeId == userId && c.classId == classId.value &&
                 c.status == IssuedStatus && c.createdAt == now && c.filepath.None?
    ensures classId.Some? ==> HasCertificate(db.certificates, userId, classId.value)
    ensures classId.Some? ==>
              (r.Some? <==> userId in db.users && classId.value in db.classes)
    ensures r.Some? ==>
              && r.value.traineeName == db.users[userId].Field("fullName")
              && r.value.className == db.classes[classId.value].className
              && (r.value.message == CompletionCertificate <==>
                    !HasCertificate(old(db.certificates), userId, classId.value))
  {
    if classId.None? {
      // class.findUnique({ where: { id: undefined } }) is rejected.
      return None;
    }
    var c := classId.value;
    var existing := HasCertificate(db.certificates, userId, c);
    if !existing {
      var id := FreshId(CertificateIds(db.certificates));
      var row := Certificate(id, userId, c, IssuedStatus, now, None);
      ghost var before := db.certificates;
      db.certificates := db.certificates + [row];
      assert db.certificates[|before|] == row;
      forall i | 0 <= i < |before| ensures before[i].id != id {
        assert before[i].id in CertificateIds(before);
      }
    }
    if userId !in db.users || c !in db.classes {
      return None;
    }
    var message := if existing then CertificateAlreadyIssued else CompletionCertificate;
    r := Some(CertificateReply(message, db.users[userId].Field("fullName"), db.classes[c].className));
  }

  // ---------------------------------------------------------------------------
  // POST /lesson and POST /challenge
  // ---------------------------------------------------------------------------

  datatype MarkReply =
    | MissingIds
    | AlreadySubmitted
    | Marked(progress: Progress, certificate: Option<CertificateReply>)
    | ServerError
  {
    function Status(): nat {
      match this
      case MissingIds => 400
      case ServerError => 500
      case _ => 200
    }
  }

  /** The completion route with the class id of the certificate supplied by the caller
      (None: undefined). Guards run in source order; after a fresh completion the progress is
      recomputed and, when eligible, a certificate is issued. */
  method MarkWithClass(db: Db, track: Track, userId: Option<Id>, itemId: Option<Id>, classId: Option<Id>, now: Time)
    returns (r: MarkReply)
    requires db.Valid()
    modifies db`lessonCompletions, db`challengeCompletions, db`certificates
    ensures db.Valid()
    // A missing id: 400 and no write.
    ensures !Truthy(userId) || !Truthy(itemId) ==>
              && r == MissingIds
              && db.lessonCompletions == old(db.lessonCompletions)
              && db.challengeCompletions == old(db.challengeCompletions)
              && db.certificates == old(db.certificates)
    ensures Truthy(userId) && Truthy(itemId) ==>
              var key := (userId.value, itemId.value);
              var rows := if track == LessonTrack then old(db.lessonCompletions) else old(db.challengeCompletions);
              // Already completed: "already submitted", no write, no certificate check.
              && (key in rows && rows[key].completed ==>
                    && r == AlreadySubmitted
                    && db.lessonCompletions == old(db.lessonCompletions)
                    && db.challengeCompletions == old(db.challengeCompletions)
                    && db.certificates == old(db.certificates))
              // Otherwise: the pair's row is upserted, the other track is untouched.
              && (!(key in rows && rows[key].completed) ==>
                    && (track == LessonTrack ==>
                          db.lessonCompletions == Mark(old(db.lessonCompletions), key, now) &&
                          db.challengeCompletions == old(db.challengeCompletions))
                    && (track == ChallengeTrack ==>
                          db.challengeCompletions == Mark(old(db.challengeCompletions), key, now) &&
                          db.lessonCompletions == old(db.lessonCompletions))
                    && var p := CalculateProgress(db.lessons, db.challenges, db.lessonCompletions,
                                                  db.challengeCompletions, userId.value);
                       && (!Eligible(p) ==> r == Marked(p, None) && db.certificates == old(db.certificates))
                       && (Eligible(p) && classId.None? ==> r == ServerError && db.certificates == old(db.certificates))
                       && (Eligible(p) && classId.Some? ==>
                             && HasCertificate(db.certificates, userId.value, classId.value)
                             && (HasCertificate(old(db.certificates), userId.value, classId.value) ==>
                                   db.certificates == old(db.certificates))
                             && (!HasCertificate(old(db.certificates), userId.value, classId.value) ==>
                                   |db.certificates| == |old(db.certificates)| + 1 &&
                                   db.certificates[..|old(db.certificates)|] == old(db.certificates))
                             && (r.Marked? <==> userId.value in db.users && classId.value in db.classes)
                             && (r.Marked? ==> r.progress == p && r.certificate.Some?)
                             && (!r.Marked? ==> r == ServerError)))
  {
    if !Truthy(userId) || !Truthy(itemId) {
      return MissingIds;
    }
    var key := (userId.value, itemId.value);
    var rows := if track == LessonTrack then db.lessonCompletions else db.challengeCompletions;
    if key in rows && rows[key].completed {
      return AlreadySubmitted;
    }
    if track == LessonTrack {
      db.lessonCompletions := Mark(rows, key, now);
    } else {
      db.challengeCompletions := Mark(rows, key, now);
    }
    var progress := CalculateProgress(db.lessons, db.challenges, db.lessonCompletions,
                                      db.challengeCompletions, userId.value);
    if !Eligible(progress) {
      return Marked(progress, None);
    }
    var certificate := IssueCertificate(db, userId.value, classId, now);
    r := if certificate.Some? then Marked(progress, certificate) else ServerError;
  }

  /** The routes as written: the class id is read as `.id` of the promise findFirst returns,
      which is undefined, so the completion that makes a trainee eligible is answered with 500
      (after its row has been written) and no certificate is ever created. */
  method MarkCompleteAsWritten(db: Db, track: Track, userId: Option<Id>, itemId: Option<Id>, now: Time)
    returns (r: MarkReply)
    requires db.Valid()
    modifies db`lessonCompletions, db`challengeCompletions, db`certificates
    ensures db.Valid()
    ensures db.certificates == old(db.certificates)
    ensures r.Marked? ==> r.certificate.None? && !Eligible(r.progress)
    ensures Truthy(userId) && Truthy(itemId) &&
            Eligible(CalculateProgress(db.lessons, db.challenges, db.lessonCompletions,
                                       db.challengeCompletions, userId.value)) ==>
              r == AlreadySubmitted || r == ServerError
    ensures Truthy(userId) && Truthy(itemId) ==>
              var key := (userId.value, itemId.value);
              var rows := if track == LessonTrack then old(db.lessonCompletions) else old(db.challengeCompletions);
              && (r == AlreadySubmitted <==> key in rows && rows[key].completed)
              && (!(key in rows && rows[key].completed) ==>
                    && (track == LessonTrack ==>
                          db.lessonCompletions == Mark(old(db.lessonCompletions), key, now) &&
                          db.challengeCompletions == old(db.challengeCompletions))
                    && (track == ChallengeTrack ==>
                          db.challengeCompletions == Mark(old(db.challengeCompletions), key, now) &&
                          db.lessonCompletions == old(db.lessonCompletions)))
  {
    r := MarkWithClass(db, track, userId, itemId, None, now);
  }

  /** The routes with the class of the certificate looked up as intended: when the fresh
      completion makes the trainee eligible, the trainee holds exactly one certificate for that
      class afterwards, whether it was issued now or before. */
  method MarkComplete(db: Db, track: Track, userId: Option<Id>, itemId: Option<Id>, classId: Id, now: Time)
    returns (r: MarkReply)
    requires db.Valid()
    modifies db`lessonCompletions, db`challengeCompletions, db`certificates
    ensures db.Valid()
    ensures r == MissingIds <==> !Truthy(userId) || !Truthy(itemId)
    ensures r == MissingIds || r == AlreadySubmitted ==>
              && db.lessonCompletions == old(db.lessonCompletions)
              && db.challengeCompletions == old(db.challengeCompletions)
              && db.certificates == old(db.certificates)
    ensures r.Marked? ==>
              && r.progress == CalculateProgress(db.lessons, db.challenges, db.lessonCompletions,
                                                 db.challengeCompletions, userId.value)
              && (r.certificate.Some? <==> Eligible(r.progress))
    ensures r.Marked? || r == ServerError ==>
              Truthy(userId) && Truthy(itemId) &&
              var rows := if track == LessonTrack then db.lessonCompletions else db.challengeCompletions;
              (userId.value, itemId.value) in rows && rows[(userId.value, itemId.value)] == Completion(true, Some(now))
    ensures r == ServerError ==> userId.value !in db.users || classId !in db.classes
    ensures (r.Marked? && r.certificate.Some?) || r == ServerError ==>
              HasCertificate(db.certificates, userId.value, classId)
    ensures Truthy(userId) && Truthy(itemId) ==>
              var key := (userId.value, itemId.value);
              var rows := if track == LessonTrack then old(db.lessonCompletions) else old(db.challengeCompletions);
              && (r == AlreadySubmitted <==> key in rows && rows[key].completed)
              && (!(key in rows && rows[key].completed) ==>
                    && (track == LessonTrack ==>
                          db.lessonCompletions == Mark(old(db.lessonCompletions), key, now) &&
                          db.challengeCompletions == old(db.challengeCompletions))
                    && (track == ChallengeTrack ==>
                          db.challengeCompletions == Mark(old(db.challengeCompletions), key, now) &&
                          db.lessonCompletions == old(db.lessonCompletions))
                    && var p := CalculateProgress(db.lessons, db.challenges, db.lessonCompletions,
                                                  db.challengeCompletions, userId.value);
                       && (!Eligible(p) ==> r == Marked(p, None) && db.certificates == old(db.certificates))
                       && (Eligible(p) ==>
                             && HasCertificate(db.certificates, userId.value, classId)
                             && (HasCertificate(old(db.certificates), userId.value, classId) ==>
                                   db.certificates == old(db.certificates))
                             && (!HasCertificate(old(db.certificates), userId.value, classId) ==>
                                   |db.certificates| == |old(db.certificates)| + 1 &&
                                   db.certificates[..|old(db.certificates)|] == old(db.certificates))
                             && (r.Marked? <==> userId.value in db.users && classId in db.classes)
                             && (!r.Marked? ==> r == ServerError)))
  {
    r := MarkWithClass(db, track, userId, itemId, Some(classId), now);
  }
}
