# Bootcamp LMS backend — a Dafny model of its decision and update logic

The system is an Express/Prisma learning-management backend for a bootcamp. Trainees complete
lessons and challenges and earn certificates. Mentors and examiners write notes and grade final
presentations. Admins create users. Lessons carry uploaded files. JWT gates guard the routes.

This project models the route handlers and middlewares as guard-then-update steps over an
in-memory store. The store is class `Tables.Db`, with one field per table. Tables addressed by a
unique key are maps: users, classes, lessons, challenges, final completions, and the two
completion tables keyed by the composite `(userId, itemId)`. Tables whose row order is
observable are sequences: certificates, notes, files, profiles and notifications.

- Each handler that writes is a method. It checks its guards in source order, returns the
  reply, and names in `modifies` the tables it may change. Its `ensures` state the whole new
  state of those tables.
- Each pure decision chain is a function, with lemmas about it: the middlewares, the listings,
  progress, percentage and eligibility.
- `Db.Valid()` holds the table constraints every method keeps:
  - users are stored under their own id;
  - emails are unique;
  - roles are one of the four enumeration values;
  - row ids are distinct;
  - there is at most one certificate per (trainee, class).

Libraries are oracles passed as parameters:

- `jwt.verify` is a `Verifier` from a secret and a token to a verdict: verified claims, expired,
  or invalid.
- `jwt.decode` is a `Decoder`.
- `jwt.sign` is a `Signer`. Its lifetimes are in seconds: `5m`, `15m`, `30m`, `7d` and `1y`.
- `bcrypt.compare` and `bcrypt.hash` are functions.
- `new Date(x)` validity is a predicate, `validDate`.
- The current time is a parameter, in milliseconds. A token's `exp` claim is in seconds, as in
  section 4.1.4 of RFC 7519.

JavaScript semantics are written out where they decide a branch:

- truthiness of strings and ids (`""` and absent values are falsy);
- `a || b`;
- `split(' ')`;
- `includes` on a string (a substring test) versus on an array (membership);
- `replace` with a string pattern (the first occurrence only);
- Prisma's rule that an `undefined` value in update data leaves the column unchanged.

Modules:

- `Common`: options, the gate result `Gate` (pass with an attachment, or halt with a status),
  token types, `split`/`includes`/`replace`, the Bearer header parsing, and fresh ids.
- `Tables`: row types, the store and its invariants.
- One module per source file: `CompletionLesson`, `MentorController`, `ExaminerController`,
  `AdminController`, `UploadController`, `TraineeController`, `AuthMiddleware` (Auth.js),
  `ProtectMiddleware` (Protect.js), `VerifyRoleMiddleware` (VerifyRole.js),
  `VerifyStatusMiddleware` (VerifyStatus.js) and `ClientTokenRoute` (RouterClientSide.js).

Where the code and its evident intent differ, the model follows the code. Three such places also
have a corrected definition; see "## Findings". Other as-written behaviours are stated as
contracts:

- In login, the tokens are signed from `user.id` before the null check. An unknown email
  therefore ends in the 500 catch, and the 404 branch is never taken.
- `verifyStatus` in Auth.js selects `{id, status}` but tests `userstatus`. Its 403 branch never
  fires.
- In logout, the write in the expired-token branch reads a variable that the failed verify never
  assigned. An expired token is answered 401 with no write.
- `/:id/pro` returns without answering when the user has no professional profile.
- The multer error middleware is registered before the routes. A rejected upload therefore
  reaches Express's default handler, which answers 500.

## Model

| member | source | states |
|---|---|---|
| Common.BearerToken | src/Middlewares/Auth.js:14-18 | A token exists iff the header is present, non-empty and starts with the literal "Bearer ". The token is then exactly the second space-separated field (`split(' ')[1]`), contains no space, and follows the prefix. |
| Common.AccessTokenField | src/Middlewares/Auth.js:136-139 | `header?.split(' ')[1]` tested for truthiness: no scheme test. A token exists exactly when the header's second field is non-empty. |
| Common.VerifiedId | src/Middlewares/Auth.js:18-27 | An id is produced exactly when the header has a Bearer token that verifies under the given secret and whose claims carry an id. The id is that claim. |
| Common.ReplaceFirst | src/Controllers/TraineeController.js:372-375 | String `replace`: without an occurrence the string is unchanged. Otherwise only the first occurrence is replaced and the rest of the string is kept. |
| Common.RoleTextIsEquality | src/Middlewares/VerifyRole.js:28-30 | For the four role names, the substring test that `includes` performs on a string argument holds iff the roles are equal. |
| Common.JoinSplit | src/Middlewares/Auth.js:18 | `split(' ')` loses nothing: joining the fields with the separator gives back the header. |
| Tables.LookupByEmail | src/Controllers/TraineeController.js:28-30 | The email lookup finds nothing iff no user has the email. Otherwise it finds the unique user with it. |
| Tables.LogOut | src/Controllers/TraineeController.js:318-324 | The logout write: isLoggedIn false, refreshToken null. Every other column and every other user is kept. |
| Tables.MarkLoggedOut | src/Middlewares/RouterClientSide.js:24-29 | The client-side expiry write: only isLoggedIn is cleared. The refresh token and every other user are kept. |
| CompletionLesson.TotalsAreGlobal | src/Controllers/CompletionLesson.js:170-182 | The progress totals count all lessons and all challenges, the same for every user. |
| CompletionLesson.UnknownUserCountsZero | src/Controllers/CompletionLesson.js:172-180 | A user without completion rows has completed count 0. |
| CompletionLesson.CompletedAtMostTotal | src/Controllers/CompletionLesson.js:170-182 | When every completion row names an existing item, a user's completed count never exceeds the item count. |
| CompletionLesson.MarkCountsOnce | src/Controllers/CompletionLesson.js:31-48 | A fresh upsert raises that user's completed count by exactly one and leaves every other user's count unchanged. |
| CompletionLesson.MarkIdempotent | src/Controllers/CompletionLesson.js:31-48 | Repeating the upsert on the composite key never creates a second row for the pair. The row stays completed. |
| CompletionLesson.Percentage | src/Controllers/CompletionLesson.js:150-156 | 0 when the total is 0. Otherwise percentage × total = completed × 100. Between 0 and 100 when completed ≤ total. |
| CompletionLesson.PercentageRoute | src/Controllers/CompletionLesson.js:140-167 | 400 iff userId is falsy. Otherwise each percentage is that of the user's completed count against the global total. |
| CompletionLesson.ProgressRatio | src/Controllers/CompletionLesson.js:188-189 | The JavaScript ratio × 100 is NaN or Infinity (None) iff the total is 0. Otherwise ratio × total = completed × 100. |
| CompletionLesson.RatioIsHundredIff | src/Controllers/CompletionLesson.js:191 | A ratio of integer counts equals exactly 100 iff the total is positive and completed equals total. |
| CompletionLesson.EligibleIff | src/Controllers/CompletionLesson.js:185-199 | Eligibility holds iff both tracks have a positive total and everything is completed. |
| CompletionLesson.EmptyTrackNeverEligible | src/Controllers/CompletionLesson.js:185-199 | With no lessons or no challenges, nobody is eligible. |
| CompletionLesson.IssueCertificate | src/Controllers/CompletionLesson.js:202-233 | An undefined class id throws before any write. Otherwise exactly one 'Issued' row with a fresh id is appended, and only when the (trainee, class) pair had none. The pair holds a certificate afterwards. The reply says "Completion Certificate" iff a row was created now, and exists iff trainee and class exist. |
| CompletionLesson.MarkWithClass | src/Controllers/CompletionLesson.js:8-71 | A missing id gives 400 with no write. An already-completed pair gives "already submitted" with no write and no certificate check. Otherwise the pair's row is upserted on its own track only. Progress is recomputed, and a certificate is issued only when eligible. |
| CompletionLesson.MarkCompleteAsWritten | src/Controllers/CompletionLesson.js:190-195 | As written: certificates never change. "Already submitted" iff the pair's row is completed; otherwise the pair's row is upserted as completed at `now`, with the other track untouched. A completion that makes the trainee eligible is answered 500, or "already submitted". |
| CompletionLesson.MarkComplete | src/Controllers/CompletionLesson.js:74-137 | With the class supplied: 400 iff an id is missing, and then nothing is written. "Already submitted" iff the pair's row is completed, with no write. Otherwise the pair's row is upserted as completed at `now` and the other track is untouched. Below eligibility the reply is the progress with no certificate. At eligibility the trainee holds a certificate for the class (a new one is appended only if none existed), and the reply is 200 iff the user and class exist, else 500. |
| MentorController.AddNote | src/Controllers/MentorController.js:9-32 | 400 with no write iff content is falsy or longer than 300. Otherwise exactly one note is appended, with a fresh id and the four request values unchanged, and the reply is 201. |
| MentorController.Person | src/Controllers/MentorController.js:66-75 | The listing transform substitutes 'Unknown' for a falsy fullName and 'No Nickname' for a falsy nickname. |
| MentorController.GraderViews | src/Controllers/MentorController.js:61-76 | The transform succeeds iff every note's grader and trainee exist. Item i is the view of note i. |
| MentorController.GraderSelection | src/Controllers/MentorController.js:46-58 | The selected notes are exactly those with the graderId, and with the visibility only when one is supplied. |
| MentorController.GraderListing | src/Controllers/MentorController.js:35-83 | 403 iff the role is not MENTOR, EXAMINER or ADMIN. Listed iff additionally every selected note resolves. The items are the views of the selected notes, in order. |
| MentorController.VisibilityOnlyNarrows | src/Controllers/MentorController.js:46-49 | Without a visibility, every note with the graderId is selected. With one, a subset of those. |
| MentorController.Summary | src/Controllers/MentorController.js:117-121 | The `grader` block: "fullName (nickname or 'No Nickname')" with a null fullName printed as "null", the batch or 'No Batch', and the role. |
| MentorController.TraineeViews | src/Controllers/MentorController.js:115-122 | The transform succeeds iff every note's grader exists. Item i is note i with its grader summary. |
| MentorController.TraineeSelection | src/Controllers/MentorController.js:95-101 | Exactly the trainee's notes marked FOR_TRAINEE. |
| MentorController.AllOfTrainee | src/Controllers/MentorController.js:104-109 | Exactly the trainee's notes. |
| MentorController.NoteListing | src/Controllers/MentorController.js:86-129 | 403 iff neither (TRAINEE with userId = traineeId) nor a grader role holds. Listed iff every selected note's grader exists. Each item is the selected note with its grader summary. |
| MentorController.ListedNotesAreSelected | src/Controllers/MentorController.js:93-124 | The listed notes are exactly the selected ones. |
| MentorController.TraineeRefusedAsWritten | src/Controllers/MentorController.js:88-93 | As written, userId is read from a field protect does not attach, so every TRAINEE gets 403, even on their own notes. |
| MentorController.NoteListAccess | src/Controllers/MentorController.js:93-112 | With the principal's id: a trainee on their own id is admitted and sees exactly their FOR_TRAINEE notes. A trainee on another id gets 403. Graders see all of the trainee's notes. |
| MentorController.FindNote | src/Controllers/MentorController.js:142-145 | The note found has the id. None means no note has it. |
| MentorController.DeleteAllowedIff | src/Controllers/MentorController.js:136-161 | 200 iff the note exists and the caller is ADMIN, or a grader role who is the note's grader. 404 iff the caller has a grader role and no note has the id. |
| MentorController.Without | src/Controllers/MentorController.js:157-159 | The table without the addressed note and with every other note. |
| MentorController.DeleteNote | src/Controllers/MentorController.js:132-166 | The status is the guard chain's. On 200 exactly that note is removed. Otherwise nothing changes. |
| ExaminerController.BuildPresentationWhere | src/Controllers/ExaminerController.js:12-14 | batchId, and separately classId, is in the clause iff it is truthy, with its value. Nothing else is in the clause. |
| ExaminerController.Select | src/Controllers/ExaminerController.js:16-17 | The rows satisfying every condition of the clause. |
| ExaminerController.ListFinalPresentations | src/Controllers/ExaminerController.js:8-60 | A presentation is listed iff it matches each supplied filter. With no filter, the whole table in order. |
| ExaminerController.GradePresentation | src/Controllers/ExaminerController.js:62-104 | 400 iff content or visibility is falsy. 404 iff the completion is unknown, with no write. On 201, one note is appended: grader = caller, trainee = the completion's user, linked to the completion. That completion, and no other, becomes GRADED. |
| AdminController.InitialUser | src/Controllers/AdminController.js:65-94 | The new record is UNVERIFIED, every profile column is null, the hashed password and the refresh token are stored, and the user is not logged in and has no batch (assumed column defaults; see "## Left out"). |
| AdminController.InsertKeepsEmailsUnique | src/Controllers/AdminController.js:33-39 | Inserting a user whose email is not taken keeps emails unique. |
| AdminController.InsertTakesEmail | src/Controllers/AdminController.js:33-39 | After an insert the email is taken, so a second createuser with it is refused. |
| AdminController.CreateUser | src/Controllers/AdminController.js:15-115 | 400 for missing fields, then an invalid role, then an existing email, each with the user table unchanged. On 201 the user is inserted under a fresh id with the hash of the password. Both tokens are signed with SECRET over {email, role} for 7d and 15m. The reply exposes only id, email, role and userstatus. |
| UploadController.AddFiles | src/Controllers/UploadController.js:83-97 | One file row per upload, in order. Each has a fresh id and carries the upload's name, path, type and size, linked to the lesson. Nothing else changes. |
| UploadController.CreateLesson | src/Controllers/UploadController.js:58-107 | A rejected upload gives 500, then a falsy field gives 400, then no files gives 400, then an invalid deadline gives 500, each with no write. The lesson is saved (201) iff none of these holds. It is then one new lesson with the five values, and exactly one file row per upload linked to it. |
| UploadController.UpdatedLesson | src/Controllers/UploadController.js:129-133 | Each column takes the supplied value when truthy and keeps the stored one otherwise. |
| UploadController.EmptyUpdateKeepsLesson | src/Controllers/UploadController.js:126-135 | An update with no truthy value leaves the lesson unchanged. |
| UploadController.RemoveLessonFiles | src/Controllers/UploadController.js:139-141 | Exactly the file rows not linked to the lesson remain. |
| UploadController.DeletionGuardRedundant | src/Controllers/UploadController.js:138 | On a lesson without files the deletion changes nothing, so the length test decides nothing. |
| UploadController.UpdateLesson | src/Controllers/UploadController.js:109-170 | A rejected upload gives 500, then an unknown lesson gives 404, then a truthy invalid deadline gives 500, each with no write. The lesson is saved (200) iff none of these holds. The saved lesson is the fallback update. Old files are deleted only for deleteOldFiles = "true". One new row is appended per upload, and the reply lists only the new rows. |
| UploadController.DeletionLeavesOnlyNewFiles | src/Controllers/UploadController.js:138-160 | After an update that asked for deletion, every file row of the lesson is one of the newly added ones. |
| TraineeController.Login | src/Controllers/TraineeController.js:18-75 | 400 iff a field is falsy. 500 iff no user has the email: there is no 404. For the user with the email: 403 if the role differs, 401 if the password fails. Otherwise tokens are signed from id and role (30m with SECRET, 1y with REFRESH_SECRET), and isLoggedIn and the refresh token are written. No other write. |
| TraineeController.RefreshAccess | src/Controllers/TraineeController.js:99-138 | 400 iff the token is falsy. Refreshed iff the token verifies under REFRESH_SECRET and is the stored token of the user it names, with a 5m access token over the id. 401 iff the token has expired or names no user holding that refresh token. 500 iff the token is invalid or verifies without an id. |
| TraineeController.LogoutRevokesRefresh | src/Controllers/TraineeController.js:109-115 | After logout clears the stored token, no refresh for that user succeeds. |
| TraineeController.ApplyForm | src/Controllers/TraineeController.js:169-195 | Each profile column in the form takes its value. Every other column keeps its stored value. |
| TraineeController.ApplyFormIdempotent | src/Controllers/TraineeController.js:169-195 | Submitting the form twice stores what submitting it once stores. |
| TraineeController.SubmitVerification | src/Controllers/TraineeController.js:141-210 | 200 iff the user exists and dob is a valid date. The profile columns are then written and userstatus becomes VERIFIED. Otherwise 500 and no write. |
| TraineeController.EditProfile | src/Controllers/TraineeController.js:227-236 | Only the truthy submitted columns change. Every other column keeps its value. |
| TraineeController.EmptyEditChangesNothing | src/Controllers/TraineeController.js:229-235 | An edit with no truthy value leaves the user's columns unchanged. |
| TraineeController.EditProfessionalProfiles | src/Controllers/TraineeController.js:241-251 | Only the user's PROFESSIONAL profiles change, each taking the truthy values. Every other profile row is unchanged. |
| TraineeController.ProfileNotification | src/Controllers/TraineeController.js:254-263 | The stored notification is for the edited user, titled "Profile Updated!", with the fixed description and type "Profile". |
| TraineeController.NotifyProfileUpdated | src/Controllers/TraineeController.js:254-263 | Exactly one notification row is appended, with a fresh id; the store stays valid. |
| TraineeController.EditUserWith | src/Controllers/TraineeController.js:212-303 | An unknown id gives 500 with no write. A known id gets the user write (only truthy columns change), the profile write iff some profile value is truthy, and one notification row. The reply is 200 iff Socket.IO is initialised; it then echoes the four columns and, iff some profile value is truthy, the submitted profile. |
| TraineeController.EditUserAsWritten | src/Controllers/TraineeController.js:253-302 | As written (Socket.IO never initialised): every request is answered 500. For a known id the user write, the notification row and, iff some profile value is truthy, the profile write have nevertheless been made. |
| TraineeController.EditUser | src/Controllers/TraineeController.js:212-303 | As intended: 500 iff the id is unknown, with no write. Otherwise 200 after the user write, one notification row, and the profile write. The profiles change, and are echoed, iff some profile value is truthy. |
| TraineeController.Logout | src/Controllers/TraineeController.js:306-347 | 400 iff the token is falsy. 401 iff it has expired, with no write. 200 iff it verifies under SECRET and names an existing user, whom it logs out. Anything else is 500 with no write. |
| TraineeController.PublicUrlOfPublicPath | src/Controllers/TraineeController.js:408-411 | A stored path "public…" becomes the rest of the path. |
| TraineeController.PublicUrlWithoutPublic | src/Controllers/TraineeController.js:408-411 | A path without "public" is returned unchanged. |
| TraineeController.ProfilesOf | src/Controllers/TraineeController.js:353-360 | Exactly the user's profiles of the kind. |
| TraineeController.ProfileImage | src/Controllers/TraineeController.js:350-420 | 404 iff the user is unknown. For a user without a profile of the kind: 404 for casual, no response for pro. Otherwise the public URL of the first such profile. |
| TraineeController.CertificatesOf | src/Controllers/TraineeController.js:509-513 | Exactly the user's certificates. |
| TraineeController.CertificateUrl | src/Controllers/TraineeController.js:506-540 | 404 for an unknown user, and 404 for a user with no certificate. 500 iff the first certificate has no file path. Otherwise its public URL. |
| AuthMiddleware.Protect | src/Middlewares/Auth.js:9-42 | Passes iff the Bearer token verifies under REFRESH_SECRET, carries an id, and that user exists, attaching exactly {id, role}. Every failure is 401. |
| AuthMiddleware.VerifyToken | src/Middlewares/Auth.js:44-63 | Passes iff the Bearer token verifies under REFRESH_SECRET, attaching its id claim. Otherwise 401. No user lookup. |
| AuthMiddleware.VerifyRoles | src/Middlewares/Auth.js:66-94 | 401 iff there is no verified id, and 404 iff the user is missing. Otherwise 403 when the role is not included, or pass with the whole user. |
| AuthMiddleware.VerifyRolesImpliesProtect | src/Middlewares/Auth.js:9-94 | A request verifyRoles admits is admitted by protect for the same user and role. |
| AuthMiddleware.VerifyStatus | src/Middlewares/Auth.js:96-132 | Never 403. Passes iff a verified id names an existing user and the store accepts the `status` selection. 404 iff the store accepts the selection and a verified id names no user. 401 iff there is no verified id or the store rejects the selection. On a pass it attaches the id; the selected `status` value is not modelled. |
| AuthMiddleware.VerifyStatusNeverForbids | src/Middlewares/Auth.js:111-123 | An UNVERIFIED user passes. |
| AuthMiddleware.ExpiryDecision | src/Middlewares/Auth.js:136-157 | Refuse iff there is no token field, the token does not decode, or it has no exp. Otherwise expired iff exp × 1000 < now, and pass with the decoded claims otherwise. |
| AuthMiddleware.TokenExpiration | src/Middlewares/Auth.js:134-167 | 401 with no write when refused. Pass with the claims and no write when fresh. When expired, 401 and the user is logged out; 500 with no write when the id is missing or unknown. |
| AuthMiddleware.ExpiryPassIsFresh | src/Middlewares/Auth.js:146-162 | A token passes only while now ≤ exp × 1000. |
| ProtectMiddleware.Protect | src/Middlewares/Protect.js:7-40 | Passes iff the Bearer token verifies under SECRET, carries an id, and that user exists, attaching exactly {id, role}. Every failure is 401, including a missing user. |
| ProtectMiddleware.AgreesWithAuthProtect | src/Middlewares/Protect.js:19 | The two protect gates differ only in the secret. Where the verifier agrees on both secrets they decide the same. |
| VerifyRoleMiddleware.VerifyRoles | src/Middlewares/VerifyRole.js:10-38 | 401 iff there is no id verified under SECRET, and 404 iff the user is missing. Otherwise 403 when the role is not included, or pass with the whole user. |
| VerifyRoleMiddleware.SingleRoleIsExactMatch | src/Middlewares/VerifyRole.js:28-30 | Called with a single role name, the gate passes exactly the users of that role and gives 403 to the others. |
| VerifyRoleMiddleware.TraineeRefusedOnAdminRoute | src/Routes/Test.js:14 | On `verifyRole('ADMIN')` a TRAINEE gets 403. |
| VerifyStatusMiddleware.VerifyStatus | src/Middlewares/VerifyStatus.js:10-36 | 401 iff there is no id verified under SECRET, and 404 iff the user is missing. 403 iff fullName, address or lastEdu is falsy. Otherwise pass with the user. |
| VerifyStatusMiddleware.VerificationFormCompletesProfile | src/Middlewares/VerifyStatus.js:27-29 | A verification form with non-empty fullName, address and lastEdu leaves a profile that this gate accepts. |
| VerifyStatusMiddleware.StatusIsNotConsulted | src/Middlewares/VerifyStatus.js:27-29 | A VERIFIED user without lastEdu is refused: the gate reads the profile, not the status. |
| ClientTokenRoute.CheckDecision | src/Middlewares/RouterClientSide.js:11-22 | Refuse iff there is no token field, or the token does not decode, lacks exp or lacks a truthy id. Otherwise expired iff exp × 1000 < now. |
| ClientTokenRoute.CheckToken | src/Middlewares/RouterClientSide.js:9-39 | 401 with no write when refused. 200 with the decoded payload and no write when fresh. When expired: 401 and only isLoggedIn is cleared, or 500 with no write for an unknown user. |
| ClientTokenRoute.RouteKeepsRefreshToken | src/Middlewares/RouterClientSide.js:24-29 | The route's write keeps the stored refresh token. The expiry middleware's write clears it. |

## Left out

- JWT and bcrypt are oracles. Signing, verification and decoding are parameters. The model
  states which secret, payload and lifetime each call uses.
- Prisma's `include`/`select` projections and joins are left out. So are `createdAt` columns
  other than the certificate's, and the reply message texts. Foreign-key failures are left out
  too, because the schema is not part of this model; the exception is the lookups whose failure
  decides a branch.
- The certificate reply's text is left out, including its `toLocaleDateString` date. The reply
  keeps the message kind and the two names the text is built from.
- CompletionLesson.PercentageRoute: the percentages are exact rationals. `toFixed(2)` rounding
  and the string form of the reply are not modelled.
- AuthMiddleware.VerifyStatus: whether the store accepts a selection of a `status` column
  depends on the schema, which is not part of this model. It is a parameter
  (`statusColumnExists`). The value of the selected `status` column, which the middleware
  attaches with the id, is not modelled.
- AdminController.InitialUser: the createuser write sets neither `isLoggedIn` nor `batchId`.
  They are assumed to default to false and null; the database schema is not part of this model.
- AuthMiddleware.ExpiryDecision: a decode failure is modelled as no claims. The library's
  exceptions on malformed input are folded into that case.
- MentorController.AddNote: the 300-character limit counts characters. JavaScript counts UTF-16
  code units.
- TraineeController.SubmitVerification: the form's values are strings. Explicit `null` values in
  the request body are not modelled. The stored dob is the submitted text, not a Date.
- TraineeController.EditUserWith: the Socket.IO emit to the user's room is left out. It is
  transport, not state. The stored notification row is modelled; whether the server was
  initialised is a parameter.
- The remaining trainee routes are query shaping and not part of this model:
  - status;
  - deleting a profile;
  - the certificate listings;
  - the challenge, lesson and class listings;
  - the getUserId helper.
- The admin class, batch, challenge and lesson routes are not part of this model. They call the
  ORM through the module object, not the client.
- The multer disk storage, file names and directory creation are left out. The parser is
  abstracted to the list of accepted uploads and the allow-list, count and size limits.
- Concurrency is left out. `Promise.all` fan-outs are sequential loops. The race between the
  certificate check and the create is not modelled, so `OneCertificatePerPair` holds for
  sequential calls only.
- Fresh ids come from `Common.FreshId`, which picks an id longer than every id in use. It stands
  for the database's id generator.
- Server wiring, route mounting, seeding and the S3 service are left out.

## Findings

| source | as written | input that shows it | evidently intended | confidence | as-written member | corrected member |
|---|---|---|---|---|---|---|
| src/Controllers/CompletionLesson.js:192-195 | `findFirst(...).id` reads `.id` of the un-awaited promise, so `classId` is undefined. `class.findUnique({ where: { id: undefined } })` then throws. | A trainee who completes the last remaining lesson while every challenge is already completed. The completion row is written, the reply is 500, and no certificate is created. | The certificate is issued for the trainee's class: the trainee then holds exactly one certificate for it. | not executed | CompletionLesson.MarkCompleteAsWritten | CompletionLesson.MarkComplete |
| src/Controllers/TraineeController.js:268 | `socket.getIO()` throws "Socket.IO not initialized!" (src/Controllers/SocketHandler.js:32-36), because src/index.js:1-22 never calls `init`. The throw is caught and answered 500. | `PUT /trainee/edit/<existing id>` with `fullName: "A"`. The user row, the notification row and (with profile values) the profile are written, and the reply is 500. | The 200 reply with the edited columns, after the same writes. | not executed | TraineeController.EditUserAsWritten | TraineeController.EditUser |
| src/Controllers/MentorController.js:88-93 | `req.user.userId` is read, but protect attaches `{id, role}`, so `userId` is undefined. | A TRAINEE requesting `/note/list/<own id>` gets 403. | The trainee sees their own FOR_TRAINEE notes. | not executed | MentorController.TraineeRefusedAsWritten | MentorController.NoteListAccess |
