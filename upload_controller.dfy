/** The lesson upload routes: POST /lesson and PUT /lesson/:lessonId with their multipart
    upload gate (file-type allow-list, size limit, at most three files), the lesson row and one
    file row per uploaded file. */
module UploadController {
  import opened Common
  import opened Tables

  /** A file as the multipart parser hands it to the route. */
  datatype Upload = Upload(originalname: string, path: string, mimetype: string, size: nat)

  const AllowedMimeTypes: seq<string> := ["image/jpeg", "image/png", "application/pdf", "application/msword"]

  /** The field limit of `array("files", 3)`. */
  const MaxFiles: nat := 3

  /** The per-file limit, 100 MiB. */
  const MaxFileSize: nat := 100 * 1024 * 1024

  predicate FileAccepted(f: Upload) {
    f.mimetype in AllowedMimeTypes && f.size <= MaxFileSize
  }

  /** Whether the upload middleware lets the request through to the route. A rejection is
      passed to `next(err)`; the router's error middleware is registered before the routes and
      is never reached, so the rejection ends in the default error handler with 500. */
  predicate UploadAccepted(files: seq<Upload>) {
    |files| <= MaxFiles && forall f :: f in files ==> FileAccepted(f)
  }

  datatype LessonReply =
    | UploadRejected
    | MissingLessonFields
    | NoFiles
    | LessonNotFound
    | LessonWriteFailed
    | LessonSaved(lessonId: Id, lesson: Lesson, files: seq<FileRow>)
  {
    function Status(isUpdate: bool): nat {
      match this
      case UploadRejected => 500
      case MissingLessonFields => 400
      case NoFiles => 400
      case LessonNotFound => 404
      case LessonWriteFailed => 500
      case LessonSaved(_, _, _) => if isUpdate then 200 else 201
    }
  }

  /** The file row created for an upload: its name, path, type and size, linked to the lesson. */
  predicate RowFor(row: FileRow, f: Upload, lessonId: Id) {
    && row.filename == f.originalname && row.filepath == f.path
    && row.mimetype == f.mimetype && row.size == f.size
    && row.lessonId == Some(lessonId)
  }

  /** The `file.create` calls of both routes, one per upload in request order, each with a
      fresh id. */
  method AddFiles(db: Db, uploads: seq<Upload>, lessonId: Id) returns (rows: seq<FileRow>)
    requires DistinctFileIds(db.files)
    modifies db`files
    ensures DistinctFileIds(db.files)
    ensures db.files == old(db.files) + rows
    ensures |rows| == |uploads|
    ensures forall i :: 0 <= i < |rows| ==> RowFor(rows[i], uploads[i], lessonId)
    ensures forall i :: 0 <= i < |rows| ==> rows[i].id !in FileIds(old(db.files))
  {
    rows := [];
    var i := 0;
    while i < |uploads|
      invariant 0 <= i <= |uploads|
      invariant |rows| == i
      invariant db.files == old(db.files) + rows
      invariant DistinctFileIds(db.files)
      invariant forall j :: 0 <= j < i ==> RowFor(rows[j], uploads[j], lessonId)
      invariant forall j :: 0 <= j < i ==> rows[j].id !in FileIds(old(db.files))
    {
      var f := uploads[i];
      var id := FreshId(FileIds(db.files));
      var row := FileRow(id, f.originalname, f.path, f.mimetype, f.size, Some(lessonId));
      forall j | 0 <= j < |db.files| ensures db.files[j].id != id {
        assert db.files[j].id in FileIds(db.files);
      }
      assert id !in FileIds(old(db.files)) by {
        forall j | 0 <= j < |old(db.files)| ensures old(db.files)[j].id != id {
          assert old(db.files)[j] == db.files[j];
        }
      }
      db.files := db.files + [row];
      rows := rows + [row];
      i := i + 1;
    }
  }

  /** POST /lesson. */
  method CreateLesson(db: Db, title: Option<string>, description: Option<string>, deadline: Option<string>,
                      classId: Option<Id>, batchId: Option<Id>, uploads: seq<Upload>, validDate: string -> bool)
    returns (r: LessonReply)
    requires db.Valid()
    modifies db`lessons, db`files
    ensures db.Valid()
    ensures r == UploadRejected <==> !UploadAccepted(uploads)
    ensures r == MissingLessonFields <==>
              UploadAccepted(uploads) &&
              !(Truthy(title) && Truthy(description) && Truthy(deadline) && Truthy(classId) && Truthy(batchId))
    ensures r == NoFiles <==>
              UploadAccepted(uploads) &&
              Truthy(title) && Truthy(description) && Truthy(deadline) && Truthy(classId) && Truthy(batchId) &&
              |uploads| == 0
    ensures r == LessonWriteFailed <==>
              UploadAccepted(uploads) &&
              Truthy(title) && Truthy(description) && Truthy(deadline) && Truthy(classId) && Truthy(batchId) &&
              |uploads| > 0 && !validDate(deadline.value)
    ensures r.LessonSaved? <==>
              UploadAccepted(uploads) &&
              Truthy(title) && Truthy(description) && Truthy(deadline) && Truthy(classId) && Truthy(batchId) &&
              |uploads| > 0 && validDate(deadline.value)
    ensures !r.LessonSaved? ==> db.lessons == old(db.lessons) && db.files == old(db.files)
    ensures r.LessonSaved? ==>
              && 0 < |uploads| <= MaxFiles
              && validDate(deadline.value)
              && r.lessonId !in old(db.lessons)
              && r.lesson == Lesson(title.value, description.value, deadline.value, classId.value, batchId.value)
              && db.lessons == old(db.lessons)[r.lessonId := r.lesson]
              && db.files == old(db.files) + r.files
              && |r.files| == |uploads|
              && forall i :: 0 <= i < |uploads| ==> RowFor(r.files[i], uploads[i], r.lessonId)
  {
    if !UploadAccepted(uploads) {
      return UploadRejected;
    }
    if !(Truthy(title) && Truthy(description) && Truthy(deadline) && Truthy(classId) && Truthy(batchId)) {
      return MissingLessonFields;
    }
    if |uploads| == 0 {
      return NoFiles;
    }
    if !validDate(deadline.value) {
      // `new Date(deadline)` is an invalid date, which the create call rejects.
      return LessonWriteFailed;
    }
    var lessonId := FreshId(db.lessons.Keys);
    var lesson := Lesson(title.value, description.value, deadline.value, classId.value, batchId.value);
    db.lessons := db.lessons[lessonId := lesson];
    var rows := AddFiles(db, uploads, lessonId);
    r := LessonSaved(lessonId, lesson, rows);
  }

  /** The lesson row after the update: each supplied truthy value replaces the stored one,
      every other column keeps its value. */
  function UpdatedLesson(existing: Lesson, title: Option<string>, description: Option<string>, deadline: Option<string>,
                         classId: Option<Id>, batchId: Option<Id>): (l: Lesson)
    ensures l.title == (if Truthy(title) then title.value else existing.title)
    ensures l.description == (if Truthy(description) then description.value else existing.description)
    ensures l.deadline == (if Truthy(deadline) then deadline.value else existing.deadline)
    ensures l.classId == (if Truthy(classId) then classId.value else existing.classId)
    ensures l.batchId == (if Truthy(batchId) then batchId.value else existing.batchId)
  {
    Lesson(OrElse(title, existing.title), OrElse(description, existing.description),
           OrElse(deadline, existing.deadline), OrElse(classId, existing.classId), OrElse(batchId, existing.batchId))
  }

  /** An update with no truthy value leaves the lesson as it was. */
  lemma EmptyUpdateKeepsLesson(existing: Lesson)
    ensures UpdatedLesson(existing, None, None, None, None, None) == existing
  {
  }

  /** Whether the lesson has file rows (`existingLesson.files.length > 0`). */
  predicate HasFiles(files: seq<FileRow>, lessonId: Id) {
    exists f :: f in files && f.lessonId == Some(lessonId)
  }

  /** `file.deleteMany({ where: { lessonId } })`. */
  function RemoveLessonFiles(files: seq<FileRow>, lessonId: Id): (r: seq<FileRow>)
    ensures forall f :: f in r <==> f in files && f.lessonId != Some(lessonId)
  {
    Filter(files, (f: FileRow) => f.lessonId != Some(lessonId))
  }

  /** The `files.length > 0` half of the deletion guard changes nothing: on a lesson without
      files the deletion is a no-op. */
  lemma DeletionGuardRedundant(files: seq<FileRow>, lessonId: Id)
    requires !HasFiles(files, lessonId)
    ensures RemoveLessonFiles(files, lessonId) == files
  {
    FilterKeepsAll(files, (f: FileRow) => f.lessonId != Some(lessonId));
  }

  /** The file table after the deletion step of the update. */
  function AfterDeletion(files: seq<FileRow>, lessonId: Id, deleteOldFiles: Option<string>): seq<FileRow> {
    if deleteOldFiles == Some("true") && HasFiles(files, lessonId) then RemoveLessonFiles(files, lessonId) else files
  }

  /** PUT /lesson/:lessonId. */
  method UpdateLesson(db: Db, lessonId: Id, title: Option<string>, description: Option<string>, deadline: Option<string>,
                      classId: Option<Id>, batchId: Option<Id>, deleteOldFiles: Option<string>,
                      uploads: seq<Upload>, validDate: string -> bool)
    returns (r: LessonReply)
    requires db.Valid()
    modifies db`lessons, db`files
    ensures db.Valid()
    ensures r == UploadRejected <==> !UploadAccepted(uploads)
    ensures r == LessonNotFound <==> UploadAccepted(uploads) && lessonId !in old(db.lessons)
    ensures r == LessonWriteFailed <==>
              UploadAccepted(uploads) && lessonId in old(db.lessons) && Truthy(deadline) && !validDate(deadline.value)
    ensures r.LessonSaved? <==>
              UploadAccepted(uploads) && lessonId in old(db.lessons) && !(Truthy(deadline) && !validDate(deadline.value))
    ensures !r.LessonSaved? ==> db.lessons == old(db.lessons) && db.files == old(db.files)
    ensures r.LessonSaved? ==>
              && r.lessonId == lessonId
              && r.lesson == UpdatedLesson(old(db.lessons)[lessonId], title, description, deadline, classId, batchId)
              && db.lessons == old(db.lessons)[lessonId := r.lesson]
              && db.files == AfterDeletion(old(db.files), lessonId, deleteOldFiles) + r.files
              && |r.files| == |uploads|
              && forall i :: 0 <= i < |uploads| ==> RowFor(r.files[i], uploads[i], lessonId)
  {
    if !UploadAccepted(uploads) {
      return UploadRejected;
    }
    if lessonId !in db.lessons {
      return LessonNotFound;
    }
    if Truthy(deadline) && !validDate(deadline.value) {
      return LessonWriteFailed;
    }
    var existing := db.lessons[lessonId];
    var lesson := UpdatedLesson(existing, title, description, deadline, classId, batchId);
    db.lessons := db.lessons[lessonId := lesson];
    if deleteOldFiles == Some("true") && HasFiles(db.files, lessonId) {
      FilterKeepsDistinct(db.files, (f: FileRow) => f.lessonId != Some(lessonId), FileId);
      db.files := RemoveLessonFiles(db.files, lessonId);
    }
    var rows: seq<FileRow> := [];
    if |uploads| > 0 {
      rows := AddFiles(db, uploads, lessonId);
    }
    r := LessonSaved(lessonId, lesson, rows);
  }

  /** After an update that asked for deletion, every file row of the lesson is one of the
      files just uploaded. */
  lemma DeletionLeavesOnlyNewFiles(files: seq<FileRow>, lessonId: Id, rows: seq<FileRow>)
    ensures forall f :: f in AfterDeletion(files, lessonId, Some("true")) + rows && f.lessonId == Some(lessonId) ==> f in rows
  {
  }
}
