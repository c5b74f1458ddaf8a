/** The examiner routes: the final-presentation listing with its optional filters, and the
    grading note that moves a final completion to GRADED. */
module ExaminerController {
  import opened Common
  import opened Tables

  /** A final presentation, with the two columns the listing filters on. */
  datatype FinalPresentation = FinalPresentation(id: Id, batchId: Id, classId: Id)

  /** The where clause of GET /final-presentations, a set of column = value conditions. */
  type WhereClause = map<string, string>

  /** The clause is built by conditional assignment: each query value is added only when it is
      truthy. */
  method BuildPresentationWhere(batchId: Option<string>, classId: Option<string>) returns (clause: WhereClause)
    ensures "batchId" in clause <==> Truthy(batchId)
    ensures "classId" in clause <==> Truthy(classId)
    ensures "batchId" in clause ==> clause["batchId"] == batchId.value
    ensures "classId" in clause ==> clause["classId"] == classId.value
    ensures clause.Keys <= {"batchId", "classId"}
  {
    clause := map[];
    if Truthy(batchId) {
      clause := clause["batchId" := batchId.value];
    }
    if Truthy(classId) {
      clause := clause["classId" := classId.value];
    }
  }

  /** A row satisfies every condition of the clause. */
  predicate Satisfies(clause: WhereClause, p: FinalPresentation) {
    && ("batchId" in clause ==> p.batchId == clause["batchId"])
    && ("classId" in clause ==> p.classId == clause["classId"])
  }

  function Select(rows: seq<FinalPresentation>, clause: WhereClause): (r: seq<FinalPresentation>)
    ensures forall p :: p in r <==> p in rows && Satisfies(clause, p)
  {
    Filter(rows, (p: FinalPresentation) => Satisfies(clause, p))
  }

  /** GET /final-presentations: the rows of the given batch and class, each filter applying
      only when supplied; with neither, the whole table in its order. */
  method ListFinalPresentations(rows: seq<FinalPresentation>, batchId: Option<string>, classId: Option<string>)
    returns (r: seq<FinalPresentation>)
    ensures forall p :: p in r <==>
              && p in rows
              && (Truthy(batchId) ==> p.batchId == batchId.value)
              && (Truthy(classId) ==> p.classId == classId.value)
    ensures !Truthy(batchId) && !Truthy(classId) ==> r == rows
  {
    var clause := BuildPresentationWhere(batchId, classId);
    r := Select(rows, clause);
    if !Truthy(batchId) && !Truthy(classId) {
      assert clause == map[];
      FilterKeepsAll(rows, (p: FinalPresentation) => Satisfies(clause, p));
    }
  }

  /** POST /note/:presentationId/presentation. Content and visibility are required (400); the
      final completion must exist (404); then a note by the authenticated grader about the
      completion's trainee is created and that completion, and no other, becomes GRADED. */
  method GradePresentation(db: Db, grader: Principal, presentationId: Id, content: Option<string>, visibility: Option<string>)
    returns (status: nat, note: Option<Note>)
    requires db.Valid()
    modifies db`notes, db`finalCompletions
    ensures db.Valid()
    ensures status == 400 <==> !Truthy(content) || !Truthy(visibility)
    ensures status == 404 <==> Truthy(content) && Truthy(visibility) && presentationId !in old(db.finalCompletions)
    ensures status == 400 || status == 404 || status == 201
    ensures status != 201 ==>
              note.None? && db.notes == old(db.notes) && db.finalCompletions == old(db.finalCompletions)
    ensures status == 201 ==>
              && presentationId in old(db.finalCompletions)
              && note.Some?
              && db.notes == old(db.notes) + [note.value]
              && note.value.id !in NoteIds(old(db.notes))
              && note.value.content == content.value
              && note.value.visibility == visibility
              && note.value.graderId == Some(grader.id)
              && note.value.traineeId == Some(old(db.finalCompletions)[presentationId].userId)
              && note.value.finalCompletionId == Some(presentationId)
              && db.finalCompletions ==
                   old(db.finalCompletions)[presentationId := old(db.finalCompletions)[presentationId].(status := GRADED)]
  {
    if !Truthy(content) || !Truthy(visibility) {
      return 400, None;
    }
    if presentationId !in db.finalCompletions {
      return 404, None;
    }
    var completion := db.finalCompletions[presentationId];
    var id := FreshId(NoteIds(db.notes));
    var row := Note(id, content.value, visibility, Some(grader.id), Some(completion.userId), Some(presentationId));
    forall i | 0 <= i < |db.notes| ensures db.notes[i].id != id {
      assert db.notes[i].id in NoteIds(db.notes);
    }
    db.notes := db.notes + [row];
    db.finalCompletions := db.finalCompletions[presentationId := completion.(status := GRADED)];
    return 201, Some(row);
  }
}
