/** The note routes of the mentor controller: adding a note, a mentor's or examiner's listing, the
    trainee's listing and deleting a note. Every route runs behind `protect`, whose
    attachment is the Principal {id, role}. */
module MentorController {
  import opened Common
  import opened Tables

  /** The longest note content accepted, in characters. */
  const MaxNoteLength: nat := 300

  /** The visibility value a trainee is allowed to read. */
  const ForTrainee: string := "FOR_TRAINEE"

  /** note/add validation: content is present, non-empty and at most 300 characters. */
  predicate ValidNoteContent(content: Option<string>) {
    Truthy(content) && |content.value| <= MaxNoteLength
  }

  /** POST /note/add. Returns 400 and stores nothing for invalid content; otherwise stores
      exactly one note carrying the four request values unchanged and returns 201 with it. */
  method AddNote(db: Db, content: Option<string>, visibility: Option<string>, graderId: Option<Id>, traineeId: Option<Id>)
    returns (status: nat, note: Option<Note>)
    requires db.Valid()
    modifies db`notes
    ensures db.Valid()
    ensures status == 400 <==> !ValidNoteContent(content)
    ensures status == 400 ==> note.None? && db.notes == old(db.notes)
    ensures status != 400 ==>
              && status == 201 && note.Some?
              && db.notes == old(db.notes) + [note.value]
              && note.value.id !in NoteIds(old(db.notes))
              && note.value.content == content.value && note.value.visibility == visibility
              && note.value.graderId == graderId && note.value.traineeId == traineeId
              && note.value.finalCompletionId.None?
  {
    if !ValidNoteContent(content) {
      return 400, None;
    }
    var id := FreshId(NoteIds(db.notes));
    var row := Note(id, content.value, visibility, graderId, traineeId, None);
    forall i | 0 <= i < |db.notes| ensures db.notes[i].id != id {
      assert db.notes[i].id in NoteIds(db.notes);
    }
    db.notes := db.notes + [row];
    return 201, Some(row);
  }

  // ---------------------------------------------------------------------------
  // Listings
  // ---------------------------------------------------------------------------

  /** The reply of a listing route. */
  datatype ListReply<T> = Forbidden | Listed(items: seq<T>) | ServerError
  {
    function Status(): nat {
      match this
      case Forbidden => 403
      case Listed(_) => 200
      case ServerError => 500
    }
  }

  /** The where clause of GET /notes/:graderId/:visibility?: the graderId always, the visibility
      only when the path supplies a truthy one. */
  predicate GraderWhere(graderId: Id, visibility: Option<string>, n: Note) {
    n.graderId == Some(graderId) && (Truthy(visibility) ==> n.visibility == visibility)
  }

  datatype PersonView = PersonView(id: Id, fullName: string, nickname: string)

  datatype GraderNoteView = GraderNoteView(
    id: Id, content: string, visibility: Option<string>, grader: PersonView, trainee: PersonView)

  /** A related user of a note is present (reading `.id` of a missing relation throws). */
  predicate Resolves(userId: Option<Id>, users: map<Id, User>) {
    userId.Some? && userId.value in users
  }

  /** The person part of the listing transform, with its two defaults. */
  function Person(u: User): (v: PersonView)
    ensures v.fullName == (if Truthy(u.Field("fullName")) then u.Field("fullName").value else "Unknown")
    ensures v.nickname == (if Truthy(u.Field("nickname")) then u.Field("nickname").value else "No Nickname")
    ensures v.id == u.id
  {
    PersonView(u.id, OrElse(u.Field("fullName"), "Unknown"), OrElse(u.Field("nickname"), "No Nickname"))
  }

  function GraderView(n: Note, users: map<Id, User>): GraderNoteView
    requires Resolves(n.graderId, users) && Resolves(n.traineeId, users)
  {
    GraderNoteView(n.id, n.content, n.visibility, Person(users[n.graderId.value]), Person(users[n.traineeId.value]))
  }

  /** The map over the selected notes; None when some note's grader or trainee is missing,
      which ends in the route's catch. */
  function GraderViews(notes: seq<Note>, users: map<Id, User>): (r: Option<seq<GraderNoteView>>)
    ensures r.Some? <==>
              forall i :: 0 <= i < |notes| ==> Resolves(notes[i].graderId, users) && Resolves(notes[i].traineeId, users)
    ensures r.Some? ==>
              |r.value| == |notes| && forall i :: 0 <= i < |notes| ==> r.value[i] == GraderView(notes[i], users)
  {
    if |notes| == 0 then Some([])
    else if !(Resolves(notes[0].graderId, users) && Resolves(notes[0].traineeId, users)) then None
    else
      match GraderViews(notes[1..], users)
      case None => None
      case Some(rest) => Some([GraderView(notes[0], users)] + rest)
  }

  /** `note.findMany({ where: whereClause })` of the listing by graderId. */
  function GraderSelection(notes: seq<Note>, graderId: Id, visibility: Option<string>): (r: seq<Note>)
    ensures forall n :: n in r <==> n in notes && GraderWhere(graderId, visibility, n)
  {
    Filter(notes, (n: Note) => GraderWhere(graderId, visibility, n))
  }

  /** GET /notes/:graderId/:visibility?. */
  function GraderListing(role: string, graderId: Id, visibility: Option<string>, notes: seq<Note>, users: map<Id, User>)
    : (r: ListReply<GraderNoteView>)
    ensures r.Status() == 403 <==> !IsGrader(role)
    ensures var selected := GraderSelection(notes, graderId, visibility);
            r.Listed? <==>
              IsGrader(role) &&
              forall n :: n in selected ==> Resolves(n.graderId, users) && Resolves(n.traineeId, users)
    ensures var selected := GraderSelection(notes, graderId, visibility);
            r.Listed? ==>
              |r.items| == |selected| &&
              forall i :: 0 <= i < |selected| ==> r.items[i] == GraderView(selected[i], users)
  {
    if !IsGrader(role) then Forbidden
    else
      var selected := GraderSelection(notes, graderId, visibility);
      match GraderViews(selected, users)
      case None =>
        var i :| 0 <= i < |selected| && !(Resolves(selected[i].graderId, users) && Resolves(selected[i].traineeId, users));
        assert selected[i] in selected;
        ServerError
      case Some(views) => Listed(views)
  }

  /** The visibility only narrows a graderId's notes: without one, every note with that graderId
      is selected whatever its visibility; with one, a subset of those. */
  lemma VisibilityOnlyNarrows(graderId: Id, v: string, notes: seq<Note>)
    ensures forall n :: n in GraderSelection(notes, graderId, Some(v)) ==> n in GraderSelection(notes, graderId, None)
    ensures forall n :: n in GraderSelection(notes, graderId, None) <==> n in notes && n.graderId == Some(graderId)
  {
  }

  // ---------------------------------------------------------------------------
  // GET /note/list/:traineeId
  // ---------------------------------------------------------------------------

  /** The `grader` block of the trainee listing. */
  datatype GraderSummary = GraderSummary(fullName: string, batch: string, role: string)

  datatype TraineeNoteView = TraineeNoteView(note: Note, grader: GraderSummary)

  /** A nullable column interpolated into a template string. */
  function TemplateText(s: Option<string>): string {
    if s.Some? then s.value else "null"
  }

  function Summary(g: User): (s: GraderSummary)
    ensures s.role == g.role
    ensures s.batch == (if Truthy(g.batchId) then g.batchId.value else "No Batch")
    ensures s.fullName == TemplateText(g.Field("fullName")) + " (" + OrElse(g.Field("nickname"), "No Nickname") + ")"
  {
    GraderSummary(
      TemplateText(g.Field("fullName")) + " (" + OrElse(g.Field("nickname"), "No Nickname") + ")",
      OrElse(g.batchId, "No Batch"),
      g.role)
  }

  function TraineeViews(notes: seq<Note>, users: map<Id, User>): (r: Option<seq<TraineeNoteView>>)
    ensures r.Some? <==> forall i :: 0 <= i < |notes| ==> Resolves(notes[i].graderId, users)
    ensures r.Some? ==>
              |r.value| == |notes| &&
              forall i :: 0 <= i < |notes| ==>
                r.value[i] == TraineeNoteView(notes[i], Summary(users[notes[i].graderId.value]))
  {
    if |notes| == 0 then Some([])
    else if !Resolves(notes[0].graderId, users) then None
    else
      match TraineeViews(notes[1..], users)
      case None => None
      case Some(rest) => Some([TraineeNoteView(notes[0], Summary(users[notes[0].graderId.value]))] + rest)
  }

  /** The trainee's own view: that trainee's notes marked FOR_TRAINEE. */
  function TraineeSelection(notes: seq<Note>, traineeId: Id): (r: seq<Note>)
    ensures forall n :: n in r <==> n in notes && n.traineeId == Some(traineeId) && n.visibility == Some(ForTrainee)
  {
    Filter(notes, (n: Note) => n.traineeId == Some(traineeId) && n.visibility == Some(ForTrainee))
  }

  /** The view of MENTOR, EXAMINER and ADMIN: all of that trainee's notes. */
  function AllOfTrainee(notes: seq<Note>, traineeId: Id): (r: seq<Note>)
    ensures forall n :: n in r <==> n in notes && n.traineeId == Some(traineeId)
  {
    Filter(notes, (n: Note) => n.traineeId == Some(traineeId))
  }

  /** The branch of the trainee listing taken for a role and the user id read from the
      request (None: undefined); None is the 403 branch. */
  function NoteListSelection(role: string, userId: Option<Id>, traineeId: Id, notes: seq<Note>): Option<seq<Note>> {
    if role == TRAINEE && userId == Some(traineeId) then Some(TraineeSelection(notes, traineeId))
    else if IsGrader(role) then Some(AllOfTrainee(notes, traineeId))
    else None
  }

  /** GET /note/list/:traineeId, given the role and the user id read from the request. */
  function NoteListing(role: string, userId: Option<Id>, traineeId: Id, notes: seq<Note>, users: map<Id, User>)
    : (r: ListReply<TraineeNoteView>)
    ensures r.Status() == 403 <==> !(role == TRAINEE && userId == Some(traineeId)) && !IsGrader(role)
    ensures var sel := NoteListSelection(role, userId, traineeId, notes);
            r.Listed? <==> sel.Some? && forall n :: n in sel.value ==> Resolves(n.graderId, users)
    ensures var sel := NoteListSelection(role, userId, traineeId, notes);
            r.Listed? ==>
              |r.items| == |sel.value| &&
              forall i :: 0 <= i < |r.items| ==>
                r.items[i].note == sel.value[i] && r.items[i].grader == Summary(users[sel.value[i].graderId.value])
  {
    match NoteListSelection(role, userId, traineeId, notes)
    case None => Forbidden
    case Some(sel) =>
      match TraineeViews(sel, users)
      case None =>
        var i :| 0 <= i < |sel| && !Resolves(sel[i].graderId, users);
        assert sel[i] in sel;
        ServerError
      case Some(views) => Listed(views)
  }

  /** The listed notes are exactly the selected ones. */
  lemma ListedNotesAreSelected(role: string, userId: Option<Id>, traineeId: Id, notes: seq<Note>, users: map<Id, User>)
    requires NoteListing(role, userId, traineeId, notes, users).Listed?
    ensures var items := NoteListing(role, userId, traineeId, notes, users).items;
            var sel := NoteListSelection(role, userId, traineeId, notes).value;
            forall n :: n in sel <==> exists v :: v in items && v.note == n
  {
    var items := NoteListing(role, userId, traineeId, notes, users).items;
    var sel := NoteListSelection(role, userId, traineeId, notes).value;
    forall n | n in sel ensures exists v :: v in items && v.note == n {
      var i :| 0 <= i < |sel| && sel[i] == n;
      assert items[i] in items;
    }
    forall v | v in items ensures v.note in sel {
      var i :| 0 <= i < |items| && items[i] == v;
    }
  }

  /** The route as written: the user id is read from `req.user.userId`, a field `protect` does
      not attach. */
  function NoteListAsWritten(p: Principal, traineeId: Id, notes: seq<Note>, users: map<Id, User>): ListReply<TraineeNoteView> {
    NoteListing(p.role, None, traineeId, notes, users)
  }

  /** As written, every trainee is refused, even on their own notes. */
  lemma TraineeRefusedAsWritten(p: Principal, notes: seq<Note>, users: map<Id, User>)
    requires p.role == TRAINEE
    ensures NoteListAsWritten(p, p.id, notes, users) == Forbidden
  {
    assert NoteListAsWritten(p, p.id, notes, users).Status() == 403;
  }

  /** The route with the principal's own id, as intended. */
  function NoteList(p: Principal, traineeId: Id, notes: seq<Note>, users: map<Id, User>): ListReply<TraineeNoteView> {
    NoteListing(p.role, Some(p.id), traineeId, notes, users)
  }

  /** With the intended id, a trainee reading their own notes is admitted and is listed
      exactly their FOR_TRAINEE notes; a trainee reading another's notes is refused; graders
      are listed all of the trainee's notes. */
  lemma NoteListAccess(p: Principal, traineeId: Id, notes: seq<Note>, users: map<Id, User>)
    ensures p.role == TRAINEE && p.id != traineeId ==> NoteList(p, traineeId, notes, users) == Forbidden
    ensures p.role == TRAINEE && p.id == traineeId ==> NoteList(p, traineeId, notes, users) != Forbidden
    ensures var r := NoteList(p, traineeId, notes, users);
            p.role == TRAINEE && r.Listed? ==>
              forall n :: (exists v :: v in r.items && v.note == n) <==>
                          n in notes && n.traineeId == Some(traineeId) && n.visibility == Some(ForTrainee)
    ensures var r := NoteList(p, traineeId, notes, users);
            IsGrader(p.role) && r.Listed? ==>
              forall n :: (exists v :: v in r.items && v.note == n) <==> n in notes && n.traineeId == Some(traineeId)
  {
    var r := NoteList(p, traineeId, notes, users);
    assert p.role == TRAINEE ==> !IsGrader(p.role);
    assert p.role == TRAINEE ==> (r.Status() == 403 <==> p.id != traineeId);
    if r.Listed? {
      ListedNotesAreSelected(p.role, Some(p.id), traineeId, notes, users);
    }
  }

  // ---------------------------------------------------------------------------
  // DELETE /notes/:noteId
  // ---------------------------------------------------------------------------

  /** `note.findUnique({ where: { id } })` on a table with distinct ids. */
  function FindNote(notes: seq<Note>, id: Id): (r: Option<Note>)
    ensures r.Some? ==> r.value in notes && r.value.id == id
    ensures r.None? ==> forall n :: n in notes ==> n.id != id
  {
    if |notes| == 0 then None
    else if notes[0].id == id then Some(notes[0])
    else
      assert notes == [notes[0]] + notes[1..];
      FindNote(notes[1..], id)
  }

  /** The status of the delete route, in the order of its guards. */
  function DeleteStatus(p: Principal, noteId: Id, notes: seq<Note>): nat {
    if !IsGrader(p.role) then 403
    else match FindNote(notes, noteId)
      case None => 404
      case Some(n) => if p.role != ADMIN && n.graderId != Some(p.id) then 403 else 200
  }

  /** The delete authorization: a note is deleted exactly when it exists and the caller is an
      ADMIN, or a MENTOR or EXAMINER who is the note's grader. */
  lemma DeleteAllowedIff(p: Principal, noteId: Id, notes: seq<Note>)
    requires DistinctNoteIds(notes)
    ensures DeleteStatus(p, noteId, notes) == 200 <==>
              exists n :: n in notes && n.id == noteId &&
                          (p.role == ADMIN || (IsGrader(p.role) && n.graderId == Some(p.id)))
    ensures DeleteStatus(p, noteId, notes) == 404 <==>
              IsGrader(p.role) && forall n :: n in notes ==> n.id != noteId
  {
  }

  /** `note.delete({ where: { id } })`: the table without the addressed row. */
  function Without(notes: seq<Note>, noteId: Id): (r: seq<Note>)
    ensures forall n :: n in r <==> n in notes && n.id != noteId
  {
    Filter(notes, (n: Note) => n.id != noteId)
  }

  /** DELETE /notes/:noteId: removes exactly the addressed note on 200 and nothing otherwise. */
  method DeleteNote(db: Db, p: Principal, noteId: Id) returns (status: nat)
    requires db.Valid()
    modifies db`notes
    ensures db.Valid()
    ensures status == DeleteStatus(p, noteId, old(db.notes))
    ensures status == 200 ==> db.notes == Without(old(db.notes), noteId)
    ensures status != 200 ==> db.notes == old(db.notes)
  {
    status := DeleteStatus(p, noteId, db.notes);
    if status == 200 {
      var before := db.notes;
      db.notes := Without(before, noteId);
      FilterKeepsDistinct(before, (n: Note) => n.id != noteId, NoteId);
    }
  }

}
