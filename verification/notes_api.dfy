/** `/api/notes` (src/app/api/notes/route.js): POST checks title then
    content, defaults the colour to "indigo" and the pin to false, and appends
    one note attributed to the caller; GET lists every note, newest first. */
module NotesApi {
  import opened Common
  import opened Lists
  import opened Sorting
  import opened ApiErrors
  import opened Auth
  import opened Store

  /** The destructured body `{ title, content, color = 'indigo', isPinned = false }`;
      an absent `isPinned` is None. */
  datatype NoteRequest = NoteRequest(title: Field, content: Field, color: Field, isPinned: Option<bool>)

  datatype NoteDraft = NoteDraft(title: string, content: string, color: Option<string>, isPinned: bool)

  const DefaultColor: string := "indigo"

  const MissingTitle := Rejection(400, "Title is required")
  const MissingContent := Rejection(400, "Content is required")

  /** The validation chain of POST: title first, then content. */
  function CheckNote(req: NoteRequest): (r: Result<NoteDraft, Rejection>)
    ensures !req.title.Truthy() ==> r == Failure(MissingTitle)
    ensures req.title.Truthy() && !req.content.Truthy() ==> r == Failure(MissingContent)
    ensures r.Success? <==> req.title.Truthy() && req.content.Truthy()
    ensures r.Success? ==>
              r.value.title == req.title.s && r.value.content == req.content.s
              && r.value.isPinned == req.isPinned.GetOr(false)
              && (req.color.Undefined? ==> r.value.color == Some(DefaultColor))
              && (req.color.Str? ==> r.value.color == Some(req.color.s))
              && (req.color.Null? ==> r.value.color.None?)
  {
    if !req.title.Truthy() then Failure(MissingTitle)
    else if !req.content.Truthy() then Failure(MissingContent)
    else Success(NoteDraft(req.title.s, req.content.s, req.color.WithDefault(DefaultColor).Stored(), req.isPinned.GetOr(false)))
  }

  function NewNote(d: NoteDraft, id: Id, userId: Id, now: int): Note {
    Note(id, d.title, d.content, d.color, d.isPinned, userId, now)
  }

  /** POST /api/notes: a rejected request writes nothing; an accepted one
      appends exactly one note whose creator is the caller and answers 201. */
  method Post(db: Database, session: Option<User>, req: NoteRequest, newId: Id, now: int) returns (r: Response<Note>)
    requires UniqueIds(db.notes, NoteKey)
    modifies db`notes
    ensures UniqueIds(db.notes, NoteKey)
    ensures session.None? ==> r == HandleApiError(RequireAuth(session).error)
    ensures session.Some? && CheckNote(req).Failure? ==> r == Reject(CheckNote(req).error)
    ensures (session.Some? && CheckNote(req).Success? && newId in Ids(old(db.notes), NoteKey))
              ==> r == HandleApiError(DuplicateKey)
    ensures r.status != 201 ==> db.notes == old(db.notes)
    ensures r.status == 201 <==>
              session.Some? && CheckNote(req).Success? && newId !in Ids(old(db.notes), NoteKey)
    ensures r.status == 201 ==>
              var n := NewNote(CheckNote(req).value, newId, session.value.id, now);
              db.notes == old(db.notes) + [n] && r.body == DataBody(n)
  {
    var auth := RequireAuth(session);
    if auth.Failure? {
      return HandleApiError(auth.error);
    }
    var check := CheckNote(req);
    if check.Failure? {
      return Reject(check.error);
    }
    if newId in Ids(db.notes, NoteKey) {
      return HandleApiError(DuplicateKey);
    }
    var n := NewNote(check.value, newId, auth.value.id, now);
    AppendUnique(db.notes, n, NoteKey);
    db.notes := db.notes + [n];
    r := SuccessResponse(n, 201);
  }

  function CreatedAt(n: Note): int { n.createdAt }

  /** GET /api/notes: every note, newest first. */
  function Get(session: Option<User>, rows: seq<Note>): (r: Response<seq<Note>>)
    ensures session.None? ==> r == HandleApiError(RequireAuth(session).error)
    ensures session.Some? ==> r.status == 200 && r.body.DataBody? && multiset(r.body.data) == multiset(rows)
    ensures session.Some? ==>
              forall i, j :: 0 <= i < j < |r.body.data| ==> r.body.data[i].createdAt >= r.body.data[j].createdAt
  {
    var auth := RequireAuth(session);
    if auth.Failure? then HandleApiError(auth.error)
    else SuccessResponse(OrderByDesc(rows, CreatedAt))
  }

  /** A note posted with only title and content is unpinned and indigo. */
  lemma Defaults(title: string, content: string)
    requires title != "" && content != ""
    ensures CheckNote(NoteRequest(Str(title), Str(content), Undefined, None))
         == Success(NoteDraft(title, content, Some("indigo"), false))
  {
  }
}
