/** `/api/todos` (src/app/api/todos/route.js): POST checks the title, the
    status (defaulting to "pending") and, when one is given, the assignee,
    then appends one todo attributed to the caller; GET lists todos, optionally
    narrowed to an assignee and a status, newest first. */
module TodosApi {
  import opened Common
  import opened Lists
  import opened Sorting
  import opened Text
  import opened ApiErrors
  import opened Auth
  import opened Store

  /** The destructured body `{ title, description, status = 'pending', assigneeId }`. */
  datatype TodoRequest = TodoRequest(title: Field, description: Field, status: Field, assigneeId: Field)

  /** The columns POST writes, before the store adds id, creator and timestamp. */
  datatype TodoDraft = TodoDraft(title: string, description: Option<string>, status: string, assigneeId: Option<Id>)

  const Statuses: seq<string> := ["pending", "in_progress", "completed"]

  const MissingTitle := Rejection(400, "Title is required")
  const BadStatus := Rejection(400, "Status must be one of: " + Join(Statuses, ", "))
  const NoAssignee := Rejection(404, "Assignee not found")

  /** The status after the destructuring default. */
  function Status(req: TodoRequest): Field {
    req.status.WithDefault("pending")
  }

  /** The validation chain of POST: title, then status, then assignee (an
      employee), looked up only when an assignee id is given. */
  function CheckTodo(req: TodoRequest, employees: seq<Employee>): (r: Result<TodoDraft, Rejection>)
    ensures !req.title.Truthy() ==> r == Failure(MissingTitle)
    ensures req.title.Truthy() && !IncludedIn(Status(req), Statuses) ==> r == Failure(BadStatus)
    ensures (req.title.Truthy() && IncludedIn(Status(req), Statuses)
             && req.assigneeId.Truthy() && req.assigneeId.s !in Ids(employees, EmployeeKey)) ==> r == Failure(NoAssignee)
    ensures r.Success? <==>
              req.title.Truthy() && IncludedIn(Status(req), Statuses)
              && (req.assigneeId.Truthy() ==> req.assigneeId.s in Ids(employees, EmployeeKey))
    ensures r.Success? ==>
              r.value == TodoDraft(req.title.s, req.description.Stored(), Status(req).s, req.assigneeId.Stored())
              && r.value.status in Statuses
  {
    if !req.title.Truthy() then Failure(MissingTitle)
    else if !IncludedIn(Status(req), Statuses) then Failure(BadStatus)
    else if req.assigneeId.Truthy() && FindEmployee(employees, req.assigneeId.s).None? then Failure(NoAssignee)
    else Success(TodoDraft(req.title.s, req.description.Stored(), Status(req).s, req.assigneeId.Stored()))
  }

  /** `employee.findUnique({ where: { id } })`. */
  function FindEmployee(employees: seq<Employee>, id: Id): (r: Option<Employee>)
    ensures r.None? <==> id !in Ids(employees, EmployeeKey)
  {
    Find(employees, (e: Employee) => e.id == id)
  }

  function NewTodo(d: TodoDraft, id: Id, userId: Id, now: int): Todo {
    Todo(id, d.title, d.description, d.status, d.assigneeId, userId, now)
  }

  /** POST /api/todos: a rejected request writes nothing; an accepted one
      appends exactly one todo whose creator is the caller and answers 201. */
  method Post(db: Database, session: Option<User>, req: TodoRequest, newId: Id, now: int) returns (r: Response<Todo>)
    requires UniqueIds(db.todos, TodoKey)
    modifies db`todos
    ensures UniqueIds(db.todos, TodoKey)
    ensures session.None? ==> r == HandleApiError(RequireAuth(session).error)
    ensures session.Some? && CheckTodo(req, db.employees).Failure? ==> r == Reject(CheckTodo(req, db.employees).error)
    ensures (session.Some? && CheckTodo(req, db.employees).Success?
             && newId in Ids(old(db.todos), TodoKey)) ==> r == HandleApiError(DuplicateKey)
    ensures r.status != 201 ==> db.todos == old(db.todos)
    ensures r.status == 201 <==>
              session.Some? && CheckTodo(req, db.employees).Success? && newId !in Ids(old(db.todos), TodoKey)
    ensures r.status == 201 ==>
              var t := NewTodo(CheckTodo(req, db.employees).value, newId, session.value.id, now);
              db.todos == old(db.todos) + [t] && r.body == DataBody(t)
  {
    var auth := RequireAuth(session);
    if auth.Failure? {
      return HandleApiError(auth.error);
    }
    var check := CheckTodo(req, db.employees);
    if check.Failure? {
      return Reject(check.error);
    }
    if newId in Ids(db.todos, TodoKey) {
      return HandleApiError(DuplicateKey);
    }
    var t := NewTodo(check.value, newId, auth.value.id, now);
    AppendUnique(db.todos, t, TodoKey);
    db.todos := db.todos + [t];
    r := SuccessResponse(t, 201);
  }

  /** The GET `where`: each truthy query parameter constrains its column. */
  predicate Selected(t: Todo, assigneeId: Field, status: Field) {
    (assigneeId.Truthy() ==> t.assigneeId == Some(assigneeId.s)) && (status.Truthy() ==> t.status == status.s)
  }

  function CreatedAt(t: Todo): int { t.createdAt }

  /** GET /api/todos?assigneeId&status: the selected todos, newest first. */
  function Get(session: Option<User>, rows: seq<Todo>, assigneeId: Field, status: Field): (r: Response<seq<Todo>>)
    ensures session.None? ==> r == HandleApiError(RequireAuth(session).error)
    ensures session.Some? ==> r.status == 200 && r.body.DataBody?
    ensures session.Some? ==>
              forall t :: multiset(r.body.data)[t] == if Selected(t, assigneeId, status) then multiset(rows)[t] else 0
    ensures session.Some? ==>
              forall i, j :: 0 <= i < j < |r.body.data| ==> r.body.data[i].createdAt >= r.body.data[j].createdAt
  {
    var auth := RequireAuth(session);
    if auth.Failure? then HandleApiError(auth.error)
    else SuccessResponse(SelectDesc(rows, t => Selected(t, assigneeId, status), CreatedAt))
  }

  /** Without a status the todo is accepted as "pending". */
  lemma StatusDefaultsToPending(req: TodoRequest, employees: seq<Employee>)
    requires req.title.Truthy() && req.status == Undefined && !req.assigneeId.Truthy()
    ensures CheckTodo(req, employees).Success? && CheckTodo(req, employees).value.status == "pending"
  {
  }

  /** Without an assignee id the employee table is never consulted. */
  lemma AbsentAssigneeSkipsLookup(req: TodoRequest, e1: seq<Employee>, e2: seq<Employee>)
    requires !req.assigneeId.Truthy()
    ensures CheckTodo(req, e1) == CheckTodo(req, e2)
  {
  }
}
