/** `/api/employees` (src/app/api/employees/route.js): POST checks name,
    email and company and that the company exists, then appends one employee
    (employees record no creator); GET lists employees, optionally of one
    company, newest first. */
module EmployeesApi {
  import opened Common
  import opened Lists
  import opened Sorting
  import opened ApiErrors
  import opened Auth
  import opened Store

  /** The destructured body `{ name, email, phone, position, companyId }`. */
  datatype EmployeeRequest = EmployeeRequest(name: Field, email: Field, phone: Field, position: Field, companyId: Field)

  datatype EmployeeDraft = EmployeeDraft(
    name: string, email: string, phone: Option<string>, position: Option<string>, companyId: Id)

  const MissingFields := Rejection(400, "Name, email and company are required")
  const NoCompany := Rejection(404, "Company not found")

  predicate HasRequired(req: EmployeeRequest) {
    req.name.Truthy() && req.email.Truthy() && req.companyId.Truthy()
  }

  /** The validation chain of POST: name, email and company, then the company lookup. */
  function CheckEmployee(req: EmployeeRequest, companies: seq<Company>): (r: Result<EmployeeDraft, Rejection>)
    ensures !HasRequired(req) ==> r == Failure(MissingFields)
    ensures r.Success? <==> HasRequired(req) && req.companyId.s in Ids(companies, CompanyKey)
    ensures r.Failure? && r.error == NoCompany <==> HasRequired(req) && req.companyId.s !in Ids(companies, CompanyKey)
    ensures r.Success? ==>
              r.value == EmployeeDraft(req.name.s, req.email.s, req.phone.Stored(), req.position.Stored(), req.companyId.s)
  {
    if !HasRequired(req) then Failure(MissingFields)
    else if FindCompany(companies, req.companyId.s).None? then Failure(NoCompany)
    else Success(EmployeeDraft(req.name.s, req.email.s, req.phone.Stored(), req.position.Stored(), req.companyId.s))
  }

  function NewEmployee(d: EmployeeDraft, id: Id, now: int): Employee {
    Employee(id, d.name, d.email, d.phone, d.position, d.companyId, now)
  }

  /** POST /api/employees: a rejected request writes nothing; an accepted one
      appends exactly one employee and answers 201. */
  method Post(db: Database, session: Option<User>, req: EmployeeRequest, newId: Id, now: int) returns (r: Response<Employee>)
    requires UniqueIds(db.employees, EmployeeKey)
    modifies db`employees
    ensures UniqueIds(db.employees, EmployeeKey)
    ensures session.None? ==> r == HandleApiError(RequireAuth(session).error)
    ensures session.Some? && CheckEmployee(req, db.companies).Failure? ==> r == Reject(CheckEmployee(req, db.companies).error)
    ensures (session.Some? && CheckEmployee(req, db.companies).Success?
             && newId in Ids(old(db.employees), EmployeeKey)) ==> r == HandleApiError(DuplicateKey)
    ensures r.status != 201 ==> db.employees == old(db.employees)
    ensures r.status == 201 <==>
              session.Some? && CheckEmployee(req, db.companies).Success? && newId !in Ids(old(db.employees), EmployeeKey)
    ensures r.status == 201 ==>
              var e := NewEmployee(CheckEmployee(req, db.companies).value, newId, now);
              db.employees == old(db.employees) + [e] && r.body == DataBody(e)
  {
    var auth := RequireAuth(session);
    if auth.Failure? {
      return HandleApiError(auth.error);
    }
    var check := CheckEmployee(req, db.companies);
    if check.Failure? {
      return Reject(check.error);
    }
    if newId in Ids(db.employees, EmployeeKey) {
      return HandleApiError(DuplicateKey);
    }
    var e := NewEmployee(check.value, newId, now);
    AppendUnique(db.employees, e, EmployeeKey);
    db.employees := db.employees + [e];
    r := SuccessResponse(e, 201);
  }

  /** `companyId ? { companyId } : {}`. */
  predicate Selected(e: Employee, companyId: Field) {
    companyId.Truthy() ==> e.companyId == companyId.s
  }

  function CreatedAt(e: Employee): int { e.createdAt }

  /** GET /api/employees?companyId: the selected employees, newest first. */
  function Get(session: Option<User>, rows: seq<Employee>, companyId: Field): (r: Response<seq<Employee>>)
    ensures session.None? ==> r == HandleApiError(RequireAuth(session).error)
    ensures session.Some? ==> r.status == 200 && r.body.DataBody?
    ensures session.Some? ==>
              forall e :: multiset(r.body.data)[e] == if Selected(e, companyId) then multiset(rows)[e] else 0
    ensures session.Some? ==>
              forall i, j :: 0 <= i < j < |r.body.data| ==> r.body.data[i].createdAt >= r.body.data[j].createdAt
  {
    var auth := RequireAuth(session);
    if auth.Failure? then HandleApiError(auth.error)
    else SuccessResponse(SelectDesc(rows, e => Selected(e, companyId), CreatedAt))
  }

  /** An empty `companyId` parameter lists every employee. */
  lemma EmptyFilterListsAll(session: User, rows: seq<Employee>)
    ensures multiset(Get(Some(session), rows, Str("")).body.data) == multiset(rows)
  {
    var r := Get(Some(session), rows, Str("")).body.data;
    assert forall e :: multiset(r)[e] == multiset(rows)[e];
    assert multiset(r) == multiset(rows);
  }
}
