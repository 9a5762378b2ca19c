/** `/api/orders` (src/app/api/orders/route.js): POST checks title and
    company, the status (defaulting to "active") and that the company exists,
    then appends one order attributed to the caller; GET lists orders,
    optionally narrowed to a company and a status, newest first. */
module OrdersApi {
  import opened Common
  import opened Lists
  import opened Sorting
  import opened Text
  import opened ApiErrors
  import opened Auth
  import opened Store

  /** The destructured body `{ title, description, status = 'active', companyId }`;
      the `amount` and `orderNumber` the page also sends are carried only to
      show they are dropped. */
  datatype OrderRequest = OrderRequest(
    title: Field, description: Field, status: Field, companyId: Field, amount: Field, orderNumber: Field)

  datatype OrderDraft = OrderDraft(title: string, description: Option<string>, status: string, companyId: Id)

  const Statuses: seq<string> := ["active", "on_hold", "in_meeting", "completed"]

  const MissingFields := Rejection(400, "Title and company are required")
  const BadStatus := Rejection(400, "Status must be one of: " + Join(Statuses, ", "))
  const NoCompany := Rejection(404, "Company not found")

  function Status(req: OrderRequest): Field {
    req.status.WithDefault("active")
  }

  /** The validation chain of POST: title and company, then status, then the
      company lookup. */
  function CheckOrder(req: OrderRequest, companies: seq<Company>): (r: Result<OrderDraft, Rejection>)
    ensures !(req.title.Truthy() && req.companyId.Truthy()) ==> r == Failure(MissingFields)
    ensures (req.title.Truthy() && req.companyId.Truthy() && !IncludedIn(Status(req), Statuses)) ==> r == Failure(BadStatus)
    ensures r.Success? <==>
              req.title.Truthy() && req.companyId.Truthy() && IncludedIn(Status(req), Statuses)
              && req.companyId.s in Ids(companies, CompanyKey)
    ensures r.Failure? && r.error == NoCompany <==>
              req.title.Truthy() && req.companyId.Truthy() && IncludedIn(Status(req), Statuses)
              && req.companyId.s !in Ids(companies, CompanyKey)
    ensures r.Success? ==>
              r.value == OrderDraft(req.title.s, req.description.Stored(), Status(req).s, req.companyId.s)
              && r.value.status in Statuses
  {
    if !(req.title.Truthy() && req.companyId.Truthy()) then Failure(MissingFields)
    else if !IncludedIn(Status(req), Statuses) then Failure(BadStatus)
    else if FindCompany(companies, req.companyId.s).None? then Failure(NoCompany)
    else Success(OrderDraft(req.title.s, req.description.Stored(), Status(req).s, req.companyId.s))
  }

  /** The row POST inserts: no amount and no order number. */
  function NewOrder(d: OrderDraft, id: Id, userId: Id, now: int): Order {
    Order(id, d.title, d.description, d.status, d.companyId, None, None, userId, now)
  }

  /** POST /api/orders: a rejected request writes nothing; an accepted one
      appends exactly one order whose creator is the caller and answers 201. */
  method Post(db: Database, session: Option<User>, req: OrderRequest, newId: Id, now: int) returns (r: Response<Order>)
    requires UniqueIds(db.orders, OrderKey)
    modifies db`orders
    ensures UniqueIds(db.orders, OrderKey)
    ensures session.None? ==> r == HandleApiError(RequireAuth(session).error)
    ensures session.Some? && CheckOrder(req, db.companies).Failure? ==> r == Reject(CheckOrder(req, db.companies).error)
    ensures (session.Some? && CheckOrder(req, db.companies).Success?
             && newId in Ids(old(db.orders), OrderKey)) ==> r == HandleApiError(DuplicateKey)
    ensures r.status != 201 ==> db.orders == old(db.orders)
    ensures r.status == 201 <==>
              session.Some? && CheckOrder(req, db.companies).Success? && newId !in Ids(old(db.orders), OrderKey)
    ensures r.status == 201 ==>
              var o := NewOrder(CheckOrder(req, db.companies).value, newId, session.value.id, now);
              db.orders == old(db.orders) + [o] && r.body == DataBody(o)
  {
    var auth := RequireAuth(session);
    if auth.Failure? {
      return HandleApiError(auth.error);
    }
    var check := CheckOrder(req, db.companies);
    if check.Failure? {
      return Reject(check.error);
    }
    if newId in Ids(db.orders, OrderKey) {
      return HandleApiError(DuplicateKey);
    }
    var o := NewOrder(check.value, newId, auth.value.id, now);
    AppendUnique(db.orders, o, OrderKey);
    db.orders := db.orders + [o];
    r := SuccessResponse(o, 201);
  }

  /** The GET `where`: each truthy query parameter constrains its column. */
  predicate Selected(o: Order, companyId: Field, status: Field) {
    (companyId.Truthy() ==> o.companyId == companyId.s) && (status.Truthy() ==> o.status == status.s)
  }

  function CreatedAt(o: Order): int { o.createdAt }

  /** GET /api/orders?companyId&status: the selected orders, newest first. */
  function Get(session: Option<User>, rows: seq<Order>, companyId: Field, status: Field): (r: Response<seq<Order>>)
    ensures session.None? ==> r == HandleApiError(RequireAuth(session).error)
    ensures session.Some? ==> r.status == 200 && r.body.DataBody?
    ensures session.Some? ==>
              forall o :: multiset(r.body.data)[o] == if Selected(o, companyId, status) then multiset(rows)[o] else 0
    ensures session.Some? ==>
              forall i, j :: 0 <= i < j < |r.body.data| ==> r.body.data[i].createdAt >= r.body.data[j].createdAt
  {
    var auth := RequireAuth(session);
    if auth.Failure? then HandleApiError(auth.error)
    else SuccessResponse(SelectDesc(rows, o => Selected(o, companyId, status), CreatedAt))
  }

  /** Amount and order number in the body change nothing about the outcome. */
  lemma AmountAndOrderNumberIgnored(req: OrderRequest, a: Field, n: Field, companies: seq<Company>)
    ensures CheckOrder(req.(amount := a, orderNumber := n), companies) == CheckOrder(req, companies)
  {
  }

  /** Without a status the order is accepted as "active" (when its company exists). */
  lemma StatusDefaultsToActive(req: OrderRequest, companies: seq<Company>)
    requires req.title.Truthy() && req.companyId.Truthy() && req.status == Undefined
    requires req.companyId.s in Ids(companies, CompanyKey)
    ensures CheckOrder(req, companies).Success? && CheckOrder(req, companies).value.status == "active"
  {
  }
}
