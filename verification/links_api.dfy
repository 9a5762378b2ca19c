/** `/api/links` (src/app/api/links/route.js): POST checks company, title
    and URL, the category (defaulting to "other") and that the company exists,
    then appends one link attributed to the caller; GET lists links,
    optionally narrowed to a company and a category, newest first. */
module LinksApi {
  import opened Common
  import opened Lists
  import opened Sorting
  import opened Text
  import opened ApiErrors
  import opened Auth
  import opened Store

  /** The destructured body `{ companyId, title, url, category = 'other', notes }`. */
  datatype LinkRequest = LinkRequest(companyId: Field, title: Field, url: Field, category: Field, notes: Field)

  datatype LinkDraft = LinkDraft(companyId: Id, title: string, url: string, category: string, notes: Option<string>)

  const Categories: seq<string> := ["website", "social", "document", "other"]

  const MissingFields := Rejection(400, "Company, title, and URL are required")
  const BadCategory := Rejection(400, "Category must be one of: " + Join(Categories, ", "))
  const NoCompany := Rejection(404, "Company not found")

  function Category(req: LinkRequest): Field {
    req.category.WithDefault("other")
  }

  predicate HasRequired(req: LinkRequest) {
    req.companyId.Truthy() && req.title.Truthy() && req.url.Truthy()
  }

  /** The validation chain of POST: company, title and URL, then category, then
      the company lookup. */
  function CheckLink(req: LinkRequest, companies: seq<Company>): (r: Result<LinkDraft, Rejection>)
    ensures !HasRequired(req) ==> r == Failure(MissingFields)
    ensures HasRequired(req) && !IncludedIn(Category(req), Categories) ==> r == Failure(BadCategory)
    ensures r.Success? <==>
              HasRequired(req) && IncludedIn(Category(req), Categories) && req.companyId.s in Ids(companies, CompanyKey)
    ensures r.Failure? && r.error == NoCompany <==>
              HasRequired(req) && IncludedIn(Category(req), Categories) && req.companyId.s !in Ids(companies, CompanyKey)
    ensures r.Success? ==>
              r.value == LinkDraft(req.companyId.s, req.title.s, req.url.s, Category(req).s, req.notes.Stored())
              && r.value.category in Categories
  {
    if !HasRequired(req) then Failure(MissingFields)
    else if !IncludedIn(Category(req), Categories) then Failure(BadCategory)
    else if FindCompany(companies, req.companyId.s).None? then Failure(NoCompany)
    else Success(LinkDraft(req.companyId.s, req.title.s, req.url.s, Category(req).s, req.notes.Stored()))
  }

  function NewLink(d: LinkDraft, id: Id, userId: Id, now: int): Link {
    Link(id, d.companyId, d.title, d.url, d.category, d.notes, userId, now)
  }

  /** POST /api/links: a rejected request writes nothing; an accepted one
      appends exactly one link whose creator is the caller and answers 201. */
  method Post(db: Database, session: Option<User>, req: LinkRequest, newId: Id, now: int) returns (r: Response<Link>)
    requires UniqueIds(db.links, LinkKey)
    modifies db`links
    ensures UniqueIds(db.links, LinkKey)
    ensures session.None? ==> r == HandleApiError(RequireAuth(session).error)
    ensures session.Some? && CheckLink(req, db.companies).Failure? ==> r == Reject(CheckLink(req, db.companies).error)
    ensures (session.Some? && CheckLink(req, db.companies).Success?
             && newId in Ids(old(db.links), LinkKey)) ==> r == HandleApiError(DuplicateKey)
    ensures r.status != 201 ==> db.links == old(db.links)
    ensures r.status == 201 <==>
              session.Some? && CheckLink(req, db.companies).Success? && newId !in Ids(old(db.links), LinkKey)
    ensures r.status == 201 ==>
              var l := NewLink(CheckLink(req, db.companies).value, newId, session.value.id, now);
              db.links == old(db.links) + [l] && r.body == DataBody(l)
  {
    var auth := RequireAuth(session);
    if auth.Failure? {
      return HandleApiError(auth.error);
    }
    var check := CheckLink(req, db.companies);
    if check.Failure? {
      return Reject(check.error);
    }
    if newId in Ids(db.links, LinkKey) {
      return HandleApiError(DuplicateKey);
    }
    var l := NewLink(check.value, newId, auth.value.id, now);
    AppendUnique(db.links, l, LinkKey);
    db.links := db.links + [l];
    r := SuccessResponse(l, 201);
  }

  /** The GET `where`: each truthy query parameter constrains its column. */
  predicate Selected(l: Link, companyId: Field, category: Field) {
    (companyId.Truthy() ==> l.companyId == companyId.s) && (category.Truthy() ==> l.category == category.s)
  }

  function CreatedAt(l: Link): int { l.createdAt }

  /** GET /api/links?companyId&category: the selected links, newest first. */
  function Get(session: Option<User>, rows: seq<Link>, companyId: Field, category: Field): (r: Response<seq<Link>>)
    ensures session.None? ==> r == HandleApiError(RequireAuth(session).error)
    ensures session.Some? ==> r.status == 200 && r.body.DataBody?
    ensures session.Some? ==>
              forall l :: multiset(r.body.data)[l] == if Selected(l, companyId, category) then multiset(rows)[l] else 0
    ensures session.Some? ==>
              forall i, j :: 0 <= i < j < |r.body.data| ==> r.body.data[i].createdAt >= r.body.data[j].createdAt
  {
    var auth := RequireAuth(session);
    if auth.Failure? then HandleApiError(auth.error)
    else SuccessResponse(SelectDesc(rows, l => Selected(l, companyId, category), CreatedAt))
  }

  /** Without a category the link is filed under "other" (when its company exists). */
  lemma CategoryDefaultsToOther(req: LinkRequest, companies: seq<Company>)
    requires HasRequired(req) && req.category == Undefined && req.companyId.s in Ids(companies, CompanyKey)
    ensures CheckLink(req, companies).Success? && CheckLink(req, companies).value.category == "other"
  {
  }
}
