/** `/api/companies` (src/app/api/companies/route.js): POST checks the name
    and creates a company whose balance is the `parseFloat` of the given
    balance (0 when absent); GET lists every company, newest first. A new
    company starts the ledger with its opening balance and no transactions. */
module CompaniesApi {
  import opened Common
  import opened Lists
  import opened Sorting
  import opened ApiErrors
  import opened Auth
  import opened Store

  /** The destructured body `{ name, balance = 0 }`. */
  datatype CompanyRequest = CompanyRequest(name: Field, balance: Amount)

  const MissingName := Rejection(400, "Company name is required")

  /** What the store raises when asked to write the `NaN` that `parseFloat`
      returns for a balance that is not a number. */
  const NotANumber: Thrown := OtherError("Invalid value for argument `balance`", None)

  /** `parseFloat(balance)` after the destructuring default. */
  function OpeningBalance(req: CompanyRequest): (r: Option<int>)
    ensures req.balance.AmountUndefined? ==> r == Some(0)
    ensures !req.balance.AmountUndefined? ==> r == req.balance.ParseFloat()
  {
    if req.balance.AmountUndefined? then Some(0) else req.balance.ParseFloat()
  }

  /** Adding a company that nothing refers to yet, with its opening balance
      recorded, keeps the ledger invariant. */
  lemma OpeningKeepsLedger(companies: seq<Company>, log: seq<MoneyTxn>, opening: map<Id, int>, c: Company)
    requires Ledger(companies, log, opening) && c.id !in Ids(companies, CompanyKey)
    ensures Ledger(companies + [c], log, opening[c.id := c.balance])
  {
    var cs, op := companies + [c], opening[c.id := c.balance];
    AppendUnique(companies, c, CompanyKey);
    forall t | t in log
      ensures t.companyId in Ids(cs, CompanyKey) && t.companyId != c.id
    {
      var x :| x in companies && x.id == t.companyId;
      assert x in cs;
    }
    NetForAbsent(log, c.id);
    forall x | x in cs
      ensures x.id in op && x.balance == op[x.id] + NetFor(log, x.id)
    {
      if x != c {
        assert x in companies;
      }
    }
  }

  /** POST /api/companies: an accepted request appends one company with its
      opening balance, records that balance, and answers 201; anything else
      writes nothing. */
  method Post(db: Database, session: Option<User>, req: CompanyRequest, newId: Id, now: int) returns (r: Response<Company>)
    requires db.LedgerValid()
    modifies db`companies, db`openingBalance
    ensures db.LedgerValid()
    ensures session.None? ==> r == HandleApiError(RequireAuth(session).error)
    ensures session.Some? && !req.name.Truthy() ==> r == Reject(MissingName)
    ensures session.Some? && req.name.Truthy() && OpeningBalance(req).None? ==> r == HandleApiError(NotANumber)
    ensures (session.Some? && req.name.Truthy() && OpeningBalance(req).Some?
             && newId in Ids(old(db.companies), CompanyKey)) ==> r == HandleApiError(DuplicateKey)
    ensures r.status != 201 ==> db.companies == old(db.companies) && db.openingBalance == old(db.openingBalance)
    ensures r.status == 201 <==>
              session.Some? && req.name.Truthy() && OpeningBalance(req).Some? && newId !in Ids(old(db.companies), CompanyKey)
    ensures r.status == 201 ==>
              var c := Company(newId, req.name.s, OpeningBalance(req).value, now);
              && db.companies == old(db.companies) + [c]
              && db.openingBalance == old(db.openingBalance)[newId := c.balance]
              && r.body == DataBody(c)
  {
    var auth := RequireAuth(session);
    if auth.Failure? {
      return HandleApiError(auth.error);
    }
    if !req.name.Truthy() {
      return Reject(MissingName);
    }
    var balance := OpeningBalance(req);
    if balance.None? {
      return HandleApiError(NotANumber);
    }
    if newId in Ids(db.companies, CompanyKey) {
      return HandleApiError(DuplicateKey);
    }
    var c := Company(newId, req.name.s, balance.value, now);
    OpeningKeepsLedger(db.companies, db.transactions, db.openingBalance, c);
    db.companies := db.companies + [c];
    db.openingBalance := db.openingBalance[newId := c.balance];
    r := SuccessResponse(c, 201);
  }

  function CreatedAt(c: Company): int { c.createdAt }

  /** GET /api/companies: every company, newest first. */
  function Get(session: Option<User>, rows: seq<Company>): (r: Response<seq<Company>>)
    ensures session.None? ==> r == HandleApiError(RequireAuth(session).error)
    ensures session.Some? ==> r.status == 200 && r.body.DataBody? && multiset(r.body.data) == multiset(rows)
    ensures session.Some? ==>
              forall i, j :: 0 <= i < j < |r.body.data| ==> r.body.data[i].createdAt >= r.body.data[j].createdAt
  {
    var auth := RequireAuth(session);
    if auth.Failure? then HandleApiError(auth.error)
    else SuccessResponse(OrderByDesc(rows, CreatedAt))
  }

  /** A company created without a balance starts at zero; one created with a
      `null` balance is refused with a 500, since `parseFloat(null)` is `NaN`. */
  lemma BalanceDefaults(name: string)
    requires name != ""
    ensures OpeningBalance(CompanyRequest(Str(name), AmountUndefined)) == Some(0)
    ensures OpeningBalance(CompanyRequest(Str(name), AmountNull)).None?
    ensures HandleApiError<Company>(NotANumber).status == 500
  {
  }
}
