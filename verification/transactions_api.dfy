/** The money ledger, `/api/transactions` (src/app/api/transactions/route.js).
    POST runs an ordered validation chain and then, in one atomic step,
    appends the transaction and overwrites the company's balance with the new
    one. GET lists the log, optionally narrowed to a company and a type,
    newest first. */
module TransactionsApi {
  import opened Common
  import opened Lists
  import opened Sorting
  import opened ApiErrors
  import opened Auth
  import opened Store

  /** The destructured body `{ amount, type, description, companyId }`; the
      `orderNumber` the page also sends is carried only to show it is dropped. */
  datatype TxnRequest = TxnRequest(amount: Amount, kind: Field, description: Field, companyId: Field, orderNumber: Field)

  /** A request that passed every check: what to record and the balance that follows. */
  datatype Posting = Posting(amount: int, kind: string, companyId: Id, newBalance: int)

  /** The 201 body `{ transaction, newBalance }`. */
  datatype Receipt = Receipt(transaction: MoneyTxn, newBalance: int)

  const MissingFields := Rejection(400, "Amount, type and company are required")
  const BadType := Rejection(400, "Type must be credit or debit")
  const BadAmount := Rejection(400, "Amount must be a positive number")
  const NoCompany := Rejection(404, "Company not found")
  const Insufficient := Rejection(400, "Insufficient balance for this transaction")

  predicate HasRequired(req: TxnRequest) {
    req.amount.Truthy() && req.kind.Truthy() && req.companyId.Truthy()
  }

  predicate KnownType(req: TxnRequest) {
    IncludedIn(req.kind, ["credit", "debit"])
  }

  predicate PositiveAmount(req: TxnRequest) {
    req.amount.ParseFloat().Some? && req.amount.ParseFloat().value > 0
  }

  /** `type === 'credit' ? amount : -amount`. */
  function BalanceChange(kind: string, amount: int): int {
    if kind == "credit" then amount else -amount
  }

  /** The validation chain of POST, checks in source order; the first failing
      check decides the response. */
  function CheckTransaction(req: TxnRequest, companies: seq<Company>): (r: Result<Posting, Rejection>)
    ensures !HasRequired(req) ==> r == Failure(MissingFields)
    ensures HasRequired(req) && !KnownType(req) ==> r == Failure(BadType)
    ensures HasRequired(req) && KnownType(req) && !PositiveAmount(req) ==> r == Failure(BadAmount)
    ensures (HasRequired(req) && KnownType(req) && PositiveAmount(req)
              && req.companyId.s !in Ids(companies, CompanyKey)) ==> r == Failure(NoCompany)
    ensures (HasRequired(req) && KnownType(req) && PositiveAmount(req)
              && FindCompany(companies, req.companyId.s).Some?
              && FindCompany(companies, req.companyId.s).value.balance
                   + BalanceChange(req.kind.s, req.amount.ParseFloat().value) < 0) ==> r == Failure(Insufficient)
    ensures r.Failure? ==> r.error in {MissingFields, BadType, BadAmount, NoCompany, Insufficient}
    ensures r.Success? <==>
              HasRequired(req) && KnownType(req) && PositiveAmount(req)
              && FindCompany(companies, req.companyId.s).Some?
              && FindCompany(companies, req.companyId.s).value.balance
                   + BalanceChange(req.kind.s, req.amount.ParseFloat().value) >= 0
    ensures r.Success? ==>
              && r.value.amount == req.amount.ParseFloat().value > 0
              && r.value.kind == req.kind.s && r.value.kind in {"credit", "debit"}
              && r.value.companyId == req.companyId.s
              && r.value.newBalance == FindCompany(companies, r.value.companyId).value.balance
                                       + BalanceChange(r.value.kind, r.value.amount)
              && r.value.newBalance >= 0
  {
    if !HasRequired(req) then Failure(MissingFields)
    else if !KnownType(req) then Failure(BadType)
    else
      var parsed := req.amount.ParseFloat();
      if parsed.None? || parsed.value <= 0 then Failure(BadAmount)
      else
        var company := FindCompany(companies, req.companyId.s);
        if company.None? then Failure(NoCompany)
        else
          var newBalance := company.value.balance + BalanceChange(req.kind.s, parsed.value);
          if newBalance < 0 then Failure(Insufficient)
          else Success(Posting(parsed.value, req.kind.s, req.companyId.s, newBalance))
  }

  /** The row POST inserts: the parsed amount, the type, the description, the
      company and the caller; never an order number. */
  function NewTxn(p: Posting, req: TxnRequest, id: Id, userId: Id, now: int): MoneyTxn {
    MoneyTxn(id, p.amount, p.kind, req.description.Stored(), None, p.companyId, userId, now)
  }

  /** POST /api/transactions. Authentication comes first (a missing session is a
      500, see Auth.UnauthorizedIsInternalError); a rejected request writes
      nothing; a successful one appends exactly one transaction and sets the
      target company's balance, and no other, to the new balance it reports. */
  method Post(db: Database, session: Option<User>, req: TxnRequest, newId: Id, now: int)
      returns (r: Response<Receipt>)
    requires db.LedgerValid()
    modifies db`transactions, db`companies
    ensures db.LedgerValid()
    ensures session.None? ==> r == HandleApiError(RequireAuth(session).error)
    ensures session.Some? && CheckTransaction(req, old(db.companies)).Failure? ==>
              r == Reject(CheckTransaction(req, old(db.companies)).error)
    ensures (session.Some? && CheckTransaction(req, old(db.companies)).Success?
              && newId in Ids(old(db.transactions), TxnKey)) ==> r == HandleApiError(DuplicateKey)
    ensures r.status != 201 ==>
              db.transactions == old(db.transactions) && db.companies == old(db.companies)
    ensures r.status == 201 <==>
              session.Some? && CheckTransaction(req, old(db.companies)).Success?
              && newId !in Ids(old(db.transactions), TxnKey)
    ensures r.status == 201 ==>
              var p := CheckTransaction(req, old(db.companies)).value;
              var c := FindCompany(old(db.companies), p.companyId).value;
              var t := NewTxn(p, req, newId, session.value.id, now);
              && db.transactions == old(db.transactions) + [t]
              && db.companies == ReplaceById(old(db.companies), p.companyId, c.(balance := p.newBalance), CompanyKey)
              && r.body == DataBody(Receipt(t, p.newBalance))
              && FindCompany(db.companies, p.companyId) == Some(c.(balance := p.newBalance))
  {
    var auth := RequireAuth(session);
    if auth.Failure? {
      return HandleApiError(auth.error);
    }
    var user := auth.value;
    var check := CheckTransaction(req, db.companies);
    if check.Failure? {
      return Reject(check.error);
    }
    var p := check.value;
    if newId in Ids(db.transactions, TxnKey) {
      return HandleApiError(DuplicateKey);
    }
    var c := FindCompany(db.companies, p.companyId).value;
    var t := NewTxn(p, req, newId, user.id, now);
    assert c.(balance := c.balance + Signed(t)) == c.(balance := p.newBalance);
    Record(db, t, c);
    r := SuccessResponse(Receipt(t, p.newBalance), 201);
  }

  /** The `$transaction` of POST as one atomic step: the new row is appended
      and company `c`'s balance, and no other, moves by the row's signed
      amount; the ledger invariant holds afterwards. */
  method Record(db: Database, t: MoneyTxn, c: Company)
    requires db.LedgerValid()
    requires c in db.companies && t.companyId == c.id && t.amount > 0 && t.kind in {"credit", "debit"}
    requires t.id !in Ids(db.transactions, TxnKey)
    modifies db`transactions, db`companies
    ensures db.LedgerValid()
    ensures db.transactions == old(db.transactions) + [t]
    ensures db.companies == ReplaceById(old(db.companies), c.id, c.(balance := c.balance + Signed(t)), CompanyKey)
    ensures FindCompany(db.companies, c.id) == Some(c.(balance := c.balance + Signed(t)))
  {
    var updated := c.(balance := c.balance + Signed(t));
    var log, companies := db.transactions + [t], ReplaceById(db.companies, c.id, updated, CompanyKey);
    PostingKeepsLedger(db.companies, db.transactions, db.openingBalance, t, c);
    AppendUnique(db.transactions, t, TxnKey);
    assert UniqueIds(log, TxnKey) && Ledger(companies, log, db.openingBalance);
    db.transactions, db.companies := log, companies;
  }

  /** The ledger invariant survives a posting: appending a positive credit or
      debit `t` of company `c` and setting that company's balance to its old
      balance plus `Signed(t)` keeps every balance equal to the opening balance
      plus the net amount, and leaves `c` findable with its new balance. */
  lemma PostingKeepsLedger(companies: seq<Company>, log: seq<MoneyTxn>, opening: map<Id, int>, t: MoneyTxn, c: Company)
    requires Ledger(companies, log, opening)
    requires c in companies && t.companyId == c.id && t.amount > 0 && t.kind in {"credit", "debit"}
    ensures var updated := c.(balance := c.balance + Signed(t));
      var cs := ReplaceById(companies, c.id, updated, CompanyKey);
      Ledger(cs, log + [t], opening) && FindCompany(cs, c.id) == Some(updated)
  {
    var updated := c.(balance := c.balance + Signed(t));
    var cs := ReplaceById(companies, c.id, updated, CompanyKey);
    ReplaceKeepsIds(companies, c.id, updated, CompanyKey);
    BalancesAfterPosting(companies, log, opening, t, c);
    forall u | u in log + [t] ensures u.companyId in Ids(cs, CompanyKey) && u.amount > 0 && u.kind in {"credit", "debit"} {
      if u != t { assert u in log; }
    }
    FindCompanyUnique(cs, updated);
  }

  /** The balance half of PostingKeepsLedger. */
  lemma BalancesAfterPosting(companies: seq<Company>, log: seq<MoneyTxn>, opening: map<Id, int>, t: MoneyTxn, c: Company)
    requires forall x :: x in companies ==> x.id in opening && x.balance == opening[x.id] + NetFor(log, x.id)
    requires c in companies && t.companyId == c.id
    ensures var cs := ReplaceById(companies, c.id, c.(balance := c.balance + Signed(t)), CompanyKey);
      forall x :: x in cs ==> x.id in opening && x.balance == opening[x.id] + NetFor(log + [t], x.id)
  {
    var updated := c.(balance := c.balance + Signed(t));
    var cs := ReplaceById(companies, c.id, updated, CompanyKey);
    forall x | x in cs ensures x.id in opening && x.balance == opening[x.id] + NetFor(log + [t], x.id) {
      NetForAppend(log, t, x.id);
      var i :| 0 <= i < |cs| && cs[i] == x;
      if companies[i].id != c.id {
        assert x == companies[i];
      } else {
        assert x == updated;
      }
    }
  }

  /** The GET `where`: each truthy query parameter constrains its column. */
  predicate Selected(t: MoneyTxn, companyId: Field, kind: Field) {
    (companyId.Truthy() ==> t.companyId == companyId.s) && (kind.Truthy() ==> t.kind == kind.s)
  }

  function CreatedAt(t: MoneyTxn): int { t.createdAt }

  /** GET /api/transactions?companyId&type: the selected transactions, newest first. */
  function Get(session: Option<User>, log: seq<MoneyTxn>, companyId: Field, kind: Field): (r: Response<seq<MoneyTxn>>)
    ensures session.None? ==> r == HandleApiError(RequireAuth(session).error)
    ensures session.Some? ==> r.status == 200 && r.body.DataBody?
    ensures session.Some? ==>
              forall t :: multiset(r.body.data)[t] == if Selected(t, companyId, kind) then multiset(log)[t] else 0
    ensures session.Some? ==>
              forall i, j :: 0 <= i < j < |r.body.data| ==> r.body.data[i].createdAt >= r.body.data[j].createdAt
  {
    var auth := RequireAuth(session);
    if auth.Failure? then HandleApiError(auth.error)
    else SuccessResponse(SelectDesc(log, t => Selected(t, companyId, kind), CreatedAt))
  }

  /** The `orderNumber` of the body plays no part: two requests that differ only
      in it are checked alike and record the same row. */
  lemma OrderNumberIgnored(req: TxnRequest, o: Field, companies: seq<Company>, id: Id, userId: Id, now: int)
    ensures CheckTransaction(req.(orderNumber := o), companies) == CheckTransaction(req, companies)
    ensures CheckTransaction(req, companies).Success? ==>
      var p := CheckTransaction(req, companies).value;
      NewTxn(p, req.(orderNumber := o), id, userId, now) == NewTxn(p, req, id, userId, now)
      && NewTxn(p, req, id, userId, now).orderNumber.None?
  {
  }

  /** A zero amount is falsy, so it is refused as missing before its sign is looked at. */
  lemma ZeroAmountIsMissing(req: TxnRequest, companies: seq<Company>)
    requires req.amount == AmountNumber(0)
    ensures CheckTransaction(req, companies) == Failure(MissingFields)
  {
  }

  /** The balance check applies to credits too: a credit that leaves a company's
      balance negative is refused, so a company that starts negative can only
      receive credits that bring it to zero or above. */
  lemma CreditLeavingNegativeIsRefused(req: TxnRequest, companies: seq<Company>, c: Company)
    requires UniqueIds(companies, CompanyKey) && c in companies
    requires HasRequired(req) && req.kind == Str("credit") && PositiveAmount(req) && req.companyId == Str(c.id)
    requires c.balance + req.amount.ParseFloat().value < 0
    ensures CheckTransaction(req, companies) == Failure(Insufficient)
  {
    FindCompanyUnique(companies, c);
  }

  /** A debit of exactly the company's balance is accepted and leaves it at zero. */
  lemma DebitToZeroIsAccepted(req: TxnRequest, companies: seq<Company>, c: Company)
    requires UniqueIds(companies, CompanyKey) && c in companies
    requires req.kind == Str("debit") && req.companyId == Str(c.id) && c.id != ""
    requires req.amount == AmountNumber(c.balance) && c.balance > 0
    ensures CheckTransaction(req, companies).Success?
    ensures CheckTransaction(req, companies).value.newBalance == 0
  {
    FindCompanyUnique(companies, c);
  }
}
