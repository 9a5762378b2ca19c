/** The application's tables (the Prisma models the routes read and write) and
    the store that holds them. A table is a sequence of rows in insertion
    order; the store generates ids and timestamps, which the route methods take
    as inputs. The ghost map `openingBalance` records the balance each company
    was created with, so that the ledger invariant can be stated: a company's
    balance is its opening balance plus the signed sum of its transactions. */
module Store {
  import opened Common
  import opened Lists
  import opened Dates

  datatype Company = Company(id: Id, name: string, balance: int, createdAt: int)

  /** `MoneyTransaction`; `kind` is the `type` column ("credit" or "debit") and
      `amount` is in minor units. */
  datatype MoneyTxn = MoneyTxn(
    id: Id, amount: int, kind: string, description: Option<string>, orderNumber: Option<string>,
    companyId: Id, createdById: Id, createdAt: int)

  datatype Employee = Employee(
    id: Id, name: string, email: string, phone: Option<string>, position: Option<string>,
    companyId: Id, createdAt: int)

  datatype Todo = Todo(
    id: Id, title: string, description: Option<string>, status: string, assigneeId: Option<Id>,
    createdById: Id, createdAt: int)

  datatype Order = Order(
    id: Id, title: string, description: Option<string>, status: string, companyId: Id,
    amount: Option<int>, orderNumber: Option<string>, createdById: Id, createdAt: int)

  /** `CompanyLink`. */
  datatype Link = Link(
    id: Id, companyId: Id, title: string, url: string, category: string, notes: Option<string>,
    createdById: Id, createdAt: int)

  datatype Note = Note(
    id: Id, title: string, content: string, color: Option<string>, isPinned: bool,
    createdById: Id, createdAt: int)

  /** `CalendarEvent`. */
  datatype Event = Event(
    id: Id, title: string, description: Option<string>, date: CivilDate, color: Option<string>,
    createdById: Id, createdAt: int)

  function CompanyKey(c: Company): Id { c.id }
  function TxnKey(t: MoneyTxn): Id { t.id }
  function EmployeeKey(e: Employee): Id { e.id }
  function TodoKey(t: Todo): Id { t.id }
  function OrderKey(o: Order): Id { o.id }
  function LinkKey(l: Link): Id { l.id }
  function NoteKey(n: Note): Id { n.id }
  function EventKey(e: Event): Id { e.id }

  /** `findUnique({ where: { id } })` on the company table. */
  function FindCompany(companies: seq<Company>, id: Id): (r: Option<Company>)
    ensures r.None? <==> id !in Ids(companies, CompanyKey)
    ensures r.Some? ==> r.value in companies && r.value.id == id
  {
    Find(companies, (c: Company) => c.id == id)
  }

  /** With unique ids the lookup finds the one company that has the id. */
  lemma FindCompanyUnique(companies: seq<Company>, c: Company)
    requires UniqueIds(companies, CompanyKey) && c in companies
    ensures FindCompany(companies, c.id) == Some(c)
  {
    var p := (x: Company) => x.id == c.id;
    FindIsFirst(companies, p);
    var i :| 0 <= i < |companies| && companies[i] == Find(companies, p).value && forall j :: 0 <= j < i ==> !p(companies[j]);
    var k :| 0 <= k < |companies| && companies[k] == c;
    assert !(k < i);
    assert !(i < k);
  }

  /** What a transaction does to its company's balance: a credit adds the
      amount, a debit subtracts it. */
  function Signed(t: MoneyTxn): int {
    if t.kind == "credit" then t.amount else -t.amount
  }

  /** The signed sum of the transactions of company `id` in a log. */
  function NetFor(log: seq<MoneyTxn>, id: Id): int {
    if log == [] then 0
    else
      var last := log[|log| - 1];
      NetFor(log[..|log| - 1], id) + (if last.companyId == id then Signed(last) else 0)
  }

  /** Appending a transaction moves only its own company's net amount. */
  lemma NetForAppend(log: seq<MoneyTxn>, t: MoneyTxn, id: Id)
    ensures NetFor(log + [t], id) == NetFor(log, id) + (if t.companyId == id then Signed(t) else 0)
  {
    assert (log + [t])[..|log|] == log;
  }

  /** A company no transaction refers to has a net amount of zero. */
  lemma {:induction false} NetForAbsent(log: seq<MoneyTxn>, id: Id)
    requires forall t :: t in log ==> t.companyId != id
    ensures NetFor(log, id) == 0
  {
    if log != [] {
      assert log[|log| - 1] in log;
      assert forall t :: t in log[..|log| - 1] ==> t in log;
      NetForAbsent(log[..|log| - 1], id);
    }
  }

  /** The ledger invariant over a company table, a transaction log and the
      opening balances: company ids are unique; every transaction is a positive
      credit or debit of an existing company; and every company's balance is
      its opening balance plus the signed sum of its transactions. */
  ghost predicate Ledger(companies: seq<Company>, log: seq<MoneyTxn>, opening: map<Id, int>): (r: bool)
    ensures r && log == [] ==> forall c :: c in companies ==> c.id in opening && c.balance == opening[c.id]
    ensures r ==> forall t :: t in log ==> exists c :: c in companies && c.id == t.companyId
  {
    && UniqueIds(companies, CompanyKey)
    && (forall t :: t in log ==>
          t.companyId in Ids(companies, CompanyKey) && t.amount > 0 && t.kind in {"credit", "debit"})
    && (forall c :: c in companies ==>
          c.id in opening && c.balance == opening[c.id] + NetFor(log, c.id))
  }

  /** Under the ledger invariant, a company no transaction names still has its
      opening balance. */
  lemma LedgerUntouched(companies: seq<Company>, log: seq<MoneyTxn>, opening: map<Id, int>, c: Company)
    requires Ledger(companies, log, opening) && c in companies
    requires forall t :: t in log ==> t.companyId != c.id
    ensures c.balance == opening[c.id]
  {
    NetForAbsent(log, c.id);
  }

  class Database {
    var companies: seq<Company>
    var transactions: seq<MoneyTxn>
    var employees: seq<Employee>
    var todos: seq<Todo>
    var orders: seq<Order>
    var links: seq<Link>
    var notes: seq<Note>
    var events: seq<Event>
    ghost var openingBalance: map<Id, int>

    /** The ledger part of the store: transaction ids are unique and the
        ledger invariant holds. It reads only the tables the ledger writes. */
    ghost predicate LedgerValid()
      reads this`companies, this`transactions, this`openingBalance
    {
      UniqueIds(transactions, TxnKey) && Ledger(companies, transactions, openingBalance)
    }

    /** Every table has unique primary keys, and the ledger invariant holds.
        Each route method keeps the part of this that covers the tables it
        writes; its `modifies` clause leaves the rest untouched. */
    ghost predicate Valid()
      reads this
    {
      && LedgerValid()
      && UniqueIds(employees, EmployeeKey)
      && UniqueIds(todos, TodoKey)
      && UniqueIds(orders, OrderKey)
      && UniqueIds(links, LinkKey)
      && UniqueIds(notes, NoteKey)
      && UniqueIds(events, EventKey)
    }

    /** An empty store. */
    constructor ()
      ensures Valid()
      ensures companies == [] && transactions == [] && employees == [] && todos == []
      ensures orders == [] && links == [] && notes == [] && events == []
    {
      companies, transactions, employees, todos := [], [], [], [];
      orders, links, notes, events := [], [], [], [];
      openingBalance := map[];
    }
  }
}
