/** The dashboard overview (src/app/dashboard/page.js): the total balance of
    all companies, the company selector that narrows orders, transactions and
    the balance card, the status counts, the five most recent transactions
    and the todo completion percentage. */
module DashboardPage {
  import opened Common
  import opened Lists
  import opened Store
  import OrdersPage
  import TodosPage
  import MoneyPage

  /** What `fetchData` keeps: the fetched lists and the total balance computed
      from the fetched companies. */
  datatype Stats = Stats(orders: seq<Order>, todos: seq<Todo>, transactions: seq<MoneyTxn>, totalBalance: int)

  function Balance(c: Company): int { c.balance }

  /** `companies?.reduce((sum, c) => sum + c.balance, 0) || 0`: the sum of the
      balances of the fetched companies, and 0 when the response had none. */
  function TotalBalance(companies: Option<seq<Company>>): (r: int)
    ensures companies.None? ==> r == 0
    ensures companies == Some([]) ==> r == 0
    ensures companies.Some? ==> r == Sum(companies.value, Balance)
  {
    if companies.Some? then Sum(companies.value, Balance) else 0
  }

  /** The balance a company was created with (zero for one the map lacks). */
  function OpeningOf(opening: map<Id, int>): Company -> int {
    (c: Company) => if c.id in opening then opening[c.id] else 0
  }

  /** A company's net amount over a transaction log. */
  function NetOf(log: seq<MoneyTxn>): Company -> int {
    (c: Company) => NetFor(log, c.id)
  }

  /** What transaction `t` adds to company `c`. */
  function HitOf(t: MoneyTxn): Company -> int {
    (c: Company) => if t.companyId == c.id then Signed(t) else 0
  }

  /** A sum of pointwise sums is the sum of the two sums. */
  lemma {:induction false} SumPointwise<T>(s: seq<T>, f: T -> int, g: T -> int, h: T -> int)
    requires forall x :: x in s ==> f(x) == g(x) + h(x)
    ensures Sum(s, f) == Sum(s, g) + Sum(s, h)
  {
    if s != [] {
      assert forall x :: x in s[1..] ==> x in s;
      SumPointwise(s[1..], f, g, h);
    }
  }

  /** A sum of zeros is zero. */
  lemma {:induction false} SumZero<T>(s: seq<T>, f: T -> int)
    requires forall x :: x in s ==> f(x) == 0
    ensures Sum(s, f) == 0
  {
    if s != [] {
      assert forall x :: x in s[1..] ==> x in s;
      SumZero(s[1..], f);
    }
  }

  /** Over companies with unique ids, a transaction of one of them adds its
      signed amount exactly once. */
  lemma {:induction false} SumOneHit(companies: seq<Company>, t: MoneyTxn)
    requires UniqueIds(companies, CompanyKey) && t.companyId in Ids(companies, CompanyKey)
    ensures Sum(companies, HitOf(t)) == Signed(t)
  {
    var rest := companies[1..];
    assert UniqueIds(rest, CompanyKey);
    if companies[0].id == t.companyId {
      forall c | c in rest ensures HitOf(t)(c) == 0 {
        var k :| 0 <= k < |rest| && rest[k] == c;
        assert companies[k + 1] == c;
      }
      SumZero(rest, HitOf(t));
    } else {
      var c :| c in companies && c.id == t.companyId;
      assert c in rest;
      SumOneHit(rest, t);
    }
  }

  /** Over the companies of a consistent ledger, the net amounts add up to the
      signed sum of the whole log. */
  lemma {:induction false} NetsAddUp(companies: seq<Company>, log: seq<MoneyTxn>)
    requires UniqueIds(companies, CompanyKey)
    requires forall t :: t in log ==> t.companyId in Ids(companies, CompanyKey)
    ensures Sum(companies, NetOf(log)) == Sum(log, Signed)
  {
    if log == [] {
      SumZero(companies, NetOf(log));
    } else {
      var front, t := log[..|log| - 1], log[|log| - 1];
      assert log == front + [t];
      assert forall x :: x in front ==> x in log;
      NetsAddUp(companies, front);
      forall c | c in companies ensures NetOf(log)(c) == NetOf(front)(c) + HitOf(t)(c) {
        NetForAppend(front, t, c.id);
      }
      SumPointwise(companies, NetOf(log), NetOf(front), HitOf(t));
      SumOneHit(companies, t);
      SumConcat(front, [t], Signed);
    }
  }

  /** The total balance card, read against the ledger invariant: the total of
      all balances is the total of the opening balances plus the signed sum of
      every transaction ever recorded. */
  lemma TotalBalanceIsLedgerTotal(companies: seq<Company>, log: seq<MoneyTxn>, opening: map<Id, int>)
    requires Ledger(companies, log, opening)
    ensures TotalBalance(Some(companies)) == Sum(companies, OpeningOf(opening)) + Sum(log, Signed)
  {
    SumPointwise(companies, Balance, OpeningOf(opening), NetOf(log));
    NetsAddUp(companies, log);
  }

  function OrderCompany(o: Order): Id { o.companyId }

  /** `filteredOrders`: all orders without a selection, otherwise those of the
      selected company, each as often as before and in list order. */
  function FilteredOrders(orders: seq<Order>, selected: Id): (r: seq<Order>)
    ensures selected == "" ==> r == orders
    ensures selected != "" ==> r == Filter(orders, FieldIs(OrderCompany, selected))
    ensures selected != "" ==> forall o :: o in r <==> o in orders && o.companyId == selected
    ensures forall o :: multiset(r)[o] == if selected == "" || o.companyId == selected then multiset(orders)[o] else 0
  {
    WhereEq(orders, selected, OrderCompany)
  }

  /** `filteredBalance`: the total without a selection, otherwise the selected
      company's balance, and 0 when no company has the selected id. */
  function FilteredBalance(companies: seq<Company>, selected: Id, totalBalance: int): (r: int)
    ensures selected == "" ==> r == totalBalance
    ensures selected != "" && selected !in Ids(companies, CompanyKey) ==> r == 0
    ensures selected != "" && UniqueIds(companies, CompanyKey) ==>
              forall c :: c in companies && c.id == selected ==> r == c.balance
  {
    FindsEachCompany(companies);
    if selected == "" then totalBalance
    else match FindCompany(companies, selected)
      case Some(c) => c.balance
      case None => 0
  }

  /** With unique ids, looking up any company's id finds that company. */
  lemma FindsEachCompany(companies: seq<Company>)
    ensures UniqueIds(companies, CompanyKey) ==> forall c :: c in companies ==> FindCompany(companies, c.id) == Some(c)
  {
    if UniqueIds(companies, CompanyKey) {
      forall c | c in companies ensures FindCompany(companies, c.id) == Some(c) {
        FindCompanyUnique(companies, c);
      }
    }
  }

  /** The balance card, read against the ledger invariant: a selected company
      shows its opening balance plus the signed sum of its own transactions,
      and no selection shows the grand total. */
  lemma FilteredBalanceIsLedger(companies: seq<Company>, log: seq<MoneyTxn>, opening: map<Id, int>, selected: Id)
    requires Ledger(companies, log, opening)
    ensures selected != "" && selected in Ids(companies, CompanyKey) ==>
              FilteredBalance(companies, selected, TotalBalance(Some(companies)))
              == opening[selected] + NetFor(log, selected)
    ensures selected == "" ==>
              FilteredBalance(companies, selected, TotalBalance(Some(companies)))
              == Sum(companies, OpeningOf(opening)) + Sum(log, Signed)
  {
    if selected == "" {
      TotalBalanceIsLedgerTotal(companies, log, opening);
    } else if selected in Ids(companies, CompanyKey) {
      var c :| c in companies && c.id == selected;
    }
  }

  /** `.slice(0, 5)` of the filtered transactions. */
  function Recent(transactions: seq<MoneyTxn>): (r: seq<MoneyTxn>)
    ensures |r| == if |transactions| < 5 then |transactions| else 5
    ensures r <= transactions
  {
    Take(transactions, 5)
  }

  /** `Math.round(completed / total * 100)`, or 0 without todos: the
      percentage rounded to the nearest integer, a half rounding up. */
  function CompletionPercent(completed: nat, total: nat): (r: int)
    ensures total == 0 ==> r == 0
    ensures total > 0 ==> 200 * completed - total < 2 * total * r <= 200 * completed + total
    ensures completed <= total ==> 0 <= r <= 100
  {
    if total == 0 then 0
    else
      RoundedShare(completed, total);
      (200 * completed + total) / (2 * total)
  }

  /** The bounds of the rounded share, from the division's quotient and remainder. */
  lemma RoundedShare(completed: nat, total: nat)
    requires total > 0
    ensures var r := (200 * completed + total) / (2 * total);
      200 * completed - total < 2 * total * r <= 200 * completed + total
      && (completed <= total ==> 0 <= r <= 100)
  {
    var n, d := 200 * completed + total, 2 * total;
    var q := n / d;
    DivMod(n, d);
    assert 2 * total * q == d * q;
    if completed <= total {
      QuotBelow(d, q, n, 101);
      QuotBelow(d, -1, n, q + 1);
    }
  }

  /** Euclidean division by a positive divisor. */
  lemma DivMod(n: int, d: int)
    requires d > 0
    ensures n == d * (n / d) + n % d && 0 <= n % d < d
  {
  }

  lemma MulMono(a: nat, b: int, c: int)
    requires b <= c
    ensures a * b <= a * c
  {
  }

  /** A multiple of a positive `d` that stays below `d * k` has a factor below `k`. */
  lemma QuotBelow(d: int, q: int, n: int, k: int)
    requires d > 0 && d * q <= n < d * k
    ensures q < k
  {
    if q >= k {
      MulMono(d, k, q);
    }
  }

  /** What the overview shows for one choice of the company selector. */
  datatype View = View(
    filteredOrders: seq<Order>, filteredTransactions: seq<MoneyTxn>, filteredBalance: int,
    ordersByStatus: OrdersPage.OrderCounts, todosByStatus: TodosPage.TodoCounts,
    recent: seq<MoneyTxn>, completion: int)

  /** The render-time derivations. The order counts are taken over the
      filtered orders; the todo counts and the completion over all todos,
      whatever company is selected. */
  function Render(companies: seq<Company>, stats: Stats, selected: Id): (v: View)
    ensures v.filteredOrders == FilteredOrders(stats.orders, selected)
    ensures v.filteredTransactions == MoneyPage.FilteredTransactions(stats.transactions, selected)
    ensures v.ordersByStatus == OrdersPage.Counts(v.filteredOrders)
    ensures v.todosByStatus == TodosPage.Counts(stats.todos)
    ensures v.filteredBalance == FilteredBalance(companies, selected, stats.totalBalance)
    ensures v.recent == Recent(v.filteredTransactions)
    ensures v.completion == CompletionPercent(v.todosByStatus.completed, |stats.todos|)
    ensures 0 <= v.completion <= 100
  {
    var orders := FilteredOrders(stats.orders, selected);
    var transactions := MoneyPage.FilteredTransactions(stats.transactions, selected);
    var todoCounts := TodosPage.Counts(stats.todos);
    View(orders, transactions, FilteredBalance(companies, selected, stats.totalBalance),
         OrdersPage.Counts(orders), todoCounts, Recent(transactions),
         CompletionPercent(todoCounts.completed, |stats.todos|))
  }

  /** Changing the selection never moves the todo counts or the completion. */
  lemma TodosIgnoreSelection(companies: seq<Company>, stats: Stats, s1: Id, s2: Id)
    ensures Render(companies, stats, s1).todosByStatus == Render(companies, stats, s2).todosByStatus
    ensures Render(companies, stats, s1).completion == Render(companies, stats, s2).completion
  {
  }

  /** Under a selection, every order counted and every recent transaction
      belongs to the selected company; the four order counts add up to the
      selected company's orders in one of the four statuses. */
  lemma SelectionNarrows(companies: seq<Company>, stats: Stats, selected: Id)
    ensures var v := Render(companies, stats, selected);
      && OrdersPage.Total(v.ordersByStatus) == |Filter(v.filteredOrders, OrdersPage.Listed)|
      && (selected != "" ==> forall o :: o in v.filteredOrders ==> o.companyId == selected)
      && (selected != "" ==> forall t :: t in v.recent ==> t.companyId == selected)
  {
    var v := Render(companies, stats, selected);
    forall t | t in v.recent ensures t in v.filteredTransactions {
      var k :| 0 <= k < |v.recent| && v.recent[k] == t;
      assert v.filteredTransactions[k] == t;
    }
  }

  /** With no todo completed the ring shows 0%, with all completed 100%. */
  lemma CompletionExtremes(completed: nat, total: nat)
    ensures completed == 0 ==> CompletionPercent(completed, total) == 0
    ensures completed == total > 0 ==> CompletionPercent(completed, total) == 100
  {
    if total > 0 {
      var d, r := 2 * total, CompletionPercent(completed, total);
      assert 200 * completed - total < d * r <= 200 * completed + total;
      if completed == 0 {
        QuotBelow(d, r, total, 1);
        QuotBelow(d, -1, -(total as int), r);
      }
      if completed == total {
        QuotBelow(d, r, 201 * total, 101);
        QuotBelow(d, 99, 199 * total, r);
      }
    }
  }
}
