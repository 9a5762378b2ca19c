/** The money page (src/app/dashboard/money/page.js): the transaction form and
    the payloads it sends, the local list and balance updates after a save,
    the company filter the balance cards toggle, and the filtered list. */
module MoneyPage {
  import opened Common
  import opened Lists
  import opened Store
  import opened TransactionsApi

  /** The modal's `formData`. `amount` is what the input holds: the typed text
      with what `parseFloat` makes of it, or the stored number after an edit
      was opened. */
  datatype TxnForm = TxnForm(amount: Amount, kind: string, description: string, companyId: Id, orderNumber: string)

  /** The form a closed modal is reset to: no amount, a credit, everything else empty. */
  function EmptyForm(): (f: TxnForm)
    ensures f.amount.ParseFloat().None? && f.kind == "credit"
    ensures f.description == "" && f.companyId == "" && f.orderNumber == ""
  {
    TxnForm(AmountText("", None), "credit", "", "", "")
  }

  /** `handleEdit`: the form is filled from the transaction, a missing
      description or order number becoming the empty string. */
  function EditForm(t: MoneyTxn): (f: TxnForm)
    ensures f.amount.ParseFloat() == Some(t.amount) && f.kind == t.kind && f.companyId == t.companyId
    ensures f.description == t.description.GetOr("") && f.orderNumber == t.orderNumber.GetOr("")
  {
    TxnForm(AmountNumber(t.amount), t.kind, t.description.GetOr(""), t.companyId, t.orderNumber.GetOr(""))
  }

  /** The JSON body of a create: every form field, the amount replaced by
      `parseFloat(amount)`. A `NaN` amount serialises as `null`. */
  function CreateRequest(f: TxnForm): (r: TxnRequest)
    ensures r.amount.ParseFloat() == f.amount.ParseFloat()
    ensures r.kind == Str(f.kind) && r.description == Str(f.description)
    ensures r.companyId == Str(f.companyId) && r.orderNumber == Str(f.orderNumber)
  {
    var amount := match f.amount.ParseFloat() case Some(v) => AmountNumber(v) case None => AmountNull;
    TxnRequest(amount, Str(f.kind), Str(f.description), Str(f.companyId), Str(f.orderNumber))
  }

  /** The JSON body of an edit: the description and the order number only. */
  datatype EditPayload = EditPayload(description: string, orderNumber: string)

  function EditRequest(f: TxnForm): (r: EditPayload)
    ensures r.description == f.description && r.orderNumber == f.orderNumber
  {
    EditPayload(f.description, f.orderNumber)
  }

  /** An edit never carries the amount, the type or the company: two forms that
      differ only there send the same body. */
  lemma EditIgnoresLedgerFields(f: TxnForm, amount: Amount, kind: string, companyId: Id)
    ensures EditRequest(f) == EditRequest(f.(amount := amount, kind := kind, companyId := companyId))
  {
  }

  /** Opening a transaction for edit and saving it unchanged sends back its
      own description and order number, a missing one as the empty string. */
  lemma EditUnchangedResends(t: MoneyTxn)
    ensures EditRequest(EditForm(t)) == EditPayload(t.description.GetOr(""), t.orderNumber.GetOr(""))
  {
  }

  /** The ledger's answer to a create sent from the form: accepted exactly when
      the amount parses to a positive number, the type is credit or debit, a
      company is chosen and exists and its balance stays non-negative. */
  lemma CreateAccepted(f: TxnForm, companies: seq<Company>)
    ensures CheckTransaction(CreateRequest(f), companies).Success? <==>
              && f.amount.ParseFloat().Some? && f.amount.ParseFloat().value > 0
              && f.kind in {"credit", "debit"} && f.companyId != ""
              && FindCompany(companies, f.companyId).Some?
              && FindCompany(companies, f.companyId).value.balance
                   + BalanceChange(f.kind, f.amount.ParseFloat().value) >= 0
  {
    var req := CreateRequest(f);
    if f.amount.ParseFloat().Some? && f.amount.ParseFloat().value > 0 {
      assert req.amount.Truthy();
    }
    if f.kind in {"credit", "debit"} {
      assert KnownType(req) && req.kind.Truthy();
    }
  }

  /** An amount that does not parse travels as `null`, and one that parses to
      zero is falsy: both are answered "Amount, type and company are
      required", not "Amount must be a positive number". */
  lemma UnusableAmountIsMissing(f: TxnForm, companies: seq<Company>)
    requires f.amount.ParseFloat().None? || f.amount.ParseFloat() == Some(0)
    ensures CheckTransaction(CreateRequest(f), companies) == Failure(MissingFields)
  {
  }

  /** The reset form is refused as incomplete. */
  lemma EmptyFormRefused(companies: seq<Company>)
    ensures CheckTransaction(CreateRequest(EmptyForm()), companies) == Failure(MissingFields)
  {
    UnusableAmountIsMissing(EmptyForm(), companies);
  }

  /** `setTransactions([data.transaction, ...transactions])`. */
  function AfterCreate(transactions: seq<MoneyTxn>, created: MoneyTxn): (r: seq<MoneyTxn>)
    ensures r == SaveLocal(transactions, None, created, TxnKey)
    ensures |r| == |transactions| + 1 && r[0] == created && r[1..] == transactions
  {
    [created] + transactions
  }

  /** `transactions.map(t => t.id === editing.id ? data.transaction : t)`. */
  function AfterEdit(transactions: seq<MoneyTxn>, editingId: Id, saved: MoneyTxn): (r: seq<MoneyTxn>)
    requires saved.id == editingId
    ensures r == SaveLocal(transactions, Some(editingId), saved, TxnKey)
    ensures Ids(r, TxnKey) == Ids(transactions, TxnKey)
    ensures UniqueIds(transactions, TxnKey) ==> UniqueIds(r, TxnKey)
  {
    ReplaceKeepsIds(transactions, editingId, saved, TxnKey);
    ReplaceById(transactions, editingId, saved, TxnKey)
  }

  /** The local balance update after a create: the company whose id is the
      form's company takes the reported balance, keeping its other fields. */
  function WithBalance(companies: seq<Company>, companyId: Id, newBalance: int): (r: seq<Company>)
    ensures |r| == |companies|
    ensures forall i :: 0 <= i < |r| ==>
              r[i] == if companies[i].id == companyId then companies[i].(balance := newBalance) else companies[i]
  {
    if companies == [] then []
    else [if companies[0].id == companyId then companies[0].(balance := newBalance) else companies[0]]
         + WithBalance(companies[1..], companyId, newBalance)
  }

  /** Only the target company's balance moves, and every company keeps its id
      and name. */
  lemma WithBalanceChangesOnlyTarget(companies: seq<Company>, companyId: Id, newBalance: int)
    ensures var r := WithBalance(companies, companyId, newBalance);
      forall i :: 0 <= i < |r| ==>
        r[i].id == companies[i].id && r[i].name == companies[i].name
        && (r[i].balance != companies[i].balance ==> companies[i].id == companyId && r[i].balance == newBalance)
  {
  }

  /** After an accepted create the page's company list is exactly the company
      table the ledger POST leaves behind: the local update and the store's
      overwrite of the one company agree (company ids being unique). */
  lemma LocalBalanceMatchesStore(f: TxnForm, companies: seq<Company>)
    requires UniqueIds(companies, CompanyKey)
    requires CheckTransaction(CreateRequest(f), companies).Success?
    ensures var p := CheckTransaction(CreateRequest(f), companies).value;
      var c := FindCompany(companies, p.companyId).value;
      WithBalance(companies, f.companyId, p.newBalance)
        == ReplaceById(companies, p.companyId, c.(balance := p.newBalance), CompanyKey)
  {
    var p := CheckTransaction(CreateRequest(f), companies).value;
    var c := FindCompany(companies, p.companyId).value;
    var local := WithBalance(companies, f.companyId, p.newBalance);
    var store := ReplaceById(companies, p.companyId, c.(balance := p.newBalance), CompanyKey);
    assert p.companyId == f.companyId;
    forall i | 0 <= i < |companies| ensures local[i] == store[i] {
      if companies[i].id == p.companyId {
        FindCompanyUnique(companies, companies[i]);
      }
    }
  }

  /** A company card's click: selecting the card's company, or clearing the
      filter when that company is already selected. */
  function ToggleFilter(filterCompany: Id, cardId: Id): (r: Id)
    ensures filterCompany == cardId ==> r == ""
    ensures filterCompany != cardId ==> r == cardId
  {
    if filterCompany == cardId then "" else cardId
  }

  /** Clicking the same card twice from no filter, or from that card's own
      filter, comes back to where it started. */
  lemma ToggleTwice(filterCompany: Id, cardId: Id)
    requires cardId != "" && (filterCompany == "" || filterCompany == cardId)
    ensures ToggleFilter(ToggleFilter(filterCompany, cardId), cardId) == filterCompany
  {
  }

  function TxnCompany(t: MoneyTxn): Id { t.companyId }

  /** `filteredTransactions`: all of them without a filter, otherwise those of
      the filtered company, each as often as before and in list order. */
  function FilteredTransactions(transactions: seq<MoneyTxn>, filterCompany: Id): (r: seq<MoneyTxn>)
    ensures filterCompany == "" ==> r == transactions
    ensures filterCompany != "" ==> r == Filter(transactions, FieldIs(TxnCompany, filterCompany))
    ensures filterCompany != "" ==> forall t :: t in r <==> t in transactions && t.companyId == filterCompany
    ensures forall t :: multiset(r)[t] ==
              if filterCompany == "" || t.companyId == filterCompany then multiset(transactions)[t] else 0
  {
    WhereEq(transactions, filterCompany, TxnCompany)
  }

  /** A new transaction shows up at the top of the list when there is no
      filter or it belongs to the filtered company, and nowhere otherwise. */
  lemma CreatedShownUnderFilter(transactions: seq<MoneyTxn>, created: MoneyTxn, filterCompany: Id)
    ensures FilteredTransactions(AfterCreate(transactions, created), filterCompany)
            == if filterCompany == "" || created.companyId == filterCompany
               then [created] + FilteredTransactions(transactions, filterCompany)
               else FilteredTransactions(transactions, filterCompany)
  {
    var s := [created] + transactions;
    assert s[1..] == transactions;
  }

  /** `selectedCompany`: the company the filter names, if any. */
  function SelectedCompany(companies: seq<Company>, filterCompany: Id): (r: Option<Company>)
    ensures r.None? <==> filterCompany !in Ids(companies, CompanyKey)
    ensures r.Some? ==> r.value in companies && r.value.id == filterCompany
  {
    FindCompany(companies, filterCompany)
  }

  /** Clicking an unselected card selects that very company; clicking it again
      selects none (when no company has the empty id). */
  lemma ToggleSelectsCard(companies: seq<Company>, filterCompany: Id, c: Company)
    requires UniqueIds(companies, CompanyKey) && c in companies && "" !in Ids(companies, CompanyKey)
    ensures filterCompany != c.id ==> SelectedCompany(companies, ToggleFilter(filterCompany, c.id)) == Some(c)
    ensures filterCompany == c.id ==> SelectedCompany(companies, ToggleFilter(filterCompany, c.id)) == None
  {
    FindCompanyUnique(companies, c);
  }
}
