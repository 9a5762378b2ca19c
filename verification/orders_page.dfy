/** The orders board (src/app/dashboard/orders/page.js): the status workflow
    offered in each row's drop-down, the status filter, the per-status counts,
    the total amount and the local list updates after a save or a delete. */
module OrdersPage {
  import opened Common
  import opened Lists
  import opened Store

  const OrderStatuses: seq<string> := ["active", "on_hold", "in_meeting", "completed"]

  /** `STATUS_TRANSITIONS[status]`: the statuses a row may move to (None for
      a status the table has no entry for, so the drop-down offers nothing). */
  function Transitions(status: string): (r: Option<seq<string>>)
    ensures r.Some? <==> status in OrderStatuses
    ensures r.Some? ==> status !in r.value
    ensures r.Some? ==> forall t :: t in r.value ==> t in OrderStatuses
    ensures status == "completed" ==> r == Some(["active"])
    ensures status in OrderStatuses && status != "completed" ==>
              forall t :: t in OrderStatuses && t != status ==> t in r.value
  {
    match status
    case "active" => Some(["on_hold", "in_meeting", "completed"])
    case "on_hold" => Some(["active", "in_meeting", "completed"])
    case "in_meeting" => Some(["active", "on_hold", "completed"])
    case "completed" => Some(["active"])
    case _ => None
  }

  /** Any status reaches any other in at most two steps of the drop-down
      (a completed order is reopened first). */
  lemma WorkflowConnected(s: string, t: string)
    requires s in OrderStatuses && t in OrderStatuses && s != t
    ensures t in Transitions(s).value
         || (exists u :: u in Transitions(s).value && t in Transitions(u).value)
  {
    if s == "completed" {
      assert "active" in Transitions(s).value;
    }
  }

  /** `o => o.status === status`. */
  function HasStatus(status: string): Order -> bool {
    (o: Order) => o.status == status
  }

  /** `filteredOrders`: all orders for an empty filter, otherwise exactly the
      orders in that status, each as often as before and in the same order. */
  function FilteredOrders(orders: seq<Order>, filterStatus: string): (r: seq<Order>)
    ensures filterStatus == "" ==> r == orders
    ensures filterStatus != "" ==> r == Filter(orders, HasStatus(filterStatus))
    ensures filterStatus != "" ==>
              forall o :: multiset(r)[o] == if o.status == filterStatus then multiset(orders)[o] else 0
  {
    FilterMultiset(orders, HasStatus(filterStatus));
    if filterStatus == "" then orders else Filter(orders, HasStatus(filterStatus))
  }

  datatype OrderCounts = OrderCounts(active: nat, onHold: nat, inMeeting: nat, completed: nat)

  function Total(c: OrderCounts): nat {
    c.active + c.onHold + c.inMeeting + c.completed
  }

  predicate Listed(o: Order) { o.status in OrderStatuses }

  /** `orderCounts`: each card's count is the length of the list that choosing
      its status as the filter shows, and the four add up to the number of
      orders whose status is one of the four. */
  function Counts(orders: seq<Order>): (r: OrderCounts)
    ensures r.active == |FilteredOrders(orders, "active")|
    ensures r.onHold == |FilteredOrders(orders, "on_hold")|
    ensures r.inMeeting == |FilteredOrders(orders, "in_meeting")|
    ensures r.completed == |FilteredOrders(orders, "completed")|
    ensures Total(r) == |Filter(orders, Listed)|
  {
    StatusPartition(orders);
    OrderCounts(|Filter(orders, HasStatus("active"))|, |Filter(orders, HasStatus("on_hold"))|,
                |Filter(orders, HasStatus("in_meeting"))|, |Filter(orders, HasStatus("completed"))|)
  }

  /** The orders of the four statuses, counted status by status, are the listed orders. */
  lemma {:induction false} StatusPartition(orders: seq<Order>)
    ensures |Filter(orders, HasStatus("active"))| + |Filter(orders, HasStatus("on_hold"))|
          + |Filter(orders, HasStatus("in_meeting"))| + |Filter(orders, HasStatus("completed"))|
         == |Filter(orders, Listed)|
  {
    if orders != [] {
      StatusPartition(orders[1..]);
      FilterLengthCons(orders, HasStatus("active"));
      FilterLengthCons(orders, HasStatus("on_hold"));
      FilterLengthCons(orders, HasStatus("in_meeting"));
      FilterLengthCons(orders, HasStatus("completed"));
      FilterLengthCons(orders, Listed);
      var st := orders[0].status;
      assert Listed(orders[0]) <==> st == "active" || st == "on_hold" || st == "in_meeting" || st == "completed";
    }
  }

  /** When every order has a listed status, the counts add up to all orders. */
  lemma CountsCoverAll(orders: seq<Order>)
    requires forall o :: o in orders ==> Listed(o)
    ensures Total(Counts(orders)) == |orders|
  {
    FilterKeepsAll(orders, Listed);
  }

  /** `o.amount || 0`. */
  function AmountOf(o: Order): int { o.amount.GetOr(0) }

  predicate HasAmount(o: Order) { o.amount.Some? }

  /** `totalAmount`: the sum of the amounts, a missing amount counting as zero,
      so the orders without one can be left out; never negative when no amount is. */
  function TotalAmount(orders: seq<Order>): (r: int)
    ensures r == Sum(Filter(orders, HasAmount), AmountOf)
    ensures (forall o :: o in orders ==> AmountOf(o) >= 0) ==> r >= 0
  {
    SumSkipsZeros(orders, HasAmount, AmountOf);
    SumNonNegative(orders, AmountOf);
    Sum(orders, AmountOf)
  }

  /** After a create the total grows by the new order's amount; after an edit
      of an order (ids unique) it moves by the difference of the two amounts. */
  lemma TotalAmountAfterSave(orders: seq<Order>, editing: Option<Order>, saved: Order)
    requires editing.Some? ==> UniqueIds(orders, OrderKey) && editing.value in orders && saved.id == editing.value.id
    ensures editing.None? ==>
              TotalAmount(SaveLocal(orders, None, saved, OrderKey)) == TotalAmount(orders) + AmountOf(saved)
    ensures editing.Some? ==>
              TotalAmount(SaveLocal(orders, Some(editing.value.id), saved, OrderKey))
              == TotalAmount(orders) - AmountOf(editing.value) + AmountOf(saved)
  {
    if editing.Some? {
      SumReplace(orders, editing.value, saved, OrderKey, AmountOf);
    } else {
      assert ([saved] + orders)[1..] == orders;
    }
  }

  /** The drop-down change (`handleStatusUpdate`) swaps in the updated row
      returned for that id and leaves every other row as it was. */
  function AfterStatusUpdate(orders: seq<Order>, id: Id, updated: Order): (r: seq<Order>)
    ensures |r| == |orders|
    ensures forall i :: 0 <= i < |orders| ==> r[i] == if orders[i].id == id then updated else orders[i]
  {
    ReplaceById(orders, id, updated, OrderKey)
  }

  /** `handleDelete`: exactly the rows with that id disappear; the rest stay,
      each as often as before and in the same order. */
  function AfterDelete(orders: seq<Order>, id: Id): (r: seq<Order>)
    ensures r == Filter(orders, KeyIsNot(OrderKey, id))
    ensures forall o :: o in r <==> o in orders && o.id != id
    ensures forall o :: multiset(r)[o] == if o.id == id then 0 else multiset(orders)[o]
  {
    RemoveById(orders, id, OrderKey)
  }

  /** Deleting a freshly created order gives the list back as it was. */
  lemma CreateThenDelete(orders: seq<Order>, saved: Order)
    requires saved.id !in Ids(orders, OrderKey)
    ensures AfterDelete(SaveLocal(orders, None, saved, OrderKey), saved.id) == orders
  {
    PrependThenRemove(orders, saved, OrderKey);
  }
}
