/** The status pill (src/components/ui/StatusBadge.jsx): three constant
    tables of styles, one picked by the badge's type, and a lookup of the
    status in it that falls back to a neutral style showing the raw status. */
module StatusBadge {
  import opened Common
  import OrdersApi
  import TodosApi

  /** The four strings of a table entry (`caption` is its `label`). */
  datatype Style = Style(bg: string, text: string, dot: string, caption: string)

  const OrderStyles: map<string, Style> := map[
    "active" := Style("bg-green-100", "text-green-700", "bg-green-500", "Active"),
    "on_hold" := Style("bg-yellow-100", "text-yellow-700", "bg-yellow-500", "On Hold"),
    "in_meeting" := Style("bg-blue-100", "text-blue-700", "bg-blue-500", "In Meeting"),
    "completed" := Style("bg-slate-100", "text-slate-700", "bg-slate-500", "Completed")
  ]

  const TodoStyles: map<string, Style> := map[
    "pending" := Style("bg-yellow-100", "text-yellow-700", "bg-yellow-500", "Pending"),
    "in_progress" := Style("bg-blue-100", "text-blue-700", "bg-blue-500", "In Progress"),
    "completed" := Style("bg-green-100", "text-green-700", "bg-green-500", "Completed")
  ]

  const TransactionStyles: map<string, Style> := map[
    "credit" := Style("bg-green-100", "text-green-700", "bg-green-500", "Credit"),
    "debit" := Style("bg-red-100", "text-red-700", "bg-red-500", "Debit")
  ]

  /** The `type` prop after its default: an absent type is "order". */
  function BadgeType(kind: Option<string>): (r: string)
    ensures kind.None? ==> r == "order"
    ensures kind.Some? ==> r == kind.value
  {
    kind.GetOr("order")
  }

  /** The table for a type: "order" and "todo" have their own, and every other
      type, whatever it is, gets the credit/debit table. */
  function TableFor(kind: Option<string>): (r: map<string, Style>)
    ensures BadgeType(kind) == "order" ==> r == OrderStyles
    ensures BadgeType(kind) == "todo" ==> r == TodoStyles
    ensures BadgeType(kind) !in {"order", "todo"} ==> r == TransactionStyles
  {
    var t := BadgeType(kind);
    if t == "order" then OrderStyles else if t == "todo" then TodoStyles else TransactionStyles
  }

  /** The neutral style of an unknown status: slate, captioned with the status itself. */
  function Fallback(status: string): Style {
    Style("bg-slate-100", "text-slate-700", "bg-slate-500", status)
  }

  /** The style the badge is drawn with. */
  function Config(status: string, kind: Option<string>): (r: Style)
    ensures status in TableFor(kind) ==> r == TableFor(kind)[status]
    ensures status !in TableFor(kind) ==> r == Fallback(status)
  {
    var table := TableFor(kind);
    if status in table then table[status] else Fallback(status)
  }

  /** Every status the order and todo routes accept, and both transaction
      types, has an entry of its own: none of them is drawn with the fallback,
      and each is captioned differently from its raw value. */
  lemma AcceptedValuesHaveStyles(status: string)
    ensures status in OrdersApi.Statuses ==> status in OrderStyles && Config(status, None).caption != status
    ensures status in TodosApi.Statuses ==> status in TodoStyles && Config(status, Some("todo")).caption != status
    ensures status in {"credit", "debit"} ==>
              status in TransactionStyles && Config(status, Some("transaction")).caption != status
  {
  }

  /** The tables are exactly the accepted values: the order table's keys are
      the order statuses and the todo table's keys the todo statuses. */
  lemma TablesMatchStatuses()
    ensures OrderStyles.Keys == set s | s in OrdersApi.Statuses
    ensures TodoStyles.Keys == set s | s in TodosApi.Statuses
    ensures TransactionStyles.Keys == {"credit", "debit"}
  {
  }

  /** A badge without a type is an order badge. */
  lemma DefaultIsOrder(status: string)
    ensures Config(status, None) == Config(status, Some("order"))
  {
  }

  /** "completed" is slate on an order badge and green on a todo badge, under
      the same caption. */
  lemma CompletedDiffersByType()
    ensures Config("completed", None).bg == "bg-slate-100"
    ensures Config("completed", Some("todo")).bg == "bg-green-100"
    ensures Config("completed", None).caption == Config("completed", Some("todo")).caption
  {
  }

  /** A status that is not in the chosen table is shown raw in slate; so is an
      order status on a badge whose type is neither "order" nor "todo". */
  lemma UnknownFallsBack(status: string, kind: Option<string>)
    ensures status !in TableFor(kind) ==>
              Config(status, kind).caption == status && Config(status, kind).bg == "bg-slate-100"
    ensures BadgeType(kind) !in {"order", "todo"} && status in OrdersApi.Statuses ==>
              Config(status, kind) == Fallback(status)
  {
  }
}
