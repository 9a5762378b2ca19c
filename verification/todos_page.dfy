/** The task list (src/app/dashboard/todos/page.js): the completion checkbox,
    the per-status buttons, the status filter, the per-status counts and the
    local list updates. */
module TodosPage {
  import opened Common
  import opened Lists
  import opened Store

  const TodoStatuses: seq<string> := ["pending", "in_progress", "completed"]

  /** The status the round checkbox sends: a completed todo goes back to
      pending, any other becomes completed. */
  function Toggle(status: string): (r: string)
    ensures r in TodoStatuses
    ensures r == "pending" <==> status == "completed"
    ensures r == "completed" <==> status != "completed"
  {
    if status == "completed" then "pending" else "completed"
  }

  /** Clicking twice restores a pending or completed todo, but an in-progress
      todo comes back as pending, not in progress. */
  lemma ToggleTwice(status: string)
    ensures status in {"pending", "completed"} ==> Toggle(Toggle(status)) == status
    ensures status == "in_progress" ==> Toggle(Toggle(status)) == "pending"
  {
  }

  /** A status button is disabled exactly when it names the todo's current status. */
  predicate ButtonDisabled(todoStatus: string, button: string) {
    todoStatus == button
  }

  /** The buttons that can be clicked for a todo. */
  function EnabledButtons(todoStatus: string): (r: seq<string>)
    ensures todoStatus in TodoStatuses ==> |r| == 2 && todoStatus !in r
    ensures todoStatus !in TodoStatuses ==> r == TodoStatuses
    ensures forall b :: b in r <==> b in TodoStatuses && !ButtonDisabled(todoStatus, b)
  {
    Filter(TodoStatuses, b => !ButtonDisabled(todoStatus, b))
  }

  function HasStatus(status: string): Todo -> bool {
    (t: Todo) => t.status == status
  }

  /** `filteredTodos`: all todos for an empty filter, otherwise exactly the
      todos in that status, each as often as before and in the same order. */
  function FilteredTodos(todos: seq<Todo>, filterStatus: string): (r: seq<Todo>)
    ensures filterStatus == "" ==> r == todos
    ensures filterStatus != "" ==> r == Filter(todos, HasStatus(filterStatus))
    ensures filterStatus != "" ==>
              forall t :: multiset(r)[t] == if t.status == filterStatus then multiset(todos)[t] else 0
  {
    FilterMultiset(todos, HasStatus(filterStatus));
    if filterStatus == "" then todos else Filter(todos, HasStatus(filterStatus))
  }

  datatype TodoCounts = TodoCounts(pending: nat, inProgress: nat, completed: nat)

  predicate Listed(t: Todo) { t.status in TodoStatuses }

  /** `todoCounts`: each count is the length of the list that choosing its
      status as the filter shows, and the three add up to the number of todos
      whose status is one of the three. */
  function Counts(todos: seq<Todo>): (r: TodoCounts)
    ensures r.pending == |FilteredTodos(todos, "pending")|
    ensures r.inProgress == |FilteredTodos(todos, "in_progress")|
    ensures r.completed == |FilteredTodos(todos, "completed")|
    ensures r.pending + r.inProgress + r.completed == |Filter(todos, Listed)|
  {
    StatusPartition(todos);
    TodoCounts(|Filter(todos, HasStatus("pending"))|, |Filter(todos, HasStatus("in_progress"))|,
               |Filter(todos, HasStatus("completed"))|)
  }

  /** The todos of the three statuses, counted status by status, are the listed todos. */
  lemma {:induction false} StatusPartition(todos: seq<Todo>)
    ensures |Filter(todos, HasStatus("pending"))| + |Filter(todos, HasStatus("in_progress"))|
          + |Filter(todos, HasStatus("completed"))| == |Filter(todos, Listed)|
  {
    if todos != [] {
      StatusPartition(todos[1..]);
      FilterLengthCons(todos, HasStatus("pending"));
      FilterLengthCons(todos, HasStatus("in_progress"));
      FilterLengthCons(todos, HasStatus("completed"));
      FilterLengthCons(todos, Listed);
      var st := todos[0].status;
      assert Listed(todos[0]) <==> st == "pending" || st == "in_progress" || st == "completed";
    }
  }

  /** Ticking the checkbox of todo `t` moves exactly one todo between the
      completed count and the others (ids unique). `updated` is taken to be
      the row the PUT route sends back, that is `t` with the toggled status;
      that route is not part of this model. */
  lemma ToggleMovesOneTodo(todos: seq<Todo>, t: Todo, updated: Todo)
    requires UniqueIds(todos, TodoKey) && t in todos
    requires updated == t.(status := Toggle(t.status))
    ensures var after := ReplaceById(todos, t.id, updated, TodoKey);
      Counts(after).completed == Counts(todos).completed + (if t.status == "completed" then -1 else 1)
  {
    var f := (x: Todo) => if x.status == "completed" then 1 else 0;
    SumReplace(todos, t, updated, TodoKey, f);
    CompletedIsSum(todos, f);
    CompletedIsSum(ReplaceById(todos, t.id, updated, TodoKey), f);
  }

  /** The completed count as a sum of ones. */
  lemma {:induction false} CompletedIsSum(todos: seq<Todo>, f: Todo -> int)
    requires forall x :: f(x) == if x.status == "completed" then 1 else 0
    ensures |Filter(todos, HasStatus("completed"))| == Sum(todos, f)
  {
    if todos != [] {
      CompletedIsSum(todos[1..], f);
      FilterLengthCons(todos, HasStatus("completed"));
    }
  }
}
