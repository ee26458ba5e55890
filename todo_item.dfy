/** One todo card: its local copy of the todo's fields and the completion toggle.
    Tag editing in edit mode is `TagEditing` applied to the card's `tags` and
    `tagInput`. */
module TodoItemCard {
  import opened Common
  import ClientTodos
  import TodoModel
  import TodoHandlers

  datatype Card = Card(
    title: string, description: string, completed: bool, tags: seq<string>, tagInput: string)

  /** The card's state when it is first shown for `todo`. */
  function Init(todo: ClientTodos.ClientTodo): (c: Card)
    ensures c.title == todo.title && c.completed == todo.completed && c.tags == todo.tags
    ensures c.description == (if todo.description.Some? then todo.description.value else "")
    ensures c.tagInput == ""
  {
    Card(todo.title, todo.description.GetOr(""), todo.completed, todo.tags, "")
  }

  /** The body of an update request. */
  datatype UpdateBody = UpdateBody(title: string, description: string, completed: bool, tags: seq<string>)

  /** The body `handleToggleComplete` sends: the card's fields with `completed` negated. */
  function ToggleBody(c: Card): (b: UpdateBody)
    ensures b.completed == !c.completed
    ensures b.title == c.title && b.description == c.description && b.tags == c.tags
  {
    UpdateBody(c.title, c.description, !c.completed, c.tags)
  }

  /** `handleToggleComplete`: `updated` is the server's answer, absent when the
      request failed. Only on success does the card flip `completed` and hand the
      updated todo to the page; a failure changes nothing and reports nothing. */
  function ToggleComplete(c: Card, updated: Option<ClientTodos.ClientTodo>): (r: (Card, Option<ClientTodos.ClientTodo>))
    ensures r.1 == updated
    ensures updated.Some? ==> r.0 == c.(completed := ToggleBody(c).completed)
    ensures updated.None? ==> r.0 == c
  {
    if updated.Some? then (c.(completed := !c.completed), updated) else (c, None)
  }

  /** Two successful toggles put the card back as it was. */
  lemma ToggleTwice(c: Card, first: ClientTodos.ClientTodo, second: ClientTodos.ClientTodo)
    ensures ToggleComplete(ToggleComplete(c, Some(first)).0, Some(second)).0 == c
  {
  }

  /** The server stores the toggled flag, title and description of a toggle
      request, but never its tags: a stored todo keeps its own tags. */
  lemma ToggleKeepsStoredTags(c: Card, t: TodoModel.Todo, now: Millis)
    ensures var b := ToggleBody(c);
      var r := TodoHandlers.UpdateFields(t, Some(b.title), Some(b.description), Some(b.completed), now);
      r.Ok? ==> r.value.tags == t.tags && r.value.completed == !c.completed
  {
  }
}
