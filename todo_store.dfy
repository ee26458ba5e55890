/** The todo request handlers over the `Todo` collection. Each handler acts for the
    authenticated user passed in as `user` (or `requester`). Calendar days are UTC
    days of 86 400 000 ms. */
module TodoHandlers {
  import opened Common
  import opened Text
  import opened TodoModel
  import Seqs
  import Sorting

  const DayMs: int := 86400000

  /** `setHours(0, 0, 0, 0)`: the first millisecond of the day holding `t`. */
  function StartOfDay(t: Millis): (r: Millis)
    ensures r <= t < r + DayMs
    ensures r % DayMs == 0
  {
    t - t % DayMs
  }

  /** The `?date=` query parameter of `getTodos`: absent or empty (no day filter),
      a parseable date, or one `new Date` cannot parse (an invalid date fails the
      query's cast). */
  datatype DateParam = NoDate | OnDate(at: Millis) | InvalidDate

  /** The filter of `getTodos`: from 00:00:00.000 to 23:59:59.999 of the day of `t`,
      both ends included. */
  predicate InRequestedDay(t: Millis, createdAt: Millis) {
    StartOfDay(t) <= createdAt <= StartOfDay(t) + DayMs - 1
  }

  /** The filter of `getTodayTodos`: from today's midnight up to, not including,
      tomorrow's. */
  predicate InToday(now: Millis, createdAt: Millis) {
    StartOfDay(now) <= createdAt < StartOfDay(now) + DayMs
  }

  /** Both windows hold exactly the instants of the same calendar day. */
  lemma WindowsAreCalendarDays(t: Millis, c: Millis)
    ensures InRequestedDay(t, c) <==> StartOfDay(c) == StartOfDay(t)
    ensures InToday(t, c) <==> StartOfDay(c) == StartOfDay(t)
  {
    var s := StartOfDay(t);
    if s <= c < s + DayMs {
      var q := s / DayMs;
      assert s == q * DayMs;
      assert c == q * DayMs + (c - s);
      assert c % DayMs == c - s;
    }
  }

  /** The single set of changes `updateTodo` applies: provided fields are cast
      (trimmed) and validated as the schema says, missing ones are left alone, and
      `updatedAt` becomes `now`. */
  function UpdateFields(t: Todo, title: Option<string>, description: Option<string>,
                        completed: Option<bool>, now: Millis): (r: Result<Todo, ValidationError>)
    ensures r.Ok? <==>
      (title.None? || RequiredTrimmed("title", title, TitleMax).Ok?) &&
      OptionalTrimmed("description", description, DescriptionMax).Ok?
    ensures r.Ok? ==>
      && r.value.title == (if title.Some? then Trim(title.value) else t.title)
      && r.value.description == (if description.Some? then Some(Trim(description.value)) else t.description)
      && r.value.completed == completed.GetOr(t.completed)
      && r.value.updatedAt == now
      && r.value.(title := t.title, description := t.description, completed := t.completed,
                  updatedAt := t.updatedAt) == t
    ensures r.Ok? && ValidTodo(t) ==> ValidTodo(r.value)
  {
    if title.Some? && RequiredTrimmed("title", title, TitleMax).Err? then
      Err(RequiredTrimmed("title", title, TitleMax).error)
    else
      match OptionalTrimmed("description", description, DescriptionMax)
      case Err(e) => Err(e)
      case Ok(d) =>
        Ok(t.(title := if title.Some? then Trim(title.value) else t.title,
              description := if description.Some? then d else t.description,
              completed := completed.GetOr(t.completed),
              updatedAt := now))
  }

  /** An update that names no field refreshes `updatedAt` and nothing else. */
  lemma EmptyUpdateOnlyTouches(t: Todo, now: Millis)
    ensures UpdateFields(t, None, None, None, now) == Ok(t.(updatedAt := now))
  {
  }

  /** Applying the same update twice has the effect of applying it once. */
  lemma UpdateIdempotent(t: Todo, title: Option<string>, description: Option<string>,
                         completed: Option<bool>, now: Millis)
    requires UpdateFields(t, title, description, completed, now).Ok?
    ensures UpdateFields(UpdateFields(t, title, description, completed, now).value,
                         title, description, completed, now) == UpdateFields(t, title, description, completed, now)
  {
  }

  /** An update that blanks the title is refused: a required string cannot be empty
      once trimmed. */
  lemma BlankTitleRejected(t: Todo, title: string, now: Millis)
    requires AllSpace(title)
    ensures UpdateFields(t, Some(title), None, None, now).Err?
  {
  }

  class TodoStore {
    var todos: map<TodoId, Todo>

    ghost predicate Valid()
      reads this
    {
      forall id :: id in todos ==> ValidTodo(todos[id])
    }

    constructor()
      ensures Valid() && todos == map[]
    {
      todos := map[];
    }

    /** `createTodo`: a todo owned by `user` from the request's title and
        description only; every other path takes its default. A validation failure
        answers 500. `id` is the identifier the store assigns. */
    method CreateTodo(user: UserId, title: Option<string>, description: Option<string>,
                      id: TodoId, now: Millis) returns (res: Result<Todo, nat>)
      requires Valid() && id !in todos
      modifies this
      ensures Valid()
      ensures var v := TodoModel.CreateTodo(RawTodo(title, description, None, None, [], [], Some(user)), now);
        && (v.Err? ==> res == Err(ServerError) && todos == old(todos))
        && (v.Ok? ==> res == Ok(v.value) && todos == old(todos)[id := v.value])
      ensures res.Ok? <==> RequiredTrimmed("title", title, TitleMax).Ok? &&
                           OptionalTrimmed("description", description, DescriptionMax).Ok?
      ensures res.Ok? ==> res.value.title == Trim(title.value) &&
                          res.value.description == (if description.Some? then Some(Trim(description.value)) else None)
      ensures res.Ok? ==> res.value.user == user && !res.value.completed && res.value.priority == Medium &&
                          res.value.tags == [] && res.value.subtasks == [] &&
                          res.value.createdAt == now && res.value.updatedAt == now
    {
      var v := TodoModel.CreateTodo(RawTodo(title, description, None, None, [], [], Some(user)), now);
      if v.Err? {
        return Err(ServerError);
      }
      todos := todos[id := v.value];
      res := Ok(v.value);
    }

    /** `Todo.find({ user, ...window }).sort({ createdAt: -1 })`: each of the
        user's todos whose creation time passes `keep` once, newest first. */
    method FindOwn(user: UserId, keep: Millis -> bool) returns (found: seq<(TodoId, Todo)>)
      ensures forall e :: e in found ==>
        (e.0 in todos && e.1 == todos[e.0] && e.1.user == user && keep(e.1.createdAt))
      ensures forall id :: id in todos && todos[id].user == user && keep(todos[id].createdAt) ==>
        (id, todos[id]) in found
      ensures forall i, j :: 0 <= i < j < |found| ==> found[i].0 != found[j].0
      ensures forall i, j :: 0 <= i < j < |found| ==> found[i].1.createdAt >= found[j].1.createdAt
    {
      var all := Seqs.Entries(todos);
      var p := (e: (TodoId, Todo)) => e.1.user == user && keep(e.1.createdAt);
      var mine := Seqs.Filter(all, p);
      assert Seqs.NoDuplicates(all);
      Seqs.FilterNoDuplicates(all, p);
      found := Sorting.SortDesc(mine, (e: (TodoId, Todo)) => e.1.createdAt);
      Sorting.SameElements(mine, found);
      Seqs.PermutationNoDuplicates(mine, found);
      forall e | e in found
        ensures e.0 in todos && e.1 == todos[e.0] && e.1.user == user && keep(e.1.createdAt)
      {
        assert e in mine;
      }
      forall id | id in todos && todos[id].user == user && keep(todos[id].createdAt)
        ensures (id, todos[id]) in found
      {
        assert (id, todos[id]) in all;
        assert p((id, todos[id]));
      }
      Seqs.DistinctKeys(todos, found);
    }

    /** `getTodos`: the caller's todos, newest first, limited to the requested
        calendar day when a date is given; an unparseable date answers 500. */
    method GetTodos(user: UserId, date: DateParam) returns (res: Result<seq<(TodoId, Todo)>, nat>)
      ensures date.InvalidDate? <==> res.Err?
      ensures res.Err? ==> res.error == ServerError
      ensures res.Ok? ==>
        && (forall e :: e in res.value ==>
              e.0 in todos && e.1 == todos[e.0] && e.1.user == user &&
              (date.OnDate? ==> InRequestedDay(date.at, e.1.createdAt)))
        && (forall id ::
              (id in todos && todos[id].user == user &&
               (date.OnDate? ==> InRequestedDay(date.at, todos[id].createdAt))) ==> (id, todos[id]) in res.value)
        && (forall i, j :: 0 <= i < j < |res.value| ==> res.value[i].0 != res.value[j].0)
        && (forall i, j :: 0 <= i < j < |res.value| ==> res.value[i].1.createdAt >= res.value[j].1.createdAt)
    {
      match date
      case InvalidDate =>
        return Err(ServerError);
      case NoDate =>
        var found := FindOwn(user, (c: Millis) => true);
        return Ok(found);
      case OnDate(t) =>
        var found := FindOwn(user, (c: Millis) => InRequestedDay(t, c));
        return Ok(found);
    }

    /** `getTodayTodos`: the caller's todos created on the current day, newest first. */
    method GetTodayTodos(user: UserId, now: Millis) returns (found: seq<(TodoId, Todo)>)
      ensures forall e :: e in found ==>
        (e.0 in todos && e.1 == todos[e.0] && e.1.user == user && InToday(now, e.1.createdAt))
      ensures forall id :: id in todos && todos[id].user == user && InToday(now, todos[id].createdAt) ==>
        (id, todos[id]) in found
      ensures forall i, j :: 0 <= i < j < |found| ==> found[i].0 != found[j].0
      ensures forall i, j :: 0 <= i < j < |found| ==> found[i].1.createdAt >= found[j].1.createdAt
    {
      found := FindOwn(user, (c: Millis) => InToday(now, c));
    }

    /** `updateTodo`: 404 for an unknown todo, 403 for someone else's, 500 when the
        update fails validation; otherwise the updated todo. */
    method UpdateTodo(requester: UserId, id: TodoId, title: Option<string>, description: Option<string>,
                      completed: Option<bool>, now: Millis) returns (res: Result<Todo, nat>)
      requires Valid()
      modifies this
      ensures Valid()
      ensures id !in old(todos) ==> res == Err(NotFound)
      ensures id in old(todos) && old(todos)[id].user != requester ==> res == Err(Forbidden)
      ensures res.Err? ==> todos == old(todos)
      ensures id in old(todos) && old(todos)[id].user == requester ==>
        var u := UpdateFields(old(todos)[id], title, description, completed, now);
        && (u.Err? ==> res == Err(ServerError))
        && (u.Ok? ==> res == Ok(u.value) && todos == old(todos)[id := u.value])
    {
      if id !in todos {
        return Err(NotFound);
      }
      if todos[id].user != requester {
        return Err(Forbidden);
      }
      var u := UpdateFields(todos[id], title, description, completed, now);
      if u.Err? {
        return Err(ServerError);
      }
      todos := todos[id := u.value];
      res := Ok(u.value);
    }

    /** `deleteTodo`: 404 for an unknown todo, 403 for someone else's, otherwise the
        todo is removed and 200 answered. */
    method DeleteTodo(requester: UserId, id: TodoId) returns (status: nat)
      requires Valid()
      modifies this
      ensures Valid()
      ensures id !in old(todos) ==> status == NotFound && todos == old(todos)
      ensures id in old(todos) && old(todos)[id].user != requester ==> status == Forbidden && todos == old(todos)
      ensures id in old(todos) && old(todos)[id].user == requester ==>
        status == Success && todos == old(todos) - {id}
    {
      if id !in todos {
        return NotFound;
      }
      if todos[id].user != requester {
        return Forbidden;
      }
      todos := todos - {id};
      status := Success;
    }

    /** `Todo.deleteMany({ user })`: every todo of `user` goes, the others stay. */
    method DeleteAllOf(user: UserId)
      requires Valid()
      modifies this
      ensures Valid()
      ensures todos == map id | id in old(todos) && old(todos)[id].user != user :: old(todos)[id]
      ensures forall id :: id in todos ==> todos[id].user != user
    {
      todos := map id | id in todos && todos[id].user != user :: todos[id];
    }
  }
}
