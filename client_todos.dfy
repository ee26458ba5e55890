/** The todo list as the browser holds it, and the list edits and the search test
    shared by the todo page and the finished page. */
module ClientTodos {
  import opened Common
  import opened Text
  import opened TodoModel
  import Seqs

  /** A todo as received from the server. `priority` and `enthusiasm` may be
      missing (`enthusiasm` is read by the page although the schema has no such
      path). */
  datatype ClientTodo = ClientTodo(
    id: TodoId, title: string, description: Option<string>, completed: bool,
    priority: Option<Priority>, enthusiasm: Option<int>, tags: seq<string>, createdAt: Millis)

  /** `s.toLowerCase().includes(term.toLowerCase())` */
  predicate ContainsFolded(s: string, term: string) {
    Contains(Lower(s), Lower(term))
  }

  /** The search test: a term that is blank once trimmed matches every todo;
      otherwise the untrimmed term must occur, ignoring case, in the title, in a
      non-empty description or in one of the tags. */
  predicate MatchesSearch(t: ClientTodo, term: string) {
    IsBlank(term) ||
    ContainsFolded(t.title, term) ||
    (t.description.Some? && t.description.value != "" && ContainsFolded(t.description.value, term)) ||
    (exists k :: 0 <= k < |t.tags| && ContainsFolded(t.tags[k], term))
  }

  /** The empty term matches everything. */
  lemma EmptySearchMatches(t: ClientTodo)
    ensures MatchesSearch(t, "")
  {
    assert IsBlank("");
  }

  /** The test ignores the case of the term. */
  lemma {:induction false} SearchIgnoresTermCase(t: ClientTodo, term: string)
    ensures MatchesSearch(t, term) <==> MatchesSearch(t, Lower(term))
  {
    LowerIdempotent(term);
    assert AllSpace(term) <==> AllSpace(Lower(term)) by {
      forall k | 0 <= k < |term| ensures IsSpace(term[k]) <==> IsSpace(Lower(term)[k]) {
        assert Lower(term)[k] == LowerChar(term[k]);
      }
    }
  }

  /** The term is not trimmed before the test: " a" does not match a todo whose
      only text is the title "a". */
  lemma UntrimmedTermMatters(id: TodoId, now: Millis)
    ensures !MatchesSearch(ClientTodo(id, "a", None, false, None, None, [], now), " a")
  {
    assert Trim(" a") != "" by {
      assert !AllSpace(" a") by { assert !IsSpace(" a"[1]); }
    }
    assert Lower("a") == "a";
    assert Lower(" a") == " a";
  }

  /** `todos.map(t => t._id === u._id ? u : t)` */
  function ReplaceById(todos: seq<ClientTodo>, u: ClientTodo): (r: seq<ClientTodo>)
    ensures |r| == |todos|
    ensures forall i :: 0 <= i < |r| ==> r[i] == (if todos[i].id == u.id then u else todos[i])
  {
    seq(|todos|, i requires 0 <= i < |todos| => if todos[i].id == u.id then u else todos[i])
  }

  /** `todos.filter(t => t._id !== id)` */
  function RemoveById(todos: seq<ClientTodo>, id: TodoId): (r: seq<ClientTodo>)
    ensures forall t :: t in r <==> t in todos && t.id != id
    ensures Seqs.IsSubsequence(r, todos)
    ensures |r| == Seqs.CountIf(todos, (t: ClientTodo) => t.id != id)
  {
    Seqs.FilterIsSubsequence(todos, (t: ClientTodo) => t.id != id);
    Seqs.FilterLength(todos, (t: ClientTodo) => t.id != id);
    Seqs.Filter(todos, (t: ClientTodo) => t.id != id)
  }

  /** Only the ids present before are present after a replacement, at the same places. */
  lemma ReplaceKeepsIds(todos: seq<ClientTodo>, u: ClientTodo)
    ensures forall i :: 0 <= i < |todos| ==> ReplaceById(todos, u)[i].id == todos[i].id
  {
  }

  /** Replacing with the same todo twice is replacing it once. */
  lemma ReplaceIdempotent(todos: seq<ClientTodo>, u: ClientTodo)
    ensures ReplaceById(ReplaceById(todos, u), u) == ReplaceById(todos, u)
  {
  }

  /** A replacement leaves the list as it was when no entry has the todo's id. */
  lemma ReplaceAbsent(todos: seq<ClientTodo>, u: ClientTodo)
    requires forall t :: t in todos ==> t.id != u.id
    ensures ReplaceById(todos, u) == todos
  {
    assert forall i :: 0 <= i < |todos| ==> todos[i] in todos;
  }

  /** Removing an id that no entry has leaves the list as it was. */
  lemma RemoveAbsent(todos: seq<ClientTodo>, id: TodoId)
    requires forall t :: t in todos ==> t.id != id
    ensures RemoveById(todos, id) == todos
  {
    Seqs.FilterAll(todos, (t: ClientTodo) => t.id != id);
  }

  /** Once an id is removed, replacing it changes nothing: the two edits commute
      into a removal. */
  lemma {:induction false} ReplaceThenRemove(todos: seq<ClientTodo>, u: ClientTodo)
    ensures RemoveById(ReplaceById(todos, u), u.id) == RemoveById(todos, u.id)
  {
    if todos != [] {
      ReplaceThenRemove(todos[1..], u);
      assert ReplaceById(todos, u)[1..] == ReplaceById(todos[1..], u);
    }
  }
}
