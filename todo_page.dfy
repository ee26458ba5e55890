/** The todo page's list logic: the visible list (search, priority and enthusiasm
    filters, then one of three orders), the edits made when a child reports an
    added, updated or deleted todo, filter resetting, and drag-and-drop. */
module TodoPage {
  import opened Common
  import opened Text
  import opened TodoModel
  import opened ClientTodos
  import Seqs
  import Sorting

  /** The `sortBy` choice; any value other than "priority" or "enthusiasm" sorts by date. */
  datatype SortKey = ByDate | ByPriority | ByEnthusiasm

  /** The page's state. An empty priority selection is None. */
  datatype PageState = PageState(
    todos: seq<ClientTodo>, showCreateForm: bool,
    selectedDate: string, selectedTag: string,
    selectedPriority: Option<Priority>, selectedEnthusiasm: Option<int>,
    searchTerm: string, sortBy: SortKey,
    randomTodoId: Option<TodoId>, draggedItemIndex: Option<nat>)

  /** high = 3, medium = 2, low = 1; a missing priority counts as medium. */
  function PriorityWeight(p: Option<Priority>): int {
    match p.GetOr(Medium)
    case High => 3
    case Medium => 2
    case Low => 1
  }

  /** `enthusiasm || 2`: a missing or zero enthusiasm counts as 2. */
  function EnthusiasmScore(e: Option<int>): int {
    if e.None? || e.value == 0 then 2 else e.value
  }

  /** The key the comparator orders by, larger first. */
  function Score(k: SortKey, t: ClientTodo): int {
    match k
    case ByPriority => PriorityWeight(t.priority)
    case ByEnthusiasm => EnthusiasmScore(t.enthusiasm)
    case ByDate => t.createdAt
  }

  /** The comparator's key as a function value. */
  function ScoreKey(order: SortKey): ClientTodo -> int {
    (t: ClientTodo) => Score(order, t)
  }

  /** The filter callback: search, priority and enthusiasm must all match. */
  predicate Keep(s: PageState, t: ClientTodo) {
    MatchesSearch(t, s.searchTerm) &&
    (s.selectedPriority.None? || t.priority == s.selectedPriority) &&
    (s.selectedEnthusiasm.None? || t.enthusiasm == s.selectedEnthusiasm)
  }

  function Filtered(s: PageState): seq<ClientTodo> {
    Seqs.Filter(s.todos, (t: ClientTodo) => Keep(s, t))
  }

  /** `filteredAndSortedTodos` */
  function Visible(s: PageState): (r: seq<ClientTodo>)
    ensures multiset(r) == multiset(Filtered(s))
    ensures Sorting.SortedDesc(r, (t: ClientTodo) => Score(s.sortBy, t))
    ensures forall k :: Sorting.WithKey(r, ScoreKey(s.sortBy), k) ==
                        Sorting.WithKey(Filtered(s), ScoreKey(s.sortBy), k)
  {
    Sorting.SortStable(Filtered(s), ScoreKey(s.sortBy));
    Sorting.SortDesc(Filtered(s), (t: ClientTodo) => Score(s.sortBy, t))
  }

  /** The visible list holds exactly the kept todos, and before sorting they are
      in the list's own order. */
  lemma VisibleContents(s: PageState)
    ensures forall t :: t in Visible(s) <==> t in s.todos && Keep(s, t)
    ensures Seqs.IsSubsequence(Filtered(s), s.todos)
  {
    Sorting.SameElements(Filtered(s), Visible(s));
    Seqs.FilterIsSubsequence(s.todos, (t: ClientTodo) => Keep(s, t));
  }

  /** With a blank search and no priority or enthusiasm selected every todo is
      shown, each as often as in the list. */
  lemma NoFilterShowsAll(s: PageState)
    requires IsBlank(s.searchTerm) && s.selectedPriority.None? && s.selectedEnthusiasm.None?
    ensures multiset(Visible(s)) == multiset(s.todos)
  {
    Seqs.FilterAll(s.todos, (t: ClientTodo) => Keep(s, t));
  }

  /** In the priority order a todo of higher weight always comes first. */
  lemma PriorityOrder(s: PageState, i: nat, j: nat)
    requires s.sortBy == ByPriority && i < |Visible(s)| && j < |Visible(s)|
    requires PriorityWeight(Visible(s)[i].priority) > PriorityWeight(Visible(s)[j].priority)
    ensures i < j
  {
  }

  /** In the enthusiasm order higher enthusiasm comes first; in the default order
      newer todos come first. */
  lemma ScoreOrder(s: PageState, i: nat, j: nat)
    requires i < j < |Visible(s)|
    ensures s.sortBy == ByEnthusiasm ==>
      EnthusiasmScore(Visible(s)[i].enthusiasm) >= EnthusiasmScore(Visible(s)[j].enthusiasm)
    ensures s.sortBy == ByDate ==> Visible(s)[i].createdAt >= Visible(s)[j].createdAt
  {
    var v := Visible(s);
    assert Score(s.sortBy, v[i]) >= Score(s.sortBy, v[j]);
  }

  /** `handleAddTodo`: the new todo goes first, the rest follow in order, and the
      form closes. */
  function AddTodo(s: PageState, t: ClientTodo): (r: PageState)
    ensures |r.todos| == |s.todos| + 1 && r.todos[0] == t && r.todos[1..] == s.todos
    ensures !r.showCreateForm
    ensures r.(todos := s.todos, showCreateForm := s.showCreateForm) == s
  {
    s.(todos := [t] + s.todos, showCreateForm := false)
  }

  /** `handleUpdateTodo`: entries with the updated todo's id are replaced in place. */
  function UpdateTodo(s: PageState, u: ClientTodo): (r: PageState)
    ensures |r.todos| == |s.todos|
    ensures forall i :: 0 <= i < |r.todos| ==>
      (if s.todos[i].id == u.id then r.todos[i] == u else r.todos[i] == s.todos[i])
    ensures r.(todos := s.todos) == s
  {
    s.(todos := ReplaceById(s.todos, u))
  }

  /** `handleDeleteTodo`: every entry with the id goes, and a random selection of
      that id is cleared. */
  function DeleteTodo(s: PageState, id: TodoId): (r: PageState)
    ensures forall t :: t in r.todos <==> t in s.todos && t.id != id
    ensures Seqs.IsSubsequence(r.todos, s.todos)
    ensures |r.todos| == Seqs.CountIf(s.todos, (t: ClientTodo) => t.id != id)
    ensures r.randomTodoId == (if s.randomTodoId == Some(id) then None else s.randomTodoId)
    ensures r.(todos := s.todos, randomTodoId := s.randomTodoId) == s
  {
    s.(todos := RemoveById(s.todos, id),
       randomTodoId := if s.randomTodoId == Some(id) then None else s.randomTodoId)
  }

  /** A todo added and then deleted leaves no trace in the list. */
  lemma AddThenDelete(s: PageState, t: ClientTodo)
    requires forall x :: x in s.todos ==> x.id != t.id
    ensures DeleteTodo(AddTodo(s, t), t.id).todos == s.todos
  {
    RemoveAbsent(s.todos, t.id);
    assert AddTodo(s, t).todos == [t] + s.todos;
    assert ([t] + s.todos)[1..] == s.todos;
  }

  /** `clearFilters`: date, tag, priority, enthusiasm and the random selection are
      reset; everything else, including the search term and the sort order, stays. */
  function ClearFilters(s: PageState): (r: PageState)
    ensures r.selectedDate == "" && r.selectedTag == "" && r.selectedPriority.None? &&
            r.selectedEnthusiasm.None? && r.randomTodoId.None?
    ensures r.(selectedDate := s.selectedDate, selectedTag := s.selectedTag,
               selectedPriority := s.selectedPriority, selectedEnthusiasm := s.selectedEnthusiasm,
               randomTodoId := s.randomTodoId) == s
  {
    s.(selectedDate := "", selectedTag := "", selectedPriority := None,
       selectedEnthusiasm := None, randomTodoId := None)
  }

  /** Clearing twice is clearing once; after clearing, only the search term filters. */
  lemma ClearFiltersIdempotent(s: PageState)
    ensures ClearFilters(ClearFilters(s)) == ClearFilters(s)
    ensures forall t :: Keep(ClearFilters(s), t) <==> MatchesSearch(t, s.searchTerm)
  {
  }

  /** `splice(i, 1)` */
  function SpliceOut<T>(s: seq<T>, i: nat): (r: seq<T>)
    requires i < |s|
    ensures |r| == |s| - 1
    ensures forall m :: 0 <= m < |r| ==> r[m] == if m < i then s[m] else s[m + 1]
  {
    s[..i] + s[i + 1..]
  }

  /** `splice(j, 0, x)` for `j` within the list */
  function SpliceIn<T>(s: seq<T>, j: nat, x: T): (r: seq<T>)
    requires j <= |s|
    ensures |r| == |s| + 1
    ensures forall m :: 0 <= m < |r| ==> r[m] == if m < j then s[m] else if m == j then x else s[m - 1]
  {
    s[..j] + [x] + s[j..]
  }

  /** The list after moving the entry at `from` to position `to`. */
  function Moved<T>(s: seq<T>, from: nat, to: nat): seq<T>
    requires from < |s| && to < |s|
  {
    SpliceIn(SpliceOut(s, from), to, s[from])
  }

  lemma SpliceOutMultiset<T>(s: seq<T>, i: nat)
    requires i < |s|
    ensures multiset(SpliceOut(s, i)) + multiset{s[i]} == multiset(s)
  {
    assert s == s[..i] + [s[i]] + s[i + 1..];
  }

  lemma SpliceInMultiset<T>(s: seq<T>, j: nat, x: T)
    requires j <= |s|
    ensures multiset(SpliceIn(s, j, x)) == multiset(s) + multiset{x}
  {
    assert s == s[..j] + s[j..];
  }

  /** A move is a permutation that puts the moved entry at `to`. */
  lemma MovedIsPermutation<T>(s: seq<T>, from: nat, to: nat)
    requires from < |s| && to < |s|
    ensures |Moved(s, from, to)| == |s|
    ensures multiset(Moved(s, from, to)) == multiset(s)
    ensures Moved(s, from, to)[to] == s[from]
  {
    SpliceOutMultiset(s, from);
    SpliceInMultiset(SpliceOut(s, from), to, s[from]);
  }

  /** The other entries keep their relative order. */
  lemma MovedKeepsOthers<T>(s: seq<T>, from: nat, to: nat)
    requires from < |s| && to < |s|
    ensures SpliceOut(Moved(s, from, to), to) == SpliceOut(s, from)
  {
  }

  /** Moving back from `to` to `from` restores the list. */
  lemma MovedBack<T>(s: seq<T>, from: nat, to: nat)
    requires from < |s| && to < |s|
    ensures Moved(Moved(s, from, to), to, from) == s
  {
    var m := Moved(s, from, to);
    MovedIsPermutation(s, from, to);
    MovedKeepsOthers(s, from, to);
    var back := Moved(m, to, from);
    assert |back| == |s|;
    forall k | 0 <= k < |s| ensures back[k] == s[k] {}
  }

  /** `a.splice(from, 1)` on a fixed-size array: the entries after `from` move one
      place left; the last slot is left over. */
  method SpliceOutInPlace<T>(a: array<T>, from: nat)
    requires from < a.Length
    modifies a
    ensures a[..a.Length - 1] == SpliceOut(old(a[..]), from)
  {
    ghost var before := a[..];
    ghost var rest := SpliceOut(before, from);
    var k := from;
    while k < a.Length - 1
      invariant from <= k <= a.Length - 1
      invariant forall m :: 0 <= m < k ==> a[m] == rest[m]
      invariant forall m :: k <= m < a.Length ==> a[m] == before[m]
    {
      a[k] := a[k + 1];
      k := k + 1;
    }
    assert a[..a.Length - 1] == rest;
  }

  /** `a.splice(to, 0, x)` on an array whose last slot is free: the entries from
      `to` on move one place right and `x` fills the gap. */
  method SpliceInInPlace<T>(a: array<T>, to: nat, x: T)
    requires to < a.Length
    modifies a
    ensures a[..] == SpliceIn(old(a[..a.Length - 1]), to, x)
  {
    ghost var rest := a[..a.Length - 1];
    var k := a.Length - 1;
    while k > to
      invariant to <= k <= a.Length - 1
      invariant forall m :: 0 <= m < k ==> a[m] == rest[m]
      invariant forall m :: k < m < a.Length ==> a[m] == rest[m - 1]
    {
      a[k] := a[k - 1];
      k := k - 1;
    }
    a[to] := x;
    assert a[..] == SpliceIn(rest, to, x);
  }

  /** `handleDrop`: nothing happens when no entry is dragged or it is dropped on
      its own index; otherwise the list is copied, the dragged entry spliced out
      and spliced back in at `dropIndex`, and the drag cleared. The indexes are
      positions in the list as rendered, applied to the full list. */
  method HandleDrop(s: PageState, dropIndex: nat) returns (r: PageState)
    requires s.draggedItemIndex.Some? && s.draggedItemIndex.value != dropIndex ==>
      s.draggedItemIndex.value < |s.todos| && dropIndex < |s.todos|
    ensures s.draggedItemIndex.None? || s.draggedItemIndex.value == dropIndex ==> r == s
    ensures s.draggedItemIndex.Some? && s.draggedItemIndex.value != dropIndex ==>
      r == s.(todos := Moved(s.todos, s.draggedItemIndex.value, dropIndex), draggedItemIndex := None)
  {
    if s.draggedItemIndex.None? || s.draggedItemIndex.value == dropIndex {
      return s;
    }
    var from := s.draggedItemIndex.value;
    var todos := s.todos;
    var newTodos := new ClientTodo[|todos|](k requires 0 <= k < |todos| => todos[k]);
    assert newTodos[..] == todos;
    var draggedItem := newTodos[from];
    SpliceOutInPlace(newTodos, from);
    SpliceInInPlace(newTodos, dropIndex, draggedItem);
    r := s.(todos := newTodos[..], draggedItemIndex := None);
  }
}
