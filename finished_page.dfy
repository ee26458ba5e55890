/** The finished page: the list of completed todos, kept in step with edits made
    in its items, and its search. */
module FinishedPage {
  import opened Common
  import opened Text
  import opened ClientTodos
  import Seqs

  datatype PageState = PageState(
    finishedTasks: seq<ClientTodo>, searchTerm: string, selectedDate: string, selectedTag: string)

  /** `handleUpdateTodo`: a todo reported as no longer completed leaves the list;
      a completed one replaces its entries in place. */
  function UpdateTodo(s: PageState, u: ClientTodo): (r: PageState)
    ensures !u.completed ==> forall t :: t in r.finishedTasks <==> t in s.finishedTasks && t.id != u.id
    ensures !u.completed ==> Seqs.IsSubsequence(r.finishedTasks, s.finishedTasks)
    ensures !u.completed ==>
      |r.finishedTasks| == Seqs.CountIf(s.finishedTasks, (t: ClientTodo) => t.id != u.id)
    ensures u.completed ==> (
      |r.finishedTasks| == |s.finishedTasks| &&
      forall i :: 0 <= i < |r.finishedTasks| ==>
        r.finishedTasks[i] == (if s.finishedTasks[i].id == u.id then u else s.finishedTasks[i]))
    ensures r.(finishedTasks := s.finishedTasks) == s
  {
    if !u.completed then s.(finishedTasks := RemoveById(s.finishedTasks, u.id))
    else s.(finishedTasks := ReplaceById(s.finishedTasks, u))
  }

  /** Unchecking a task and then deleting it is the same as deleting it. */
  lemma UncheckThenDelete(s: PageState, u: ClientTodo)
    requires !u.completed
    ensures DeleteTodo(UpdateTodo(s, u), u.id) == DeleteTodo(s, u.id)
  {
    var once := RemoveById(s.finishedTasks, u.id);
    RemoveAbsent(once, u.id);
  }

  /** `handleDeleteTodo`: every entry with the id goes, the others stay in order. */
  function DeleteTodo(s: PageState, id: TodoId): (r: PageState)
    ensures forall t :: t in r.finishedTasks <==> t in s.finishedTasks && t.id != id
    ensures Seqs.IsSubsequence(r.finishedTasks, s.finishedTasks)
    ensures |r.finishedTasks| == Seqs.CountIf(s.finishedTasks, (t: ClientTodo) => t.id != id)
    ensures r.(finishedTasks := s.finishedTasks) == s
  {
    s.(finishedTasks := RemoveById(s.finishedTasks, id))
  }

  /** `clearFilters`: only the date and tag selections are reset. */
  function ClearFilters(s: PageState): (r: PageState)
    ensures r.selectedDate == "" && r.selectedTag == ""
    ensures r.finishedTasks == s.finishedTasks && r.searchTerm == s.searchTerm
  {
    s.(selectedDate := "", selectedTag := "")
  }

  /** `filteredTasks` */
  function FilteredTasks(s: PageState): (r: seq<ClientTodo>)
    ensures forall t :: t in r <==> t in s.finishedTasks && MatchesSearch(t, s.searchTerm)
    ensures Seqs.IsSubsequence(r, s.finishedTasks)
    ensures |r| == Seqs.CountIf(s.finishedTasks, (t: ClientTodo) => MatchesSearch(t, s.searchTerm))
  {
    Seqs.FilterIsSubsequence(s.finishedTasks, (t: ClientTodo) => MatchesSearch(t, s.searchTerm));
    Seqs.FilterLength(s.finishedTasks, (t: ClientTodo) => MatchesSearch(t, s.searchTerm));
    Seqs.Filter(s.finishedTasks, (t: ClientTodo) => MatchesSearch(t, s.searchTerm))
  }

  /** A blank search shows the whole list, in its order. */
  lemma BlankSearchShowsAll(s: PageState)
    requires IsBlank(s.searchTerm)
    ensures FilteredTasks(s) == s.finishedTasks
  {
    Seqs.FilterAll(s.finishedTasks, (t: ClientTodo) => MatchesSearch(t, s.searchTerm));
  }
}
