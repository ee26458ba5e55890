/** The new-task form: its field state, subtask drafting, and what a submission
    leaves behind. Tag editing on the form is `TagEditing` applied to the form's
    `tags` and `tagInput`. */
module CreateTodoForm {
  import opened Common
  import opened Text
  import opened TodoModel
  import Seqs
  import ClientTodos

  /** A subtask drafted on the form; its id is a client-side timestamp string. */
  datatype DraftSubtask = DraftSubtask(id: string, title: string, completed: bool)

  datatype Form = Form(
    title: string, description: string, tagInput: string, tags: seq<string>,
    priority: Priority, subtasks: seq<DraftSubtask>, subtaskInput: string)

  /** The form as first shown. */
  function Blank(): (f: Form)
    ensures f.tags == [] && f.subtasks == [] && f.priority == Medium
    ensures f.title == "" && f.description == "" && f.tagInput == "" && f.subtaskInput == ""
  {
    Form("", "", "", [], Medium, [], "")
  }

  /** Every drafted subtask has a non-empty, already trimmed title. */
  predicate DraftsTrimmed(subtasks: seq<DraftSubtask>) {
    forall d :: d in subtasks ==> d.title != "" && Trim(d.title) == d.title
  }

  /** `handleAddSubtask`: a non-blank input becomes a new, not completed subtask
      with the trimmed title and the given id, and the input is cleared; a blank
      input changes nothing. */
  function AddSubtask(f: Form, id: string): (r: Form)
    ensures Trim(f.subtaskInput) != "" ==>
      r.subtasks == f.subtasks + [DraftSubtask(id, Trim(f.subtaskInput), false)] && r.subtaskInput == ""
    ensures Trim(f.subtaskInput) == "" ==> r == f
    ensures r.(subtasks := f.subtasks, subtaskInput := f.subtaskInput) == f
    ensures DraftsTrimmed(f.subtasks) ==> DraftsTrimmed(r.subtasks)
  {
    var t := Trim(f.subtaskInput);
    if t != "" then
      TrimIdempotent(f.subtaskInput);
      f.(subtasks := f.subtasks + [DraftSubtask(id, t, false)], subtaskInput := "")
    else f
  }

  /** `handleRemoveSubtask`: every draft with that id goes (two drafts created in
      the same millisecond share one), the others stay in order. */
  function RemoveSubtask(f: Form, id: string): (r: Form)
    ensures forall d :: d in r.subtasks <==> d in f.subtasks && d.id != id
    ensures Seqs.IsSubsequence(r.subtasks, f.subtasks)
    ensures |r.subtasks| == Seqs.CountIf(f.subtasks, (d: DraftSubtask) => d.id != id)
    ensures r.(subtasks := f.subtasks) == f
  {
    Seqs.FilterIsSubsequence(f.subtasks, (d: DraftSubtask) => d.id != id);
    Seqs.FilterLength(f.subtasks, (d: DraftSubtask) => d.id != id);
    f.(subtasks := Seqs.Filter(f.subtasks, (d: DraftSubtask) => d.id != id))
  }

  /** Adding a subtask under a fresh id and removing that id again gives back the
      drafts as they were. */
  lemma AddThenRemoveSubtask(f: Form, id: string)
    requires forall d :: d in f.subtasks ==> d.id != id
    ensures RemoveSubtask(AddSubtask(f, id), id).subtasks == f.subtasks
  {
    var keep := (d: DraftSubtask) => d.id != id;
    Seqs.FilterAll(f.subtasks, keep);
    if Trim(f.subtaskInput) != "" {
      Seqs.FilterAppend(f.subtasks, DraftSubtask(id, Trim(f.subtaskInput), false), keep);
    }
  }

  /** `handleSubmit`: `created` is the server's answer, absent when the request
      failed. On success the created todo is handed to the page and title,
      description, tags, subtasks and priority are reset, while the two text
      inputs keep what they held; on failure the form is left as it was. */
  function Submit(f: Form, created: Option<ClientTodos.ClientTodo>): (r: (Form, Option<ClientTodos.ClientTodo>))
    ensures r.1 == created
    ensures created.None? ==> r.0 == f
    ensures created.Some? ==>
      r.0 == Blank().(tagInput := f.tagInput, subtaskInput := f.subtaskInput)
  {
    if created.Some? then
      (f.(title := "", description := "", tags := [], priority := Medium, subtasks := []), created)
    else (f, None)
  }
}
