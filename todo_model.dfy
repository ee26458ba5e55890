/** The todo document and its embedded subtasks: trimmed, length-limited strings,
    a priority from a fixed list, defaults for `completed` and `priority`, and an
    owner that is always set. */
module TodoModel {
  import opened Common
  import opened Text

  datatype Priority = Low | Medium | High

  function PriorityName(p: Priority): string {
    match p
    case Low => "low"
    case Medium => "medium"
    case High => "high"
  }

  function ParsePriority(s: string): (r: Option<Priority>)
    ensures r.Some? <==> s in ["low", "medium", "high"]
    ensures r.Some? ==> PriorityName(r.value) == s
  {
    if s == "low" then Some(Low)
    else if s == "medium" then Some(Medium)
    else if s == "high" then Some(High)
    else None
  }

  datatype Subtask = Subtask(title: string, completed: bool)

  datatype Todo = Todo(
    title: string, description: Option<string>, completed: bool, priority: Priority,
    tags: seq<string>, subtasks: seq<Subtask>, user: UserId,
    createdAt: Millis, updatedAt: Millis)

  const TitleMax: nat := 100
  const DescriptionMax: nat := 500
  const TagMax: nat := 20
  const SubtaskTitleMax: nat := 100

  /** A string that the `trim` setter leaves as it is. */
  predicate Trimmed(s: string) {
    Trim(s) == s
  }

  /** A required path with `trim` and `maxlength`: the trimmed value must be
      non-empty and short enough. */
  function RequiredTrimmed(path: string, raw: Option<string>, max: nat): (r: Result<string, ValidationError>)
    ensures r.Ok? <==> raw.Some? && Trim(raw.value) != "" && Utf16Length(Trim(raw.value)) <= max
    ensures r.Ok? ==> Trimmed(r.value) && r.value != "" && Utf16Length(r.value) <= max
    ensures r.Ok? ==> r.value == Trim(raw.value)
  {
    if raw.None? || Trim(raw.value) == "" then Err(Required(path))
    else if Utf16Length(Trim(raw.value)) > max then Err(TooLong(path))
    else
      TrimIdempotent(raw.value);
      Ok(Trim(raw.value))
  }

  /** Lengths are code units: 51 characters above U+FFFF make a 102-unit title,
      which `maxlength: 100` rejects. */
  lemma WideTitleTooLong()
    ensures RequiredTrimmed("title", Some(seq(51, _ => '\U{1F600}')), TitleMax).Err?
  {
    var s := seq(51, _ => '\U{1F600}');
    TrimNoEdges(s);
    Utf16LengthWide(s);
  }

  /** An optional path with `trim` and `maxlength`: a missing value stays missing. */
  function OptionalTrimmed(path: string, raw: Option<string>, max: nat): (r: Result<Option<string>, ValidationError>)
    ensures r.Ok? <==> raw.None? || Utf16Length(Trim(raw.value)) <= max
    ensures r.Ok? && raw.None? ==> r.value.None?
    ensures r.Ok? && raw.Some? ==> r.value == Some(Trim(raw.value)) && Trimmed(Trim(raw.value))
  {
    match raw
    case None => Ok(None)
    case Some(s) =>
      TrimIdempotent(s);
      if Utf16Length(Trim(s)) > max then Err(TooLong(path)) else Ok(Some(Trim(s)))
  }

  /** Every tag is trimmed and at most 20 UTF-16 code units long. */
  function CreateTags(tags: seq<string>): (r: Result<seq<string>, ValidationError>)
    ensures r.Ok? <==> forall k :: 0 <= k < |tags| ==> Utf16Length(Trim(tags[k])) <= TagMax
    ensures r.Ok? ==> |r.value| == |tags| && forall k :: 0 <= k < |tags| ==> r.value[k] == Trim(tags[k])
  {
    if forall k :: 0 <= k < |tags| ==> Utf16Length(Trim(tags[k])) <= TagMax
    then Ok(seq(|tags|, k requires 0 <= k < |tags| => Trim(tags[k])))
    else Err(TooLong("tags"))
  }

  datatype RawSubtask = RawSubtask(title: Option<string>, completed: Option<bool>)

  /** An embedded subtask: a required, trimmed title of at most 100 UTF-16 code units and
      `completed` defaulting to false. */
  function CreateSubtask(raw: RawSubtask): (r: Result<Subtask, ValidationError>)
    ensures r.Ok? <==> RequiredTrimmed("title", raw.title, SubtaskTitleMax).Ok?
    ensures r.Ok? ==> r.value.title == Trim(raw.title.value)
    ensures r.Ok? ==> r.value.completed == raw.completed.GetOr(false)
  {
    match RequiredTrimmed("title", raw.title, SubtaskTitleMax)
    case Err(e) => Err(e)
    case Ok(t) => Ok(Subtask(t, raw.completed.GetOr(false)))
  }

  predicate ValidSubtask(s: Subtask) {
    Trimmed(s.title) && s.title != "" && Utf16Length(s.title) <= SubtaskTitleMax
  }

  function CreateSubtasks(raws: seq<RawSubtask>): (r: Result<seq<Subtask>, ValidationError>)
    ensures r.Ok? <==> forall k :: 0 <= k < |raws| ==> CreateSubtask(raws[k]).Ok?
    ensures r.Ok? ==> |r.value| == |raws| && forall k :: 0 <= k < |raws| ==> r.value[k] == CreateSubtask(raws[k]).value
  {
    if forall k :: 0 <= k < |raws| ==> CreateSubtask(raws[k]).Ok?
    then Ok(seq(|raws|, k requires 0 <= k < |raws| => CreateSubtask(raws[k]).value))
    else Err(Required("subtasks"))
  }

  /** The constraints every stored todo satisfies. */
  predicate ValidTodo(t: Todo) {
    && Trimmed(t.title) && t.title != "" && Utf16Length(t.title) <= TitleMax
    && (t.description.Some? ==> Trimmed(t.description.value) && Utf16Length(t.description.value) <= DescriptionMax)
    && (forall k :: 0 <= k < |t.tags| ==> Trimmed(t.tags[k]) && Utf16Length(t.tags[k]) <= TagMax)
    && (forall k :: 0 <= k < |t.subtasks| ==> ValidSubtask(t.subtasks[k]))
  }

  datatype RawTodo = RawTodo(
    title: Option<string>, description: Option<string>, completed: Option<bool>,
    priority: Option<string>, tags: seq<string>, subtasks: seq<RawSubtask>, user: Option<UserId>)

  function CreatePriority(raw: Option<string>): (r: Result<Priority, ValidationError>)
    ensures r.Ok? <==> raw.None? || ParsePriority(raw.value).Some?
    ensures raw.None? ==> r == Ok(Medium)
  {
    match raw
    case None => Ok(Medium)
    case Some(s) => if ParsePriority(s).None? then Err(NotInEnum("priority")) else Ok(ParsePriority(s).value)
  }

  /** Validation of a new todo document at time `now` (which becomes both timestamps). */
  function CreateTodo(raw: RawTodo, now: Millis): (r: Result<Todo, ValidationError>)
    ensures r.Ok? <==>
      && raw.user.Some?
      && RequiredTrimmed("title", raw.title, TitleMax).Ok?
      && OptionalTrimmed("description", raw.description, DescriptionMax).Ok?
      && CreatePriority(raw.priority).Ok?
      && CreateTags(raw.tags).Ok?
      && CreateSubtasks(raw.subtasks).Ok?
    ensures r.Ok? ==> ValidTodo(r.value)
    ensures r.Ok? ==> r.value.user == raw.user.value && r.value.createdAt == now && r.value.updatedAt == now
    ensures r.Ok? ==> r.value.completed == raw.completed.GetOr(false)
    ensures r.Ok? ==>
      && r.value.title == Trim(raw.title.value)
      && r.value.description == (if raw.description.Some? then Some(Trim(raw.description.value)) else None)
      && r.value.priority == CreatePriority(raw.priority).value
      && r.value.tags == CreateTags(raw.tags).value
      && r.value.subtasks == CreateSubtasks(raw.subtasks).value
  {
    if raw.user.None? then Err(Required("user"))
    else
      match RequiredTrimmed("title", raw.title, TitleMax)
      case Err(e) => Err(e)
      case Ok(title) =>
        match OptionalTrimmed("description", raw.description, DescriptionMax)
        case Err(e) => Err(e)
        case Ok(description) =>
          match CreatePriority(raw.priority)
          case Err(e) => Err(e)
          case Ok(priority) =>
            match CreateTags(raw.tags)
            case Err(e) => Err(e)
            case Ok(tags) =>
              match CreateSubtasks(raw.subtasks)
              case Err(e) => Err(e)
              case Ok(subtasks) =>
                TrimAll(raw.tags);
                SubtasksValid(raw.subtasks, subtasks);
                Ok(Todo(title, description, raw.completed.GetOr(false), priority, tags, subtasks,
                        raw.user.value, now, now))
  }

  lemma TrimAll(tags: seq<string>)
    ensures forall k :: 0 <= k < |tags| ==> Trimmed(Trim(tags[k]))
  {
    forall k | 0 <= k < |tags| ensures Trimmed(Trim(tags[k])) {
      TrimIdempotent(tags[k]);
    }
  }

  lemma SubtasksValid(raws: seq<RawSubtask>, subtasks: seq<Subtask>)
    requires CreateSubtasks(raws) == Ok(subtasks)
    ensures forall k :: 0 <= k < |subtasks| ==> ValidSubtask(subtasks[k])
  {
  }

  /** A todo created from a body with only a title, a description and an owner,
      as the create handler builds it: tags, subtasks and flags take their defaults. */
  lemma DefaultsOnCreate(title: string, description: Option<string>, user: UserId, now: Millis)
    requires Trim(title) != "" && Utf16Length(Trim(title)) <= TitleMax
    requires description.Some? ==> Utf16Length(Trim(description.value)) <= DescriptionMax
    ensures var r := CreateTodo(RawTodo(Some(title), description, None, None, [], [], Some(user)), now);
      && r.Ok? && r.value.tags == [] && r.value.subtasks == [] && r.value.priority == Medium
      && !r.value.completed && r.value.user == user
  {
  }

  /** The submitted form of a stored todo. */
  function ToRaw(t: Todo): RawTodo {
    RawTodo(Some(t.title), t.description, Some(t.completed), Some(PriorityName(t.priority)),
            t.tags, seq(|t.subtasks|, k requires 0 <= k < |t.subtasks| =>
              RawSubtask(Some(t.subtasks[k].title), Some(t.subtasks[k].completed))),
            Some(t.user))
  }

  /** Validation accepts every stored todo back unchanged: the schema's setters
      and validators are idempotent. */
  lemma CreateTodoRoundTrip(t: Todo)
    requires ValidTodo(t) && t.createdAt == t.updatedAt
    ensures CreateTodo(ToRaw(t), t.createdAt) == Ok(t)
  {
    var raw := ToRaw(t);
    assert CreatePriority(raw.priority) == Ok(t.priority) by {
      assert ParsePriority(PriorityName(t.priority)) == Some(t.priority);
    }
    assert CreateTags(raw.tags).Ok? by {
      forall k | 0 <= k < |raw.tags| ensures Utf16Length(Trim(raw.tags[k])) <= TagMax {
        assert Trimmed(t.tags[k]);
      }
    }
    assert CreateTags(raw.tags).value == t.tags;
    forall k | 0 <= k < |raw.subtasks|
      ensures CreateSubtask(raw.subtasks[k]) == Ok(t.subtasks[k])
    {
      assert ValidSubtask(t.subtasks[k]);
    }
    assert CreateSubtasks(raw.subtasks).Ok?;
    assert CreateSubtasks(raw.subtasks).value == t.subtasks;
  }
}
