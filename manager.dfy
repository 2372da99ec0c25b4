/**
 * The in-memory state of `TodoManager` (src/todo/manager.rs): the list of todos and the id the
 * next one gets. Loading and saving are not modelled; `save` is taken to succeed and
 * `validate_id` to accept every id.
 */
module Manager {
  import opened Results
  import opened Text
  import opened Item
  import opened Validation
  import opened Dates
  import opened Filtering

  /** The length bounds, in bytes, that `add_todo` and `edit_todo` pass to `validate_text`. */
  const MaxTitleLength: nat := 140
  const MaxDescriptionLength: nat := 1000

  // ---------------------------------------------------------------- pure parts

  /** `TodoManager::parse_priority`: no priority, a parsed one, or `InvalidPriority` with the input. */
  function ParsePriority(priority: Option<string>): (r: Result<Option<Priority>, TodoError>)
    ensures priority.None? ==> r == Ok(None)
    ensures priority.Some? ==> (r.Ok? <==> PriorityFromStr(priority.value).Some?)
    ensures priority.Some? && r.Ok? ==> r.value == PriorityFromStr(priority.value)
    ensures r.Err? ==> priority.Some? && r.error == InvalidPriority(priority.value)
  {
    match priority
    case None => Ok(None)
    case Some(p) =>
      match PriorityFromStr(p)
      case Some(v) => Ok(Some(v))
      case None => Err(InvalidPriority(p))
  }

  /** `description.map(|d| validate_text(d, 1000)).transpose()`. */
  function ValidateDescription(description: Option<string>): (r: Result<Option<string>, TodoError>)
    ensures description.None? ==> r == Ok(None)
    ensures description.Some? ==> (r.Ok? <==> ValidateText(description.value, MaxDescriptionLength).Ok?)
    ensures description.Some? && r.Ok? ==> r.value == Some(Trim(description.value))
    ensures r.Err? ==> r.error == ValidateText(description.value, MaxDescriptionLength).error
  {
    match description
    case None => Ok(None)
    case Some(d) =>
      match ValidateText(d, MaxDescriptionLength)
      case Ok(v) => Ok(Some(v))
      case Err(e) => Err(e)
  }

  /**
   * The todo `add_todo` would build with id `id`: title, description, due date and priority are
   * checked in that order and the first failure is the result.
   */
  function NewItem(id: int, title: string, description: Option<string>, due: Option<string>,
                   priority: Option<string>, tags: Option<seq<string>>, p: Parsers, now: Timestamp): (r: Result<TodoItem, TodoError>)
    ensures r.Ok? ==> r.value.id == id && !r.value.completed && r.value.tags == tags
  {
    match ValidateText(title, MaxTitleLength)
    case Err(e) => Err(e)
    case Ok(t) =>
      match ValidateDescription(description)
      case Err(e) => Err(e)
      case Ok(d) =>
        match ParseDueDate(due, p, now)
        case Err(e) => Err(e)
        case Ok(dt) =>
          match ParsePriority(priority)
          case Err(e) => Err(e)
          case Ok(pr) => Ok(TodoItem(id, t, d, false, dt, pr, tags))
  }

  /**
   * A todo is built exactly when all four checks pass, and then holds the validated fields, the
   * given id and tags, and is pending; otherwise the first failing check's error is reported.
   */
  lemma NewItemSpec(id: int, title: string, description: Option<string>, due: Option<string>,
                    priority: Option<string>, tags: Option<seq<string>>, p: Parsers, now: Timestamp)
    ensures var r := NewItem(id, title, description, due, priority, tags, p, now);
      && (r.Ok? <==> ValidateText(title, MaxTitleLength).Ok? && ValidateDescription(description).Ok?
                     && ParseDueDate(due, p, now).Ok? && ParsePriority(priority).Ok?)
      && (r.Ok? ==> && r.value.id == id && !r.value.completed
                    && r.value.title == Trim(title) && Utf8Len(r.value.title) <= MaxTitleLength
                    && r.value.description == ValidateDescription(description).value
                    && r.value.due == ParseDueDate(due, p, now).value
                    && r.value.priority == ParsePriority(priority).value
                    && r.value.tags == tags)
    ensures var r := NewItem(id, title, description, due, priority, tags, p, now);
      && (ValidateText(title, MaxTitleLength).Err? ==> r.Err? && r.error == ValidateText(title, MaxTitleLength).error)
      && (ValidateText(title, MaxTitleLength).Ok? && ValidateDescription(description).Err? ==>
            r.Err? && r.error == ValidateDescription(description).error)
      && (ValidateText(title, MaxTitleLength).Ok? && ValidateDescription(description).Ok? && ParseDueDate(due, p, now).Err? ==>
            r.Err? && r.error == InvalidDateFormat)
      && (ValidateText(title, MaxTitleLength).Ok? && ValidateDescription(description).Ok? && ParseDueDate(due, p, now).Ok?
          && ParsePriority(priority).Err? ==>
            r.Err? && r.error == InvalidPriority(priority.value))
  {
  }

  /** What `edit_todo` leaves in the todo, and the error that stopped it, if any. */
  datatype EditOutcome = EditOutcome(item: TodoItem, error: Option<TodoError>)

  /** The title step of `edit_todo`: a given title is validated and written, trimmed. */
  function SetTitle(item: TodoItem, newTitle: Option<string>): (r: Result<TodoItem, TodoError>)
    ensures newTitle.None? ==> r == Ok(item)
    ensures newTitle.Some? ==> (r.Ok? <==> ValidateText(newTitle.value, MaxTitleLength).Ok?)
    ensures newTitle.Some? && r.Ok? ==> r.value == item.(title := Trim(newTitle.value))
    ensures r.Err? ==> r.error == ValidateText(newTitle.value, MaxTitleLength).error
  {
    match newTitle
    case None => Ok(item)
    case Some(t) =>
      match ValidateText(t, MaxTitleLength)
      case Ok(v) => Ok(item.(title := v))
      case Err(e) => Err(e)
  }

  /** The description step: a given description is validated and written, trimmed. */
  function SetDescription(item: TodoItem, newDescription: Option<string>): (r: Result<TodoItem, TodoError>)
    ensures newDescription.None? ==> r == Ok(item)
    ensures newDescription.Some? ==> (r.Ok? <==> ValidateText(newDescription.value, MaxDescriptionLength).Ok?)
    ensures newDescription.Some? && r.Ok? ==> r.value == item.(description := Some(Trim(newDescription.value)))
    ensures r.Err? ==> r.error == ValidateText(newDescription.value, MaxDescriptionLength).error
  {
    match newDescription
    case None => Ok(item)
    case Some(d) =>
      match ValidateText(d, MaxDescriptionLength)
      case Ok(v) => Ok(item.(description := Some(v)))
      case Err(e) => Err(e)
  }

  /** The due-date step: a given due date is parsed and written; a blank one clears it. */
  function SetDue(item: TodoItem, due: Option<string>, p: Parsers, now: Timestamp): (r: Result<TodoItem, TodoError>)
    ensures due.None? ==> r == Ok(item)
    ensures due.Some? ==> (r.Ok? <==> ParseDueDate(due, p, now).Ok?)
    ensures due.Some? && r.Ok? ==> r.value == item.(due := ParseDueDate(due, p, now).value)
    ensures r.Err? ==> r.error == InvalidDateFormat
  {
    if due.None? then Ok(item)
    else
      match ParseDueDate(due, p, now)
      case Ok(v) => Ok(item.(due := v))
      case Err(e) => Err(e)
  }

  /** The priority step: a given priority is parsed and written. */
  function SetPriority(item: TodoItem, priority: Option<string>): (r: Result<TodoItem, TodoError>)
    ensures priority.None? ==> r == Ok(item)
    ensures priority.Some? ==> (r.Ok? <==> PriorityFromStr(priority.value).Some?)
    ensures priority.Some? && r.Ok? ==> r.value == item.(priority := PriorityFromStr(priority.value))
    ensures r.Err? ==> r.error == InvalidPriority(priority.value)
  {
    if priority.None? then Ok(item)
    else
      match ParsePriority(priority)
      case Ok(v) => Ok(item.(priority := v))
      case Err(e) => Err(e)
  }

  /**
   * `edit_todo` on one todo: each field whose argument is given is validated and written in
   * turn (title, description, due date, priority, tags); the first failure stops the edit with
   * the earlier fields already written.
   */
  function EditFields(item: TodoItem, newTitle: Option<string>, newDescription: Option<string>,
                      due: Option<string>, priority: Option<string>, tags: Option<seq<string>>,
                      p: Parsers, now: Timestamp): (r: EditOutcome)
    ensures r.item.id == item.id && r.item.completed == item.completed
    ensures newTitle.None? ==> r.item.title == item.title
    ensures newDescription.None? ==> r.item.description == item.description
    ensures due.None? ==> r.item.due == item.due
    ensures priority.None? ==> r.item.priority == item.priority
    ensures tags.None? || r.error.Some? ==> r.item.tags == item.tags
  {
    match SetTitle(item, newTitle)
    case Err(e) => EditOutcome(item, Some(e))
    case Ok(i1) =>
      match SetDescription(i1, newDescription)
      case Err(e) => EditOutcome(i1, Some(e))
      case Ok(i2) =>
        match SetDue(i2, due, p, now)
        case Err(e) => EditOutcome(i2, Some(e))
        case Ok(i3) =>
          match SetPriority(i3, priority)
          case Err(e) => EditOutcome(i3, Some(e))
          case Ok(i4) => EditOutcome(if tags.Some? then i4.(tags := tags) else i4, None)
  }

  /** The todo at index `i` with its status flipped. */
  function FlipAt(todos: seq<TodoItem>, i: nat): seq<TodoItem>
    requires i < |todos|
  {
    todos[i := todos[i].(completed := !todos[i].completed)]
  }

  /** The index of the first todo with id `id`: what `iter_mut().find(|t| t.id() == id)` finds. */
  function FindIndex(todos: seq<TodoItem>, id: int): (r: Option<nat>)
    ensures r.Some? ==> r.value < |todos| && todos[r.value].id == id
    ensures r.Some? ==> forall k :: 0 <= k < r.value ==> todos[k].id != id
    ensures r.None? <==> forall k :: 0 <= k < |todos| ==> todos[k].id != id
  {
    if todos == [] then None
    else if todos[0].id == id then Some(0)
    else
      match FindIndex(todos[1..], id)
      case None =>
        assert forall k :: 1 <= k < |todos| ==> todos[k] == todos[1..][k - 1];
        None
      case Some(j) =>
        assert forall k :: 1 <= k < |todos| ==> todos[k] == todos[1..][k - 1];
        Some(j + 1)
  }

  /** `toggle_todo` on the list: the first todo with the id changes status, or `TodoNotFound`. */
  function ToggleById(todos: seq<TodoItem>, id: int): (r: Result<seq<TodoItem>, TodoError>)
    ensures r.Err? <==> FindIndex(todos, id).None?
    ensures r.Err? ==> r.error == TodoNotFound(id)
    ensures r.Ok? ==> |r.value| == |todos|
    ensures r.Ok? ==> forall k :: 0 <= k < |todos| ==> r.value[k].id == todos[k].id
    ensures r.Ok? ==> forall k :: 0 <= k < |todos| ==>
      (r.value[k].completed == todos[k].completed <==> k != FindIndex(todos, id).value)
    ensures r.Ok? ==> var i := FindIndex(todos, id).value;
      r.value == todos[i := todos[i].(completed := !todos[i].completed)]
  {
    match FindIndex(todos, id)
    case None => Err(TodoNotFound(id))
    case Some(i) => Ok(FlipAt(todos, i))
  }

  /** `|t| t.id() != id`, the predicate `delete_todo` retains by. */
  function KeepOthers(id: int): TodoItem -> bool {
    (t: TodoItem) => t.id != id
  }

  /** `delete_todo`'s `retain`: every todo with the id removed, the others kept in order. */
  function RemoveId(todos: seq<TodoItem>, id: int): (r: seq<TodoItem>)
    ensures forall k :: 0 <= k < |r| ==> r[k].id != id && r[k] in todos
    ensures forall k :: 0 <= k < |todos| && todos[k].id != id ==> todos[k] in r
  {
    Filter(todos, KeepOthers(id))
  }

  /** The ids of a list, in order. */
  function Ids(todos: seq<TodoItem>): (r: seq<int>)
    ensures |r| == |todos| && forall k :: 0 <= k < |todos| ==> r[k] == todos[k].id
  {
    seq(|todos|, k requires 0 <= k < |todos| => todos[k].id)
  }

  predicate UniqueIds(todos: seq<TodoItem>) {
    forall j, k :: 0 <= j < k < |todos| ==> todos[j].id != todos[k].id
  }

  // ---------------------------------------------------------------- properties of the pure parts

  /** Case aside, `parse_priority` accepts exactly the three names. */
  lemma ParsePriorityNames(s: string)
    ensures ParsePriority(Some(s)).Ok? <==> ToLower(s) in {"high", "medium", "low"}
    ensures ParsePriority(Some("high")) == Ok(Some(High))
    ensures ParsePriority(Some("medium")) == Ok(Some(Medium))
    ensures ParsePriority(Some("low")) == Ok(Some(Low))
  {
    PriorityRoundTrip(High);
    PriorityRoundTrip(Medium);
    PriorityRoundTrip(Low);
  }

  /** An edit with no field given changes nothing and succeeds. */
  lemma EditNothingIsIdentity(item: TodoItem, p: Parsers, now: Timestamp)
    ensures EditFields(item, None, None, None, None, None, p, now) == EditOutcome(item, None)
  {
  }

  /** A successful edit writes exactly the given fields, validated. */
  lemma EditWritesGivenFields(item: TodoItem, newTitle: Option<string>, newDescription: Option<string>,
                              due: Option<string>, priority: Option<string>, tags: Option<seq<string>>,
                              p: Parsers, now: Timestamp)
    requires EditFields(item, newTitle, newDescription, due, priority, tags, p, now).error.None?
    ensures var r := EditFields(item, newTitle, newDescription, due, priority, tags, p, now).item;
      && (newTitle.Some? ==> r.title == Trim(newTitle.value))
      && (newDescription.Some? ==> r.description == Some(Trim(newDescription.value)))
      && (due.Some? ==> ParseDueDate(due, p, now).Ok? && r.due == ParseDueDate(due, p, now).value)
      && (priority.Some? ==> PriorityFromStr(priority.value).Some? && r.priority == PriorityFromStr(priority.value))
      && (tags.Some? ==> r.tags == tags)
  {
    var s1 := SetTitle(item, newTitle);
    assert s1.Ok?;
    var s2 := SetDescription(s1.value, newDescription);
    assert s2.Ok?;
    var s3 := SetDue(s2.value, due, p, now);
    assert s3.Ok?;
    var s4 := SetPriority(s3.value, priority);
    assert s4.Ok?;
    assert EditFields(item, newTitle, newDescription, due, priority, tags, p, now).item
        == if tags.Some? then s4.value.(tags := tags) else s4.value;
  }

  /** A blank due date given to an edit clears the due date. */
  lemma EditBlankDueClears(item: TodoItem, blank: string, p: Parsers, now: Timestamp)
    requires AllWhitespace(blank)
    ensures EditFields(item, None, None, Some(blank), None, None, p, now) == EditOutcome(item.(due := None), None)
  {
  }

  /**
   * A failure part-way through leaves the earlier fields written: a valid new title with an
   * invalid description keeps the new title and reports the description's error.
   */
  lemma EditPartialFailure(item: TodoItem, newTitle: string, newDescription: string,
                           due: Option<string>, priority: Option<string>, tags: Option<seq<string>>,
                           p: Parsers, now: Timestamp)
    requires ValidateText(newTitle, MaxTitleLength).Ok?
    requires ValidateText(newDescription, MaxDescriptionLength).Err?
    ensures EditFields(item, Some(newTitle), Some(newDescription), due, priority, tags, p, now)
         == EditOutcome(item.(title := Trim(newTitle)), Some(ValidateText(newDescription, MaxDescriptionLength).error))
  {
  }

  /** Toggling the same id twice gives the list back. */
  lemma ToggleTwiceRestores(todos: seq<TodoItem>, id: int)
    requires ToggleById(todos, id).Ok?
    ensures ToggleById(ToggleById(todos, id).value, id) == Ok(todos)
  {
    var i := FindIndex(todos, id).value;
    var once := FlipAt(todos, i);
    assert FindIndex(once, id) == Some(i) by {
      assert forall k :: 0 <= k < |todos| ==> once[k].id == todos[k].id;
    }
    assert FlipAt(once, i) == todos;
  }

  /** Deletion removes the id exactly when it is present, and keeps the rest in order. */
  lemma RemoveIdSpec(todos: seq<TodoItem>, id: int)
    ensures |RemoveId(todos, id)| < |todos| <==> FindIndex(todos, id).Some?
    ensures FindIndex(todos, id).None? ==> RemoveId(todos, id) == todos
    ensures FindIndex(RemoveId(todos, id), id).None?
  {
    FilterKeepsAll(todos, KeepOthers(id));
    if FindIndex(todos, id).Some? {
      var i := FindIndex(todos, id).value;
      assert !KeepOthers(id)(todos[i]);
    }
  }

  /** The kept todos are a subsequence of the list: in their old relative order. */
  lemma RemoveIdKeepsOrder(todos: seq<TodoItem>, id: int) returns (idx: seq<nat>)
    ensures |idx| == |RemoveId(todos, id)|
    ensures forall i :: 0 <= i < |idx| ==> idx[i] < |todos| && RemoveId(todos, id)[i] == todos[idx[i]]
    ensures forall i, j :: 0 <= i < j < |idx| ==> idx[i] < idx[j]
  {
    idx := FilterIsSubsequence(todos, KeepOthers(id));
  }

  /** Deletion keeps an upper bound on the ids, and keeps them unique. */
  lemma RemoveIdKeepsIdProperties(todos: seq<TodoItem>, id: int, bound: int)
    ensures (forall k :: 0 <= k < |todos| ==> todos[k].id < bound) ==>
      forall k :: 0 <= k < |RemoveId(todos, id)| ==> RemoveId(todos, id)[k].id < bound
    ensures UniqueIds(todos) ==> UniqueIds(RemoveId(todos, id))
  {
    var idx := RemoveIdKeepsOrder(todos, id);
    var r := RemoveId(todos, id);
    assert forall k :: 0 <= k < |r| ==> r[k] == todos[idx[k]];
  }

  /** Appending a todo whose id is above every present one raises the bound by one and keeps the ids unique. */
  lemma AppendFreshId(todos: seq<TodoItem>, item: TodoItem)
    requires forall k :: 0 <= k < |todos| ==> todos[k].id < item.id
    ensures forall k :: 0 <= k < |todos + [item]| ==> (todos + [item])[k].id < item.id + 1
    ensures Ids(todos + [item]) == Ids(todos) + [item.id]
    ensures UniqueIds(todos) ==> UniqueIds(todos + [item])
  {
    assert forall k :: 0 <= k < |todos| ==> (todos + [item])[k] == todos[k];
  }

  /** Lists with the same ids in the same places have the same unique-id property. */
  lemma SameIdsSameUniqueness(a: seq<TodoItem>, b: seq<TodoItem>)
    requires Ids(a) == Ids(b)
    ensures UniqueIds(a) <==> UniqueIds(b)
  {
    assert forall k :: 0 <= k < |a| ==> a[k].id == Ids(a)[k] == b[k].id;
  }

  // ---------------------------------------------------------------- the manager

  class TodoManager {
    var todos: seq<TodoItem>
    var nextId: int

    /** Every id present is below `nextId`, so an added todo never reuses one. */
    ghost predicate Valid()
      reads this
    {
      forall k :: 0 <= k < |todos| ==> todos[k].id < nextId
    }

    /** `TodoManager::new` over the todos loaded from the file. */
    constructor (loaded: seq<TodoItem>)
      ensures todos == loaded && nextId == NextIdOf(Ids(loaded))
      ensures Valid()
    {
      var n := NextId(Ids(loaded));
      todos := loaded;
      nextId := n;
    }

    method AddTodo(title: string, description: Option<string>, due: Option<string>,
                   priority: Option<string>, tags: Option<seq<string>>, p: Parsers, now: Timestamp)
      returns (r: Result<(), TodoError>)
      requires Valid()
      modifies this
      ensures Valid()
      ensures NewItem(old(nextId), title, description, due, priority, tags, p, now).Ok? ==>
        && r.Ok? && nextId == old(nextId) + 1
        && todos == old(todos) + [NewItem(old(nextId), title, description, due, priority, tags, p, now).value]
      ensures NewItem(old(nextId), title, description, due, priority, tags, p, now).Err? ==>
        && r == Err(NewItem(old(nextId), title, description, due, priority, tags, p, now).error)
        && todos == old(todos) && nextId == old(nextId)
      ensures UniqueIds(old(todos)) ==> UniqueIds(todos)
    {
      var built := NewItem(nextId, title, description, due, priority, tags, p, now);
      if built.Err? {
        return Err(built.error);
      }
      Push(built.value);
      r := Ok(());
    }

    /** The end of `add_todo`: the next id is consumed and the built todo appended. */
    method Push(item: TodoItem)
      requires Valid() && item.id == nextId
      modifies this
      ensures Valid()
      ensures todos == old(todos) + [item] && nextId == old(nextId) + 1
      ensures UniqueIds(old(todos)) ==> UniqueIds(todos)
    {
      AppendFreshId(todos, item);
      nextId := nextId + 1;
      todos := todos + [item];
    }

    /** `find_todo_mut`, returning the index of the todo where the source returns a reference. */
    method FindTodoMut(id: int) returns (r: Result<nat, TodoError>)
      ensures FindIndex(todos, id).Some? ==> r == Ok(FindIndex(todos, id).value)
      ensures FindIndex(todos, id).None? ==> r == Err(TodoNotFound(id))
    {
      var i := 0;
      while i < |todos|
        invariant 0 <= i <= |todos|
        invariant forall k :: 0 <= k < i ==> todos[k].id != id
      {
        if todos[i].id == id {
          return Ok(i);
        }
        i := i + 1;
      }
      return Err(TodoNotFound(id));
    }

    method EditTodo(id: int, newTitle: Option<string>, newDescription: Option<string>, due: Option<string>,
                    priority: Option<string>, tags: Option<seq<string>>, p: Parsers, now: Timestamp)
      returns (r: Result<(), TodoError>)
      requires Valid()
      modifies this
      ensures Valid() && nextId == old(nextId)
      ensures FindIndex(old(todos), id).None? ==> r == Err(TodoNotFound(id)) && todos == old(todos)
      ensures FindIndex(old(todos), id).Some? ==>
        var i := FindIndex(old(todos), id).value;
        var out := EditFields(old(todos)[i], newTitle, newDescription, due, priority, tags, p, now);
        && todos == old(todos)[i := out.item]
        && r == (if out.error.Some? then Err(out.error.value) else Ok(()))
      ensures |todos| == |old(todos)| && forall k :: 0 <= k < |todos| ==> todos[k].id == old(todos)[k].id
    {
      var found := FindTodoMut(id);
      if found.Err? {
        return Err(found.error);
      }
      var i := found.value;
      var out := EditFields(todos[i], newTitle, newDescription, due, priority, tags, p, now);
      ReplaceAt(i, out.item);
      r := if out.error.Some? then Err(out.error.value) else Ok(());
    }

    /** Writing a todo back at its own position, with its id unchanged, keeps every id. */
    method ReplaceAt(i: nat, item: TodoItem)
      requires Valid() && i < |todos| && item.id == todos[i].id
      modifies this
      ensures Valid() && nextId == old(nextId)
      ensures todos == old(todos)[i := item]
      ensures |todos| == |old(todos)| && forall k :: 0 <= k < |todos| ==> todos[k].id == old(todos)[k].id
    {
      ghost var before := todos;
      todos := todos[i := item];
      assert forall k :: 0 <= k < |todos| ==> todos[k].id == before[k].id;
    }

    method ToggleTodo(id: int) returns (r: Result<(), TodoError>)
      requires Valid()
      modifies this
      ensures Valid() && nextId == old(nextId)
      ensures match ToggleById(old(todos), id)
        case Ok(ts) => r.Ok? && todos == ts
        case Err(e) => r == Err(e) && todos == old(todos)
      ensures Ids(todos) == Ids(old(todos))
    {
      var found := FindTodoMut(id);
      if found.Err? {
        return Err(found.error);
      }
      var i := found.value;
      todos := todos[i := todos[i].(completed := !todos[i].completed)];
      r := Ok(());
    }

    method DeleteTodo(id: int) returns (r: Result<(), TodoError>)
      requires Valid()
      modifies this
      ensures Valid() && nextId == old(nextId)
      ensures todos == RemoveId(old(todos), id)
      ensures r.Ok? <==> FindIndex(old(todos), id).Some?
      ensures r.Err? ==> r.error == TodoNotFound(id) && todos == old(todos)
      ensures UniqueIds(old(todos)) ==> UniqueIds(todos)
    {
      var originalLen := |todos|;
      RemoveIdSpec(todos, id);
      RemoveIdKeepsIdProperties(todos, id, nextId);
      todos := RemoveId(todos, id);
      if |todos| < originalLen {
        r := Ok(());
      } else {
        r := Err(TodoNotFound(id));
      }
    }

    method ClearAll() returns (count: nat)
      requires Valid()
      modifies this
      ensures Valid() && nextId == old(nextId)
      ensures count == |old(todos)| && todos == []
    {
      count := |todos|;
      todos := [];
    }
  }
}
