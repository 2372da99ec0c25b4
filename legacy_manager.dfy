/**
 * The oldest `TodoManager` (todo/manager.rs): todos with a text, a status flag, a due date and a
 * priority; the text is checked before anything else, and due dates are parsed from the untrimmed
 * argument against the six formats of todo/config.rs. Loading and saving are not modelled.
 */
module LegacyManager {
  import opened Results
  import opened Text
  import opened Item
  import opened LegacyValidation
  import opened Dates
  import opened Filtering

  /** The oldest todo record: `id`, `todo`, `status`, `due`, `priority`. */
  datatype LegacyItem = LegacyItem(id: int, todo: string, status: bool, due: Option<Timestamp>, priority: Option<Priority>)

  /** `DATE_FORMAT` of todo/config.rs, all tried with `NaiveDateTime::parse_from_str`. */
  const LegacyDateFormats: seq<string> := [
    "%Y-%m-%d %H:%M:%S",
    "%Y-%m-%d",
    "%d/%m/%Y %H:%M:%S",
    "%d/%m/%Y",
    "%m/%d/%Y %H:%M:%S",
    "%m/%d/%Y"
  ]

  /**
   * `parse_due_date`: no date for a missing or blank argument; otherwise the first format the
   * untrimmed argument parses with, or `LegacyError.InvalidDateFormat`.
   */
  function LegacyParseDueDate(due: Option<string>, p: Parsers): (r: Result<Option<Timestamp>, LegacyError>)
    ensures due.None? || AllWhitespace(due.value) ==> r == Ok(None)
    ensures r.Ok? && r.value.Some? ==>
      due.Some? && exists i :: 0 <= i < |LegacyDateFormats| && p.parseDateTime(due.value, LegacyDateFormats[i]) == r.value
                               && forall k :: 0 <= k < i ==> p.parseDateTime(due.value, LegacyDateFormats[k]).None?
    ensures r.Err? <==> due.Some? && !AllWhitespace(due.value)
                        && forall i :: 0 <= i < |LegacyDateFormats| ==> p.parseDateTime(due.value, LegacyDateFormats[i]).None?
    ensures r.Err? ==> r.error == LegacyError.InvalidDateFormat
  {
    match due
    case Some(s) =>
      if Trim(s) != [] then
        var found := FirstMatch(s, LegacyDateFormats, p.parseDateTime);
        if found.Some? then Ok(found) else Err(LegacyError.InvalidDateFormat)
      else Ok(None)
    case None => Ok(None)
  }

  /**
   * The formats are tried in order and the first that parses decides, so text that reads both
   * day-first ("%d/%m/%Y", index 3) and month-first ("%m/%d/%Y", index 5) is taken day-first.
   */
  lemma LegacyFirstFormatWins(raw: string, p: Parsers, i: nat)
    requires !AllWhitespace(raw) && i < |LegacyDateFormats|
    requires p.parseDateTime(raw, LegacyDateFormats[i]).Some?
    requires forall k :: 0 <= k < i ==> p.parseDateTime(raw, LegacyDateFormats[k]).None?
    ensures LegacyParseDueDate(Some(raw), p) == Ok(p.parseDateTime(raw, LegacyDateFormats[i]))
  {
    var r := LegacyParseDueDate(Some(raw), p);
    assert r.Ok? && r.value.Some?;
    var j :| 0 <= j < |LegacyDateFormats| && p.parseDateTime(raw, LegacyDateFormats[j]) == r.value
      && forall k :: 0 <= k < j ==> p.parseDateTime(raw, LegacyDateFormats[k]).None?;
    assert j == i;
  }

  /** `parse_priority`: as the newer one, but `LegacyError.InvalidPriority` carries no input. */
  function LegacyParsePriority(priority: Option<string>): (r: Result<Option<Priority>, LegacyError>)
    ensures priority.None? ==> r == Ok(None)
    ensures priority.Some? ==> (r.Ok? <==> PriorityFromStr(priority.value).Some?)
    ensures r.Ok? && priority.Some? ==> r.value == PriorityFromStr(priority.value)
    ensures r.Err? ==> r.error == LegacyError.InvalidPriority
  {
    match priority
    case None => Ok(None)
    case Some(s) =>
      match PriorityFromStr(s)
      case Some(v) => Ok(Some(v))
      case None => Err(LegacyError.InvalidPriority)
  }

  /** The todo `add_todo` builds with id `id`: text, due date and priority are checked in that order. */
  function LegacyNewItem(id: int, text: string, due: Option<string>, priority: Option<string>, p: Parsers): (r: Result<LegacyItem, LegacyError>)
    ensures r.Ok? ==> r.value.id == id && !r.value.status
  {
    match ValidateTodoText(text)
    case Err(e) => Err(e)
    case Ok(t) =>
      match LegacyParseDueDate(due, p)
      case Err(e) => Err(e)
      case Ok(d) =>
        match LegacyParsePriority(priority)
        case Err(e) => Err(e)
        case Ok(pr) => Ok(LegacyItem(id, t, false, d, pr))
  }

  /** What `edit_todo` leaves in the todo, and the error that stopped it, if any. */
  datatype LegacyEditOutcome = LegacyEditOutcome(item: LegacyItem, error: Option<LegacyError>)

  /**
   * `edit_todo` on the found todo, once the new text has been validated to `text`: the text is
   * written, then a given due date, then a given priority; a failure keeps the earlier writes.
   */
  function LegacyEditFields(item: LegacyItem, text: string, due: Option<string>, priority: Option<string>, p: Parsers): (r: LegacyEditOutcome)
    ensures r.item.id == item.id && r.item.status == item.status && r.item.todo == text
    ensures due.None? ==> r.item.due == item.due
    ensures priority.None? || r.error.Some? ==> r.item.priority == item.priority
  {
    var i1 := item.(todo := text);
    var dueStep := if due.Some? then LegacyParseDueDate(due, p) else Ok(item.due);
    if dueStep.Err? then LegacyEditOutcome(i1, Some(dueStep.error))
    else
      var i2 := i1.(due := dueStep.value);
      var priorityStep := if priority.Some? then LegacyParsePriority(priority) else Ok(item.priority);
      if priorityStep.Err? then LegacyEditOutcome(i2, Some(priorityStep.error))
      else LegacyEditOutcome(i2.(priority := priorityStep.value), None)
  }

  /** The index of the first todo with id `id`. */
  function LegacyIndexOf(todos: seq<LegacyItem>, id: int): (r: Option<nat>)
    ensures r.Some? ==> r.value < |todos| && todos[r.value].id == id
    ensures r.Some? ==> forall k :: 0 <= k < r.value ==> todos[k].id != id
    ensures r.None? <==> forall k :: 0 <= k < |todos| ==> todos[k].id != id
  {
    if todos == [] then None
    else if todos[0].id == id then Some(0)
    else
      match LegacyIndexOf(todos[1..], id)
      case None =>
        assert forall k :: 1 <= k < |todos| ==> todos[k] == todos[1..][k - 1];
        None
      case Some(j) =>
        assert forall k :: 1 <= k < |todos| ==> todos[k] == todos[1..][k - 1];
        Some(j + 1)
  }

  function LegacyKeepOthers(id: int): LegacyItem -> bool {
    (t: LegacyItem) => t.id != id
  }

  /** `retain(|t| t.id != id)`. */
  function LegacyRemoveId(todos: seq<LegacyItem>, id: int): seq<LegacyItem> {
    Filter(todos, LegacyKeepOthers(id))
  }

  function LegacyIds(todos: seq<LegacyItem>): (r: seq<int>)
    ensures |r| == |todos| && forall k :: 0 <= k < |todos| ==> r[k] == todos[k].id
  {
    seq(|todos|, k requires 0 <= k < |todos| => todos[k].id)
  }

  // ---------------------------------------------------------------- properties

  /** A todo is built exactly when the three checks pass, the first failure being reported. */
  lemma LegacyNewItemSpec(id: int, text: string, due: Option<string>, priority: Option<string>, p: Parsers)
    ensures var r := LegacyNewItem(id, text, due, priority, p);
      && (r.Ok? <==> ValidateTodoText(text).Ok? && LegacyParseDueDate(due, p).Ok? && LegacyParsePriority(priority).Ok?)
      && (r.Ok? ==> && r.value.todo == Trim(text) && Utf8Len(r.value.todo) <= MaxTodoLength
                    && r.value.due == LegacyParseDueDate(due, p).value
                    && r.value.priority == LegacyParsePriority(priority).value)
      && (ValidateTodoText(text).Err? ==> r.Err? && r.error == ValidateTodoText(text).error)
      && (ValidateTodoText(text).Ok? && LegacyParseDueDate(due, p).Err? ==> r.Err? && r.error == LegacyError.InvalidDateFormat)
      && (ValidateTodoText(text).Ok? && LegacyParseDueDate(due, p).Ok? && LegacyParsePriority(priority).Err? ==>
            r == Err(LegacyError.InvalidPriority))
  {
  }

  /**
   * The argument reaches the parser untrimmed: a padded date that no format accepts as written is
   * rejected even when its trimmed form would parse.
   */
  lemma LegacyDueIsNotTrimmed(raw: string, p: Parsers)
    requires !AllWhitespace(raw)
    requires forall i :: 0 <= i < |LegacyDateFormats| ==> p.parseDateTime(raw, LegacyDateFormats[i]).None?
    ensures LegacyParseDueDate(Some(raw), p) == Err(LegacyError.InvalidDateFormat)
  {
  }

  /** A blank due date given to an edit clears the date; a date that does not parse keeps the new text. */
  lemma LegacyEditDue(item: LegacyItem, text: string, blank: string, bad: string, p: Parsers)
    requires AllWhitespace(blank)
    requires !AllWhitespace(bad)
    requires forall i :: 0 <= i < |LegacyDateFormats| ==> p.parseDateTime(bad, LegacyDateFormats[i]).None?
    ensures LegacyEditFields(item, text, Some(blank), None, p) == LegacyEditOutcome(item.(todo := text, due := None), None)
    ensures LegacyEditFields(item, text, Some(bad), None, p) == LegacyEditOutcome(item.(todo := text), Some(LegacyError.InvalidDateFormat))
  {
    assert LegacyParseDueDate(Some(blank), p) == Ok(None);
    assert LegacyParseDueDate(Some(bad), p).Err?;
  }

  /** Deletion removes the id exactly when it is present, and nothing with that id remains. */
  lemma LegacyRemoveIdSpec(todos: seq<LegacyItem>, id: int)
    ensures |LegacyRemoveId(todos, id)| < |todos| <==> LegacyIndexOf(todos, id).Some?
    ensures LegacyIndexOf(todos, id).None? ==> LegacyRemoveId(todos, id) == todos
    ensures LegacyIndexOf(LegacyRemoveId(todos, id), id).None?
  {
    FilterKeepsAll(todos, LegacyKeepOthers(id));
    if LegacyIndexOf(todos, id).Some? {
      var i := LegacyIndexOf(todos, id).value;
      assert !LegacyKeepOthers(id)(todos[i]);
    }
  }

  /** Deletion keeps an upper bound on the ids. */
  lemma LegacyRemoveIdKeepsBound(todos: seq<LegacyItem>, id: int, bound: int)
    requires forall k :: 0 <= k < |todos| ==> todos[k].id < bound
    ensures forall k :: 0 <= k < |LegacyRemoveId(todos, id)| ==> LegacyRemoveId(todos, id)[k].id < bound
  {
    var idx := FilterIsSubsequence(todos, LegacyKeepOthers(id));
    var r := LegacyRemoveId(todos, id);
    assert forall k :: 0 <= k < |r| ==> r[k] == todos[idx[k]];
  }

  // ---------------------------------------------------------------- the manager

  class LegacyTodoManager {
    var todos: seq<LegacyItem>
    var nextId: int

    ghost predicate Valid()
      reads this
    {
      forall k :: 0 <= k < |todos| ==> todos[k].id < nextId
    }

    /** `TodoManager::new` over the loaded todos. */
    constructor (loaded: seq<LegacyItem>)
      ensures todos == loaded && nextId == NextIdOf(LegacyIds(loaded))
      ensures Valid()
    {
      var n := NextId(LegacyIds(loaded));
      todos := loaded;
      nextId := n;
    }

    method AddTodo(text: string, due: Option<string>, priority: Option<string>, p: Parsers)
      returns (r: Result<(), LegacyError>)
      requires Valid()
      modifies this
      ensures Valid()
      ensures LegacyNewItem(old(nextId), text, due, priority, p).Ok? ==>
        && r.Ok? && nextId == old(nextId) + 1
        && todos == old(todos) + [LegacyNewItem(old(nextId), text, due, priority, p).value]
      ensures LegacyNewItem(old(nextId), text, due, priority, p).Err? ==>
        && r == Err(LegacyNewItem(old(nextId), text, due, priority, p).error)
        && todos == old(todos) && nextId == old(nextId)
    {
      var built := LegacyNewItem(nextId, text, due, priority, p);
      if built.Err? {
        return Err(built.error);
      }
      Push(built.value);
      r := Ok(());
    }

    /** The end of `add_todo`: the next id is consumed and the todo appended. */
    method Push(item: LegacyItem)
      requires Valid() && item.id == nextId
      modifies this
      ensures Valid()
      ensures todos == old(todos) + [item] && nextId == old(nextId) + 1
    {
      nextId := nextId + 1;
      todos := todos + [item];
    }

    /** `find_todo_mut`, returning the index of the todo. */
    method FindTodoMut(id: int) returns (r: Result<nat, LegacyError>)
      ensures LegacyIndexOf(todos, id).Some? ==> r == Ok(LegacyIndexOf(todos, id).value)
      ensures LegacyIndexOf(todos, id).None? ==> r == Err(LegacyError.TodoNotFound(id))
    {
      var i := 0;
      while i < |todos|
        invariant 0 <= i <= |todos|
        invariant forall k :: 0 <= k < i ==> todos[k].id != id
      {
        if todos[i].id == id {
          return Ok(i);
        }
        i := i + 1;
      }
      return Err(LegacyError.TodoNotFound(id));
    }

    /**
     * `edit_todo`: the text is validated before the todo is looked up, so an invalid text is
     * reported even for a missing id; then the fields are written as `LegacyEditFields` says.
     */
    method EditTodo(id: int, newText: string, due: Option<string>, priority: Option<string>, p: Parsers)
      returns (r: Result<(), LegacyError>)
      requires Valid()
      modifies this
      ensures Valid() && nextId == old(nextId)
      ensures ValidateTodoText(newText).Err? ==> r == Err(ValidateTodoText(newText).error) && todos == old(todos)
      ensures ValidateTodoText(newText).Ok? && LegacyIndexOf(old(todos), id).None? ==>
        r == Err(LegacyError.TodoNotFound(id)) && todos == old(todos)
      ensures ValidateTodoText(newText).Ok? && LegacyIndexOf(old(todos), id).Some? ==>
        var i := LegacyIndexOf(old(todos), id).value;
        var out := LegacyEditFields(old(todos)[i], ValidateTodoText(newText).value, due, priority, p);
        && todos == old(todos)[i := out.item]
        && r == (if out.error.Some? then Err(out.error.value) else Ok(()))
    {
      var text := ValidateTodoText(newText);
      if text.Err? {
        return Err(text.error);
      }
      var found := FindTodoMut(id);
      if found.Err? {
        return Err(found.error);
      }
      var i := found.value;
      var out := LegacyEditFields(todos[i], text.value, due, priority, p);
      ReplaceAt(i, out.item);
      r := if out.error.Some? then Err(out.error.value) else Ok(());
    }

    /** Writing a todo back at its own position, with its id unchanged, keeps the id bound. */
    method ReplaceAt(i: nat, item: LegacyItem)
      requires Valid() && i < |todos| && item.id == todos[i].id
      modifies this
      ensures Valid() && nextId == old(nextId)
      ensures todos == old(todos)[i := item]
    {
      ghost var before := todos;
      todos := todos[i := item];
      assert forall k :: 0 <= k < |todos| ==> todos[k].id == before[k].id;
    }

    method ToggleTodo(id: int) returns (r: Result<(), LegacyError>)
      requires Valid()
      modifies this
      ensures Valid() && nextId == old(nextId)
      ensures LegacyIndexOf(old(todos), id).None? ==> r == Err(LegacyError.TodoNotFound(id)) && todos == old(todos)
      ensures LegacyIndexOf(old(todos), id).Some? ==>
        var i := LegacyIndexOf(old(todos), id).value;
        r.Ok? && todos == old(todos)[i := old(todos)[i].(status := !old(todos)[i].status)]
    {
      var found := FindTodoMut(id);
      if found.Err? {
        return Err(found.error);
      }
      var i := found.value;
      todos := todos[i := todos[i].(status := !todos[i].status)];
      r := Ok(());
    }

    method DeleteTodo(id: int) returns (r: Result<(), LegacyError>)
      requires Valid()
      modifies this
      ensures Valid() && nextId == old(nextId)
      ensures todos == LegacyRemoveId(old(todos), id)
      ensures r.Ok? <==> LegacyIndexOf(old(todos), id).Some?
      ensures r.Err? ==> r.error == LegacyError.TodoNotFound(id) && todos == old(todos)
    {
      var originalLen := |todos|;
      LegacyRemoveIdSpec(todos, id);
      LegacyRemoveIdKeepsBound(todos, id, nextId);
      todos := LegacyRemoveId(todos, id);
      if |todos| < originalLen {
        r := Ok(());
      } else {
        r := Err(LegacyError.TodoNotFound(id));
      }
    }

    method ClearAll() returns (count: nat)
      requires Valid()
      modifies this
      ensures Valid() && nextId == old(nextId)
      ensures count == |old(todos)| && todos == []
    {
      count := |todos|;
      todos := [];
    }
  }
}
