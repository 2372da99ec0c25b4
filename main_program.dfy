/**
 * The single-file program of src/main.rs: its own record (the same five fields as
 * `LegacyManager.LegacyItem`), one date format, ids recomputed as the largest id plus one at every
 * add, no text validation on edit, and `process::exit(1)` for every failure (an `Exit` outcome
 * here). The file is loaded before and saved after every command; both are left out.
 */
module MainProgram {
  import opened Results
  import opened Text
  import opened Item
  import opened Dates
  import opened Filtering
  import opened Sorting
  import opened LegacyManager

  /** The only format the `add` command parses a due date with. */
  const AddDateFormat: string := "%d-%m-%Y %H:%M"

  /** The failures after which the program exits with status 1, having saved nothing. */
  datatype Exit =
    | TodoEmpty
    | DateUnparsed
    | PriorityUnknown
    | IdNotFound(id: int)
    | SortByUnknown

  // ---------------------------------------------------------------- add

  /**
   * The due date of `add`: an absent or empty argument means none; anything else, spaces
   * included, must parse as `AddDateFormat` exactly as given.
   */
  function AddDue(due: Option<string>, p: Parsers): (r: Result<Option<Timestamp>, Exit>)
    ensures due.None? || due == Some("") ==> r == Ok(None)
    ensures due.Some? && due.value != "" ==>
      && (r.Ok? <==> p.parseDateTime(due.value, AddDateFormat).Some?)
      && (r.Ok? ==> r.value == p.parseDateTime(due.value, AddDateFormat))
    ensures r.Err? ==> r.error == DateUnparsed
  {
    var dueStr := if due.Some? then due.value else "";
    if dueStr != "" then
      match p.parseDateTime(dueStr, AddDateFormat)
      case Some(dt) => Ok(Some(dt))
      case None => Err(DateUnparsed)
    else Ok(None)
  }

  /** The priority of `add`: absent means none; a given one must be one of the three names. */
  function AddPriority(priority: Option<string>): (r: Result<Option<Priority>, Exit>)
    ensures priority.None? ==> r == Ok(None)
    ensures priority.Some? ==>
      && (r.Ok? <==> ToLower(priority.value) in {"high", "medium", "low"})
      && (r.Ok? ==> r.value == PriorityFromStr(priority.value))
    ensures r.Err? ==> r.error == PriorityUnknown
  {
    match priority
    case None => Ok(None)
    case Some(s) =>
      match PriorityFromStr(s)
      case Some(v) => Ok(Some(v))
      case None => Err(PriorityUnknown)
  }

  /**
   * The todo the `Add` arm builds under id `id`: the checks run in the order empty text, due date,
   * priority, and the text is stored as given, untrimmed.
   */
  function AddItem(id: int, todo: string, due: Option<string>, priority: Option<string>, p: Parsers)
    : (r: Result<LegacyItem, Exit>)
    ensures r.Ok? ==> r.value.id == id && r.value.todo == todo && !r.value.status
  {
    if AllWhitespace(todo) then Err(TodoEmpty)
    else match AddDue(due, p)
      case Err(e) => Err(e)
      case Ok(d) =>
        match AddPriority(priority)
        case Err(e) => Err(e)
        case Ok(pr) => Ok(LegacyItem(id, todo, false, d, pr))
  }

  /** The `Add` arm in one statement: when it succeeds, what it stores, and which exit it takes. */
  lemma AddItemSpec(id: int, todo: string, due: Option<string>, priority: Option<string>, p: Parsers)
    ensures var r := AddItem(id, todo, due, priority, p);
      && (r.Ok? <==> !AllWhitespace(todo) && AddDue(due, p).Ok? && AddPriority(priority).Ok?)
      && (r.Ok? ==> r.value == LegacyItem(id, todo, false, AddDue(due, p).value, AddPriority(priority).value))
      && (AllWhitespace(todo) ==> r == Err(TodoEmpty))
      && (!AllWhitespace(todo) && AddDue(due, p).Err? ==> r == Err(DateUnparsed))
      && (!AllWhitespace(todo) && AddDue(due, p).Ok? && AddPriority(priority).Err? ==> r == Err(PriorityUnknown))
  {
  }

  /**
   * A due date of spaces is not "empty": it goes to the parser, and a parser that rejects it makes
   * the program exit, where the later managers treat a blank date as no date.
   */
  lemma BlankDueIsParsed(todo: string, blank: string, priority: Option<string>, p: Parsers)
    requires !AllWhitespace(todo) && blank != "" && AllWhitespace(blank)
    requires p.parseDateTime(blank, AddDateFormat).None?
    ensures AddItem(1, todo, Some(blank), priority, p) == Err(DateUnparsed)
    ensures LegacyParseDueDate(Some(blank), p) == Ok(None)
  {
  }

  // ---------------------------------------------------------------- list

  /** The direction of `list`: `asc || (!asc && !desc)`, that is ascending unless only `--desc` is given. */
  function ListAscending(asc: bool, desc: bool): (r: bool)
    ensures r <==> asc || !desc
  {
    asc || (!asc && !desc)
  }

  /** The `--sort-by` value, matched exactly and case-sensitively. */
  function SortChoice(s: string): (r: Option<SortBy>)
    ensures r.Some? <==> s in {"due", "priority", "due+priority"}
    ensures r.Some? ==> SortByName(r.value) == s
  {
    match s
    case "due" => Some(Due)
    case "priority" => Some(SortBy.Priority)
    case "due+priority" => Some(DueThenPriority)
    case _ => None
  }

  /** Unlike `SortBy::from_str`, the match here does not lower-case: "Due" is an invalid value. */
  lemma SortChoiceIsCaseSensitive()
    ensures SortChoice("Due") == None
    ensures SortByFromStr("Due") == Ok(Due)
  {
    assert ToLower("Due") == "due";
  }

  /** The record as the comparators of `Sorting` see it: no description, no tags. */
  function AsTodoItem(t: LegacyItem): TodoItem {
    TodoItem(t.id, t.todo, None, t.status, t.due, t.priority, None)
  }

  /** The six closures of the `List` arm, which compare the same fields as `apply_sorting`'s. */
  function ListComparator(sortBy: SortBy, ascending: bool): (LegacyItem, LegacyItem) -> Ordering {
    (a: LegacyItem, b: LegacyItem) => Compare(sortBy, ascending, AsTodoItem(a), AsTodoItem(b))
  }

  lemma ListComparatorIsTotalPreorder(sortBy: SortBy, ascending: bool)
    ensures TotalPreorder(ListComparator(sortBy, ascending))
  {
    var cmp := ListComparator(sortBy, ascending);
    var base := Comparator(sortBy, ascending);
    ComparatorIsTotalPreorder(sortBy, ascending);
    forall a, b ensures cmp(a, b) == Reverse(cmp(b, a)) {
      assert cmp(a, b) == base(AsTodoItem(a), AsTodoItem(b));
      assert cmp(b, a) == base(AsTodoItem(b), AsTodoItem(a));
    }
    forall a, b, c | cmp(a, b) != Greater && cmp(b, c) != Greater ensures cmp(a, c) != Greater {
      assert base(AsTodoItem(a), AsTodoItem(b)) != Greater;
      assert base(AsTodoItem(b), AsTodoItem(c)) != Greater;
    }
  }

  /**
   * What `list` leaves in the list: unchanged without `--sort-by`, an exit on an unknown value,
   * otherwise the list stably sorted by the chosen closure.
   */
  function ListResult(todos: seq<LegacyItem>, sortBy: Option<string>, asc: bool, desc: bool)
    : (r: Result<seq<LegacyItem>, Exit>)
    ensures sortBy.None? ==> r == Ok(todos)
    ensures sortBy.Some? && SortChoice(sortBy.value).None? ==> r == Err(SortByUnknown)
    ensures r.Err? ==> r.error == SortByUnknown
  {
    match sortBy
    case None => Ok(todos)
    case Some(s) =>
      match SortChoice(s)
      case None => Err(SortByUnknown)
      case Some(k) => Ok(SortSeq(todos, ListComparator(k, ListAscending(asc, desc))))
  }

  /** A sorted `list`: a permutation of the todos, ordered by the closure, ties in their old order. */
  lemma ListResultSpec(todos: seq<LegacyItem>, s: string, asc: bool, desc: bool)
    requires SortChoice(s).Some?
    ensures var cmp := ListComparator(SortChoice(s).value, ListAscending(asc, desc));
      var r := ListResult(todos, Some(s), asc, desc);
      && r.Ok?
      && multiset(r.value) == multiset(todos)
      && Sorted(r.value, cmp)
      && forall e :: TiesWith(r.value, e, cmp) == TiesWith(todos, e, cmp)
  {
    var cmp := ListComparator(SortChoice(s).value, ListAscending(asc, desc));
    ListComparatorIsTotalPreorder(SortChoice(s).value, ListAscending(asc, desc));
    SortSeqPermutes(todos, cmp);
    SortSeqSorted(todos, cmp);
    forall e ensures TiesWith(SortSeq(todos, cmp), e, cmp) == TiesWith(todos, e, cmp) {
      SortSeqStable(todos, e, cmp);
    }
  }

  /** `list --sort-by due`: undated todos first, then the dated ones earliest first. */
  lemma ListByDueAscending(todos: seq<LegacyItem>, desc: bool)
    requires !desc
    ensures var r := ListResult(todos, Some("due"), false, desc).value;
      forall i, j :: 0 <= i < j < |r| ==> OptionAtMost(r[i].due, r[j].due)
  {
    ListResultSpec(todos, "due", false, desc);
    var r := ListResult(todos, Some("due"), false, desc).value;
    forall i, j | 0 <= i < j < |r| ensures OptionAtMost(r[i].due, r[j].due) {
      assert ListComparator(Due, true)(r[i], r[j]) != Greater;
      CmpOptionNotGreater(r[i].due, r[j].due);
    }
  }

  // ---------------------------------------------------------------- ids

  predicate UniqueIds(todos: seq<LegacyItem>) {
    forall j, k :: 0 <= j < k < |todos| ==> todos[j].id != todos[k].id
  }

  /** An added todo takes an id above every id in the list, so ids stay distinct. */
  lemma AddKeepsIdsUnique(todos: seq<LegacyItem>, item: LegacyItem)
    requires item.id == NextIdOf(LegacyIds(todos))
    ensures forall k :: 0 <= k < |todos| ==> todos[k].id < item.id
    ensures UniqueIds(todos) ==> UniqueIds(todos + [item])
  {
    assert forall k :: 0 <= k < |todos| ==> LegacyIds(todos)[k] == todos[k].id;
    assert forall k :: 0 <= k < |todos| ==> (todos + [item])[k] == todos[k];
  }

  /**
   * The id is recomputed from the list, not kept: deleting the todo with the largest id hands an
   * id no larger than it to the next add, so a deleted id can come back.
   */
  lemma DeletedLargestIdIsReused(todos: seq<LegacyItem>, id: int)
    requires 1 <= id
    requires forall k :: 0 <= k < |todos| ==> todos[k].id <= id
    ensures NextIdOf(LegacyIds(LegacyRemoveId(todos, id))) <= id
  {
    var rest := LegacyRemoveId(todos, id);
    var idx := FilterIsSubsequence(todos, LegacyKeepOthers(id));
    assert forall k :: 0 <= k < |rest| ==> rest[k] == todos[idx[k]] && LegacyKeepOthers(id)(rest[k]);
    var ids := LegacyIds(rest);
    if ids != [] {
      var k :| 0 <= k < |ids| && ids[k] == NextIdOf(ids) - 1;
      assert ids[k] == rest[k].id < id;
    }
  }

  /** With a single todo, deleting it and adding again gives the new todo the same id. */
  lemma SingleIdReused(x: LegacyItem)
    requires x.id == 1
    ensures NextIdOf(LegacyIds(LegacyRemoveId([x], x.id))) == x.id
  {
    assert !LegacyKeepOthers(x.id)(x);
    assert LegacyRemoveId([x], x.id) == [];
  }

  // ---------------------------------------------------------------- toggle

  /** The todo at index `i` with its status flipped. */
  function FlipStatusAt(todos: seq<LegacyItem>, i: nat): (r: seq<LegacyItem>)
    requires i < |todos|
    ensures |r| == |todos| && r[i].status == !todos[i].status
    ensures r[i] == todos[i].(status := r[i].status)
    ensures forall k :: 0 <= k < |todos| && k != i ==> r[k] == todos[k]
  {
    todos[i := todos[i].(status := !todos[i].status)]
  }

  /** Toggling the same todo twice restores the list. */
  lemma FlipStatusTwice(todos: seq<LegacyItem>, i: nat)
    requires i < |todos|
    ensures FlipStatusAt(FlipStatusAt(todos, i), i) == todos
  {
    var once := FlipStatusAt(todos, i);
    var twice := FlipStatusAt(once, i);
    assert twice[i] == todos[i];
    assert forall k :: 0 <= k < |todos| ==> twice[k] == todos[k];
  }

  // ---------------------------------------------------------------- the commands

  /** The `Vec<TodoItem>` of one run, loaded from the file before the command runs. */
  class TodoList {
    var todoList: seq<LegacyItem>

    constructor (loaded: seq<LegacyItem>)
      ensures todoList == loaded
    {
      todoList := loaded;
    }

    /** `search_by_id`: the index of the first todo with the id; a missing id exits. */
    method SearchById(id: int) returns (r: Result<nat, Exit>)
      ensures LegacyIndexOf(todoList, id).Some? ==> r == Ok(LegacyIndexOf(todoList, id).value)
      ensures LegacyIndexOf(todoList, id).None? ==> r == Err(IdNotFound(id))
    {
      var i := 0;
      while i < |todoList|
        invariant 0 <= i <= |todoList|
        invariant forall k :: 0 <= k < i ==> todoList[k].id != id
      {
        if todoList[i].id == id {
          return Ok(i);
        }
        i := i + 1;
      }
      return Err(IdNotFound(id));
    }

    /** The `Add` arm: the next id is the largest id plus one (1 for an empty list). */
    method Add(todo: string, due: Option<string>, priority: Option<string>, p: Parsers)
      returns (r: Result<(), Exit>)
      modifies this
      ensures var built := AddItem(NextIdOf(LegacyIds(old(todoList))), todo, due, priority, p);
        && (built.Ok? ==> r.Ok? && todoList == old(todoList) + [built.value])
        && (built.Err? ==> r == Err(built.error) && todoList == old(todoList))
      ensures UniqueIds(old(todoList)) ==> UniqueIds(todoList)
    {
      var nextId := NextId(LegacyIds(todoList));
      var built := AddItem(nextId, todo, due, priority, p);
      if built.Err? {
        return Err(built.error);
      }
      AddKeepsIdsUnique(todoList, built.value);
      todoList := todoList + [built.value];
      r := Ok(());
    }

    /** The `Edit` arm: the text is stored as given, with no check, even when it is empty. */
    method Edit(id: int, todo: string) returns (r: Result<(), Exit>)
      modifies this
      ensures LegacyIndexOf(old(todoList), id).None? ==> r == Err(IdNotFound(id)) && todoList == old(todoList)
      ensures LegacyIndexOf(old(todoList), id).Some? ==>
        var i := LegacyIndexOf(old(todoList), id).value;
        r.Ok? && todoList == old(todoList)[i := old(todoList)[i].(todo := todo)]
      ensures LegacyIds(todoList) == LegacyIds(old(todoList))
    {
      var found := SearchById(id);
      if found.Err? {
        return Err(found.error);
      }
      var i := found.value;
      todoList := todoList[i := todoList[i].(todo := todo)];
      r := Ok(());
    }

    /** The `Toggle` arm. */
    method Toggle(id: int) returns (r: Result<(), Exit>)
      modifies this
      ensures LegacyIndexOf(old(todoList), id).None? ==> r == Err(IdNotFound(id)) && todoList == old(todoList)
      ensures LegacyIndexOf(old(todoList), id).Some? ==>
        r.Ok? && todoList == FlipStatusAt(old(todoList), LegacyIndexOf(old(todoList), id).value)
    {
      var found := SearchById(id);
      if found.Err? {
        return Err(found.error);
      }
      todoList := FlipStatusAt(todoList, found.value);
      r := Ok(());
    }

    /** The `Delete` arm: `retain`, then an exit when the length did not drop. */
    method Delete(id: int) returns (r: Result<(), Exit>)
      modifies this
      ensures r.Ok? <==> LegacyIndexOf(old(todoList), id).Some?
      ensures r.Ok? ==> todoList == LegacyRemoveId(old(todoList), id)
      ensures r.Err? ==> r.error == IdNotFound(id) && todoList == old(todoList)
    {
      var originalLen := |todoList|;
      LegacyRemoveIdSpec(todoList, id);
      todoList := LegacyRemoveId(todoList, id);
      if originalLen > |todoList| {
        r := Ok(());
      } else {
        r := Err(IdNotFound(id));
      }
    }

    /** The `ClearList` arm, returning the count it reports. */
    method ClearList() returns (count: nat)
      modifies this
      ensures count == |old(todoList)| && todoList == []
    {
      count := |todoList|;
      todoList := [];
    }

    /**
     * The `List` arm: with `--sort-by`, the list is sorted in place by the closure the value
     * selects; the list it then shows is the result.
     */
    method List(sortBy: Option<string>, asc: bool, desc: bool) returns (r: Result<seq<LegacyItem>, Exit>)
      modifies this
      ensures r == ListResult(old(todoList), sortBy, asc, desc)
      ensures r.Ok? ==> todoList == r.value
      ensures r.Err? ==> todoList == old(todoList)
    {
      var ascending := asc || (!asc && !desc);
      if sortBy.None? {
        return Ok(todoList);
      }
      var choice := SortChoice(sortBy.value);
      if choice.None? {
        return Err(SortByUnknown);
      }
      var ts := todoList;
      var a := new LegacyItem[|ts|](i requires 0 <= i < |ts| => ts[i]);
      assert a[..] == ts;
      SortInPlace(a, ListComparator(choice.value, ascending));
      todoList := a[..];
      r := Ok(todoList);
    }
  }
}
