/**
 * The `list` path of src/cli/handlers.rs: the arguments become a `ListQuery`, the direction is
 * resolved, the manager's todos are sorted in place and the sorted todos are filtered for display.
 */
module Handlers {
  import opened Results
  import opened Item
  import opened Filters
  import opened Filtering
  import opened Sorting
  import opened Manager

  /** `asc || !desc`: ascending unless only `--desc` is given. */
  function Ascending(asc: bool, desc: bool): bool {
    asc || !desc
  }

  /** Descending happens for `--desc` alone; with neither flag, or with `--asc`, it is ascending. */
  lemma AscendingCases(asc: bool, desc: bool)
    ensures !Ascending(asc, desc) <==> !asc && desc
    ensures Ascending(false, false) && Ascending(true, true)
  {
  }

  /** The closure `apply_filter` filters by. */
  function PassesWith(q: ListQuery, now: Timestamp): TodoItem -> bool {
    (item: TodoItem) => ItemPassesFilters(q, item, now)
  }

  /** `apply_filter`: the todos that pass the query, in their order. */
  function ApplyFilter(todos: seq<TodoItem>, q: ListQuery, now: Timestamp): (r: seq<TodoItem>)
    ensures |r| <= |todos|
    ensures forall i :: 0 <= i < |r| ==> ItemPassesFilters(q, r[i], now) && r[i] in todos
    ensures forall i :: 0 <= i < |todos| && ItemPassesFilters(q, todos[i], now) ==> todos[i] in r
  {
    Filter(todos, PassesWith(q, now))
  }

  /** With no filter set the whole list is shown. */
  lemma ApplyFilterNoFilters(todos: seq<TodoItem>, q: ListQuery, now: Timestamp)
    requires !HasAnyFilters(q)
    ensures ApplyFilter(todos, q, now) == todos
  {
    FilterKeepsAll(todos, PassesWith(q, now));
  }

  /** The shown todos keep the sorted order: they sit at increasing positions of the list. */
  lemma ApplyFilterKeepsOrder(todos: seq<TodoItem>, q: ListQuery, now: Timestamp) returns (idx: seq<nat>)
    ensures |idx| == |ApplyFilter(todos, q, now)|
    ensures forall i :: 0 <= i < |idx| ==> idx[i] < |todos| && ApplyFilter(todos, q, now)[i] == todos[idx[i]]
    ensures forall i, j :: 0 <= i < j < |idx| ==> idx[i] < idx[j]
  {
    idx := FilterIsSubsequence(todos, PassesWith(q, now));
  }

  /** Filtering what was already filtered by the same query changes nothing. */
  lemma ApplyFilterIdempotent(todos: seq<TodoItem>, q: ListQuery, now: Timestamp)
    ensures ApplyFilter(ApplyFilter(todos, q, now), q, now) == ApplyFilter(todos, q, now)
  {
    FilterIdempotent(todos, PassesWith(q, now));
  }

  /** `handle_list_command`: sort the slice in place, then return what the display would show. */
  method HandleListCommand(todos: array<TodoItem>, q: ListQuery, now: Timestamp) returns (shown: seq<TodoItem>)
    modifies todos
    ensures todos[..] == SortSeq(old(todos[..]), Comparator(q.sortBy, Ascending(q.asc, q.desc)))
    ensures shown == ApplyFilter(todos[..], q, now)
  {
    var ascending := q.asc || !q.desc;
    ApplySorting(todos, q.sortBy, ascending);
    shown := ApplyFilter(todos[..], q, now);
  }

  /** The arguments of the `List` command as parsed from the command line. */
  datatype ListArgs = ListArgs(
    asc: bool,
    desc: bool,
    sortBy: Option<string>,
    onlyComplete: bool,
    onlyPending: bool,
    priority: Option<string>,
    overdue: bool,
    dueToday: bool,
    dueTomorrow: bool,
    dueWithin: Option<int>)

  /** The field name that `--sort-by` selects: `Due` when it is absent. */
  function SortField(sortBy: Option<string>): (r: Result<SortBy, TodoError>)
    ensures sortBy.None? ==> r == Ok(Due)
    ensures sortBy.Some? ==> r == SortByFromStr(sortBy.value)
  {
    match sortBy
    case None => Ok(Due)
    case Some(s) => SortByFromStr(s)
  }

  /**
   * The `List` arm's query: the sort field is parsed first, then the priority, and the first
   * failure is the result; on success every flag is copied.
   */
  function ListOptionsOf(args: ListArgs): (r: Result<ListQuery, TodoError>)
    ensures r.Ok? <==> SortField(args.sortBy).Ok? && ParsePriority(args.priority).Ok?
    ensures SortField(args.sortBy).Err? ==> r == Err(SortField(args.sortBy).error)
    ensures SortField(args.sortBy).Ok? && ParsePriority(args.priority).Err? ==>
      r == Err(InvalidPriority(args.priority.value))
    ensures r.Ok? ==>
      && r.value.sortBy == SortField(args.sortBy).value
      && r.value.priority == ParsePriority(args.priority).value
      && r.value.asc == args.asc && r.value.desc == args.desc
      && r.value.onlyComplete == args.onlyComplete && r.value.onlyPending == args.onlyPending
      && r.value.overdue == args.overdue && r.value.dueToday == args.dueToday
      && r.value.dueTomorrow == args.dueTomorrow && r.value.dueWithin == args.dueWithin
  {
    match SortField(args.sortBy)
    case Err(e) => Err(e)
    case Ok(sortBy) =>
      match ParsePriority(args.priority)
      case Err(e) => Err(e)
      case Ok(priority) =>
        Ok(ListQuery(sortBy, args.asc, args.desc, args.onlyComplete, args.onlyPending, priority,
                     args.overdue, args.dueToday, args.dueTomorrow, args.dueWithin))
  }

  /** A permutation keeps every todo, so it keeps an upper bound on the ids. */
  lemma PermutationKeepsIdBound(s: seq<TodoItem>, t: seq<TodoItem>, bound: int)
    requires multiset(s) == multiset(t)
    requires forall k :: 0 <= k < |s| ==> s[k].id < bound
    ensures forall k :: 0 <= k < |t| ==> t[k].id < bound
  {
    forall k | 0 <= k < |t|
      ensures t[k].id < bound
    {
      assert t[k] in multiset(t);
      assert t[k] in s;
    }
  }

  /**
   * The `List` arm of `handle_commands`: on a bad sort field or priority nothing changes; otherwise
   * the manager's todos are sorted in place and the filtered, sorted todos are what is shown.
   */
  method HandleList(m: TodoManager, args: ListArgs, now: Timestamp) returns (r: Result<seq<TodoItem>, TodoError>)
    requires m.Valid()
    modifies m
    ensures m.Valid() && m.nextId == old(m.nextId)
    ensures ListOptionsOf(args).Err? ==> r == Err(ListOptionsOf(args).error) && m.todos == old(m.todos)
    ensures ListOptionsOf(args).Ok? ==>
      var q := ListOptionsOf(args).value;
      && m.todos == SortSeq(old(m.todos), Comparator(q.sortBy, Ascending(q.asc, q.desc)))
      && r == Ok(ApplyFilter(m.todos, q, now))
  {
    var options := ListOptionsOf(args);
    if options.Err? {
      return Err(options.error);
    }
    var q := options.value;
    var ts := m.todos;
    var a := new TodoItem[|ts|](i requires 0 <= i < |ts| => ts[i]);
    assert a[..] == ts;
    var shown := HandleListCommand(a, q, now);
    ApplySortingSpec(ts, q.sortBy, Ascending(q.asc, q.desc));
    PermutationKeepsIdBound(ts, a[..], m.nextId);
    m.todos := a[..];
    r := Ok(shown);
  }
}
