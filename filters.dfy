/**
 * The filter predicate of the `list` command (src/todo/filters.rs): a status group, a priority
 * group and a time group joined by AND, the time predicates joined by OR. `now` is a parameter
 * where the source reads the system clock.
 */
module Filters {
  import opened Results
  import opened Item

  /** `ListQuery` (re-exported as `ListOptions`). */
  datatype ListQuery = ListQuery(
    sortBy: SortBy,
    asc: bool,
    desc: bool,
    onlyComplete: bool,
    onlyPending: bool,
    priority: Option<Priority>,
    overdue: bool,
    dueToday: bool,
    dueTomorrow: bool,
    dueWithin: Option<int>)

  predicate HasAnyFilters(q: ListQuery) {
    || q.onlyComplete
    || q.onlyPending
    || q.priority.Some?
    || q.overdue
    || q.dueToday
    || q.dueTomorrow
    || q.dueWithin.Some?
  }

  /** Whether any of the four time flags is set. */
  predicate HasTimeFilter(q: ListQuery) {
    q.overdue || q.dueToday || q.dueTomorrow || q.dueWithin.Some?
  }

  predicate ItemPassesFilters(q: ListQuery, item: TodoItem, now: Timestamp) {
    if !HasAnyFilters(q) then true
    else PassesStatusFilter(q, item) && PassesPriorityFilter(q, item) && PassesTimeFilter(q, item, now)
  }

  predicate PassesStatusFilter(q: ListQuery, item: TodoItem) {
    match (q.onlyComplete, q.onlyPending)
    case (true, false) => item.completed
    case (false, true) => !item.completed
    case _ => true
  }

  predicate PassesPriorityFilter(q: ListQuery, item: TodoItem) {
    match q.priority
    case Some(required) => item.priority == Some(required)
    case None => true
  }

  predicate PassesTimeFilter(q: ListQuery, item: TodoItem, now: Timestamp) {
    if !q.overdue && !q.dueToday && !q.dueTomorrow && q.dueWithin.None? then true
    else IsOverdue(q, item, now) || IsDueToday(q, item, now) || IsDueTomorrow(q, item, now)
         || IsDueWithin(q, item, now)
  }

  predicate IsDueToday(q: ListQuery, item: TodoItem, now: Timestamp) {
    if !q.dueToday then false
    else match item.due
      case Some(d) => Date(d) == Date(now)
      case None => false
  }

  predicate IsDueTomorrow(q: ListQuery, item: TodoItem, now: Timestamp) {
    if !q.dueTomorrow then false
    else match item.due
      case Some(d) => Date(d) == Date(now) + 1
      case None => false
  }

  predicate IsOverdue(q: ListQuery, item: TodoItem, now: Timestamp) {
    if !q.overdue then false
    else match item.due
      case Some(d) => d < now
      case None => false
  }

  predicate IsDueWithin(q: ListQuery, item: TodoItem, now: Timestamp) {
    match q.dueWithin
    case Some(days) =>
      (match item.due
       case Some(d) => Date(d) >= Date(now) && Date(d) <= Date(now) + days
       case None => false)
    case None => false
  }

  // ---------------------------------------------------------------- properties

  /** With no filter set, every item passes, and so does each group on its own. */
  lemma NoFiltersEveryItemPasses(q: ListQuery, item: TodoItem, now: Timestamp)
    requires !HasAnyFilters(q)
    ensures ItemPassesFilters(q, item, now)
    ensures PassesStatusFilter(q, item) && PassesPriorityFilter(q, item) && PassesTimeFilter(q, item, now)
  {
  }

  /** The fast path is only an optimisation: passing is exactly passing all three groups. */
  lemma PassesIffAllGroups(q: ListQuery, item: TodoItem, now: Timestamp)
    ensures ItemPassesFilters(q, item, now)
        <==> PassesStatusFilter(q, item) && PassesPriorityFilter(q, item) && PassesTimeFilter(q, item, now)
  {
    if !HasAnyFilters(q) {
      NoFiltersEveryItemPasses(q, item, now);
    }
  }

  lemma StatusGroup(q: ListQuery, item: TodoItem)
    ensures q.onlyComplete && !q.onlyPending ==> (PassesStatusFilter(q, item) <==> item.completed)
    ensures q.onlyPending && !q.onlyComplete ==> (PassesStatusFilter(q, item) <==> !item.completed)
    ensures q.onlyComplete == q.onlyPending ==> PassesStatusFilter(q, item)
  {
  }

  lemma PriorityGroup(q: ListQuery, item: TodoItem)
    ensures q.priority.Some? ==> (PassesPriorityFilter(q, item) <==> item.priority == q.priority)
    ensures q.priority.Some? && item.priority.None? ==> !PassesPriorityFilter(q, item)
    ensures q.priority.None? ==> PassesPriorityFilter(q, item)
  {
  }

  /** The time group passes when inactive, and otherwise exactly when an active predicate holds. */
  lemma TimeGroup(q: ListQuery, item: TodoItem, now: Timestamp)
    ensures !HasTimeFilter(q) ==> PassesTimeFilter(q, item, now)
    ensures HasTimeFilter(q) ==>
      (PassesTimeFilter(q, item, now) <==>
        || (q.overdue && item.due.Some? && item.due.value < now)
        || (q.dueToday && item.due.Some? && Date(item.due.value) == Date(now))
        || (q.dueTomorrow && item.due.Some? && Date(item.due.value) == Date(now) + 1)
        || (q.dueWithin.Some? && item.due.Some?
            && Date(now) <= Date(item.due.value) <= Date(now) + q.dueWithin.value))
    ensures HasTimeFilter(q) && item.due.None? ==> !PassesTimeFilter(q, item, now)
  {
  }

  /** Overdue compares whole timestamps strictly: due at `now` or later the same day is not overdue. */
  lemma OverdueIsStrict(q: ListQuery, item: TodoItem, now: Timestamp)
    requires q.overdue && item.due.Some?
    ensures IsOverdue(q, item, now) <==> item.due.value < now
    ensures item.due.value >= now ==> !IsOverdue(q, item, now)
  {
  }

  /** Due-today and due-tomorrow look only at calendar dates, not at the time of day. */
  lemma DueDayIgnoresTimeOfDay(q: ListQuery, a: TodoItem, b: TodoItem, now1: Timestamp, now2: Timestamp)
    requires a.due.Some? && b.due.Some? && Date(a.due.value) == Date(b.due.value)
    requires Date(now1) == Date(now2)
    ensures IsDueToday(q, a, now1) == IsDueToday(q, b, now2)
    ensures IsDueTomorrow(q, a, now1) == IsDueTomorrow(q, b, now2)
    ensures IsDueWithin(q, a, now1) == IsDueWithin(q, b, now2)
  {
  }

  /** Due-within never matches past dates or a negative window. */
  lemma DueWithinBounds(q: ListQuery, item: TodoItem, now: Timestamp)
    ensures item.due.Some? && Date(item.due.value) < Date(now) ==> !IsDueWithin(q, item, now)
    ensures q.dueWithin.Some? && q.dueWithin.value < 0 ==> !IsDueWithin(q, item, now)
  {
  }

  /** A window of zero days is the same test as due-today. */
  lemma DueWithinZeroIsToday(q: ListQuery, item: TodoItem, now: Timestamp)
    requires q.dueWithin == Some(0) && q.dueToday
    ensures IsDueWithin(q, item, now) <==> IsDueToday(q, item, now)
  {
  }

  /**
   * A completed, high-priority item due today passes {only_complete, priority high, due_today};
   * switching the status filter to only_pending excludes it.
   */
  lemma AndAcrossGroupsExample(item: TodoItem, now: Timestamp)
    requires item.completed && item.priority == Some(High)
    requires item.due.Some? && Date(item.due.value) == Date(now)
    ensures ItemPassesFilters(ListQuery(Due, false, false, true, false, Some(High), false, true, false, None), item, now)
    ensures !ItemPassesFilters(ListQuery(Due, false, false, false, true, Some(High), false, true, false, None), item, now)
  {
  }
}
