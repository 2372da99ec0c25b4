/**
 * The todo record, the `Priority` and `SortBy` vocabularies with their case-insensitive parsers
 * (src/todo/item.rs), and the error variants of src/todo/error.rs.
 */
module Item {
  import opened Results
  import opened Text

  // ---------------------------------------------------------------- time

  /**
   * A `NaiveDateTime` as whole minutes since an epoch in the local zone. Every timestamp the
   * newer code builds is at :00 seconds; the seconds of the oldest revision's `%S` formats are
   * not kept.
   */
  type Timestamp = int

  const MinutesPerDay: int := 1440

  /** `NaiveDateTime::date()`, as a day number (floor division, as chrono's calendar does). */
  function Date(ts: Timestamp): int {
    ts / 1440
  }

  /** `NaiveDate::and_hms_opt(hour, minute, 0)`. */
  function AtTime(day: int, hour: nat, minute: nat): Timestamp
    requires hour < 24 && minute < 60
  {
    day * 1440 + hour * 60 + minute
  }

  /** `AtTime` lands on the given day, at the given time of day. */
  lemma AtTimeParts(day: int, hour: nat, minute: nat)
    requires hour < 24 && minute < 60
    ensures Date(AtTime(day, hour, minute)) == day
    ensures AtTime(day, hour, minute) % MinutesPerDay == hour * 60 + minute
  {
    var ts := AtTime(day, hour, minute);
    assert ts == day * MinutesPerDay + (hour * 60 + minute);
    assert 0 <= hour * 60 + minute < MinutesPerDay;
  }

  // ---------------------------------------------------------------- Priority

  /** Declared in this order, so the derived `Ord` has Low < Medium < High. */
  datatype Priority = Low | Medium | High

  /** The position of a variant in the declaration, which is what the derived `Ord` compares. */
  function Rank(p: Priority): nat {
    match p
    case Low => 0
    case Medium => 1
    case High => 2
  }

  /** The canonical lower-case name that `from_str` accepts. */
  function PriorityName(p: Priority): string {
    match p
    case High => "high"
    case Medium => "medium"
    case Low => "low"
  }

  /** `Priority::from_str`: lower-case the input, then match the three names exactly. */
  function PriorityFromStr(s: string): (r: Option<Priority>)
    ensures r.Some? <==> ToLower(s) in {"high", "medium", "low"}
    ensures r.Some? ==> ToLower(s) == PriorityName(r.value)
  {
    match ToLower(s)
    case "high" => Some(High)
    case "medium" => Some(Medium)
    case "low" => Some(Low)
    case _ => None
  }

  /** The derived order is a strict total order on the three variants. */
  lemma PriorityTotalOrder(a: Priority, b: Priority)
    ensures Rank(a) == Rank(b) <==> a == b
    ensures Rank(Low) < Rank(Medium) < Rank(High)
  {
  }

  /** Parsing the canonical name gives the variant back. */
  lemma PriorityRoundTrip(p: Priority)
    ensures PriorityFromStr(PriorityName(p)) == Some(p)
  {
    ToLowerOfLower(PriorityName(p));
    PriorityCaseInsensitive(PriorityName(p), p);
  }

  /** Case does not matter: "HIGH", "High" and "high" all give High. */
  lemma PriorityCaseInsensitive(s: string, p: Priority)
    requires ToLower(s) == PriorityName(p)
    ensures PriorityFromStr(s) == Some(p)
  {
  }

  /** The one-letter abbreviations the error message advertises are rejected. */
  lemma PriorityRejectsAbbreviations()
    ensures PriorityFromStr("h") == None
    ensures PriorityFromStr("m") == None
    ensures PriorityFromStr("l") == None
  {
    ToLowerOfLower("h");
    ToLowerOfLower("m");
    ToLowerOfLower("l");
  }

  // ---------------------------------------------------------------- SortBy

  datatype SortBy = Due | Priority | DueThenPriority

  function SortByName(k: SortBy): string {
    match k
    case Due => "due"
    case Priority => "priority"
    case DueThenPriority => "due+priority"
  }

  /** `SortBy::from_str`: a lower-cased exact match; the error keeps the input as given. */
  function SortByFromStr(s: string): (r: Result<SortBy, TodoError>)
    ensures r.Ok? <==> ToLower(s) in {"due", "priority", "due+priority"}
    ensures r.Ok? ==> ToLower(s) == SortByName(r.value)
    ensures r.Err? ==> r.error == InvalidSortField(s)
  {
    match ToLower(s)
    case "due" => Ok(Due)
    case "priority" => Ok(SortBy.Priority)
    case "due+priority" => Ok(DueThenPriority)
    case _ => Err(InvalidSortField(s))
  }

  lemma SortByRoundTrip(k: SortBy)
    ensures SortByFromStr(SortByName(k)) == Ok(k)
  {
    ToLowerOfLower(SortByName(k));
    SortByCaseInsensitive(SortByName(k), k);
  }

  lemma SortByCaseInsensitive(s: string, k: SortBy)
    requires ToLower(s) == SortByName(k)
    ensures SortByFromStr(s) == Ok(k)
  {
  }

  // ---------------------------------------------------------------- the record

  /** One todo. The creation and update timestamps are not modelled. */
  datatype TodoItem = TodoItem(
    id: int,
    title: string,
    description: Option<string>,
    completed: bool,
    due: Option<Timestamp>,
    priority: Option<Priority>,
    tags: Option<seq<string>>)

  // ---------------------------------------------------------------- errors

  /**
   * src/todo/error.rs without the two I/O variants and without the message texts.
   * `InvalidDateFormat` has no payload because that is how src/utils/date.rs builds it.
   */
  datatype TodoError =
    | InvalidDateFormat
    | InvalidPriority(input: string)
    | TodoNotFound(id: int)
    | EmptyTodo
    | InvalidSortField(field: string)
    | TodoTooLong(actual: nat, max: nat)
    | InvalidId(idText: string)
    | PastDate(date: string)
    | InvalidDate(dateInput: string, reason: string)

  // ---------------------------------------------------------------- ids

  /** `iter().map(|t| t.id).max().unwrap_or(0) + 1` over the ids: one above the largest, or 1. */
  function NextIdOf(ids: seq<int>): (n: int)
    ensures forall k :: 0 <= k < |ids| ==> ids[k] < n
    ensures ids == [] ==> n == 1
    ensures ids != [] ==> exists k :: 0 <= k < |ids| && ids[k] == n - 1
  {
    if ids == [] then 1
    else
      var rest := NextIdOf(ids[..|ids| - 1]);
      var last := ids[|ids| - 1];
      if |ids| == 1 || last + 1 > rest then last + 1 else rest
  }

  /** The same computation as a loop over the ids. */
  method NextId(ids: seq<int>) returns (n: int)
    ensures n == NextIdOf(ids)
  {
    var max := 0;
    var i := 0;
    while i < |ids|
      invariant 0 <= i <= |ids|
      invariant i == 0 ==> max == 0
      invariant i > 0 ==> max + 1 == NextIdOf(ids[..i])
    {
      assert ids[..i + 1][..i] == ids[..i];
      if i == 0 || ids[i] > max {
        max := ids[i];
      }
      i := i + 1;
    }
    assert ids[..|ids|] == ids;
    n := max + 1;
  }
}
