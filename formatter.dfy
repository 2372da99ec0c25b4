/**
 * The decisions of src/display/formatter.rs: the status mark, which due-date bucket a todo falls
 * in, and `truncate_text` on the UTF-8 bytes of a string. The chrono text of each bucket is not
 * modelled. The older `TodoItem::format_status` and `TodoItem::truncate_text` of src/main.rs have
 * the same bodies.
 */
module Formatter {
  import opened Results
  import opened Text
  import opened Item

  /** `format_status`: a check mark for a completed todo, an empty box for a pending one. */
  function FormatStatus(completed: bool): (r: string)
    ensures |r| == 1
    ensures r == (if completed then "\U{2705}" else "\U{2B1C}")
  {
    if completed then "\U{2705}" else "\U{2B1C}"
  }

  /** The two marks differ, so the mark tells the status apart. */
  lemma FormatStatusInjective(a: bool, b: bool)
    ensures FormatStatus(a) == FormatStatus(b) <==> a == b
  {
    assert FormatStatus(true)[0] != FormatStatus(false)[0];
  }

  /** The branches of `format_due_date_with_now`; `NoDueDate` renders as "-". */
  datatype DueBucket =
    | NoDueDate
    | Overdue
    | Today
    | Tomorrow
    | WithinWeek(days: int)
    | Later

  /** The calendar-day difference `due.date() - now.date()`. */
  function DayDiff(due: Timestamp, now: Timestamp): int {
    Date(due) - Date(now)
  }

  /** The bucket `format_due_date_with_now` picks for a due date at clock reading `now`. */
  function Bucket(due: Option<Timestamp>, now: Timestamp): (b: DueBucket)
    ensures due.None? <==> b == NoDueDate
    ensures b.WithinWeek? ==> 2 <= b.days <= 7 && b.days == DayDiff(due.value, now)
  {
    match due
    case None => NoDueDate
    case Some(d) =>
      var diff := DayDiff(d, now);
      if diff < 0 then Overdue
      else if diff == 0 then Today
      else if diff == 1 then Tomorrow
      else if diff <= 7 then WithinWeek(diff)
      else Later
  }

  /** Exactly one bucket applies, chosen by the day difference alone. */
  lemma BucketByDayDiff(d: Timestamp, now: Timestamp)
    ensures Bucket(Some(d), now) == Overdue <==> DayDiff(d, now) < 0
    ensures Bucket(Some(d), now) == Today <==> DayDiff(d, now) == 0
    ensures Bucket(Some(d), now) == Tomorrow <==> DayDiff(d, now) == 1
    ensures Bucket(Some(d), now).WithinWeek? <==> 2 <= DayDiff(d, now) <= 7
    ensures Bucket(Some(d), now) == Later <==> DayDiff(d, now) > 7
  {
  }

  /** The time of day of either timestamp makes no difference. */
  lemma BucketIgnoresTimeOfDay(d1: Timestamp, d2: Timestamp, now1: Timestamp, now2: Timestamp)
    requires Date(d1) == Date(d2) && Date(now1) == Date(now2)
    ensures Bucket(Some(d1), now1) == Bucket(Some(d2), now2)
  {
  }

  /**
   * A due date earlier on today's date is shown as "today", not "overdue", although the list's
   * overdue filter, which compares whole timestamps, does select it.
   */
  lemma EarlierTodayIsToday(d: Timestamp, now: Timestamp)
    requires d < now && Date(d) == Date(now)
    ensures Bucket(Some(d), now) == Today
  {
  }

  /** `usize::saturating_sub(3)`. */
  function SaturatingSub3(n: nat): nat {
    if n >= 3 then n - 3 else 0
  }

  /**
   * `truncate_text`: a text of at most `maxLen` bytes is kept; a longer one is cut to its first
   * `maxLen - 3` bytes (none when `maxLen < 3`) followed by "...". `None` stands for the panic of
   * slicing a `str` inside a multi-byte character.
   */
  function TruncateText(text: string, maxLen: nat): (r: Option<string>)
    ensures Utf8Len(text) <= maxLen ==> r == Some(text)
    ensures Utf8Len(text) > maxLen && r.Some? ==>
      && Utf8Len(r.value) == SaturatingSub3(maxLen) + 3
      && |r.value| >= 3 && r.value[|r.value| - 3..] == "..."
      && r.value[..|r.value| - 3] <= text
    ensures Utf8Len(text) > maxLen ==>
      (r.None? <==> forall j :: 0 <= j <= |text| ==> Utf8Len(text[..j]) != SaturatingSub3(maxLen))
  {
    if Utf8Len(text) <= maxLen then Some(text)
    else match BytePrefix(text, SaturatingSub3(maxLen))
      case None => None
      case Some(p) =>
        var r := p + "...";
        assert text[..|p|] == p;
        Utf8LenAppend(p, "...");
        assert r[..|r| - 3] == p && r[|r| - 3..] == "...";
        Some(r)
  }

  /** A cut text is exactly `maxLen` bytes long whenever `maxLen >= 3`. */
  lemma TruncatedLength(text: string, maxLen: nat)
    requires Utf8Len(text) > maxLen >= 3
    requires TruncateText(text, maxLen).Some?
    ensures Utf8Len(TruncateText(text, maxLen).value) == maxLen
  {
  }

  /** With `maxLen < 3` the subtraction saturates and a longer text becomes just "...". */
  lemma TruncateBelowThree(text: string, maxLen: nat)
    requires maxLen < 3 && Utf8Len(text) > maxLen
    ensures TruncateText(text, maxLen) == Some("...")
  {
  }

  /** On ASCII text the cut never panics: the first `maxLen - 3` characters, then "...". */
  lemma TruncateAscii(text: string, maxLen: nat)
    requires IsAscii(text) && |text| > maxLen >= 3
    ensures TruncateText(text, maxLen) == Some(text[..maxLen - 3] + "...")
    ensures |TruncateText(text, maxLen).value| == maxLen
  {
    Utf8LenAscii(text);
    BytePrefixAscii(text, maxLen - 3);
  }
}
