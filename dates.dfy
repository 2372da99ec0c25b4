/**
 * `parse_due_date` and `parse_relative_date` (src/utils/date.rs). chrono's `parse_from_str` is
 * not modelled: the two parsers are parameters, each a partial function of (input, format).
 */
module Dates {
  import opened Results
  import opened Text
  import opened Item
  import opened Filtering

  /**
   * `NaiveDateTime::parse_from_str` and `NaiveDate::parse_from_str`. The second gives a day
   * number, on the same scale as `Date`.
   */
  datatype Parsers = Parsers(
    parseDateTime: (string, string) -> Option<Timestamp>,
    parseDate: (string, string) -> Option<int>)

  /** `DATE_FORMATS`, in order. */
  const DateFormats: seq<string> := [
    "%d-%m-%Y %H:%M", "%d/%m/%Y %H:%M", "%Y-%m-%d %H:%M",
    "%d-%m-%Y", "%d/%m/%Y", "%Y-%m-%d"]

  /** `format.contains("%H:%M")`. */
  predicate HasTime(f: string) {
    exists i :: 0 <= i < |f| && TimeAt(f, i)
  }

  /** `"%H:%M"` occurs in `f` at position `i`. */
  predicate TimeAt(f: string, i: int) {
    0 <= i && i + 5 <= |f| && f[i] == '%' && f[i + 1] == 'H' && f[i + 2] == ':' && f[i + 3] == '%' && f[i + 4] == 'M'
  }

  predicate HasNoTime(f: string) {
    !HasTime(f)
  }

  /** The first format of `formats` under which `parse` accepts `s`. */
  function FirstMatch<R>(s: string, formats: seq<string>, parse: (string, string) -> Option<R>): (r: Option<R>)
    ensures r.None? <==> forall i :: 0 <= i < |formats| ==> parse(s, formats[i]).None?
    ensures r.Some? ==>
      (exists i :: 0 <= i < |formats| && parse(s, formats[i]) == r && (forall k :: 0 <= k < i ==> parse(s, formats[k]).None?))
  {
    if formats == [] then None
    else match parse(s, formats[0])
      case Some(v) => Some(v)
      case None =>
        var r := FirstMatch(s, formats[1..], parse);
        assert forall i :: 1 <= i < |formats| ==> formats[1..][i - 1] == formats[i];
        r
  }

  /** The formats `parse_due_date` tries first: those of `DATE_FORMATS` with a time, in order. */
  function TimeFormats(): (r: seq<string>)
    ensures forall i :: 0 <= i < |r| ==> HasTime(r[i])
  {
    Filter(DateFormats, HasTime)
  }

  /** The formats tried next: those without a time, in order. */
  function DateOnlyFormats(): (r: seq<string>)
    ensures forall i :: 0 <= i < |r| ==> !HasTime(r[i])
  {
    Filter(DateFormats, HasNoTime)
  }

  lemma NoHourNoTime(f: string)
    requires forall i :: 0 <= i < |f| ==> f[i] != 'H'
    ensures !HasTime(f)
  {
  }

  lemma FormatsClassified()
    ensures HasTime(DateFormats[0]) && HasTime(DateFormats[1]) && HasTime(DateFormats[2])
    ensures !HasTime(DateFormats[3]) && !HasTime(DateFormats[4]) && !HasTime(DateFormats[5])
  {
    assert TimeAt(DateFormats[0], 9) && TimeAt(DateFormats[1], 9) && TimeAt(DateFormats[2], 9);
    NoHourNoTime(DateFormats[3]);
    NoHourNoTime(DateFormats[4]);
    NoHourNoTime(DateFormats[5]);
  }

  /** Of six elements, keeping exactly the first three keeps `f[..3]`. */
  lemma FilterFirstHalf<T>(f: seq<T>, keep: T -> bool)
    requires |f| == 6
    requires keep(f[0]) && keep(f[1]) && keep(f[2]) && !keep(f[3]) && !keep(f[4]) && !keep(f[5])
    ensures Filter(f, keep) == f[..3]
  {
    var a, b := f[..3], f[3..];
    assert f == a + b;
    forall i | 0 <= i < 3
      ensures keep(a[i]) && !keep(b[i])
    {
      assert i == 0 || i == 1 || i == 2;
    }
    FilterAppend(a, b, keep);
    FilterOfAllKept(a, keep);
    FilterOfNoneKept(b, keep);
  }

  /** Of six elements, keeping exactly the last three keeps `f[3..]`. */
  lemma FilterSecondHalf<T>(f: seq<T>, keep: T -> bool)
    requires |f| == 6
    requires !keep(f[0]) && !keep(f[1]) && !keep(f[2]) && keep(f[3]) && keep(f[4]) && keep(f[5])
    ensures Filter(f, keep) == f[3..]
  {
    var a, b := f[..3], f[3..];
    assert f == a + b;
    forall i | 0 <= i < 3
      ensures !keep(a[i]) && keep(b[i])
    {
      assert i == 0 || i == 1 || i == 2;
    }
    FilterAppend(a, b, keep);
    FilterOfNoneKept(a, keep);
    FilterOfAllKept(b, keep);
    assert [] + b == b;
  }

  /** The filter of line 23 keeps the first three formats of `DATE_FORMATS`, in order. */
  lemma TimeFormatsAre()
    ensures TimeFormats() == DateFormats[..3]
  {
    FormatsClassified();
    FilterFirstHalf(DateFormats, HasTime);
  }

  /** The filter of line 29 keeps the last three, in order. */
  lemma DateOnlyFormatsAre()
    ensures DateOnlyFormats() == DateFormats[3..]
  {
    FormatsClassified();
    FilterSecondHalf(DateFormats, HasNoTime);
  }

  /**
   * `parse_due_date`: `None` or blank input means no due date; otherwise the trimmed input is
   * tried against the formats with a time, then the date-only ones (at 00:00), then the
   * relative forms; anything else is `InvalidDateFormat`.
   */
  function ParseDueDate(due: Option<string>, p: Parsers, now: Timestamp): (r: Result<Option<Timestamp>, TodoError>)
    ensures due.None? ==> r == Ok(None)
    ensures due.Some? && AllWhitespace(due.value) ==> r == Ok(None)
    ensures r.Ok? && r.value.None? ==> due.None? || AllWhitespace(due.value)
    ensures r.Err? ==> r.error == InvalidDateFormat
  {
    match due
    case None => Ok(None)
    case Some(raw) =>
      var s := Trim(raw);
      if s == [] then Ok(None)
      else match FirstMatch(s, TimeFormats(), p.parseDateTime)
        case Some(dt) => Ok(Some(dt))
        case None =>
          match FirstMatch(s, DateOnlyFormats(), p.parseDate)
          case Some(day) => Ok(Some(AtTime(day, 0, 0)))
          case None =>
            match ParseRelativeDate(s, now)
            case Some(dt) => Ok(Some(dt))
            case None => Err(InvalidDateFormat)
  }

  /** The day count of "<n>d" / "<n> days": both suffixes stripped, then trimmed. */
  function DaysText(lower: string): string {
    Trim(TrimEndMatches(TrimEndMatches(lower, "d"), " days"))
  }

  /**
   * The day `parse_relative_date` picks at the clock reading `now`: "today" and "tomorrow" in any
   * case, or today plus a (possibly negative) `i64` day count followed by "d" or " days".
   */
  function RelativeDay(input: string, now: Timestamp): Option<int> {
    var lower := ToLower(input);
    if lower == "today" then Some(Date(now))
    else if lower == "tomorrow" then Some(Date(now) + 1)
    else if EndsWith(lower, "d") || EndsWith(lower, " days") then
      match ParseI64(DaysText(lower))
      case Some(days) => Some(Date(now) + days)
      case None => None
    else None
  }

  /** `parse_relative_date`: 23:59 on the day picked. */
  function ParseRelativeDate(input: string, now: Timestamp): Option<Timestamp> {
    match RelativeDay(input, now)
    case Some(day) => Some(AtTime(day, 23, 59))
    case None => None
  }

  // ---------------------------------------------------------------- properties

  /** A match among the formats with a time wins, whatever the later forms would say. */
  lemma DateTimeFormatWins(raw: string, p: Parsers, now: Timestamp, i: nat)
    requires i < |TimeFormats()| && Trim(raw) != []
    requires p.parseDateTime(Trim(raw), TimeFormats()[i]).Some?
    requires forall k :: 0 <= k < i ==> p.parseDateTime(Trim(raw), TimeFormats()[k]).None?
    ensures ParseDueDate(Some(raw), p, now) == Ok(p.parseDateTime(Trim(raw), TimeFormats()[i]))
  {
    var s := Trim(raw);
    var r := FirstMatch(s, TimeFormats(), p.parseDateTime);
    assert r.Some?;
    var j :| 0 <= j < |TimeFormats()| && p.parseDateTime(s, TimeFormats()[j]) == r
      && forall k :: 0 <= k < j ==> p.parseDateTime(s, TimeFormats()[k]).None?;
    assert j == i;
    TimeMatchIsTaken(raw, p, now);
  }

  lemma TimeMatchIsTaken(raw: string, p: Parsers, now: Timestamp)
    requires Trim(raw) != []
    requires FirstMatch(Trim(raw), TimeFormats(), p.parseDateTime).Some?
    ensures ParseDueDate(Some(raw), p, now) == Ok(FirstMatch(Trim(raw), TimeFormats(), p.parseDateTime))
  {
  }

  /** A date-only match, when no format with a time matched, means midnight of that day. */
  lemma DateOnlyIsMidnight(raw: string, p: Parsers, now: Timestamp)
    requires Trim(raw) != []
    requires forall k :: 0 <= k < |TimeFormats()| ==> p.parseDateTime(Trim(raw), TimeFormats()[k]).None?
    requires FirstMatch(Trim(raw), DateOnlyFormats(), p.parseDate).Some?
    ensures ParseDueDate(Some(raw), p, now).Ok?
    ensures ParseDueDate(Some(raw), p, now).value.Some?
    ensures ParseDueDate(Some(raw), p, now).value.value
         == FirstMatch(Trim(raw), DateOnlyFormats(), p.parseDate).value * MinutesPerDay
  {
  }

  /** The relative forms are the last resort, and when they fail too the input is rejected. */
  lemma RelativeIsLastResort(raw: string, p: Parsers, now: Timestamp)
    requires Trim(raw) != []
    requires forall k :: 0 <= k < |TimeFormats()| ==> p.parseDateTime(Trim(raw), TimeFormats()[k]).None?
    requires forall k :: 0 <= k < |DateOnlyFormats()| ==> p.parseDate(Trim(raw), DateOnlyFormats()[k]).None?
    ensures ParseRelativeDate(Trim(raw), now).Some? ==>
      ParseDueDate(Some(raw), p, now) == Ok(ParseRelativeDate(Trim(raw), now))
    ensures ParseRelativeDate(Trim(raw), now).None? ==>
      ParseDueDate(Some(raw), p, now) == Err(InvalidDateFormat)
  {
    assert FirstMatch(Trim(raw), TimeFormats(), p.parseDateTime).None?;
    assert FirstMatch(Trim(raw), DateOnlyFormats(), p.parseDate).None?;
    FallBackToRelative(raw, p, now);
  }

  lemma FallBackToRelative(raw: string, p: Parsers, now: Timestamp)
    requires Trim(raw) != []
    requires FirstMatch(Trim(raw), TimeFormats(), p.parseDateTime).None?
    requires FirstMatch(Trim(raw), DateOnlyFormats(), p.parseDate).None?
    ensures ParseDueDate(Some(raw), p, now) ==
      if ParseRelativeDate(Trim(raw), now).Some? then Ok(ParseRelativeDate(Trim(raw), now)) else Err(InvalidDateFormat)
  {
  }

  /** Every relative form is due at 23:59 of the day picked. */
  lemma RelativeIsAt2359(input: string, now: Timestamp)
    requires ParseRelativeDate(input, now).Some?
    ensures Date(ParseRelativeDate(input, now).value) == RelativeDay(input, now).value
    ensures ParseRelativeDate(input, now).value % MinutesPerDay == 23 * 60 + 59
  {
    AtTimeParts(RelativeDay(input, now).value, 23, 59);
  }

  /** "today" and "tomorrow", in any letter case, are 23:59 of today and of the next day. */
  lemma TodayAndTomorrow(input: string, now: Timestamp)
    ensures ToLower(input) == "today" ==> ParseRelativeDate(input, now) == Some(AtTime(Date(now), 23, 59))
    ensures ToLower(input) == "tomorrow" ==> ParseRelativeDate(input, now) == Some(AtTime(Date(now) + 1, 23, 59))
  {
  }

  /** What `i64::to_string` prints: an optional `-`, then digits. */
  predicate IsDecimal(d: string) {
    d != [] && (IsDigit(d[0]) || d[0] == '-') && IsDigit(d[|d| - 1])
    && forall i :: 1 <= i < |d| ==> IsDigit(d[i])
  }

  /** A text without capitals followed by a lower-case suffix is its own lower-case form. */
  lemma LowerOfSuffixed(d: string, suffix: string)
    requires forall i :: 0 <= i < |d| ==> !('A' <= d[i] <= 'Z')
    requires forall i :: 0 <= i < |suffix| ==> !('A' <= suffix[i] <= 'Z')
    ensures ToLower(d + suffix) == d + suffix
  {
    var s := d + suffix;
    assert forall i :: 0 <= i < |s| ==> s[i] == if i < |d| then d[i] else suffix[i - |d|];
    ToLowerOfLower(s);
  }

  /** The day count text of a decimal followed by "d" or " days" is that decimal. */
  lemma DaysTextOfNumber(d: string, suffix: string)
    requires IsDecimal(d)
    requires suffix == "d" || suffix == " days"
    ensures DaysText(d + suffix) == d
  {
    var s := d + suffix;
    assert s[..|d|] == d;
    assert !EndsWith(d, "d") && !EndsWith(d, " days") by {
      assert IsDigit(d[|d| - 1]);
    }
    if suffix == "d" {
      assert EndsWith(s, "d");
      assert TrimEndMatches(s, "d") == d;
    } else {
      assert s[|s| - 1] == 's';
      assert !EndsWith(s, "d");
      assert EndsWith(s, " days");
      assert TrimEndMatches(s, "d") == s;
      assert TrimEndMatches(s, " days") == d;
    }
    assert !IsWhitespace(d[0]);
    TrimOfTrimmed(d);
  }

  /** A day-count form: a suffix, and a count that parses, gives today + count. */
  lemma RelativeDays(input: string, now: Timestamp, n: int)
    requires ToLower(input) != "today" && ToLower(input) != "tomorrow"
    requires EndsWith(ToLower(input), "d") || EndsWith(ToLower(input), " days")
    requires ParseI64(DaysText(ToLower(input))) == Some(n)
    ensures RelativeDay(input, now).Some? && RelativeDay(input, now).value == Date(now) + n
  {
  }

  lemma RelativeAt2359(input: string, now: Timestamp)
    requires RelativeDay(input, now).Some?
    ensures ParseRelativeDate(input, now) == Some(AtTime(RelativeDay(input, now).value, 23, 59))
  {
  }

  /** "<n>d" and "<n> days", for any `i64` n (negative included), are 23:59 on today + n. */
  lemma DaysSuffix(n: int, suffix: string, now: Timestamp)
    requires I64Min <= n <= I64Max
    requires suffix == "d" || suffix == " days"
    ensures RelativeDay(IntToDecimal(n) + suffix, now).Some?
    ensures RelativeDay(IntToDecimal(n) + suffix, now).value == Date(now) + n
    ensures ParseRelativeDate(IntToDecimal(n) + suffix, now).Some?
    ensures ParseRelativeDate(IntToDecimal(n) + suffix, now).value == AtTime(Date(now) + n, 23, 59)
  {
    ParseI64OfDecimal(n);
    DecimalWithSuffix(IntToDecimal(n), n, suffix, now);
  }

  /** `DaysSuffix` for any decimal text `d` that parses to `n`. */
  lemma DecimalWithSuffix(d: string, n: int, suffix: string, now: Timestamp)
    requires IsDecimal(d) && ParseI64(d) == Some(n)
    requires suffix == "d" || suffix == " days"
    ensures RelativeDay(d + suffix, now).Some? && RelativeDay(d + suffix, now).value == Date(now) + n
    ensures ParseRelativeDate(d + suffix, now).Some?
    ensures ParseRelativeDate(d + suffix, now).value == AtTime(Date(now) + n, 23, 59)
  {
    assert RelativeDay(d + suffix, now).Some? && RelativeDay(d + suffix, now).value == Date(now) + n by {
      DaysFormParses(d, n, suffix);
      RelativeDays(d + suffix, now, n);
    }
    RelativeAt2359(d + suffix, now);
  }

  /** The premises of `RelativeDays` for a decimal followed by "d" or " days". */
  lemma DaysFormParses(d: string, n: int, suffix: string)
    requires IsDecimal(d) && ParseI64(d) == Some(n)
    requires suffix == "d" || suffix == " days"
    ensures var lower := ToLower(d + suffix);
      && lower != "today" && lower != "tomorrow"
      && (EndsWith(lower, "d") || EndsWith(lower, " days"))
      && ParseI64(DaysText(lower)) == Some(n)
  {
    var s := d + suffix;
    assert forall i :: 0 <= i < |d| ==> !('A' <= d[i] <= 'Z') by {
      forall i | 0 <= i < |d|
        ensures !('A' <= d[i] <= 'Z')
      {
        if i > 0 {
          assert IsDigit(d[i]);
        }
      }
    }
    assert forall i :: 0 <= i < |suffix| ==> !('A' <= suffix[i] <= 'Z');
    LowerOfSuffixed(d, suffix);
    assert s[0] == d[0];
    NotAWord(s);
    assert EndsWith(ToLower(s), suffix) by {
      assert s[|s| - |suffix|..] == suffix;
    }
    DaysTextOfNumber(d, suffix);
  }

  lemma NotAWord(s: string)
    requires s != [] && s[0] != 't'
    ensures s != "today" && s != "tomorrow"
  {
    assert "today"[0] == 't' && "tomorrow"[0] == 't';
  }

  /** A "d" suffix on something that is not a number is rejected. */
  lemma NonNumericDaysRejected(input: string, now: Timestamp)
    requires ToLower(input) != "today" && ToLower(input) != "tomorrow"
    requires ParseI64(DaysText(ToLower(input))).None?
    ensures RelativeDay(input, now).None? && ParseRelativeDate(input, now).None?
  {
  }
}
