# todo_cli in Dafny

A model of the core of `todo_cli`, a command-line todo manager written in Rust. Todos live in a JSON
file. The commands are add, edit, toggle, delete, clear and list; `list` sorts and filters.

## What is modelled

The repository holds three revisions of the same program. The model covers all three.

- **The `list` query engine** (src/todo/filters.rs, src/cli/handlers.rs, src/todo/item.rs):
  - the filter predicate of `ListQuery`: a status group, a priority group and a time group, joined
    by AND, with the time predicates joined by OR (`Filters`);
  - the direction (`asc || !desc`) and the six comparators of `apply_sorting` (`Sorting`);
  - a stable in-place sort (`Sorting.SortInPlace`), proved equal to a stable insertion sort
    `SortSeq`, which is a sorted, stable permutation;
  - order-preserving filtering (`Handlers`);
  - the `Priority` and `SortBy` vocabularies with their case-insensitive parsers (`Item`).
- **`TodoManager` of src/todo/manager.rs**: a class holding the todos and `next_id`. It has add,
  edit, find, toggle, delete and clear (`Manager`).
- **The older `TodoManager` of todo/manager.rs** (`LegacyManager`, with `LegacyValidation`):
  - the text is validated before anything else;
  - due dates are parsed untrimmed against the six formats of todo/config.rs;
  - its errors carry less data.
- **The single-file program of src/main.rs** (`MainProgram`):
  - ids are recomputed as the largest id plus one at every add, so a deleted id can come back;
  - only one date format is accepted;
  - an edit sets the text with no check;
  - every failure is `process::exit(1)`, modelled as an `Exit` outcome.
- **Small pure helpers**:
  - `validate_text` and `validate_todo_text` (`Validation`, `LegacyValidation`);
  - `truncate_text`, `format_status` and the day-difference bucket of `format_due_date_with_now`
    (`Formatter`);
  - `parse_due_date` and `parse_relative_date` (`Dates`).

### Representation

- **Timestamps.** A `NaiveDateTime` is an `int` count of minutes. Its `date()` is the day number
  `ts / 1440`.
- **The clock.** `Local::now()` is an explicit `now` parameter.
- **Date parsing.** chrono's `parse_from_str` is not modelled. The two parsers are function-valued
  fields of `Dates.Parsers`, each a partial function of (input, format).
- **String length.** Rust's `str::len` counts UTF-8 bytes, and so does `Text.Utf8Len`. The text
  bounds and `truncate_text` use it. A byte cut inside a multi-byte character, which panics in
  Rust, is `None`.
- **Option order.** `Option` is compared as Rust derives it: `None` is below every `Some`.
- **The record.** src/todo/ uses one record with id, title, description, completed, due, priority
  and tags (`Item.TodoItem`). The two older revisions use their own five-field record
  (`LegacyManager.LegacyItem`). src/main.rs has the same five fields as the oldest revision,
  and `MainProgram` reuses that record.

### Where the documentation and the code differ

The model follows the code in each case.

- **Missing due dates (and priorities) when sorting.** The documented behaviour puts them last.
  The comparators use the derived `Ord` of `Option`, so an ascending sort puts them FIRST and a
  descending sort puts them last. See `Sorting.DueAscending`, `Sorting.PriorityAscending` and
  `MainProgram.ListByDueAscending`.
- **`TodoError::InvalidDateFormat`.** src/todo/error.rs:8 declares an `input` field.
  src/utils/date.rs:39 builds the variant without one. The model's variant has no payload.
- **The error text for `InvalidPriority`.** At src/todo/error.rs:9 it advertises "h, m, l".
  `Priority::from_str` rejects those abbreviations (`Item.PriorityRejectsAbbreviations`).

## Model

| member | source | states |
|---|---|---|
| Item.PriorityFromStr | src/todo/item.rs:23-33 | a priority is returned exactly when the lower-cased input is "high", "medium" or "low", and then that name is the variant's canonical name |
| Item.PriorityTotalOrder | src/todo/item.rs:16-21 | the derived order ranks Low < Medium < High, and equal rank means the same variant |
| Item.PriorityRoundTrip | src/todo/item.rs:26-33 | parsing a variant's canonical name gives that variant back |
| Item.PriorityCaseInsensitive | src/todo/item.rs:27-30 | any spelling whose lower-case form is a name parses to that variant |
| Item.PriorityRejectsAbbreviations | src/todo/item.rs:31 | "h", "m" and "l" are rejected |
| Item.SortByFromStr | src/todo/item.rs:53-66 | accepts exactly "due", "priority" and "due+priority" in any letter case; on failure the error is `InvalidSortField` carrying the input as given, not lower-cased |
| Item.SortByRoundTrip | src/todo/item.rs:56-60 | parsing a sort key's canonical name gives that key back |
| Item.SortByCaseInsensitive | src/todo/item.rs:57-60 | any spelling whose lower-case form is a key name parses to that key |
| Item.NextIdOf | src/todo/manager.rs:15 | the next id is above every present id; it is one above a present id, or 1 for an empty list |
| Item.NextId | src/todo/manager.rs:15 | the loop over the ids computes `NextIdOf` |
| Item.AtTimeParts | src/utils/date.rs:31 | a time built on a day lands on that day at the given hour and minute |
| Text.Trim | src/utils/validation.rs:4 | the result has no whitespace at either end, and it is empty exactly when the input is all whitespace |
| Text.TrimIgnoresPadding | src/utils/validation.rs:4-8 | whitespace added at either end does not change the trim |
| Text.TrimIdempotent | src/utils/validation.rs:4 | trimming twice is trimming once |
| Text.ParseI64 | src/utils/date.rs:54 | an accepted text starts with a digit or a sign, ends with a digit, and gives a value in the `i64` range |
| Text.ParseI64Accepts | src/utils/date.rs:54 | `i64::from_str` accepts exactly an optional `+`/`-` followed by one or more ASCII digits whose signed value lies in the `i64` range, and then gives that value |
| Text.ParseI64Examples | src/utils/date.rs:54 | "+5", "-5" and "007" parse to 5, -5 and 7; "1a1", "", "-" and " 5" are rejected |
| Text.ParseI64OfDecimal | src/utils/date.rs:54 | every `i64` printed in decimal, negative ones included, parses back to itself |
| Filtering.Filter | src/cli/handlers.rs:99-107 | the kept elements all satisfy the predicate and come from the input; every satisfying input element is kept |
| Filtering.FilterIsSubsequence | src/cli/handlers.rs:100-104 | the kept elements sit at strictly increasing positions of the input |
| Filtering.FilterKeepsAll | src/todo/manager.rs:149-152 | nothing is dropped exactly when every element satisfies the predicate, and the length drops exactly when some element fails it |
| Filtering.FilterIdempotent | src/cli/handlers.rs:99-107 | filtering a filtered list again changes nothing |
| Filters.NoFiltersEveryItemPasses | src/todo/filters.rs:19-40 | with no filter set every item passes, and so does each of the three groups |
| Filters.PassesIffAllGroups | src/todo/filters.rs:30-40 | an item passes exactly when it passes the status, priority and time groups, so the fast path changes no answer |
| Filters.StatusGroup | src/todo/filters.rs:42-48 | only_complete alone keeps exactly the completed items, only_pending alone exactly the pending ones; both or neither keep all |
| Filters.PriorityGroup | src/todo/filters.rs:50-55 | with a priority set an item passes exactly when its priority equals it, so an item without one fails; with none set all pass |
| Filters.TimeGroup | src/todo/filters.rs:57-104 | with no time flag the group passes; otherwise it passes exactly when some active predicate holds, and an undated item fails it |
| Filters.OverdueIsStrict | src/todo/filters.rs:86-92 | overdue means a due timestamp strictly before `now`; due at `now` or later is not overdue |
| Filters.DueDayIgnoresTimeOfDay | src/todo/filters.rs:71-84 | due-today, due-tomorrow and due-within depend only on the calendar dates of the due time and of `now` |
| Filters.DueWithinBounds | src/todo/filters.rs:94-104 | a due date before today, or a negative window, is never due-within |
| Filters.DueWithinZeroIsToday | src/todo/filters.rs:71-104 | a window of zero days is the same test as due-today |
| Filters.AndAcrossGroupsExample | src/todo/filters.rs:37-39 | a completed high-priority item due today passes {only_complete, high, due_today}, and with only_pending instead it fails |
| Validation.ValidateText | src/utils/validation.rs:3-15 | accepted exactly when the trimmed text is non-empty and at most `len` bytes, and then the result is the trimmed text; all whitespace gives `EmptyTodo`; too long gives `TodoTooLong` with the trimmed byte length and `len` |
| Validation.ValidateTextIdempotent | src/utils/validation.rs:3-15 | validating an accepted result again gives the same result |
| Validation.ValidateTextIgnoresPadding | src/utils/validation.rs:4-8 | surrounding whitespace neither counts toward the bound nor reaches the result |
| Validation.ValidateTextBoundIsInclusive | src/utils/validation.rs:8-14 | a trimmed text of exactly `len` bytes is accepted unchanged |
| LegacyValidation.ValidateTodoText | utils/validation.rs:1-10 | accepted exactly when the trimmed text is non-empty and at most 500 bytes, and then the result is the trimmed text; otherwise `EmptyTodo` or `TodoTooLong`; the private copy at todo/manager.rs:38-47 has the same body |
| LegacyValidation.ValidateTodoTextIdempotent | utils/validation.rs:1-10 | validating an accepted result again gives the same result |
| LegacyValidation.ValidateTodoTextAsciiBound | todo/config.rs:1 | a trimmed ASCII text passes exactly when it has at most `MAX_TODO_LENGTH` = 500 characters |
| Dates.FirstMatch | src/utils/date.rs:23-27 | no result exactly when no format parses; otherwise the result of the first format that parses |
| Dates.TimeFormats | src/utils/date.rs:23 | every format tried first contains "%H:%M" |
| Dates.DateOnlyFormats | src/utils/date.rs:29 | no format tried second contains "%H:%M" |
| Dates.FormatsClassified | src/utils/date.rs:4-11 | the first three of `DATE_FORMATS` contain a time and the last three do not |
| Dates.TimeFormatsAre | src/utils/date.rs:23 | the first loop tries the first three formats, in order |
| Dates.DateOnlyFormatsAre | src/utils/date.rs:29 | the second loop tries the last three formats, in order |
| Dates.ParseDueDate | src/utils/date.rs:13-40 | `None` and blank input give `Ok(None)`, and only they do; every failure is `InvalidDateFormat` |
| Dates.DateTimeFormatWins | src/utils/date.rs:23-27 | the first format with a time that parses the trimmed input decides the result |
| Dates.DateOnlyIsMidnight | src/utils/date.rs:29-33 | when no format with a time parses, a date-only match gives 00:00 of that day |
| Dates.RelativeIsLastResort | src/utils/date.rs:35-39 | when no format parses, the relative form decides, and input it rejects gives `InvalidDateFormat` |
| Dates.RelativeIsAt2359 | src/utils/date.rs:42-66 | every relative form is due at 23:59 of the day it picks |
| Dates.TodayAndTomorrow | src/utils/date.rs:45-51 | "today" and "tomorrow" in any letter case are 23:59 of today and of the next day |
| Dates.RelativeDays | src/utils/date.rs:52-59 | a "d" or " days" suffix on a count that parses gives today plus that count |
| Dates.DaysSuffix | src/utils/date.rs:52-59 | "<n>d" and "<n> days" give 23:59 of today + n, for every `i64` n including negative ones (range panics not modelled) |
| Dates.NonNumericDaysRejected | src/utils/date.rs:52-64 | a suffix on a non-number picks no day |
| Formatter.FormatStatus | src/display/formatter.rs:3-9 | a check mark for a completed todo, an empty box for a pending one; the older `TodoItem::format_status` at src/main.rs:91-93 has the same body |
| Formatter.FormatStatusInjective | src/display/formatter.rs:3-9 | the two marks differ, so the mark tells the status |
| Formatter.Bucket | src/display/formatter.rs:15-43 | no due date and only that gives the "-" bucket; the "N days" bucket has 2 <= N <= 7 and N is the day difference |
| Formatter.BucketByDayDiff | src/display/formatter.rs:25-39 | exactly one bucket applies: overdue below 0, today at 0, tomorrow at 1, N days for 2..7, the plain date above 7 |
| Formatter.BucketIgnoresTimeOfDay | src/display/formatter.rs:22-23 | the bucket depends only on the calendar dates, not the time of day |
| Formatter.EarlierTodayIsToday | src/display/formatter.rs:22-28 | a due time earlier today shows as today, not overdue |
| Formatter.TruncateText | src/display/formatter.rs:45-51 | a text of at most `max` bytes is kept; a longer one becomes its first `max - 3` bytes (saturating) and "...", or a panic (None) exactly when no prefix of the text is `max - 3` bytes long, that is when the cut splits a character; the older `TodoItem::truncate_text` at src/main.rs:121-127 has the same body |
| Formatter.TruncatedLength | src/display/formatter.rs:49 | a cut text is exactly `max` bytes long when `max >= 3` |
| Formatter.TruncateBelowThree | src/display/formatter.rs:49 | with `max < 3` a longer text becomes exactly "..." |
| Formatter.TruncateAscii | src/display/formatter.rs:45-51 | ASCII text never panics: its first `max - 3` characters and "...", `max` characters in all |
| Sorting.CmpOptionLaws | src/cli/handlers.rs:83-84 | the derived `Option` order is antisymmetric and transitive, equal means equal values, and `None` is below `Some` |
| Sorting.PriorityKeyInjective | src/todo/item.rs:16-21 | two optional priorities compare equal exactly when they are equal |
| Sorting.ComparatorIsTotalPreorder | src/cli/handlers.rs:82-93 | each of the six comparators is antisymmetric with a transitive "not greater" |
| Sorting.CompareEqualIffSameKey | src/cli/handlers.rs:82-93 | two todos tie exactly when they agree on the fields the key compares |
| Sorting.DescendingIsReversed | src/cli/handlers.rs:83-92 | each descending comparator is the ascending one with its arguments swapped, so its order is reversed |
| Sorting.DueThenPriorityIsLexicographic | src/cli/handlers.rs:87-92 | the due dates decide, and priority decides only between equal due dates (two `None`s included), in the same direction |
| Sorting.InsertPermutes | src/cli/handlers.rs:95 | one insertion step adds exactly the inserted element |
| Sorting.SortSeqPermutes | src/cli/handlers.rs:95 | the sort is a permutation of its input |
| Sorting.SortSeqSorted | src/cli/handlers.rs:95 | with a total-preorder comparator the result is sorted |
| Sorting.SortSeqStable | src/cli/handlers.rs:95 | the elements that tie with any given one keep their input order |
| Sorting.CmpOptionNotGreater | src/cli/handlers.rs:83 | "not greater" in the derived `Option` order is `None` first, then by value |
| Sorting.DueAscending | src/cli/handlers.rs:83 | the due dates of an ascending due sort never decrease, so undated todos come first |
| Sorting.DueDescending | src/cli/handlers.rs:84 | a descending due sort is the reverse order, so undated todos come last |
| Sorting.PriorityAscending | src/cli/handlers.rs:85 | an ascending priority sort runs none, Low, Medium, High |
| Sorting.PriorityDescending | src/cli/handlers.rs:86 | a descending priority sort runs High, Medium, Low, none |
| Sorting.DueThenPriorityAscending | src/cli/handlers.rs:87-89 | due dates never decrease, and within one due date the priorities never decrease |
| Sorting.ApplySortingSpec | src/cli/handlers.rs:81-97 | the sorted list is a permutation of the input, sorted by the comparator, with ties in input order |
| Sorting.InsertLast | src/cli/handlers.rs:95 | shifting the last element left in place inserts it into the sorted prefix and leaves the rest alone |
| Sorting.SortInPlace | src/cli/handlers.rs:95 | the array ends up as `SortSeq` of its old contents |
| Sorting.ApplySorting | src/cli/handlers.rs:81-97 | the slice ends up sorted by the comparator chosen by the key and the direction |
| Handlers.AscendingCases | src/cli/handlers.rs:71 | only `--desc` alone sorts descending; no flag, or `--asc`, is ascending |
| Handlers.ApplyFilter | src/cli/handlers.rs:99-107 | exactly the todos that pass the query are returned, taken from the input |
| Handlers.ApplyFilterNoFilters | src/cli/handlers.rs:99-107 | with no filter set the whole list is shown |
| Handlers.ApplyFilterKeepsOrder | src/cli/handlers.rs:99-107 | the shown todos keep their relative order, at strictly increasing positions of the sorted list |
| Handlers.ApplyFilterIdempotent | src/cli/handlers.rs:99-107 | filtering again with the same query changes nothing |
| Handlers.HandleListCommand | src/cli/handlers.rs:70-79 | the slice is sorted in place by the resolved direction, and the shown list is the sorted list filtered |
| Handlers.SortField | src/cli/handlers.rs:44-47 | no `--sort-by` means `Due`; otherwise the value goes through `SortBy::from_str` |
| Handlers.ListOptionsOf | src/cli/handlers.rs:44-62 | the query is built exactly when the sort field and the priority both parse, the sort field's error coming first; on success every flag is copied |
| Handlers.PermutationKeepsIdBound | src/cli/handlers.rs:64 | reordering the todos keeps every id below the same bound |
| Handlers.HandleList | src/cli/handlers.rs:32-65 | a bad sort field or priority changes nothing; otherwise the manager's todos become their sorted permutation and the shown list is that list filtered; `next_id` is untouched |
| Manager.ParsePriority | src/todo/manager.rs:85-92 | `None` gives `Ok(None)`; a valid name gives that priority; anything else gives `InvalidPriority` with the input |
| Manager.ValidateDescription | src/todo/manager.rs:60-62 | no description is accepted as none; a given one passes exactly when `validate_text(_, 1000)` does, and it is stored trimmed |
| Manager.NewItem | src/todo/manager.rs:59-76 | a built todo has the given id and tags and is pending |
| Manager.NewItemSpec | src/todo/manager.rs:59-76 | a todo is built exactly when title (140), description (1000), due date and priority all pass, and it holds their validated values; otherwise the first failing check's error is returned, in that order |
| Manager.SetTitle | src/todo/manager.rs:105-107 | no title leaves the todo alone; a given one is written trimmed when `validate_text(_, 140)` accepts it, and otherwise gives its error |
| Manager.SetDescription | src/todo/manager.rs:108-110 | the same for the description, with bound 1000 |
| Manager.SetDue | src/todo/manager.rs:111-113 | a given due date is written exactly when it parses (blank clears it); otherwise `InvalidDateFormat` |
| Manager.SetPriority | src/todo/manager.rs:114-116 | a given priority is written exactly when it parses; otherwise `InvalidPriority` with the input |
| Manager.EditFields | src/todo/manager.rs:105-119 | the id and status never change, every field whose argument is absent is kept, and tags are written only when given and nothing failed |
| Manager.FindIndex | src/todo/manager.rs:128-131 | the index of the first todo with the id, or none exactly when no todo has it |
| Manager.ToggleById | src/todo/manager.rs:134-136 | an unknown id gives `TodoNotFound`; otherwise the list is the old one with only the found todo's `completed` flipped, every other field and every other todo unchanged |
| Manager.RemoveId | src/todo/manager.rs:150 | no todo with the id remains, and every todo with another id is kept |
| Manager.Ids | src/todo/manager.rs:15 | the ids of the list, in order |
| Manager.ParsePriorityNames | src/todo/manager.rs:85-92 | any letter case of the three names is accepted and nothing else; the canonical names give their variants |
| Manager.EditNothingIsIdentity | src/todo/manager.rs:94-124 | an edit with no field given changes nothing and succeeds |
| Manager.EditWritesGivenFields | src/todo/manager.rs:105-119 | a successful edit writes every given field, validated: title and description trimmed, due date and priority parsed, tags as given |
| Manager.EditBlankDueClears | src/todo/manager.rs:111-113 | a blank due date given to an edit clears the due date |
| Manager.EditPartialFailure | src/todo/manager.rs:105-110 | a good title with a bad description leaves the new title written and reports the description's error |
| Manager.ToggleTwiceRestores | src/todo/manager.rs:134-136 | toggling the same id twice gives the list back |
| Manager.RemoveIdSpec | src/todo/manager.rs:148-158 | the list gets shorter exactly when the id is present; with no match it is unchanged; afterwards the id is absent |
| Manager.RemoveIdKeepsOrder | src/todo/manager.rs:150 | the kept todos are a subsequence of the list |
| Manager.RemoveIdKeepsIdProperties | src/todo/manager.rs:150 | deletion keeps an upper bound on the ids and keeps them unique |
| Manager.AppendFreshId | src/todo/manager.rs:65-78 | appending a todo whose id is above every present one raises the bound by one, appends its id, and keeps ids unique |
| Manager.SameIdsSameUniqueness | src/todo/manager.rs:103-119 | two lists with the same ids in the same places are unique alike |
| Manager.TodoManager.constructor | src/todo/manager.rs:13-21 | the todos are the loaded ones, and `next_id` is one above the largest id, or 1 |
| Manager.TodoManager.AddTodo | src/todo/manager.rs:51-83 | on success exactly the built todo (id = old `next_id`) is appended and `next_id` goes up by one; on failure neither changes; every id stays below `next_id`, and unique ids stay unique |
| Manager.TodoManager.Push | src/todo/manager.rs:65-78 | the todo is appended and `next_id` consumed, keeping every id below it |
| Manager.TodoManager.FindTodoMut | src/todo/manager.rs:126-132 | the loop finds the first todo with the id, or `TodoNotFound` |
| Manager.TodoManager.EditTodo | src/todo/manager.rs:94-124 | an unknown id gives `TodoNotFound` with no change; otherwise the found todo becomes what `EditFields` leaves, even on failure, and the first error is returned; ids and `next_id` do not change |
| Manager.TodoManager.ToggleTodo | src/todo/manager.rs:134-146 | the list becomes what `ToggleById` gives, or stays unchanged with its error; ids and `next_id` do not change |
| Manager.TodoManager.DeleteTodo | src/todo/manager.rs:148-159 | the list becomes `RemoveId` of it; success exactly when the id was present; otherwise `TodoNotFound(id)` with no change; `next_id` never goes down |
| Manager.TodoManager.ClearAll | src/todo/manager.rs:161-170 | the old length is returned, the list is empty, `next_id` is unchanged |
| LegacyManager.LegacyParseDueDate | todo/manager.rs:74-88 | missing or blank input gives no date; a date comes from the first of the six config formats, in order, that accepts the untrimmed input; the error happens exactly when no format accepts a non-blank input |
| LegacyManager.LegacyParsePriority | todo/manager.rs:90-95 | as the newer `parse_priority`, but the error carries no input |
| LegacyManager.LegacyNewItem | todo/manager.rs:49-72 | a built todo has the given id and is pending |
| LegacyManager.LegacyNewItemSpec | todo/manager.rs:49-72 | a todo is built exactly when the text, due date and priority all pass; it holds the trimmed text (at most 500 bytes) and the parsed fields; otherwise the first failure is returned: the text error, else `InvalidDateFormat`, else `InvalidPriority` |
| LegacyManager.LegacyFirstFormatWins | todo/manager.rs:79-86 | the first config format that accepts a non-blank input decides, so text that reads both ways is taken day-first ("%d/%m/%Y" precedes "%m/%d/%Y") |
| LegacyManager.LegacyEditFields | todo/manager.rs:107-115 | the text is always written and the id and status kept; an absent due date is kept; the priority changes only when given and nothing failed |
| LegacyManager.LegacyIndexOf | todo/manager.rs:118-123 | the index of the first todo with the id, or none exactly when no todo has it |
| LegacyManager.LegacyIds | todo/manager.rs:10 | the ids of the list, in order |
| LegacyManager.LegacyDueIsNotTrimmed | todo/manager.rs:76-84 | a padded date that no format accepts as written is rejected |
| LegacyManager.LegacyEditDue | todo/manager.rs:107-111 | a blank due date clears the date; a bad one reports `InvalidDateFormat` with the new text already written |
| LegacyManager.LegacyRemoveIdSpec | todo/manager.rs:131-140 | the list gets shorter exactly when the id is present; with no match it is unchanged; afterwards the id is absent |
| LegacyManager.LegacyRemoveIdKeepsBound | todo/manager.rs:133 | deletion keeps an upper bound on the ids |
| LegacyManager.LegacyTodoManager.constructor | todo/manager.rs:8-16 | the todos are the loaded ones, and `next_id` is one above the largest id, or 1 |
| LegacyManager.LegacyTodoManager.AddTodo | todo/manager.rs:49-72 | on success exactly the built todo is appended and `next_id` goes up by one; on failure nothing changes |
| LegacyManager.LegacyTodoManager.Push | todo/manager.rs:58-69 | the todo is appended and `next_id` consumed, keeping every id below it |
| LegacyManager.LegacyTodoManager.FindTodoMut | todo/manager.rs:118-123 | the loop finds the first todo with the id, or `TodoNotFound(id)` |
| LegacyManager.LegacyTodoManager.EditTodo | todo/manager.rs:97-116 | invalid text is reported before the id is looked up, with no change; an unknown id gives `TodoNotFound`; otherwise the todo becomes what `LegacyEditFields` leaves and its error is returned |
| LegacyManager.LegacyTodoManager.ToggleTodo | todo/manager.rs:125-129 | exactly the found todo's status flips, or `TodoNotFound` with no change |
| LegacyManager.LegacyTodoManager.DeleteTodo | todo/manager.rs:131-140 | the list becomes `LegacyRemoveId` of it; success exactly when the id was present; otherwise `TodoNotFound(id)` with no change |
| LegacyManager.LegacyTodoManager.ClearAll | todo/manager.rs:142-146 | the old length is returned and the list is empty |
| MainProgram.AddDue | src/main.rs:148-164 | no argument or the empty string gives no date; anything else, blank included, is accepted exactly when the one format parses it as given; failure is `DateUnparsed` |
| MainProgram.AddPriority | src/main.rs:165-171 | no argument gives none; a given one is accepted exactly when its lower-case form is one of the three names; otherwise `PriorityUnknown` |
| MainProgram.AddItem | src/main.rs:143-178 | a built todo has the given id and the text exactly as given, untrimmed, and is pending |
| MainProgram.AddItemSpec | src/main.rs:143-178 | a todo is built exactly when the text is not all whitespace and the due date and priority parse; the checks fail in that order |
| MainProgram.BlankDueIsParsed | src/main.rs:148-164 | a due date of spaces goes to the parser and can make `add` exit, where the oldest manager treats it as no date |
| MainProgram.ListAscending | src/main.rs:214 | `asc \|\| (!asc && !desc)` is ascending exactly when `asc \|\| !desc` |
| MainProgram.SortChoice | src/main.rs:215-246 | exactly "due", "priority" and "due+priority" are accepted, case-sensitively, each naming its key |
| MainProgram.SortChoiceIsCaseSensitive | src/main.rs:216 | "Due" is rejected here, though `SortBy::from_str` accepts it |
| MainProgram.ListComparatorIsTotalPreorder | src/main.rs:217-241 | each of the six closures is antisymmetric with a transitive "not greater" |
| MainProgram.ListResult | src/main.rs:213-247 | no `--sort-by` leaves the list as it is; an unknown value exits with `SortByUnknown` and is the only failure |
| MainProgram.ListResultSpec | src/main.rs:216-241 | a sorted list is a permutation of the todos, ordered by the closure, with ties in their old order |
| MainProgram.ListByDueAscending | src/main.rs:217-219 | sorting by due ascending puts undated todos first, then earliest first |
| MainProgram.AddKeepsIdsUnique | src/main.rs:147 | the new id is above every present id, so unique ids stay unique |
| MainProgram.DeletedLargestIdIsReused | src/main.rs:147 | after the todo with the largest id is deleted, the next add gets an id no larger than it |
| MainProgram.SingleIdReused | src/main.rs:147 | deleting the only todo, id 1, and adding again gives id 1 again |
| MainProgram.FlipStatusAt | src/main.rs:189-193 | exactly the one todo changes, and only in its status |
| MainProgram.FlipStatusTwice | src/main.rs:189-193 | toggling the same todo twice restores the list |
| MainProgram.TodoList.constructor | src/main.rs:135 | the list is the loaded one |
| MainProgram.TodoList.SearchById | src/main.rs:285-295 | the loop finds the first todo with the id, or exits with `IdNotFound(id)` |
| MainProgram.TodoList.Add | src/main.rs:138-181 | the todo built under the largest id plus one is appended, or the list is unchanged with the exit; unique ids stay unique |
| MainProgram.TodoList.Edit | src/main.rs:183-187 | the found todo's text becomes the argument as given, with no check; an unknown id exits with no change |
| MainProgram.TodoList.Toggle | src/main.rs:189-193 | exactly the found todo's status flips; an unknown id exits with no change |
| MainProgram.TodoList.Delete | src/main.rs:195-205 | success exactly when the id is present, and then every todo with it is removed; otherwise the exit with no change |
| MainProgram.TodoList.ClearList | src/main.rs:207-211 | the old count is returned and the list is empty |
| MainProgram.TodoList.List | src/main.rs:213-250 | the list becomes what `ListResult` gives and is what is shown; on the exit it is unchanged |

## Left out

- **File I/O.** These are not modelled: `load_todos`, `save`, `load_todo_list`, `save_todo_list`,
  and serde JSON. They are I/O through a foreign library. Each manager starts from a list of
  loaded todos. `save` is taken to succeed, so its failure after an in-memory change is not
  modelled.
- **Printing.** Every `println!`/`eprintln!`, `display_todos`, `display_todos_simple` and
  src/display/table.rs are presentation only. So are the emoji `Display` text of `Priority` and
  chrono's `format` output.
- **Command-line parsing.** clap and its `group`/`conflicts_with` constraints
  (src/cli/commands.rs, src/main.rs:11-48) are left to the caller. `ListQuery` carries its flags
  unconstrained.
- **chrono.** `NaiveDateTime::parse_from_str` and `NaiveDate::parse_from_str` are parameters (a
  foreign library). `Local::now()` is a `now` parameter. Each filter predicate of src/todo/filters.rs (lines 75, 83, 91 and 97) reads the clock again, so one query that straddles midnight could compare against two different days; the model evaluates every filter against the same `now`. The range panics of `and_hms_opt` and of
  date arithmetic are not modelled. Seconds are not kept: the oldest revision's `%S` formats parse
  to whole minutes.
- **Integer widths.** Ids are `int`. The `u32`/`i32` types and the overflow of `next_id + 1` are
  not modelled. `due_within` is an unbounded `int`. `parse::<i64>` keeps its range check.
- **`to_lowercase`.** It is modelled for ASCII letters only. Unicode case mapping is a foreign
  table.
- **src/main.rs `format_due_date`.** It compares full timestamps with the system clock and only
  builds display text.
- **Dispatch arms.** Only the `List` arm of the `handle_commands` dispatch in src/cli/handlers.rs
  is modelled, as `Handlers.HandleList`. The Add and Edit arms destructure fields that
  src/cli/commands.rs does not declare, and they call `add_todo`/`edit_todo` with 3-4 arguments
  where those take 5-6. The other arms only forward to the manager methods, which are modelled.
- **cli/handlers.rs.** It is dispatch glue around `get_filtered_todos`, which is not part of this
  model.
- **Error messages.** The message texts of src/todo/error.rs and todo/error.rs are not modelled;
  the variants and their payloads are. The I/O and serialization variants of
  src/todo/error.rs are omitted.
- **`validate_id`.** src/todo/manager.rs:127 calls it, but it is not part of this model. It is
  taken to accept every id.
- **`parse_relative_date`.** Its `TodoResult<Option<_>>` is modelled as `Option`, because it never
  returns `Err`.
- **todo/item.rs.** It is not part of this model. Its `Priority` parser is taken to be the one of
  src/todo/item.rs.
- **The created and updated timestamps of `TodoItem`.** They are set from the clock by setters
  that are not part of this model.
- **Merge sort.** `sort_by` is Rust's stable merge sort, and the model sorts by stable insertion.
  The model's result is proved sorted, stable and a permutation, which is what `sort_by`
  promises. The comparison count and the allocation are not modelled.
- **The `EditTodo` methods.** They apply `EditFields` or `LegacyEditFields` to the found todo in
  one assignment, where the source calls the setters one by one through a `&mut`. The resulting
  state, including the fields written before a failure, is the same.
- **Aliasing.** `find_todo_mut` and `search_by_id` return a `&mut` into the vector. The model
  returns the index instead.
