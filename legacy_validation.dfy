/**
 * The oldest revision's error type (todo/error.rs) and its text check (utils/validation.rs, with
 * the same body as the private `validate_todo_text` of todo/manager.rs).
 */
module LegacyValidation {
  import opened Results
  import opened Text

  /** todo/error.rs: only `TodoNotFound` and `FileError` carry a payload. */
  datatype LegacyError =
    | InvalidDateFormat
    | InvalidPriority
    | TodoNotFound(id: int)
    | FileError(message: string)
    | EmptyTodo
    | SerializationError
    | InvalidSortField
    | TodoTooLong

  /** `MAX_TODO_LENGTH` of todo/config.rs, in bytes. */
  const MaxTodoLength: nat := 500

  function ValidateTodoText(text: string): (r: Result<string, LegacyError>)
    ensures r.Ok? <==> !AllWhitespace(text) && Utf8Len(Trim(text)) <= MaxTodoLength
    ensures r.Ok? ==> r.value == Trim(text) && r.value != [] && IsTrimmed(r.value)
    ensures AllWhitespace(text) ==> r == Err(EmptyTodo)
    ensures !AllWhitespace(text) && Utf8Len(Trim(text)) > MaxTodoLength ==> r == Err(TodoTooLong)
  {
    var trimmed := Trim(text);
    if trimmed == [] then Err(EmptyTodo)
    else if Utf8Len(trimmed) > MaxTodoLength then Err(TodoTooLong)
    else Ok(trimmed)
  }

  lemma ValidateTodoTextIdempotent(text: string)
    requires ValidateTodoText(text).Ok?
    ensures ValidateTodoText(ValidateTodoText(text).value) == ValidateTodoText(text)
  {
    TrimIdempotent(text);
  }

  /** 500 ASCII characters pass, 501 do not. */
  lemma ValidateTodoTextAsciiBound(text: string)
    requires IsAscii(text) && IsTrimmed(text) && text != []
    ensures ValidateTodoText(text).Ok? <==> |text| <= MaxTodoLength
  {
    TrimOfTrimmed(text);
    Utf8LenAscii(text);
  }
}
