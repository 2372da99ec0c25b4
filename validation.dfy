/** `validate_text` (src/utils/validation.rs): trim, reject empty, bound the length in bytes. */
module Validation {
  import opened Results
  import opened Text
  import opened Item

  /**
   * The trimmed text, or `EmptyTodo` when nothing but whitespace is left, or `TodoTooLong` with
   * the trimmed byte length when that exceeds `len`.
   */
  function ValidateText(text: string, len: nat): (r: Result<string, TodoError>)
    ensures r.Ok? <==> !AllWhitespace(text) && Utf8Len(Trim(text)) <= len
    ensures r.Ok? ==> r.value == Trim(text) && r.value != [] && IsTrimmed(r.value)
    ensures AllWhitespace(text) ==> r == Err(EmptyTodo)
    ensures !AllWhitespace(text) && Utf8Len(Trim(text)) > len ==>
      r == Err(TodoTooLong(Utf8Len(Trim(text)), len))
  {
    var trimmed := Trim(text);
    if trimmed == [] then Err(EmptyTodo)
    else if Utf8Len(trimmed) > len then Err(TodoTooLong(Utf8Len(trimmed), len))
    else Ok(trimmed)
  }

  /** Validating an accepted text again accepts it unchanged. */
  lemma ValidateTextIdempotent(text: string, len: nat)
    requires ValidateText(text, len).Ok?
    ensures ValidateText(ValidateText(text, len).value, len) == ValidateText(text, len)
  {
    TrimIdempotent(text);
  }

  /** Leading and trailing whitespace neither counts toward the bound nor reaches the result. */
  lemma ValidateTextIgnoresPadding(pre: string, text: string, post: string, len: nat)
    requires AllWhitespace(pre) && AllWhitespace(post)
    ensures ValidateText(pre + text + post, len) == ValidateText(text, len)
  {
    TrimIgnoresPadding(pre, text, post);
  }

  /** A text of exactly `len` bytes is accepted; the bound is inclusive. */
  lemma ValidateTextBoundIsInclusive(text: string, len: nat)
    requires IsTrimmed(text) && text != [] && Utf8Len(text) == len
    ensures ValidateText(text, len) == Ok(text)
  {
    TrimOfTrimmed(text);
  }
}
