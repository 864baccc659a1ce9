/**
 * The two small decisions `main` takes before searching: the default context
 * radius when none is given, and the fallback that turns an unreadable input
 * file into the text of its own path.
 */
module Options {

  datatype Option<T> = None | Some(value: T)

  /** The 32-bit signed integer type of the `ctx_count` option. */
  newtype i32 = x: int | -0x8000_0000 <= x < 0x8000_0000

  /** The text the file reader yields when the input file cannot be read. */
  const ReadErrorSentinel: string := "error_reading_file"

  /** The context radius: the given count, or 0 when the option is absent. */
  function ContextCount(ctxCount: Option<i32>): (c: i32)
    ensures ctxCount.None? ==> c == 0
    ensures ctxCount.Some? ==> c == ctxCount.value
  {
    match ctxCount
    case Some(count) => count
    case None => 0
  }

  /**
   * The text that is searched, given the text obtained from the input source
   * and the optional input argument: the sentinel is replaced by the argument
   * (or by the empty text when there is none); anything else is kept.
   */
  function ResolveInput(obtained: string, input: Option<string>): (text: string)
    ensures obtained != ReadErrorSentinel ==> text == obtained
    ensures obtained == ReadErrorSentinel && input.Some? ==> text == input.value
    ensures obtained == ReadErrorSentinel && input.None? ==> text == ""
    // the sentinel survives only when the argument is itself the sentinel text
    ensures text == ReadErrorSentinel <==> obtained == ReadErrorSentinel && input == Some(ReadErrorSentinel)
  {
    if obtained == ReadErrorSentinel then
      match input
      case Some(path) => path
      case None => ""
    else
      obtained
  }

  /** Resolving a second time changes nothing. */
  lemma ResolveInputIdempotent(obtained: string, input: Option<string>)
    ensures ResolveInput(ResolveInput(obtained, input), input) == ResolveInput(obtained, input)
  {
  }
}
