/** The binding's error type and the convention every library call that
    reports failure through a return code and an optional error object
    follows: a return of 0 together with a non-null error object is a
    failure carrying the object's message, or a fixed fallback message when
    the message cannot be retrieved; everything else is success. */
module Errors {
  import opened Common
  import Retrieval

  datatype LibNetplanError =
    | NetplanParserError
    | NetplanValidationError(message: Bytes)
    | NetplanFileError(message: Bytes)

  type NetplanResult<T> = Result<T, LibNetplanError>

  /** The error out-parameter after a library call: `None` for a null
      pointer, otherwise the error object, given by the copy call through
      which `error_get_message` reads its message. */
  type ErrorSlot = Option<Retrieval.CopyFn>

  /** Which error variant a call site reports failures with. */
  datatype ErrorClass = Validation | File

  function Classify(cls: ErrorClass, message: Bytes): (e: LibNetplanError)
    ensures !e.NetplanParserError? && e.message == message
    ensures e.NetplanValidationError? <==> cls == Validation
  {
    match cls
    case Validation => NetplanValidationError(message)
    case File => NetplanFileError(message)
  }

  /** The call does not panic: when the message is read (a 0 return with an
      error object), its buffer holds a NUL, so the `unwrap` on
      `from_bytes_until_nul` inside `error_get_message` succeeds. */
  predicate MessageReadable(ret: int, err: ErrorSlot)
  {
    ret == 0 && err.Some? ==> !Retrieval.Outcome(err.value).Unterminated?
  }

  /** The message a failure carries: the retrieved one verbatim, or the
      call site's fallback when retrieval failed. */
  function MessageOr(retrieved: Result<Bytes, string>, fallback: Bytes): Bytes
  {
    if retrieved.Ok? then retrieved.value else fallback
  }

  /** The ret/error convention. Only a 0 return with an error object fails;
      a 0 return with a null error object is success. A failure's message is
      the one retrieved from the error object, free of NUL and shorter than
      the retrieval cap, or the fallback when retrieval failed. */
  function DecodeRetError(ret: int, err: ErrorSlot, cls: ErrorClass, fallback: Bytes): (r: NetplanResult<()>)
    requires MessageReadable(ret, err)
    ensures r.Err? <==> ret == 0 && err.Some?
    ensures r.Err? ==> !r.error.NetplanParserError?
    ensures r.Err? ==> (r.error.NetplanValidationError? <==> cls == Validation)
    ensures r.Err? && Retrieval.Outcome(err.value).Copied? ==> r.error.message == Retrieval.Outcome(err.value).data
    ensures r.Err? && Retrieval.Outcome(err.value).Failed? ==> r.error.message == fallback
    ensures r.Err? && Retrieval.Outcome(err.value).Copied? ==>
              NUL !in r.error.message && |r.error.message| < Retrieval.MaxSize
  {
    if ret == 0 && err.Some? then
      Err(Classify(cls, MessageOr(Retrieval.AsResult(Retrieval.Outcome(err.value)), fallback)))
    else
      Ok(())
  }
}
