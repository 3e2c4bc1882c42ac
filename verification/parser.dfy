/** How the current binding's `Parser` decodes the outcome of its six
    loaders (`load_yaml_hierarchy`, `load_yaml`, `load_yaml_from_string`,
    `load_keyfile`, `load_nullable_fields`, `load_nullable_overrides`).
    All six share one convention: a failure is reported only when the
    library returned 0, set an error object, and that object decodes into a
    domain error. The decoder and the domain mapping are not part of this
    model, so the decoding is generic in the resulting error type `E`. */
module NetplanParser {
  import opened Common

  /** The error out-parameter after a load: `None` for a null pointer,
      `Some(None)` when `try_from_raw_error` could not decode the object,
      `Some(Some(e))` when it decoded it and
      `NetplanErrorDomains::from_libnetplan_error` turned the decoded error
      into `e`. */
  type RawError<E> = Option<Option<E>>

  /** The outcome of any of the six loaders. */
  function LoadOutcome<E>(ret: int, err: RawError<E>): (r: Result<(), E>)
    ensures r.Err? <==> ret == 0 && err.Some? && err.value.Some?
    ensures r.Err? ==> r.error == err.value.value
  {
    if ret == 0 && err.Some? then
      match err.value
      case Some(e) => Err(e)
      case None => Ok(())
    else
      Ok(())
  }

  /** A non-zero return is success whatever the error pointer holds. */
  lemma NonZeroReturnSucceeds<E>(ret: int, err: RawError<E>)
    requires ret != 0
    ensures LoadOutcome(ret, err) == Ok(())
  {
  }

  /** A 0 return whose error object does not decode is success too: the
      failure is dropped. */
  lemma UndecodableErrorFallsThrough<E>(err: RawError<E>)
    requires err == Some(None)
    ensures LoadOutcome(0, err) == Ok(())
  {
  }
}
