/** The older snapshot of the binding (the `libnetplan` crate): its
    `Parser::load_yaml_hierarchy`, which classes every hierarchy failure as
    a file error with a fallback message, its `State::import_parser_state`,
    and its iterator, which yields netdefs that carry only a name. */
module LegacyBinding {
  import opened Common
  import Errors
  import Netdefs
  import NetplanState
  import NetplanParser
  import Retrieval

  const LoadFallback: Bytes := Ascii("load hierarchy error")

  /** `Parser::load_yaml_hierarchy`: a file error exactly when the library
      returned 0 and set an error object, carrying the retrieved message or
      the fallback. */
  function LoadYamlHierarchy(ret: int, err: Errors.ErrorSlot): (r: Errors.NetplanResult<()>)
    requires Errors.MessageReadable(ret, err)
    ensures r.Err? <==> ret == 0 && err.Some?
    ensures r.Err? ==> r.error.NetplanFileError?
    ensures r.Err? && Retrieval.Outcome(err.value).Copied? ==> r.error.message == Retrieval.Outcome(err.value).data
    ensures r.Err? && Retrieval.Outcome(err.value).Failed? ==> r.error.message == LoadFallback
    ensures r.Err? ==> NUL !in r.error.message && |r.error.message| < Retrieval.MaxSize
  {
    Errors.DecodeRetError(ret, err, Errors.File, LoadFallback)
  }

  /** `State::import_parser_state` of the older snapshot, written out branch
      by branch as the source does. */
  function ImportParserState(ret: int, err: Errors.ErrorSlot): (r: Errors.NetplanResult<()>)
    requires Errors.MessageReadable(ret, err)
    ensures r.Err? <==> ret == 0 && err.Some?
    ensures r.Err? ==> r.error.NetplanValidationError?
    ensures r.Err? && Retrieval.Outcome(err.value).Copied? ==> r.error.message == Retrieval.Outcome(err.value).data
    ensures r.Err? && Retrieval.Outcome(err.value).Failed? ==> r.error.message == NetplanState.ImportFallback
    ensures r.Err? ==> NUL !in r.error.message && |r.error.message| < Retrieval.MaxSize
  {
    if ret == 0 && err.Some? then
      match Retrieval.Outcome(err.value)
      case Copied(message) => Err(Errors.NetplanValidationError(message))
      case Failed(_) => Err(Errors.NetplanValidationError(NetplanState.ImportFallback))
    else
      Ok(())
  }

  /** Both snapshots decode an import identically. */
  lemma ImportUnchangedAcrossSnapshots(ret: int, err: Errors.ErrorSlot)
    requires Errors.MessageReadable(ret, err)
    ensures ImportParserState(ret, err) == NetplanState.ImportParserState(ret, err)
  {
  }

  /** Unlike the current loaders, the older hierarchy loader never drops a
      failure: a 0 return with an error object is an error even when its
      message cannot be retrieved, while a current loader whose error object
      does not decode reports success. */
  lemma OlderLoaderNeverDropsFailures(copyMessage: Retrieval.CopyFn)
    requires Retrieval.Outcome(copyMessage).Failed?
    ensures LoadYamlHierarchy(0, Some(copyMessage)) == Err(Errors.NetplanFileError(LoadFallback))
    ensures NetplanParser.LoadOutcome<Errors.LibNetplanError>(0, Some(None)) == Ok(())
  {
  }

  /** A netdef of the older snapshot: a name only. */
  datatype LegacyNetdef = LegacyNetdef(name: Bytes)

  /** `Iterator::next` of the older snapshot: same lazy cursor, and the
      netdef's name is its retrieved id (`unwrap` aborts otherwise). */
  function Next(s: NetplanState.State, netdefs: seq<Netdefs.RawNetdef>)
    : (res: (NetplanState.State, Option<LegacyNetdef>))
    requires NetplanState.CanStep(s, netdefs)
    ensures res.0.iter.Some?
    ensures s.iter.Some? ==> res.0.iter.value == s.iter.value || res.0.iter.value == s.iter.value + 1
    ensures res.1.None? <==> NetplanState.Position(s) == |netdefs|
    ensures res.1.None? ==> res.0.iter == Some(|netdefs|)
    ensures res.1.Some? ==>
              && res.0.iter == Some(NetplanState.Position(s) + 1)
              && res.1.value.name == Retrieval.Outcome(netdefs[NetplanState.Position(s)].copyId).data
              && NUL !in res.1.value.name
  {
    var pos := NetplanState.Position(s);
    if pos == |netdefs| then (NetplanState.State(Some(pos)), None)
    else
      var raw := netdefs[pos];
      (NetplanState.State(Some(pos + 1)), Some(LegacyNetdef(Retrieval.Outcome(raw.copyId).data)))
  }

  /** The two snapshots' iterators move the cursor alike and stop alike,
      and the older one's name is the newer one's id. */
  lemma IteratorsAgree(s: NetplanState.State, netdefs: seq<Netdefs.RawNetdef>, codes: Netdefs.DefTypeCodes)
    requires NetplanState.CanStep(s, netdefs)
    ensures var (older, item) := Next(s, netdefs);
            var (newer, netdef) := NetplanState.Next(s, netdefs, codes);
            && older == newer
            && item.Some? == netdef.Some?
            && (item.Some? ==> item.value.name == netdef.value.id)
  {
  }
}
