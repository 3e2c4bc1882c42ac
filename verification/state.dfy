/** The `State` wrapper of the current binding: the path it hands to the
    library for a subtree dump, how it decodes the results of importing
    parser results, updating the YAML hierarchy and writing a YAML file,
    `TryFrom<Parser>`, and its lazily created netdef iterator. */
module NetplanState {
  import opened Common
  import DottedPath
  import Errors
  import Netdefs
  import Retrieval

  /** The root namespace key of a netplan YAML document. */
  const Root: string := "network"

  const ImportFallback: Bytes := Ascii("import parser state error")
  const WriteFallback: Bytes := Ascii("load hierarchy error")
  const UpdateFailed: Bytes := Ascii("update_yaml_hierarchy failed")

  // ---------------------------------------------------------------------
  // Subtree path

  /** The component list with the root namespace put in front unless it is
      already the first component. */
  function Prefixed(parts: seq<string>): (r: seq<string>)
    requires |parts| >= 1
    ensures |r| >= 1 && r[0] == Root
    ensures r == parts <==> parts[0] == Root
    ensures parts[0] != Root ==> r == [Root] + parts
  {
    if parts[0] != Root then [Root] + parts else parts
  }

  /** The dotted subtree path as components rooted at `network`. */
  function SubtreeComponents(subtree: string): (cs: seq<string>)
    ensures |cs| >= 1 && cs[0] == Root
  {
    Prefixed(DottedPath.Split(subtree, '.'))
  }

  /** The tab-separated path `dump_yaml_subtree` hands to the library. The
      input must be free of NUL, or building the C string panics. The result
      is the input with every dot turned into a tab, behind a `network`
      component unless the input's first component already is one. */
  function SubtreePath(subtree: string): (p: string)
    requires '\0' !in subtree
    ensures DottedPath.Split(subtree, '.')[0] == Root ==>
              p == DottedPath.Replace(subtree, '.', '\t')
    ensures DottedPath.Split(subtree, '.')[0] != Root ==>
              p == Root + "\t" + DottedPath.Replace(subtree, '.', '\t')
  {
    var parts := DottedPath.Split(subtree, '.');
    DottedPath.JoinSplitIsReplace(subtree, '.', '\t');
    assert ([Root] + parts)[1..] == parts;
    DottedPath.Join(SubtreeComponents(subtree), '\t')
  }

  /** Normalising an already normalised component list changes nothing. */
  lemma PrefixedIdempotent(parts: seq<string>)
    requires |parts| >= 1
    ensures Prefixed(Prefixed(parts)) == Prefixed(parts)
  {
  }

  /** A path without the root namespace and the same path with it address
      the same subtree. */
  lemma {:induction false} SubtreeRootOptional(subtree: string)
    requires '\0' !in subtree
    requires DottedPath.Split(subtree, '.')[0] != Root
    ensures '\0' !in Root + "." + subtree
    ensures SubtreePath(Root + "." + subtree) == SubtreePath(subtree)
  {
    DottedPath.SplitAfterHead(Root, '.', subtree);
    assert Root + "." + subtree == Root + ['.'] + subtree;
  }

  /** The root namespace is optional only once: for a path that already
      starts with `network`, writing `network.` in front adds a second
      `network` component at the library. */
  lemma {:induction false} SubtreeRootDoubles(subtree: string)
    requires '\0' !in subtree
    requires DottedPath.Split(subtree, '.')[0] == Root
    ensures '\0' !in Root + "." + subtree
    ensures SubtreePath(Root + "." + subtree) == Root + "\t" + SubtreePath(subtree)
    ensures SubtreePath(Root + "." + subtree) != SubtreePath(subtree)
  {
    var parts := DottedPath.Split(subtree, '.');
    DottedPath.SplitAfterHead(Root, '.', subtree);
    assert Root + "." + subtree == Root + ['.'] + subtree;
    var longer := [Root] + parts;
    assert longer[1..] == parts;
    assert DottedPath.Join(longer, '\t') == Root + ['\t'] + DottedPath.Join(parts, '\t');
    assert |SubtreePath(Root + "." + subtree)| > |SubtreePath(subtree)|;
  }

  /** The empty path addresses the root namespace with one empty component. */
  lemma EmptySubtreePath()
    ensures SubtreePath("") == "network\t"
  {
  }

  /** The components reach the library intact: re-splitting the tab path
      gives the normalised components back, one more than the input had or
      the same number. */
  lemma SubtreePathComponents(subtree: string)
    requires '\0' !in subtree && '\t' !in subtree
    ensures DottedPath.Split(SubtreePath(subtree), '\t') == SubtreeComponents(subtree)
    ensures var n := |DottedPath.Split(subtree, '.')|;
            |DottedPath.Split(SubtreePath(subtree), '\t')| == n + (if DottedPath.Split(subtree, '.')[0] == Root then 0 else 1)
  {
    var parts := DottedPath.Split(subtree, '.');
    var cs := SubtreeComponents(subtree);
    assert forall i :: 0 <= i < |cs| ==> '\t' !in cs[i] by {
      forall i | 0 <= i < |cs|
        ensures '\t' !in cs[i]
      {
        if parts[0] != Root && i > 0 {
          assert cs[i] == parts[i - 1];
        }
      }
    }
    DottedPath.SplitJoin(cs, '\t');
  }

  /** A tab is not escaped: a dotted key `a<TAB>b` is one component of the
      input, yet reaches the library as two components after `network`. */
  lemma {:induction false} TabInKeyBecomesExtraKey(a: string, b: string)
    requires '.' !in a && '.' !in b && '\t' !in a && '\t' !in b
    requires '\0' !in a && '\0' !in b
    ensures DottedPath.Split(a + ['\t'] + b, '.') == [a + ['\t'] + b]
    ensures '\0' !in a + ['\t'] + b
    ensures DottedPath.Split(SubtreePath(a + ['\t'] + b), '\t') == [Root, a, b]
  {
    var key := a + ['\t'] + b;
    DottedPath.SplitWithoutSeparator(key, '.');
    assert key[|a|] == '\t' && '\t' !in Root;
    assert DottedPath.Replace(key, '.', '\t') == key by {
      forall i | 0 <= i < |key|
        ensures DottedPath.Replace(key, '.', '\t')[i] == key[i]
      {
        assert key[i] != '.';
      }
    }
    assert SubtreePath(key) == Root + ['\t'] + (a + ['\t'] + b);
    DottedPath.SplitWithoutSeparator(b, '\t');
    DottedPath.SplitAfterHead(a, '\t', b);
    DottedPath.SplitAfterHead(Root, '\t', a + ['\t'] + b);
  }

  /** The root namespace is put in front at most once: a result that starts
      with two `network` components comes from an input that did. */
  lemma NoDoublePrefix(subtree: string)
    ensures var cs := SubtreeComponents(subtree);
            var parts := DottedPath.Split(subtree, '.');
            |cs| >= 2 && cs[1] == Root ==> |parts| >= 2 && parts[0] == Root && parts[1] == Root
  {
  }

  // ---------------------------------------------------------------------
  // Result decoding

  /** `State::import_parser_state`: a validation error exactly when the
      library returned 0 and set an error object. Its message is the one
      retrieved from the object, or the fallback when retrieval failed;
      either way it holds no NUL and is shorter than the retrieval cap. */
  function ImportParserState(ret: int, err: Errors.ErrorSlot): (r: Errors.NetplanResult<()>)
    requires Errors.MessageReadable(ret, err)
    ensures r.Err? <==> ret == 0 && err.Some?
    ensures r.Err? ==> r.error.NetplanValidationError?
    ensures r.Err? && Retrieval.Outcome(err.value).Copied? ==> r.error.message == Retrieval.Outcome(err.value).data
    ensures r.Err? && Retrieval.Outcome(err.value).Failed? ==> r.error.message == ImportFallback
    ensures r.Err? ==> NUL !in r.error.message && |r.error.message| < Retrieval.MaxSize
  {
    Errors.DecodeRetError(ret, err, Errors.Validation, ImportFallback)
  }

  /** `State::update_yaml_hierarchy`: a file error with a fixed message
      exactly when the library returned 0. */
  function UpdateYamlHierarchy(ret: int): (r: Errors.NetplanResult<()>)
    ensures r.Err? <==> ret == 0
    ensures r.Err? ==> r.error == Errors.NetplanFileError(UpdateFailed)
  {
    if ret == 0 then Err(Errors.NetplanFileError(UpdateFailed)) else Ok(())
  }

  /** `State::write_yaml_file`: the ret/error convention with file errors. */
  function WriteYamlFile(ret: int, err: Errors.ErrorSlot): (r: Errors.NetplanResult<()>)
    requires Errors.MessageReadable(ret, err)
    ensures r.Err? <==> ret == 0 && err.Some?
    ensures r.Err? ==> r.error.NetplanFileError?
    ensures r.Err? && Retrieval.Outcome(err.value).Copied? ==> r.error.message == Retrieval.Outcome(err.value).data
    ensures r.Err? && Retrieval.Outcome(err.value).Failed? ==> r.error.message == WriteFallback
    ensures r.Err? ==> NUL !in r.error.message && |r.error.message| < Retrieval.MaxSize
  {
    Errors.DecodeRetError(ret, err, Errors.File, WriteFallback)
  }

  // ---------------------------------------------------------------------
  // The state and its iterator

  /** A state handle. `iter` is the library's per-type netdef cursor: `None`
      while no cursor has been created, otherwise the position it has
      reached in the sequence of netdefs it walks. */
  datatype State = State(iter: Option<nat>)

  /** A freshly created state, with no cursor yet. */
  const NewState: State := State(None)

  /** `TryFrom<Parser> for State`: a new state when importing succeeded,
      otherwise the import error unchanged. */
  function TryFromParser(ret: int, err: Errors.ErrorSlot): (r: Errors.NetplanResult<State>)
    requires Errors.MessageReadable(ret, err)
    ensures r.Ok? <==> ImportParserState(ret, err).Ok?
    ensures r.Ok? ==> r.value == NewState
    ensures r.Err? ==> r.error == ImportParserState(ret, err).error
  {
    match ImportParserState(ret, err)
    case Ok(_) => Ok(NewState)
    case Err(e) => Err(e)
  }

  /** Where the cursor stands; a cursor about to be created starts at 0. */
  function Position(s: State): nat
  {
    if s.iter.Some? then s.iter.value else 0
  }

  /** `next` can run on `s`: the cursor has not run past the netdefs, and the
      netdef it would yield has a retrievable id (otherwise
      `from_raw_netdef` aborts). */
  predicate CanStep(s: State, netdefs: seq<Netdefs.RawNetdef>)
  {
    && Position(s) <= |netdefs|
    && (Position(s) < |netdefs| ==> Netdefs.IdRetrievable(netdefs[Position(s)]))
  }

  /** `Iterator::next`: creates the cursor on the first call only, then asks
      it for the next netdef; `None` when it has none left. */
  function Next(s: State, netdefs: seq<Netdefs.RawNetdef>, codes: Netdefs.DefTypeCodes)
    : (res: (State, Option<Netdefs.Netdef>))
    requires CanStep(s, netdefs)
    ensures res.0.iter.Some?
    ensures s.iter.Some? ==> res.0.iter.value == s.iter.value || res.0.iter.value == s.iter.value + 1
    ensures res.1.None? <==> Position(s) == |netdefs|
    ensures res.1.None? ==> res.0.iter == Some(|netdefs|)
    ensures res.1.Some? ==>
              && res.0.iter == Some(Position(s) + 1)
              && res.1.value == Netdefs.FromRawNetdef(codes, netdefs[Position(s)])
  {
    var pos := Position(s);
    if pos == |netdefs| then (State(Some(pos)), None)
    else (State(Some(pos + 1)), Some(Netdefs.FromRawNetdef(codes, netdefs[pos])))
  }

  predicate AllRetrievable(netdefs: seq<Netdefs.RawNetdef>)
  {
    forall i :: 0 <= i < |netdefs| ==> Netdefs.IdRetrievable(netdefs[i])
  }

  /** What a `for netdef in state` loop sees: `next` until it gives `None`. */
  function Drain(s: State, netdefs: seq<Netdefs.RawNetdef>, codes: Netdefs.DefTypeCodes)
    : seq<Netdefs.Netdef>
    requires AllRetrievable(netdefs)
    requires Position(s) <= |netdefs|
    decreases |netdefs| - Position(s), if s.iter.None? then 1 else 0
  {
    var (s', item) := Next(s, netdefs, codes);
    if item.None? then [] else [item.value] + Drain(s', netdefs, codes)
  }

  /** Draining from cursor position `p` yields the remaining netdefs in the
      cursor's order, each converted by `from_raw_netdef`. */
  lemma {:induction false} DrainFrom(s: State, netdefs: seq<Netdefs.RawNetdef>, codes: Netdefs.DefTypeCodes)
    requires AllRetrievable(netdefs)
    requires Position(s) <= |netdefs|
    ensures var out := Drain(s, netdefs, codes);
            && |out| == |netdefs| - Position(s)
            && forall i :: 0 <= i < |out| ==>
                 out[i] == Netdefs.FromRawNetdef(codes, netdefs[Position(s) + i])
    decreases |netdefs| - Position(s), if s.iter.None? then 1 else 0
  {
    var (s', item) := Next(s, netdefs, codes);
    if item.Some? {
      DrainFrom(s', netdefs, codes);
    }
  }

  /** Iterating a fresh state yields every netdef the library's cursor
      walks, once each and in its order, with its id and kind. */
  lemma IterateFreshState(netdefs: seq<Netdefs.RawNetdef>, codes: Netdefs.DefTypeCodes)
    requires AllRetrievable(netdefs)
    ensures var out := Drain(NewState, netdefs, codes);
            && |out| == |netdefs|
            && forall i :: 0 <= i < |netdefs| ==>
                 out[i] == Netdefs.FromRawNetdef(codes, netdefs[i])
  {
    DrainFrom(NewState, netdefs, codes);
  }
}
