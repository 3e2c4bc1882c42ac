# libnetplan-rs binding core, modelled in Dafny

This project models the Rust binding over the C netplan library. It covers
two snapshots: the current `src/` crate and the older `libnetplan/` crate.
Parsing, merging, validation and YAML emission all happen inside the C
library. The Rust side holds only a few small decisions, and those are
modelled here:

- **Dotted-path normalisation** (`DottedPath`, `NetplanState`, `YamlPatch`).
  A configuration path such as `ethernets.eth0` is split on `.` with Rust's
  `str::split` semantics, where empty pieces are kept. It is then joined with
  tabs. A subtree dump puts `network` in front unless the path already
  starts with it. Patch construction adds nothing.
- **Bounded buffer-growth retrieval** (`Retrieval`). This is the loop behind
  `netdef_get_id` and `error_get_message`. It starts with a zero-filled
  128-byte buffer and doubles it only when the copy call answers -2. It
  fails on 0 with `copied is zero`, and fails with `data is too big` once
  the size would pass 1048576. Any other answer yields the bytes before the
  first NUL. The C copy call is an oracle from the buffer size to a status
  and the bytes written.
- **Return-code/error decoding** (`Errors`, `NetplanState`, `NetplanParser`,
  `LegacyBinding`, `YamlPatch`). Each library call's `(ret, error pointer,
  message retrieval)` outcome becomes `Ok` or a typed `LibNetplanError`.
  The fallback messages are the ones the source uses.
- **Device kinds** (`Netdefs`). Library type codes map totally onto the
  13-variant `NetdefType`, with `None` as the catch-all. `from_raw_netdef`
  combines the retrieved id with that kind.
- **The lazy netdef iterator** of both snapshots. The cursor is created on
  the first `next` and reused after that.

Messages and ids are byte sequences (`Common.Bytes`), exactly as they are
read out of the C buffer. The fallback literals are their ASCII bytes.
An error object is represented by the copy call through which
`error_get_message` reads its message, so every decoded message goes
through the same retrieval protocol as a netdef id. A retrieved message is
therefore free of NUL and shorter than 1048576 bytes.

The binding has three kinds of panic. The first two are preconditions
here, and the third is a precondition for subtree dump and patch
construction only:
- `CStr::from_bytes_until_nul(..).unwrap()` panics when the buffer holds no
  NUL. That is the third retrieval outcome, `Unterminated`. The decoders
  that read an error message require that this outcome does not happen
  (`Errors.MessageReadable`).
- The `expect`/`unwrap` on a failed id retrieval in `from_raw_netdef` and
  in the older iterator becomes the precondition that the retrieval ends
  with bytes.
- `CString::new(..).unwrap()` panics on an interior NUL. The two functions
  that build a C string from the path they transform (subtree dump and
  patch construction) require NUL-free input. The loaders and writers
  take the library's return code instead of their file names, so for
  them this panic is not modelled; see "## Left out".

Panics and ignored results of memory-file handling (`netplan_memfd_create`,
`write`, `flush`, `rewind`, `read_to_string`) are not modelled either; see
"## Left out".

Two behaviours of the source that the model follows:
- The retry loops print `copied is zero` to standard output before
  returning the error. The model drops the print.
- The current parser's six loaders drop a failure whose error object
  `try_from_raw_error` cannot decode, and report `Ok`. The older hierarchy
  loader never does this. `LegacyBinding.OlderLoaderNeverDropsFailures`
  states the difference.

## Model

| member | source | states |
|---|---|---|
| DottedPath.Split | src/state.rs:81 | the pieces number one more than the separators, contain no separator, and use only characters of the input |
| DottedPath.JoinSplitIsReplace | src/utils.rs:14 | splitting on `.` and joining with a tab is the same as replacing every `.` by a tab, character for character |
| DottedPath.JoinSplit | src/utils.rs:14 | joining the split pieces with the same separator gives back the input |
| DottedPath.SplitJoin | src/state.rs:85 | splitting a join gives back the components when none contains the separator |
| DottedPath.SplitAfterHead | src/state.rs:81 | a separator-free head followed by a separator is a component of its own, in front of the tail's components |
| DottedPath.ResplitWithGlue | src/utils.rs:14 | re-splitting the tab path on tabs gives the dotted components back unchanged, provided the input holds no tab |
| DottedPath.SplitWithoutSeparator | src/state.rs:81 | a path without a dot is a single component |
| Retrieval.Retrieve | src/libnetplan.rs:21-47 | at most 14 copy calls, none on a buffer above 1048576 bytes; every call but the last answered -2 on a buffer twice the previous size, starting at 128; a last -2 happens only on the 14th call and fails with `data is too big`; otherwise the last answer settles the result; the loop agrees with the recursive reference `Fetch`; the older snapshot's loop (libnetplan/src/libnetplan.rs lines 107-131) is the same protocol |
| Retrieval.Fetch | src/libnetplan.rs:29-46 | retrieved bytes hold no NUL and are shorter than 1048576; a failure reason is one of the two error strings |
| Retrieval.SizeAtWithinCap | src/libnetplan.rs:34-39 | the buffer of attempt k is within 1048576 bytes exactly when k < 14 |
| Retrieval.DoublingPastCap | src/libnetplan.rs:35-38 | doubling passes the cap only on the 14th attempt |
| Retrieval.SizeAtMonotone | src/libnetplan.rs:35 | later attempts never use smaller buffers |
| Retrieval.UntilNul | src/libnetplan.rs:43 | bytes are returned exactly when the buffer holds a NUL, and they are the buffer's prefix before its first NUL; with no NUL the outcome is the panic case |
| Retrieval.Buffer | src/libnetplan.rs:24-26 | the buffer has the offered size, with the library's bytes at the front and zeros behind |
| Retrieval.NetdefGetId | src/libnetplan.rs:21-48 | the id retrieval is the shared protocol, with NUL-free bytes shorter than 1048576 |
| Retrieval.ErrorGetMessage | src/libnetplan.rs:70-97 | the message retrieval is the identical protocol, with the same guarantees, as is the older snapshot's (libnetplan/src/libnetplan.rs lines 134-159) |
| Retrieval.AsResult | src/libnetplan.rs:29-46 | the Rust result is `Ok` exactly for retrieved bytes, carrying them, and otherwise `Err` with the loop's reason |
| Netdefs.NetdefGetType | src/libnetplan.rs:50-67 | the kind is `None` exactly when the code is none of the twelve known codes; the mapping is total |
| Netdefs.FirstMatchingArmDecides | src/libnetplan.rs:53-65 | the first arm whose code matches decides the kind |
| Netdefs.KnownKindsAreTheOthers | src/netdef.rs:5-19 | the twelve matched kinds are exactly the variants other than `None`, each listed once |
| Netdefs.KnownCodeMapsToItsKind | src/libnetplan.rs:54-65 | with distinct codes, each known code maps to its own kind |
| Netdefs.NetdefGetTypeInjective | src/libnetplan.rs:54-65 | with distinct codes, two codes of one known kind are the same code, so no library kinds are conflated |
| Netdefs.CodeOfRoundTrip | src/libnetplan.rs:54-66 | a known kind's code maps back to that kind, and a known code is the code of the kind it maps to |
| Netdefs.FromRawNetdef | src/netdef.rs:27-35 | the id is the retrieved bytes, NUL-free and shorter than 1048576; the kind is what `netdef_get_type` gives for the type code, `None` exactly for an unknown code |
| Errors.Classify | src/libnetplan.rs:13-17 | the error carries the message, and it is a validation error exactly for the validation class, never a parser error |
| Errors.DecodeRetError | src/state.rs:44-56 | failure exactly when the library returned 0 and set an error object; the error is never a parser error and is a validation error exactly for the validation class; its message is the one `error_get_message` retrieved, NUL-free and shorter than 1048576, or the fallback when retrieval failed |
| NetplanState.Prefixed | src/state.rs:82-84 | the result starts with `network`; it equals the input exactly when the input already did; otherwise exactly one `network` is put in front |
| NetplanState.SubtreeComponents | src/state.rs:81-84 | the component list is never empty and always starts with `network` |
| NetplanState.SubtreePath | src/state.rs:81-85 | the library path is the input with dots turned into tabs, behind `network` and a tab unless the first dotted component already is `network`; the older snapshot (libnetplan/src/state.rs lines 97-101) builds the same path |
| NetplanState.PrefixedIdempotent | src/state.rs:82-84 | normalising a normalised component list changes nothing |
| NetplanState.SubtreeRootOptional | src/state.rs:82-84 | a path whose first dotted component is not `network` and the same path behind `network.` give the same library path |
| NetplanState.SubtreeRootDoubles | src/state.rs:82-84 | for a path whose first dotted component already is `network`, writing `network.` in front adds a second `network` component at the library, so the two library paths differ |
| NetplanState.EmptySubtreePath | src/state.rs:81-85 | the empty path becomes `network` followed by a tab |
| NetplanState.SubtreePathComponents | libnetplan/src/state.rs:97-101 | provided the input holds no tab, re-splitting the library path on tabs gives the normalised components, the input's count or one more |
| NetplanState.TabInKeyBecomesExtraKey | src/state.rs:81-85 | a tab is not escaped: a dotted key `a<TAB>b` is a single component of the input, yet reaches the library as the two components `a` and `b` after `network` |
| NetplanState.NoDoublePrefix | libnetplan/src/state.rs:98-100 | two leading `network` components come only from an input that had them |
| NetplanState.ImportParserState | src/state.rs:39-57 | a validation error exactly when the library returned 0 and set an error object, with the retrieved message verbatim or `import parser state error` when retrieval failed; the message is NUL-free and shorter than 1048576 |
| NetplanState.UpdateYamlHierarchy | src/state.rs:112-127 | a file error `update_yaml_hierarchy failed` exactly when the library returned 0 |
| NetplanState.WriteYamlFile | src/state.rs:130-154 | a file error exactly when the library returned 0 and set an error object, with the retrieved message verbatim or `load hierarchy error` when retrieval failed; the message is NUL-free and shorter than 1048576 |
| NetplanState.TryFromParser | src/state.rs:184-193 | a fresh state exactly when the import succeeded, otherwise the import's error unchanged |
| NetplanState.Next | src/state.rs:160-175 | the cursor exists after every call, and an existing one advances by at most one; `None` exactly when the cursor has run out; otherwise the netdef under the cursor, converted by `from_raw_netdef` |
| NetplanState.DrainFrom | src/state.rs:157-176 | calling `next` until `None` from a cursor position yields the remaining netdefs in the cursor's order |
| NetplanState.IterateFreshState | src/state.rs:157-176 | iterating a fresh state yields every netdef once, in the cursor's order, each with its id and kind |
| NetplanParser.LoadOutcome | src/parser.rs:37-159 | for each of the six loaders (lines 45-51, 62-68, 85-91, 101-107, 124-130, 152-158): `Err` exactly when the library returned 0, set an error object, and the object decodes; the error is the one `try_from_raw_error` decoded, as mapped by `NetplanErrorDomains::from_libnetplan_error`, with no further change |
| NetplanParser.NonZeroReturnSucceeds | src/parser.rs:45-51 | a non-zero return is `Ok`, whatever the error pointer holds |
| NetplanParser.UndecodableErrorFallsThrough | src/parser.rs:46-51 | a 0 return whose error object does not decode is `Ok` |
| LegacyBinding.LoadYamlHierarchy | libnetplan/src/parser.rs:28-44 | a file error exactly when the library returned 0 and set an error object, with the retrieved message verbatim or `load hierarchy error` when retrieval failed, NUL-free and shorter than 1048576; every other case is `Ok`; the duplicate in libnetplan/src/libnetplan.rs (lines 37-53) decodes the same way |
| LegacyBinding.ImportParserState | libnetplan/src/state.rs:43-61 | a validation error exactly when the library returned 0 and set an error object, with the retrieved message verbatim or `import parser state error` when retrieval failed, NUL-free and shorter than 1048576; the duplicate in libnetplan/src/libnetplan.rs (lines 75-90) decodes the same way |
| LegacyBinding.ImportUnchangedAcrossSnapshots | libnetplan/src/state.rs:48-60 | the older and the current importer decode every outcome identically |
| LegacyBinding.OlderLoaderNeverDropsFailures | libnetplan/src/parser.rs:33-40 | the older loader reports a failure whose message cannot be retrieved, while a current loader drops a failure whose error object does not decode |
| LegacyBinding.Next | libnetplan/src/state.rs:124-140 | the cursor exists after every call, and an existing one advances by at most one; `None` exactly when it has run out, leaving the cursor at the end; otherwise the cursor advances by one and the netdef's name is the retrieved id, NUL-free; the duplicate in libnetplan/src/libnetplan.rs (lines 164-178) behaves the same |
| LegacyBinding.IteratorsAgree | libnetplan/src/state.rs:124-140 | both snapshots' iterators move the cursor alike and stop alike, and the older name is the newer id |
| YamlPatch.RequestFor | src/utils.rs:14-16 | the library path is the input with every dot replaced by a tab; a tab-free input's components come back verbatim, with no `network` added; the payload is unchanged |
| YamlPatch.CreateYamlPatch | src/utils.rs:11-36 | `Err("create_yaml_patch failed")` exactly when the library returned 0, otherwise the text it produced |
| YamlPatch.PatchPathVersusSubtreePath | src/utils.rs:14 | the patch path equals the subtree path when the input starts with `network`, and is the subtree path without its `network` prefix otherwise |
| YamlPatch.NestedLines | src/utils.rs:47-50 | one line per component, two more spaces of indentation per level, and the payload after the last key |
| YamlPatch.PatchNestsDottedKeys | src/utils.rs:44-50 | when the library renders the nested document, the patch has one mapping level per dotted key, in order, with the payload as the leaf |
| YamlPatchExample.TestPathComponents | src/utils.rs:44 | `network.ethernets.eth0.dhcp4` splits into its four keys |
| YamlPatchExample.PatchDocumentForTestKeys | src/utils.rs:47-50 | when the library renders every request as the nested document, any tab-free path with the test's keys, patched with `false`, gives the test's document |
| YamlPatchExample.TestPatchDocument | src/utils.rs:43-54 | when the library renders every request as the nested document, patching `network.ethernets.eth0.dhcp4` with `false` gives `network:\n  ethernets:\n    eth0:\n      dhcp4: false\n` |

## Left out

- The C library: parsing, merging, validation, null-field deletion, keyfile parsing and YAML emission. Its calls are oracles: `Retrieval.CopyFn` for the copy calls, `YamlPatch.PatchFn` for the patch call, plain return codes for the loaders and writers, and the error object's message-copy call (`Errors.ErrorSlot`) where a message is read.
- `dump_yaml` and the output of `dump_yaml_subtree`. These are memfd creation, writing, seeking and reading of intermediate files. Only the path handed to the library is modelled. The same memory-file handling in `netplan_create_yaml_patch` and in three of the parser's loaders is left out as well; the two lines below on `YamlPatch.CreateYamlPatch` and `NetplanParser.LoadOutcome` say what that omits.
- `Drop` impls, `Parser::new`, `State::new` and raw-pointer lifetimes. These are resource management over FFI. A new state is `NetplanState.NewState`, with no cursor.
- The `println!` in the retry loops, and the lossy UTF-8 conversion of retrieved bytes to `String`. Ids and messages stay byte sequences.
- The `as isize` conversion of the copy call's result. Statuses are unbounded integers, so every value other than 0 and -2 takes the NUL-prefix branch, as it does in the source.
- `LibNetplanError::try_from_raw_error` and `NetplanErrorDomains::from_libnetplan_error` are not part of this model. The current loaders are generic in the error type those two produce, and a decoding failure is the `Some(None)` error slot.
- The numeric values of the library's type codes come from generated bindings. They are the parameter `Netdefs.DefTypeCodes`. Distinctness of the codes is a precondition wherever injectivity is stated.
- The CLI in src/main.rs and commands/src/get.rs. It only parses arguments and prints.
- The test scenarios that depend on the C library (VRF table mismatch, deletion of a netdef, the keyfile uuid error, the canonical dump string). They assert the library's behaviour, not the binding's.
- YamlPatch.PatchNestsDottedKeys: the nested document shape is the library's. It is a precondition (`RendersNested`) about the oracle, not derived from binding code.
- YamlPatchExample.TestPatchDocument: the test's expected text is proved only under the precondition `AlwaysRendersNested`, that the library renders every request as the nested document.
- YamlPatchExample.PatchDocumentForTestKeys: proved under the same precondition about the library.
- Netdefs.FromRawNetdef: `expect` aborts when the id retrieval fails, so the member requires the retrieval to end with bytes rather than modelling the abort.
- LegacyBinding.Next: `unwrap` aborts when the id retrieval fails, so the member requires the retrieval to end with bytes.
- Errors.DecodeRetError: requires `MessageReadable`, so the `unwrap` panic in `error_get_message` on a message buffer without NUL is excluded rather than modelled as an outcome.
- NetplanState.ImportParserState: requires `MessageReadable`; the message-retrieval panic is excluded, as for every decoder that reads an error message.
- NetplanState.WriteYamlFile: requires `MessageReadable`; it takes the library's return code, not the file name and root directory, so the `CString::new(..).unwrap()` panic on a NUL in them is not modelled.
- NetplanState.TryFromParser: requires `MessageReadable`, inherited from the import.
- NetplanState.UpdateYamlHierarchy: takes the library's return code, not the file name and root directory, so the `CString::new(..).unwrap()` panic on a NUL in them is not modelled.
- NetplanParser.LoadOutcome: takes the library's return code, not the loader's file name, YAML text or constraints, so the `CString::new(..).unwrap()` panic on a NUL in them is not modelled. Nor is the `netplan_memfd_create().unwrap()` panic in `load_yaml_from_string`, `load_nullable_fields` and `load_nullable_overrides` (src/parser.rs lines 72, 111, 134), or the results those three ignore from `write`, `flush` and `rewind` (lines 75-77, 114-116, 139-141). A short or failed write would hand the library a truncated document, and the outcome would still follow the return code alone.
- YamlPatch.CreateYamlPatch: the `netplan_memfd_create().unwrap()` panic (src/utils.rs line 12) is not modelled, and neither are the ignored results of `rewind` and `read_to_string` (lines 31, 33). A failed read would still give `Ok` with whatever text was read, and the member returns the library's whole text instead.
- LegacyBinding.LoadYamlHierarchy: requires `MessageReadable`; it takes the library's return code, not the root directory, so the `CString::new(..).unwrap()` panic on a NUL in it is not modelled.
- LegacyBinding.ImportParserState: requires `MessageReadable`; the message-retrieval panic is excluded.
