/** `netplan_create_yaml_patch`: the binding turns a dotted configuration
    path into the tab-separated form the library expects, passes the
    payload through, and reads back the YAML patch the library produced.
    The library call is an oracle from the request to its return code and
    output text. */
module YamlPatch {
  import opened Common
  import DottedPath
  import NetplanState

  const CreateFailed: string := "create_yaml_patch failed"

  /** What the binding hands to the library. */
  datatype PatchRequest = PatchRequest(path: string, payload: string)

  /** What the library returns, and the text it wrote to the output file. */
  datatype PatchReply = PatchReply(ret: int, output: string)

  type PatchFn = PatchRequest -> PatchReply

  /** The request for a dotted path and a payload. Both must be free of
      NUL, or building the C strings panics. The path is the input with
      every dot turned into a tab and nothing added, so its components are
      the dotted ones, verbatim; the payload is unchanged. */
  function RequestFor(confPath: string, payload: string): (q: PatchRequest)
    requires '\0' !in confPath && '\0' !in payload
    ensures q.path == DottedPath.Replace(confPath, '.', '\t')
    ensures '\t' !in confPath ==> DottedPath.Split(q.path, '\t') == DottedPath.Split(confPath, '.')
    ensures q.payload == payload
  {
    DottedPath.JoinSplitIsReplace(confPath, '.', '\t');
    var q := PatchRequest(DottedPath.Join(DottedPath.Split(confPath, '.'), '\t'), payload);
    assert '\t' !in confPath ==> DottedPath.Split(q.path, '\t') == DottedPath.Split(confPath, '.') by {
      if '\t' !in confPath {
        DottedPath.ResplitWithGlue(confPath, '.', '\t');
      }
    }
    q
  }

  /** `netplan_create_yaml_patch`: an error with a fixed message exactly when
      the library returned 0, otherwise the text it produced. */
  function CreateYamlPatch(confPath: string, payload: string, lib: PatchFn): (r: Result<string, string>)
    requires '\0' !in confPath && '\0' !in payload
    ensures r.Err? <==> lib(RequestFor(confPath, payload)).ret == 0
    ensures r.Err? ==> r.error == CreateFailed
    ensures r.Ok? ==> r.value == lib(RequestFor(confPath, payload)).output
  {
    var reply := lib(RequestFor(confPath, payload));
    if reply.ret == 0 then Err(CreateFailed) else Ok(reply.output)
  }

  /** Unlike a subtree dump, patch construction adds no `network` component:
      the two paths agree when the input already starts with it, and
      otherwise the subtree path is the patch path behind `network`. */
  lemma PatchPathVersusSubtreePath(confPath: string)
    requires '\0' !in confPath
    ensures var patch := RequestFor(confPath, "").path;
            if DottedPath.Split(confPath, '.')[0] == NetplanState.Root
            then NetplanState.SubtreePath(confPath) == patch
            else NetplanState.SubtreePath(confPath) == NetplanState.Root + "\t" + patch
  {
  }

  // ---------------------------------------------------------------------
  // The shape of a patch document

  function Spaces(n: nat): (s: string)
    ensures |s| == n && forall i :: 0 <= i < n ==> s[i] == ' '
  {
    seq(n, _ => ' ')
  }

  /** The lines of a patch document for `components` starting at nesting
      `depth`: one mapping level per component, two more spaces of
      indentation per level, and the payload as the value of the last key. */
  function NestedLines(components: seq<string>, payload: string, depth: nat): (lines: seq<string>)
    requires |components| >= 1
    ensures |lines| == |components|
    ensures forall i :: 0 <= i < |lines| ==>
              lines[i] == Spaces(2 * (depth + i)) + components[i] + ":"
                          + (if i == |lines| - 1 then " " + payload else "")
    decreases |components|
  {
    if |components| == 1 then [Spaces(2 * depth) + components[0] + ": " + payload]
    else [Spaces(2 * depth) + components[0] + ":"] + NestedLines(components[1..], payload, depth + 1)
  }

  /** Lines joined into a text, each ended by a newline. */
  function Unlines(lines: seq<string>): string
  {
    if |lines| == 0 then "" else lines[0] + "\n" + Unlines(lines[1..])
  }

  /** The library renders the request as the nested document. */
  predicate RendersNested(lib: PatchFn, q: PatchRequest)
  {
    var components := DottedPath.Split(q.path, '\t');
    lib(q).ret != 0 && lib(q).output == Unlines(NestedLines(components, q.payload, 0))
  }

  /** The library renders every request as the nested document. */
  ghost predicate AlwaysRendersNested(lib: PatchFn)
  {
    forall q :: RendersNested(lib, q)
  }

  /** When the library renders the nested document, a patch for a dotted
      path nests one mapping level per dotted key, verbatim and in order,
      with the payload as the leaf. */
  lemma PatchNestsDottedKeys(lib: PatchFn, confPath: string, payload: string, keys: seq<string>)
    requires '\0' !in confPath && '\0' !in payload && '\t' !in confPath
    requires DottedPath.Split(confPath, '.') == keys
    requires RendersNested(lib, RequestFor(confPath, payload))
    ensures CreateYamlPatch(confPath, payload, lib) == Ok(Unlines(NestedLines(keys, payload, 0)))
  {
  }
}
