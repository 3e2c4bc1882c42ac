/** Splitting a path on one separator character and joining components
    with another, with the semantics of Rust's `str::split(char)` and
    `[&str]::join`. Subtree dump and patch construction both turn a
    dotted configuration path into a tab-separated one with these. */
module DottedPath {

  /** The pieces of `s` between occurrences of `sep`, like Rust's
      `s.split(sep).collect::<Vec<_>>()`: empty pieces are kept, so
      `"a..b"` gives `["a", "", "b"]` and `""` gives `[""]`. */
  function Split(s: string, sep: char): (parts: seq<string>)
    ensures |parts| == Count(s, sep) + 1
    ensures forall i :: 0 <= i < |parts| ==> sep !in parts[i]
    ensures forall i, c :: 0 <= i < |parts| && c in parts[i] ==> c in s
    decreases |s|
  {
    if |s| == 0 then [""]
    else
      var rest := Split(s[1..], sep);
      assert forall c :: c in s[1..] ==> c in s;
      if s[0] == sep then [""] + rest
      else [[s[0]] + rest[0]] + rest[1..]
  }

  /** Number of occurrences of `c` in `s`. */
  function Count(s: string, c: char): nat
    decreases |s|
  {
    if |s| == 0 then 0
    else (if s[0] == c then 1 else 0) + Count(s[1..], c)
  }

  /** The components of `parts` with `sep` between neighbours, like Rust's
      `parts.join(sep)`. */
  function Join(parts: seq<string>, sep: char): string
    decreases |parts|
  {
    if |parts| == 0 then ""
    else if |parts| == 1 then parts[0]
    else parts[0] + [sep] + Join(parts[1..], sep)
  }

  /** `s` with every `from` character replaced by `to`. */
  function Replace(s: string, from: char, to: char): (r: string)
    ensures |r| == |s|
    ensures forall i :: 0 <= i < |s| ==> r[i] == (if s[i] == from then to else s[i])
  {
    seq(|s|, i requires 0 <= i < |s| => if s[i] == from then to else s[i])
  }

  /** True when no component contains `c`. */
  predicate NoneContains(parts: seq<string>, c: char)
  {
    forall i :: 0 <= i < |parts| ==> c !in parts[i]
  }

  lemma {:induction false} CountZero(s: string, c: char)
    ensures Count(s, c) == 0 <==> c !in s
    decreases |s|
  {
    if |s| > 0 {
      CountZero(s[1..], c);
      assert s == [s[0]] + s[1..];
    }
  }

  /** A string without the separator is a single component. */
  lemma SplitWithoutSeparator(s: string, sep: char)
    requires sep !in s
    ensures Split(s, sep) == [s]
  {
    CountZero(s, sep);
    var parts := Split(s, sep);
    assert |parts| == 1;
    JoinSplitIsReplace(s, sep, sep);
    ReplaceSame(s, sep);
  }

  /** Gluing a character onto the first component of a join. */
  lemma JoinConsFirst(c: char, parts: seq<string>, sep: char)
    requires |parts| >= 1
    ensures Join([[c] + parts[0]] + parts[1..], sep) == [c] + Join(parts, sep)
  {
    var glued := [[c] + parts[0]] + parts[1..];
    assert glued[0] == [c] + parts[0];
    assert glued[1..] == parts[1..];
  }

  /** Splitting on one character and joining on another is a character-wise
      replacement. */
  lemma {:induction false} JoinSplitIsReplace(s: string, sep: char, glue: char)
    ensures Join(Split(s, sep), glue) == Replace(s, sep, glue)
    decreases |s|
  {
    if |s| == 0 {
    } else {
      var rest := Split(s[1..], sep);
      JoinSplitIsReplace(s[1..], sep, glue);
      assert Replace(s, sep, glue) == [if s[0] == sep then glue else s[0]] + Replace(s[1..], sep, glue);
      if s[0] == sep {
        var parts := [""] + rest;
        assert parts[1..] == rest;
        assert Join(parts, glue) == "" + [glue] + Join(rest, glue);
      } else {
        JoinConsFirst(s[0], rest, glue);
      }
    }
  }

  lemma ReplaceSame(s: string, c: char)
    ensures Replace(s, c, c) == s
  {
  }

  /** Joining the split pieces with the same separator gives the input back. */
  lemma JoinSplit(s: string, sep: char)
    ensures Join(Split(s, sep), sep) == s
  {
    JoinSplitIsReplace(s, sep, sep);
    ReplaceSame(s, sep);
  }

  /** A separator after a separator-free head starts a new component. */
  lemma {:induction false} SplitAfterHead(head: string, sep: char, tail: string)
    requires sep !in head
    ensures Split(head + [sep] + tail, sep) == [head] + Split(tail, sep)
    decreases |head|
  {
    var s := head + [sep] + tail;
    if |head| == 0 {
      assert s == [sep] + tail;
      assert s[1..] == tail;
    } else {
      assert s[0] == head[0];
      assert s[1..] == head[1..] + [sep] + tail;
      SplitAfterHead(head[1..], sep, tail);
      assert [head[0]] + head[1..] == head;
    }
  }

  /** Splitting a join gives the components back, as long as none of them
      contains the separator. */
  lemma {:induction false} SplitJoin(parts: seq<string>, sep: char)
    requires |parts| >= 1
    requires NoneContains(parts, sep)
    ensures Split(Join(parts, sep), sep) == parts
    decreases |parts|
  {
    if |parts| == 1 {
      SplitWithoutSeparator(parts[0], sep);
    } else {
      SplitJoin(parts[1..], sep);
      SplitAfterHead(parts[0], sep, Join(parts[1..], sep));
      assert [parts[0]] + parts[1..] == parts;
    }
  }

  /** A component that was split off is not changed by being re-split with
      another separator it does not contain: re-splitting a join on the
      glue character recovers the original split. */
  lemma ResplitWithGlue(s: string, sep: char, glue: char)
    requires glue !in s
    ensures Split(Replace(s, sep, glue), glue) == Split(s, sep)
  {
    var parts := Split(s, sep);
    assert NoneContains(parts, glue);
    JoinSplitIsReplace(s, sep, glue);
    SplitJoin(parts, glue);
  }
}
