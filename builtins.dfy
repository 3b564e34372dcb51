/** The parts of Python's runtime that the DataGit sources lean on: exceptions,
    `Optional`, and the `str` methods `strip`, `rstrip(ch)`, `startswith` and
    `split`. */
module Builtins {

  /** The exceptions that can escape the modelled code. IOError is the one
      `construct_merkle_tree_for_file` raises for an unreadable source;
      IsADirectoryError and FileNotFoundError are the OSErrors that `read_*` and
      `write_*` raise on a path naming a directory or lacking its parent. */
  datatype PyError =
    | IOError
    | IsADirectoryError
    | FileNotFoundError
    | RuntimeError
    | AttributeError
    | TypeError
    | ValueError

  /** What a Python call does: return a value or raise. Failure-compatible, so
      `:-` propagates a raised exception the way Python does. */
  datatype Py<+T> = Return(value: T) | Raise(error: PyError) {
    predicate IsFailure() { Raise? }

    function PropagateFailure<U>(): Py<U>
      requires Raise?
    {
      Raise(error)
    }

    function Extract(): T
      requires Return?
    {
      value
    }
  }

  datatype Option<+T> = None | Some(value: T)

  /** `str.isspace` for one character: the characters `str.strip()` removes. */
  predicate IsSpace(c: char) {
    || c == ' '
    || '\t' <= c <= '\r'
    || '\U{1C}' <= c <= '\U{1F}'
    || c == '\U{85}'
    || c == '\U{A0}'
    || c == '\U{1680}'
    || '\U{2000}' <= c <= '\U{200A}'
    || c == '\U{2028}'
    || c == '\U{2029}'
    || c == '\U{202F}'
    || c == '\U{205F}'
    || c == '\U{3000}'
  }

  predicate AllSpace(s: string) {
    forall k :: 0 <= k < |s| ==> IsSpace(s[k])
  }

  /** Neither the first nor the last character is white space. */
  predicate Trimmed(s: string) {
    s == [] || (!IsSpace(s[0]) && !IsSpace(s[|s| - 1]))
  }

  /** `s.lstrip()`: the longest suffix of `s` that does not start with white space. */
  function LStrip(s: string): (r: string)
    ensures |r| <= |s| && r == s[|s| - |r|..]
    ensures forall k :: 0 <= k < |s| - |r| ==> IsSpace(s[k])
    ensures r == [] || !IsSpace(r[0])
  {
    if |s| > 0 && IsSpace(s[0]) then
      var r := LStrip(s[1..]);
      assert s[1..][|s| - 1 - |r|..] == s[|s| - |r|..];
      r
    else s
  }

  /** `s.rstrip()`: the longest prefix of `s` that does not end with white space. */
  function RStrip(s: string): (r: string)
    ensures |r| <= |s| && r == s[..|r|]
    ensures forall k :: |r| <= k < |s| ==> IsSpace(s[k])
    ensures r == [] || !IsSpace(r[|r| - 1])
  {
    if |s| > 0 && IsSpace(s[|s| - 1]) then RStrip(s[..|s| - 1]) else s
  }

  /** `s.strip()`. */
  function Strip(s: string): (r: string)
    ensures Trimmed(r)
    ensures |r| <= |s|
  {
    var l := LStrip(s);
    var r := RStrip(l);
    assert r != [] ==> r[0] == l[0];
    r
  }

  /** Stripping removes nothing from a string that is already trimmed. */
  lemma {:induction false} StripTrimmed(s: string)
    requires Trimmed(s)
    ensures Strip(s) == s
  {
    assert LStrip(s) == s;
    assert RStrip(s) == s;
  }

  /** `s.strip()` keeps everything between the first and the last character
      that is not white space. */
  lemma {:induction false} StripKeepsCore(pre: string, core: string, post: string)
    requires AllSpace(pre) && AllSpace(post) && Trimmed(core)
    ensures Strip(pre + core + post) == core
  {
    assert pre + core + post == pre + (core + post);
    if core == [] {
      assert pre + core + post == pre + post;
      AllSpaceStripsAway(pre + post);
    } else {
      LStripSkips(pre, core + post);
      RStripSkips(core, post);
    }
  }

  lemma {:induction false} AllSpaceStripsAway(s: string)
    requires AllSpace(s)
    ensures LStrip(s) == []
    decreases |s|
  {
    if s != [] {
      AllSpaceStripsAway(s[1..]);
    }
  }

  lemma {:induction false} LStripSkips(pre: string, rest: string)
    requires AllSpace(pre)
    requires rest == [] || !IsSpace(rest[0])
    ensures LStrip(pre + rest) == rest
    decreases |pre|
  {
    if pre == [] {
      assert pre + rest == rest;
    } else {
      assert (pre + rest)[1..] == pre[1..] + rest;
      LStripSkips(pre[1..], rest);
    }
  }

  lemma {:induction false} RStripSkips(rest: string, post: string)
    requires AllSpace(post)
    requires rest == [] || !IsSpace(rest[|rest| - 1])
    ensures RStrip(rest + post) == rest
    decreases |post|
  {
    if post == [] {
      assert rest + post == rest;
    } else {
      assert (rest + post)[..|rest + post| - 1] == rest + post[..|post| - 1];
      RStripSkips(rest, post[..|post| - 1]);
    }
  }

  /** `s.startswith(p)`. */
  predicate StartsWith(s: string, p: string) {
    |p| <= |s| && s[..|p|] == p
  }

  /** `s.rstrip(ch)`: `s` without the run of `ch` at its end. */
  function RStripChar(s: string, ch: char): (r: string)
    ensures |r| <= |s| && r == s[..|r|]
    ensures forall k :: |r| <= k < |s| ==> s[k] == ch
    ensures r == [] || r[|r| - 1] != ch
  {
    if |s| > 0 && s[|s| - 1] == ch then RStripChar(s[..|s| - 1], ch) else s
  }

  /** `s.split(sep)[-1]`: the text after the last `sep`, or all of `s`. */
  function AfterLast(s: string, sep: char): (r: string)
    ensures |r| <= |s| && r == s[|s| - |r|..]
    ensures sep !in r
    ensures |r| < |s| ==> s[|s| - |r| - 1] == sep
  {
    if s == [] then []
    else if s[|s| - 1] == sep then []
    else AfterLast(s[..|s| - 1], sep) + [s[|s| - 1]]
  }

  /** `s.split(sep, 1)[1]`: the text after the first `sep`. Python raises
      IndexError when `sep` does not occur, hence the requires. */
  function AfterFirst(s: string, sep: char): (r: string)
    requires sep in s
    ensures |r| < |s| && r == s[|s| - |r|..]
    ensures s[|s| - |r| - 1] == sep
    ensures sep !in s[..|s| - |r| - 1]
  {
    if s[0] == sep then s[1..] else AfterFirst(s[1..], sep)
  }

  /** The text after the last `sep` of `pre + n` is `n` when `pre` ends with
      `sep` and `n` holds none. */
  lemma {:induction false} AfterLastOfTail(pre: string, n: string, sep: char)
    requires |pre| > 0 && pre[|pre| - 1] == sep && sep !in n
    ensures AfterLast(pre + n, sep) == n
    decreases |n|
  {
    if n == [] {
      assert pre + n == pre;
    } else {
      var s := pre + n;
      var init := n[..|n| - 1];
      var last := n[|n| - 1];
      assert s[..|s| - 1] == pre + init;
      assert s[|s| - 1] == last && last in n;
      assert forall k :: 0 <= k < |init| ==> init[k] == n[k];
      AfterLastOfTail(pre, init, sep);
      assert AfterLast(s, sep) == AfterLast(pre + init, sep) + [last];
      assert n == init + [last];
    }
  }

  /** The text after the first `sep` is what follows position `i` when `i`
      holds the first `sep`. */
  lemma {:induction false} AfterFirstAt(s: string, sep: char, i: nat)
    requires i < |s| && s[i] == sep && sep !in s[..i]
    ensures sep in s
    ensures AfterFirst(s, sep) == s[i + 1..]
    decreases i
  {
    if i > 0 {
      assert s[0] == s[..i][0];
      assert s[1..][..i - 1] == s[1..i];
      var before := s[..i];
      var rest := s[1..][..i - 1];
      assert forall k :: 0 <= k < |rest| ==> rest[k] == before[k + 1];
      AfterFirstAt(s[1..], sep, i - 1);
    }
  }

  /** Taking a concatenation apart again. */
  lemma ConcatParts<T>(a: seq<T>, b: seq<T>)
    ensures (a + b)[..|a|] == a && (a + b)[|a|..] == b
  {
  }
}
