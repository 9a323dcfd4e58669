/** The few Python `str` operations the converter relies on, over `seq<char>`. */
module Strings {
  import opened Wrappers

  /** `c.isspace()`: the characters Python treats as whitespace, which are also
      what `\s` matches in a `str` regular expression and what `strip()` removes. */
  predicate IsSpace(c: char) {
    ('\t' <= c <= '\r') || ('\U{1C}' <= c <= ' ') || c == '\U{85}' || c == '\U{A0}'
    || c == '\U{1680}' || ('\U{2000}' <= c <= '\U{200A}') || c == '\U{2028}' || c == '\U{2029}'
    || c == '\U{202F}' || c == '\U{205F}' || c == '\U{3000}'
  }

  /** An ASCII decimal digit. */
  predicate IsDigit(c: char) {
    '0' <= c <= '9'
  }

  /** `s.startswith(p)`. */
  predicate StartsWith(s: string, p: string) {
    |p| <= |s| && s[..|p|] == p
  }

  /** `s.endswith(p)`. */
  predicate EndsWith(s: string, p: string) {
    |p| <= |s| && s[|s| - |p|..] == p
  }

  /** `p` occurs in `s` starting at index `k`. */
  predicate MatchesAt(s: string, p: string, k: nat) {
    k + |p| <= |s| && s[k..k + |p|] == p
  }

  /** `p in s`. */
  predicate Contains(s: string, p: string) {
    exists k: nat | k <= |s| :: MatchesAt(s, p, k)
  }

  /** The index of the first occurrence of `p` in `s` at or after `from`. */
  function FindFrom(s: string, p: string, from: nat): (r: Option<nat>)
    decreases |s| - from
    ensures r.Some? ==> from <= r.value && MatchesAt(s, p, r.value)
    ensures forall j: nat :: from <= j && (r.None? || j < r.value) ==> !MatchesAt(s, p, j)
  {
    if from + |p| > |s| then None
    else if s[from..from + |p|] == p then Some(from)
    else FindFrom(s, p, from + 1)
  }

  /** `s.find(p)`, with `None` for -1: the first index at which `p` occurs. */
  function Find(s: string, p: string): (r: Option<nat>)
    ensures r.Some? <==> Contains(s, p)
    ensures r.Some? ==> MatchesAt(s, p, r.value) && forall j: nat :: j < r.value ==> !MatchesAt(s, p, j)
  {
    FindFrom(s, p, 0)
  }

  /** `s.split(p, 1)[1]`: the text after the first occurrence of `p`.  Python
      raises IndexError when `p` does not occur, so callers test `p in s` first. */
  function After(s: string, p: string): (r: string)
    requires Contains(s, p)
    ensures |r| + |p| <= |s|
    ensures MatchesAt(s, p, |s| - |r| - |p|) && r == s[|s| - |r|..]
    ensures forall j: nat :: j < |s| - |r| - |p| ==> !MatchesAt(s, p, j)
  {
    var k := Find(s, p).value;
    s[k + |p|..]
  }

  /** `s.lstrip()`. */
  function StripLeft(s: string): (r: string)
    ensures |r| <= |s| && r == s[|s| - |r|..]
    ensures forall k :: 0 <= k < |s| - |r| ==> IsSpace(s[k])
    ensures r == [] || !IsSpace(r[0])
  {
    if s != [] && IsSpace(s[0]) then StripLeft(s[1..]) else s
  }

  /** `s.rstrip()`. */
  function StripRight(s: string): (r: string)
    ensures |r| <= |s| && r == s[..|r|]
    ensures forall k :: |r| <= k < |s| ==> IsSpace(s[k])
    ensures r == [] || !IsSpace(r[|r| - 1])
  {
    if s != [] && IsSpace(s[|s| - 1]) then StripRight(s[..|s| - 1]) else s
  }

  /** `r` is the slice of `s` starting at `i`, and every character of `s`
      outside that slice is whitespace. */
  predicate TrimmedAt(s: string, r: string, i: nat) {
    i + |r| <= |s| && r == s[i..i + |r|]
    && (forall k :: 0 <= k < i ==> IsSpace(s[k]))
    && (forall k :: i + |r| <= k < |s| ==> IsSpace(s[k]))
  }

  /** `s.strip()`: `s` with its leading and trailing whitespace removed. */
  function Strip(s: string): (r: string)
    ensures r == [] || (!IsSpace(r[0]) && !IsSpace(r[|r| - 1]))
    ensures exists i: nat :: TrimmedAt(s, r, i)
  {
    var l := StripLeft(s);
    var r := StripRight(l);
    var i := |s| - |l|;
    assert TrimmedAt(s, r, i);
    r
  }
}
