/**
 * The few functions of Go's `strings` package that the configuration code
 * uses, on strings as sequences of characters.
 */
module Strings {

  predicate HasPrefix(s: string, prefix: string) {
    |prefix| <= |s| && s[..|prefix|] == prefix
  }

  predicate HasSuffix(s: string, suffix: string) {
    |suffix| <= |s| && s[|s| - |suffix|..] == suffix
  }

  /** strings.TrimSuffix: removes ONE copy of `suffix` from the end, if it is there. */
  function TrimSuffix(s: string, suffix: string): (r: string)
    ensures HasSuffix(s, suffix) ==> r + suffix == s
    ensures !HasSuffix(s, suffix) ==> r == s
  {
    if HasSuffix(s, suffix) then s[..|s| - |suffix|] else s
  }

  /** strings.IndexByte: the first position of `c`, or -1. */
  function IndexOf(s: string, c: char): (i: int)
    ensures -1 <= i < |s|
    ensures i == -1 <==> c !in s
    ensures 0 <= i ==> s[i] == c && c !in s[..i]
  {
    if |s| == 0 then -1
    else if s[0] == c then 0
    else
      var j := IndexOf(s[1..], c);
      if j < 0 then -1 else j + 1
  }

  /** strings.LastIndexByte: the last position of `c`, or -1. */
  function LastIndexOf(s: string, c: char): (i: int)
    ensures -1 <= i < |s|
    ensures i == -1 <==> c !in s
    ensures 0 <= i ==> s[i] == c && c !in s[i + 1..]
  {
    if |s| == 0 then -1
    else if s[|s| - 1] == c then |s| - 1
    else LastIndexOf(s[..|s| - 1], c)
  }

  /** strings.Split with a one-character separator. */
  function Split(s: string, sep: char): (parts: seq<string>)
    ensures |parts| >= 1
    ensures forall k :: 0 <= k < |parts| ==> sep !in parts[k]
    decreases |s|
  {
    var i := IndexOf(s, sep);
    if i < 0 then [s] else [s[..i]] + Split(s[i + 1..], sep)
  }

  /** strings.Join with a one-character separator. */
  function Join(parts: seq<string>, sep: char): string
    requires |parts| >= 1
  {
    if |parts| == 1 then parts[0] else parts[0] + [sep] + Join(parts[1..], sep)
  }

  /** Splitting at a first separator gives the part before it and the split of the rest. */
  lemma SplitAtFirst(first: string, rest: string, sep: char)
    requires sep !in first
    ensures Split(first + [sep] + rest, sep) == [first] + Split(rest, sep)
  {
    var s := first + [sep] + rest;
    var n := |first|;
    assert s[..n] == first;
    assert s[n] == sep;
    assert IndexOf(s, sep) == n;
    assert s[n + 1..] == rest;
  }

  /** Splitting undoes joining, as long as no part holds the separator. */
  lemma {:induction false} SplitJoin(parts: seq<string>, sep: char)
    requires |parts| >= 1
    requires forall k :: 0 <= k < |parts| ==> sep !in parts[k]
    ensures Split(Join(parts, sep), sep) == parts
  {
    if |parts| > 1 {
      var rest := Join(parts[1..], sep);
      assert Join(parts, sep) == parts[0] + [sep] + rest;
      SplitAtFirst(parts[0], rest, sep);
      SplitJoin(parts[1..], sep);
      assert [parts[0]] + parts[1..] == parts;
    }
  }

  /** Every character of `t` is in `cutset`. */
  predicate AllIn(t: string, cutset: string) {
    forall k :: 0 <= k < |t| ==> t[k] in cutset
  }

  function TrimLeft(s: string, cutset: string): (r: string)
    ensures |r| <= |s| && r == s[|s| - |r|..]
    ensures AllIn(s[..|s| - |r|], cutset)
    ensures r == [] || r[0] !in cutset
  {
    if |s| > 0 && s[0] in cutset then TrimLeft(s[1..], cutset) else s
  }

  function TrimRight(s: string, cutset: string): (r: string)
    ensures |r| <= |s| && r == s[..|r|]
    ensures AllIn(s[|r|..], cutset)
    ensures r == [] || r[|r| - 1] !in cutset
  {
    if |s| > 0 && s[|s| - 1] in cutset then TrimRight(s[..|s| - 1], cutset) else s
  }

  /** `r` is `s[i..j]`, and everything cut off on either side is in `cutset`. */
  predicate CutAround(s: string, cutset: string, r: string, i: int, j: int) {
    0 <= i <= j <= |s| && r == s[i..j]
    && AllIn(s[..i], cutset) && AllIn(s[j..], cutset)
  }

  /** strings.Trim: removes every leading and trailing character that is in `cutset`. */
  function Trim(s: string, cutset: string): (r: string)
    ensures exists i, j :: CutAround(s, cutset, r, i, j)
    ensures r == [] || (r[0] !in cutset && r[|r| - 1] !in cutset)
  {
    var left := TrimLeft(s, cutset);
    var r := TrimRight(left, cutset);
    CutBothSides(s, cutset, left, r);
    r
  }

  /** Cutting a prefix of cutset characters, then a suffix of them, leaves a slice cut around. */
  lemma CutBothSides(s: string, cutset: string, left: string, r: string)
    requires |left| <= |s| && left == s[|s| - |left|..] && AllIn(s[..|s| - |left|], cutset)
    requires |r| <= |left| && r == left[..|r|] && AllIn(left[|r|..], cutset)
    ensures CutAround(s, cutset, r, |s| - |left|, |s| - |left| + |r|)
  {
    var i, j := |s| - |left|, |s| - |left| + |r|;
    assert r == s[i..j];
    assert s[j..] == left[|r|..];
  }


}
