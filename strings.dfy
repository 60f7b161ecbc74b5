/** Character-separated splitting and joining, as Python's `str.split(c)` and `c.join(parts)`. */
module Strings {

  /** The text of `s` before the first occurrence of `c` (all of `s` when `c` does not occur). */
  function BeforeFirst(s: string, c: char): (r: string)
    ensures |r| <= |s| && r == s[..|r|]
    ensures c !in r
    ensures |r| < |s| ==> s[|r|] == c
  {
    if s == [] || s[0] == c then [] else [s[0]] + BeforeFirst(s[1..], c)
  }

  /** Python's `s.split(c)` for a one-character separator: never empty, pieces free of `c`. */
  function SplitOn(s: string, c: char): (parts: seq<string>)
    ensures |parts| >= 1
    ensures parts[0] == BeforeFirst(s, c)
    ensures forall i :: 0 <= i < |parts| ==> c !in parts[i]
    decreases |s|
  {
    var head := BeforeFirst(s, c);
    if |head| == |s| then [s] else [head] + SplitOn(s[|head| + 1..], c)
  }

  /** Python's `c.join(parts)`. */
  function JoinWith(parts: seq<string>, c: char): string
  {
    if parts == [] then []
    else if |parts| == 1 then parts[0]
    else parts[0] + [c] + JoinWith(parts[1..], c)
  }

  /** Joining pieces whose first and last are empty gives text that starts and ends with the separator. */
  lemma {:induction false} JoinFramed(parts: seq<string>, c: char)
    requires |parts| >= 2 && parts[0] == [] && parts[|parts| - 1] == []
    ensures var s := JoinWith(parts, c); |s| >= 1 && s[0] == c && s[|s| - 1] == c
  {
    JoinEndsWithSeparator(parts, c);
  }

  lemma {:induction false} JoinEndsWithSeparator(parts: seq<string>, c: char)
    requires |parts| >= 2 && parts[|parts| - 1] == []
    ensures var s := JoinWith(parts, c); |s| >= 1 && s[|s| - 1] == c
  {
    if |parts| > 2 {
      JoinEndsWithSeparator(parts[1..], c);
    }
  }

  lemma {:induction false} BeforeFirstOfConcat(p: string, c: char, q: string)
    requires c !in p
    ensures BeforeFirst(p + [c] + q, c) == p
  {
    if p != [] {
      assert (p + [c] + q)[1..] == p[1..] + [c] + q;
      BeforeFirstOfConcat(p[1..], c, q);
    }
  }

  lemma BeforeFirstWhole(s: string, c: char)
    requires c !in s
    ensures BeforeFirst(s, c) == s
  {
  }

  /** Splitting undoes joining when no piece holds the separator. */
  lemma {:induction false} SplitJoin(parts: seq<string>, c: char)
    requires |parts| >= 1
    requires forall i :: 0 <= i < |parts| ==> c !in parts[i]
    ensures SplitOn(JoinWith(parts, c), c) == parts
  {
    if |parts| == 1 {
      BeforeFirstWhole(parts[0], c);
    } else {
      var rest := JoinWith(parts[1..], c);
      var s := parts[0] + [c] + rest;
      BeforeFirstOfConcat(parts[0], c, rest);
      assert s[|parts[0]| + 1..] == rest;
      SplitJoin(parts[1..], c);
      assert parts == [parts[0]] + parts[1..];
    }
  }

  /** Joining undoes splitting: no text is lost by `split`. */
  lemma {:induction false} JoinSplit(s: string, c: char)
    ensures JoinWith(SplitOn(s, c), c) == s
    decreases |s|
  {
    var head := BeforeFirst(s, c);
    if |head| < |s| {
      var tail := s[|head| + 1..];
      var pieces := SplitOn(tail, c);
      JoinSplit(tail, c);
      assert SplitOn(s, c) == [head] + pieces;
      assert ([head] + pieces)[1..] == pieces;
      assert JoinWith([head] + pieces, c) == head + [c] + JoinWith(pieces, c);
      assert s == head + [c] + tail;
    }
  }
}
