/** Character search over strings, used to take the registries' composite
    keys apart again. */
module Strings {

  /** `s` does not contain the character `c`. */
  predicate Excludes(s: string, c: char)
  {
    forall i :: 0 <= i < |s| ==> s[i] != c
  }

  /** Index of the first occurrence of `c` in `s`, or `|s|` when there is none. */
  function IndexOf(s: string, c: char): (i: nat)
    ensures i <= |s|
    ensures Excludes(s[..i], c)
    ensures i < |s| ==> s[i] == c
  {
    if s == [] then 0
    else if s[0] == c then 0
    else
      var j := IndexOf(s[1..], c);
      assert s[..j + 1] == [s[0]] + s[1..][..j];
      j + 1
  }

  /** Start of the longest suffix of `s` that does not contain `c`: either 0,
      or the position just after the last `c`. */
  function SuffixStart(s: string, c: char): (j: nat)
    ensures j <= |s|
    ensures Excludes(s[j..], c)
    ensures j > 0 ==> s[j - 1] == c
  {
    if s == [] then 0
    else if s[|s| - 1] == c then |s|
    else
      var j := SuffixStart(s[..|s| - 1], c);
      assert s[j..] == s[..|s| - 1][j..] + [s[|s| - 1]];
      j
  }

  /** A prefix free of `c` followed by `c` is found by `IndexOf`. */
  lemma {:induction false} IndexOfAfterFreePrefix(a: string, b: string, c: char)
    requires Excludes(a, c)
    requires |b| > 0 && b[0] == c
    ensures IndexOf(a + b, c) == |a|
  {
    if a != [] {
      assert (a + b)[0] == a[0];
      assert (a + b)[1..] == a[1..] + b;
      IndexOfAfterFreePrefix(a[1..], b, c);
    }
  }

  /** A suffix free of `c` preceded by `c` is found by `SuffixStart`. */
  lemma {:induction false} SuffixStartBeforeFreeSuffix(a: string, b: string, c: char)
    requires |a| > 0 && a[|a| - 1] == c
    requires Excludes(b, c)
    ensures SuffixStart(a + b, c) == |a|
  {
    if b == [] {
      assert a + b == a;
    } else {
      var s := a + b;
      assert s[|s| - 1] == b[|b| - 1];
      assert s[..|s| - 1] == a + b[..|b| - 1];
      SuffixStartBeforeFreeSuffix(a, b[..|b| - 1], c);
    }
  }
}
