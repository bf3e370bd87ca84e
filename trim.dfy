/**
 `String.Trim(params char[])` of .NET for a non-empty set of characters: the
 longest prefix and the longest suffix made only of characters from the set
 are removed; nothing in between is touched. (With an empty set .NET trims
 white space instead; the column reader always passes four characters.)
 */
module Trim {

  /** Only characters of `cs` lie outside `s[i..j]`, and a non-empty `s[i..j]` starts and ends outside `cs`. */
  predicate TrimmedAt(s: string, cs: set<char>, i: nat, j: nat)
  {
    i <= j <= |s|
    && (forall k :: 0 <= k < i ==> s[k] in cs)
    && (forall k :: j <= k < |s| ==> s[k] in cs)
    && (i < j ==> s[i] !in cs && s[j - 1] !in cs)
  }

  /** `r` is what remains of `s` once every leading and trailing character in `cs` is removed. */
  ghost predicate IsTrimOf(s: string, cs: set<char>, r: string)
  {
    exists i: nat, j: nat :: TrimmedAt(s, cs, i, j) && r == s[i..j]
  }

  /** The first index at or after `i` whose character is not in `cs`, or `|s|`. */
  function StartCut(s: string, cs: set<char>, i: nat): (k: nat)
    requires i <= |s|
    ensures i <= k <= |s|
    ensures forall m :: i <= m < k ==> s[m] in cs
    ensures k < |s| ==> s[k] !in cs
    decreases |s| - i
  {
    if i < |s| && s[i] in cs then StartCut(s, cs, i + 1) else i
  }

  /** The end of `s[lo..j]` once its trailing characters in `cs` are cut off. */
  function EndCut(s: string, cs: set<char>, lo: nat, j: nat): (k: nat)
    requires lo <= j <= |s|
    ensures lo <= k <= j
    ensures forall m :: k <= m < j ==> s[m] in cs
    ensures lo < k ==> s[k - 1] !in cs
  {
    if lo < j && s[j - 1] in cs then EndCut(s, cs, lo, j - 1) else j
  }

  /** Removes leading and trailing characters drawn from `cs`, as .NET's `Trim` does for a non-empty `cs`. */
  function TrimSet(s: string, cs: set<char>): (r: string)
    ensures IsTrimOf(s, cs, r)
  {
    var i := StartCut(s, cs, 0);
    var j := EndCut(s, cs, i, |s|);
    assert TrimmedAt(s, cs, i, j);
    s[i..j]
  }

  /** Two ways of cutting `s` that both satisfy `TrimmedAt` keep the same characters. */
  lemma TrimmedAtUnique(s: string, cs: set<char>, i: nat, j: nat, i': nat, j': nat)
    requires TrimmedAt(s, cs, i, j) && TrimmedAt(s, cs, i', j')
    ensures s[i..j] == s[i'..j']
  {
    if i == j || i' == j' {
      assert forall k :: 0 <= k < |s| ==> s[k] in cs;
      assert i == j && i' == j';
    } else {
      assert i == i' && j == j';
    }
  }

  /** The trimmed value is fully determined by `IsTrimOf`. */
  lemma TrimUnique(s: string, cs: set<char>, r: string)
    requires IsTrimOf(s, cs, r)
    ensures r == TrimSet(s, cs)
  {
    var i: nat, j: nat :| TrimmedAt(s, cs, i, j) && r == s[i..j];
    var i': nat, j': nat :| TrimmedAt(s, cs, i', j') && TrimSet(s, cs) == s[i'..j'];
    TrimmedAtUnique(s, cs, i, j, i', j');
  }

  /** Trimming a value that is already trimmed leaves it unchanged. */
  lemma TrimIdempotent(s: string, cs: set<char>)
    ensures TrimSet(TrimSet(s, cs), cs) == TrimSet(s, cs)
  {
    var r := TrimSet(s, cs);
    var i: nat, j: nat :| TrimmedAt(s, cs, i, j) && r == s[i..j];
    assert TrimmedAt(r, cs, 0, |r|);
    assert r == r[0..|r|];
    TrimUnique(r, cs, r);
  }
}
