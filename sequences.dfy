/**
 * Facts about sequences shared by the rankings and the filters: elements
 * that are pairwise distinct, and one sequence obtained from another by
 * dropping elements.
 */
module Sequences {

  ghost predicate Distinct<T>(s: seq<T>) {
    forall i, j :: 0 <= i < j < |s| ==> s[i] != s[j]
  }

  /** `r` is obtained from `s` by dropping elements, keeping the rest in order. */
  ghost predicate IsSubsequence<T>(r: seq<T>, s: seq<T>)
    decreases |s|
  {
    if r == [] then true
    else if s == [] then false
    else if r[|r| - 1] == s[|s| - 1] then IsSubsequence(r[..|r| - 1], s[..|s| - 1])
    else IsSubsequence(r, s[..|s| - 1])
  }

  lemma {:induction false} DistinctCount<T>(s: seq<T>, x: T)
    requires Distinct(s)
    ensures multiset(s)[x] == if x in s then 1 else 0
  {
    if s != [] {
      var init := s[..|s| - 1];
      assert s == init + [s[|s| - 1]];
      DistinctCount(init, x);
    }
  }

  lemma {:induction false} PermutationKeepsDistinct<T>(a: seq<T>, b: seq<T>)
    requires Distinct(a) && multiset(a) == multiset(b)
    ensures Distinct(b)
  {
    forall i, j | 0 <= i < j < |b| ensures b[i] != b[j] {
      if b[i] == b[j] {
        RepeatedCount(b, i, j);
        DistinctCount(a, b[i]);
        assert false;
      }
    }
  }

  lemma RepeatedCount<T>(s: seq<T>, i: nat, j: nat)
    requires i < j < |s| && s[i] == s[j]
    ensures multiset(s)[s[i]] >= 2
  {
    assert s == s[..j] + s[j..];
    assert s[i] in s[..j] && s[j] in s[j..];
  }

  lemma {:induction false} SubsequenceMultiset<T>(r: seq<T>, s: seq<T>)
    requires IsSubsequence(r, s)
    ensures multiset(r) <= multiset(s)
    decreases |s|
  {
    if r != [] {
      var sInit := s[..|s| - 1];
      assert s == sInit + [s[|s| - 1]];
      if r[|r| - 1] == s[|s| - 1] {
        SubsequenceMultiset(r[..|r| - 1], sInit);
        assert r == r[..|r| - 1] + [r[|r| - 1]];
      } else {
        SubsequenceMultiset(r, sInit);
      }
    }
  }

  lemma {:induction false} SubsequenceOfExtension<T>(r: seq<T>, s: seq<T>, x: T)
    requires IsSubsequence(r, s)
    ensures IsSubsequence(r, s + [x]) && IsSubsequence(r + [x], s + [x])
    decreases |s| + 1, 0
  {
    assert (s + [x])[..|s|] == s;
    assert (r + [x])[..|r|] == r;
    if r != [] && r[|r| - 1] == x {
      assert IsSubsequence(r[..|r| - 1], s) by { SubsequenceDropLast(r, s); }
    }
  }

  lemma {:induction false} SubsequenceDropLast<T>(r: seq<T>, s: seq<T>)
    requires IsSubsequence(r, s) && r != []
    ensures IsSubsequence(r[..|r| - 1], s)
    decreases |s|, 1
  {
    var sInit := s[..|s| - 1];
    if r[|r| - 1] == s[|s| - 1] {
      SubsequenceOfExtension(r[..|r| - 1], sInit, s[|s| - 1]);
      assert sInit + [s[|s| - 1]] == s;
    } else {
      SubsequenceDropLast(r, sInit);
      SubsequenceOfExtension(r[..|r| - 1], sInit, s[|s| - 1]);
      assert sInit + [s[|s| - 1]] == s;
    }
  }
}
