/** `Array.prototype.filter` as a function on sequences, and the facts the
    board needs about it: it keeps exactly the elements that pass, with
    their multiplicities, in their original order. */
module Seqs {

  /** The elements of `s` for which `keep` holds, visited left to right as
      `filter` does: the last element is appended after the rest. */
  function Select<T>(s: seq<T>, keep: T -> bool): (r: seq<T>)
    ensures |r| <= |s|
    ensures forall x :: x in r ==> x in s && keep(x)
    decreases |s|
  {
    if s == [] then []
    else
      var init := Select(s[..|s| - 1], keep);
      if keep(s[|s| - 1]) then init + [s[|s| - 1]] else init
  }

  /** `a` is obtained from `b` by deleting elements: order is kept. */
  ghost predicate IsSubsequence<T>(a: seq<T>, b: seq<T>)
    decreases |b|
  {
    if a == [] then true
    else if b == [] then false
    else if a[|a| - 1] == b[|b| - 1] && IsSubsequence(a[..|a| - 1], b[..|b| - 1]) then true
    else IsSubsequence(a, b[..|b| - 1])
  }

  /** An element is kept exactly when it occurs in the input and passes. */
  lemma {:induction false} SelectMember<T>(s: seq<T>, keep: T -> bool, x: T)
    ensures x in Select(s, keep) <==> x in s && keep(x)
    decreases |s|
  {
    if s != [] {
      var init := s[..|s| - 1];
      assert s == init + [s[|s| - 1]];
      SelectMember(init, keep, x);
    }
  }

  /** Each element occurs in the output as often as in the input when it
      passes, and not at all when it does not. */
  lemma {:induction false} SelectCount<T>(s: seq<T>, keep: T -> bool, x: T)
    ensures multiset(Select(s, keep))[x] == if keep(x) then multiset(s)[x] else 0
    decreases |s|
  {
    if s != [] {
      var init := s[..|s| - 1];
      assert s == init + [s[|s| - 1]];
      SelectCount(init, keep, x);
    }
  }

  /** The output is an order-preserving subsequence of the input. */
  lemma {:induction false} SelectIsSubsequence<T>(s: seq<T>, keep: T -> bool)
    ensures IsSubsequence(Select(s, keep), s)
    decreases |s|
  {
    if s != [] {
      var init := s[..|s| - 1];
      SelectIsSubsequence(init, keep);
      var r := Select(s, keep);
      if keep(s[|s| - 1]) {
        assert r[..|r| - 1] == Select(init, keep);
      } else {
        assert r == Select(init, keep);
        if r != [] {
          assert IsSubsequence(r, s[..|s| - 1]);
        }
      }
    }
  }

  /** When every element passes, nothing is dropped. */
  lemma {:induction false} SelectAll<T>(s: seq<T>, keep: T -> bool)
    requires forall i :: 0 <= i < |s| ==> keep(s[i])
    ensures Select(s, keep) == s
    decreases |s|
  {
    if s != [] {
      SelectAll(s[..|s| - 1], keep);
    }
  }

  /** When no element passes, nothing is kept. */
  lemma {:induction false} SelectNone<T>(s: seq<T>, keep: T -> bool)
    requires forall i :: 0 <= i < |s| ==> !keep(s[i])
    ensures Select(s, keep) == []
    decreases |s|
  {
    if s != [] {
      SelectNone(s[..|s| - 1], keep);
    }
  }
}
