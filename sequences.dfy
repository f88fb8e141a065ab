/** Python list idioms on sequences: the first-match search (`next(...)` and early-return
    loops), order-preserving filtering (`[x for x in xs if p(x)]`) and `list.remove`. */
module Sequences {

  import opened Outcomes

  /** The position of the first element of `s` satisfying `p` (Python's
      `next((x for x in s if p(x)), None)` and the early-return search loops). */
  function FirstIndex<T>(s: seq<T>, p: T -> bool): (r: Option<nat>)
    ensures r.Some? <==> exists j :: 0 <= j < |s| && p(s[j])
    ensures r.Some? ==> r.value < |s| && p(s[r.value])
    ensures r.Some? ==> forall j :: 0 <= j < r.value ==> !p(s[j])
  {
    if s == [] then None
    else if p(s[0]) then Some(0)
    else
      match FirstIndex(s[1..], p)
      case None => None
      case Some(k) => Some(k + 1)
  }

  /** The elements of `s` that satisfy `p`, in their original order. */
  function Keep<T>(s: seq<T>, p: T -> bool): (r: seq<T>)
    ensures |r| <= |s|
    ensures forall x :: x in r ==> x in s && p(x)
  {
    if s == [] then []
    else
      var init := Keep(s[..|s| - 1], p);
      if p(s[|s| - 1]) then init + [s[|s| - 1]] else init
  }

  /** The positions of `s` whose element satisfies `p`, in increasing order. */
  function KeptIndices<T>(s: seq<T>, p: T -> bool): (r: seq<int>)
    ensures forall k :: 0 <= k < |r| ==> 0 <= r[k] < |s| && p(s[r[k]])
    ensures forall k, l :: 0 <= k < l < |r| ==> r[k] < r[l]
    ensures forall j :: 0 <= j < |s| && p(s[j]) ==> j in r
  {
    if s == [] then []
    else
      var init := KeptIndices(s[..|s| - 1], p);
      if p(s[|s| - 1]) then init + [|s| - 1] else init
  }

  /** `Keep(s, p)` is exactly the subsequence of `s` at the positions `KeptIndices(s, p)`:
      every passing element, nothing else, order preserved. */
  lemma {:induction false} KeepIsSubsequence<T>(s: seq<T>, p: T -> bool)
    ensures |Keep(s, p)| == |KeptIndices(s, p)|
    ensures forall k :: 0 <= k < |Keep(s, p)| ==> Keep(s, p)[k] == s[KeptIndices(s, p)[k]]
  {
    if s != [] {
      var n := |s| - 1;
      var init := s[..n];
      KeepIsSubsequence(init, p);
      var kept, idx := Keep(init, p), KeptIndices(init, p);
      assert Keep(s, p) == kept + (if p(s[n]) then [s[n]] else []);
      assert KeptIndices(s, p) == idx + (if p(s[n]) then [n] else []);
      forall k | 0 <= k < |Keep(s, p)|
        ensures Keep(s, p)[k] == s[KeptIndices(s, p)[k]]
      {
        if k < |kept| {
          assert Keep(s, p)[k] == kept[k] == init[idx[k]];
          assert KeptIndices(s, p)[k] == idx[k];
        }
      }
    }
  }

  /** When every element passes, nothing is dropped. */
  lemma {:induction false} KeepAll<T>(s: seq<T>, p: T -> bool)
    requires forall j :: 0 <= j < |s| ==> p(s[j])
    ensures Keep(s, p) == s
  {
    if s != [] {
      var init := s[..|s| - 1];
      KeepAll(init, p);
      assert init + [s[|s| - 1]] == s;
    }
  }

  /** Two predicates that agree on every element keep the same elements. */
  lemma {:induction false} KeepSameFilter<T>(s: seq<T>, p: T -> bool, q: T -> bool)
    requires forall j :: 0 <= j < |s| ==> p(s[j]) == q(s[j])
    ensures Keep(s, p) == Keep(s, q)
  {
    if s != [] {
      KeepSameFilter(s[..|s| - 1], p, q);
    }
  }

  /** Filtering one more element extends the previous result (the step of a filtering loop). */
  lemma KeepStep<T>(s: seq<T>, k: int, p: T -> bool)
    requires 0 <= k < |s|
    ensures Keep(s[..k + 1], p) == Keep(s[..k], p) + (if p(s[k]) then [s[k]] else [])
  {
    assert s[..k + 1][..k] == s[..k];
  }

  /** Python's `list.remove`: drop the first element equal to `x`, which must be present
      (an absent one raises `ValueError`). */
  function RemoveFirst<T(==)>(s: seq<T>, x: T): (r: seq<T>)
    requires x in s
    ensures |r| == |s| - 1
  {
    if s[0] == x then s[1..]
    else [s[0]] + RemoveFirst(s[1..], x)
  }

  /** `list.remove` of a present element takes away exactly one occurrence of it. */
  lemma {:induction false} RemoveFirstMultiset<T>(s: seq<T>, x: T)
    requires x in s
    ensures multiset(RemoveFirst(s, x)) == multiset(s) - multiset{x}
  {
    assert s == [s[0]] + s[1..];
    if s[0] != x {
      RemoveFirstMultiset(s[1..], x);
    }
  }

  /** Removing by value an element that no earlier element equals removes exactly its position. */
  lemma {:induction false} RemoveFirstOfFound<T>(s: seq<T>, i: nat)
    requires i < |s|
    requires forall j :: 0 <= j < i ==> s[j] != s[i]
    ensures RemoveFirst(s, s[i]) == s[..i] + s[i + 1..]
  {
    if i > 0 {
      var t := s[1..];
      RemoveFirstOfFound(t, i - 1);
      assert t[..i - 1] == s[1..i];
      assert t[i..] == s[i + 1..];
      assert [s[0]] + s[1..i] == s[..i];
    }
  }
}
