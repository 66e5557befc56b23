/** Sequence operations the tool performs on lists of tags and releases. */
module Seqs {
  /** The indices of the elements of `s` that pass `p`, in increasing order: each once, and all of them. */
  ghost function Passing<T>(s: seq<T>, p: T -> bool): (idx: seq<nat>)
    ensures forall k :: 0 <= k < |idx| ==> idx[k] < |s| && p(s[idx[k]])
    ensures forall k, l :: 0 <= k < l < |idx| ==> idx[k] < idx[l]
    ensures forall i :: 0 <= i < |s| && p(s[i]) ==> i in idx
  {
    if s == [] then []
    else
      var n := |s| - 1;
      var init := Passing(s[..n], p);
      assert forall k :: 0 <= k < |init| ==> s[..n][init[k]] == s[init[k]];
      if p(s[n]) then init + [n] else init
  }

  /** `r` holds the elements of `s` at the passing indices, in their order. */
  ghost predicate KeepsPassing<T>(s: seq<T>, p: T -> bool, r: seq<T>)
  {
    var idx := Passing(s, p);
    |r| == |idx| && forall k :: 0 <= k < |r| ==> r[k] == s[idx[k]]
  }

  /**
   * `[x for x in s if p(x)]`, built the way a loop appending to a list
   * builds it: the elements at the passing indices, in their order.
   */
  function Filter<T>(s: seq<T>, p: T -> bool): (r: seq<T>)
    ensures |r| <= |s|
    ensures forall k :: 0 <= k < |r| ==> p(r[k]) && r[k] in s
    ensures forall k :: 0 <= k < |s| && p(s[k]) ==> s[k] in r
    ensures forall x :: x in s && p(x) ==> x in r
    ensures r == [] <==> forall k :: 0 <= k < |s| ==> !p(s[k])
  {
    if s == [] then []
    else
      var n := |s| - 1;
      var init := Filter(s[..n], p);
      assert s == s[..n] + [s[n]];
      if p(s[n]) then init + [s[n]] else init
  }

  /**
   * The filter keeps the elements at the passing indices, in their order
   * and each as often as it passes.
   */
  lemma {:induction false} FilterPicks<T>(s: seq<T>, p: T -> bool)
    ensures KeepsPassing(s, p, Filter(s, p))
  {
    if s != [] {
      var n := |s| - 1;
      FilterPicks(s[..n], p);
      FilterPicksStep(s, p, Filter(s[..n], p));
    }
  }

  /** One more element: it is kept at the end exactly when it passes. */
  lemma FilterPicksStep<T>(s: seq<T>, p: T -> bool, r0: seq<T>)
    requires s != [] && KeepsPassing(s[..|s| - 1], p, r0)
    ensures KeepsPassing(s, p, r0 + (if p(s[|s| - 1]) then [s[|s| - 1]] else []))
  {
    var n := |s| - 1;
    PassingSnoc(s, p);
    var idx0 := Passing(s[..n], p);
    assert forall k :: 0 <= k < |idx0| ==> s[..n][idx0[k]] == s[idx0[k]];
  }

  /** The passing indices of `s` are those of all but its last element, then the last one when it passes. */
  lemma PassingSnoc<T>(s: seq<T>, p: T -> bool)
    requires s != []
    ensures Passing(s, p) == Passing(s[..|s| - 1], p) + (if p(s[|s| - 1]) then [|s| - 1] else [])
  {
  }

  /** Filtering a prefix one element longer keeps that element exactly when it passes. */
  lemma FilterSnoc<T>(s: seq<T>, p: T -> bool, k: nat)
    requires k < |s|
    ensures Filter(s[..k + 1], p) == Filter(s[..k], p) + (if p(s[k]) then [s[k]] else [])
  {
    assert s[..k + 1][..k] == s[..k];
  }

  /** The first kept element is the first element that passes. */
  lemma {:induction false} FilterFirst<T>(s: seq<T>, p: T -> bool, k: nat)
    requires k < |s| && p(s[k])
    requires forall j :: 0 <= j < k ==> !p(s[j])
    ensures Filter(s, p) != [] && Filter(s, p)[0] == s[k]
  {
    var init := s[..|s| - 1];
    if k < |s| - 1 {
      FilterFirst(init, p, k);
    } else {
      assert Filter(init, p) == [];
    }
  }

  /** Filtering a concatenation filters each part. */
  lemma {:induction false} FilterConcat<T>(a: seq<T>, b: seq<T>, p: T -> bool)
    ensures Filter(a + b, p) == Filter(a, p) + Filter(b, p)
  {
    if b != [] {
      var n := |b| - 1;
      assert (a + b)[..|a + b| - 1] == a + b[..n];
      FilterConcat(a, b[..n], p);
    } else {
      assert a + b == a;
    }
  }

  /** A kept element comes from `s` and passes the test. */
  lemma FilterMember<T>(s: seq<T>, p: T -> bool, x: T)
    requires x in Filter(s, p)
    ensures x in s && p(x)
  {
    var r := Filter(s, p);
    var k :| 0 <= k < |r| && r[k] == x;
  }
}
