/** The array operations the application leans on: `findIndex`, `find` and `filter`. */
module Seqs {
  import opened Wrappers

  /** `Array.prototype.findIndex`, with the `-1` of "not found" written as `None`. */
  function FindIndex<T>(s: seq<T>, p: T -> bool): (r: Option<nat>)
    ensures r.Some? ==> r.value < |s| && p(s[r.value])
    ensures r.Some? ==> forall j :: 0 <= j < r.value ==> !p(s[j])
    ensures r.None? <==> forall j :: 0 <= j < |s| ==> !p(s[j])
  {
    if |s| == 0 then None
    else if p(s[0]) then Some(0)
    else
      match FindIndex(s[1..], p)
      case None => None
      case Some(i) => Some(i + 1)
  }

  /** `Array.prototype.find`: the first element satisfying `p`. */
  function Find<T>(s: seq<T>, p: T -> bool): (r: Option<T>)
    ensures r.Some? ==> r.value in s && p(r.value)
    ensures r.Some? ==> exists i :: 0 <= i < |s| && s[i] == r.value && forall j :: 0 <= j < i ==> !p(s[j])
    ensures r.None? <==> forall j :: 0 <= j < |s| ==> !p(s[j])
  {
    match FindIndex(s, p)
    case None => None
    case Some(i) => Some(s[i])
  }

  /** `r` is `s` with some elements deleted and the rest kept in their order. */
  predicate IsSubsequence<T(==)>(r: seq<T>, s: seq<T>)
    decreases |s|
  {
    if |r| == 0 then true
    else if |s| == 0 then false
    else (r[0] == s[0] && IsSubsequence(r[1..], s[1..])) || IsSubsequence(r, s[1..])
  }

  /** A subsequence never holds an element more often than the sequence it comes from. */
  lemma {:induction false} SubsequenceMultiset<T>(r: seq<T>, s: seq<T>)
    requires IsSubsequence(r, s)
    ensures multiset(r) <= multiset(s)
    decreases |s|
  {
    if |r| > 0 {
      assert s == [s[0]] + s[1..];
      if r[0] == s[0] && IsSubsequence(r[1..], s[1..]) {
        assert r == [r[0]] + r[1..];
        SubsequenceMultiset(r[1..], s[1..]);
      } else {
        SubsequenceMultiset(r, s[1..]);
      }
    }
  }

  /** `Array.prototype.filter`: the elements satisfying `p`, in their original order, each as
      often as it occurs in `s`. */
  function Filter<T(!new)>(s: seq<T>, p: T -> bool): (r: seq<T>)
    ensures |r| <= |s|
    ensures forall x :: x in r <==> x in s && p(x)
    ensures IsSubsequence(r, s)
    ensures forall x {:trigger multiset(r)[x]} :: p(x) ==> multiset(r)[x] == multiset(s)[x]
    ensures (forall j :: 0 <= j < |s| ==> p(s[j])) ==> r == s
  {
    if |s| == 0 then []
    else
      assert s == [s[0]] + s[1..];
      var rest := Filter(s[1..], p);
      if p(s[0]) then
        assert ([s[0]] + rest)[1..] == rest;
        [s[0]] + rest
      else rest
  }

  /** `Filter` is the only subsequence of `s` made of elements satisfying `p` that keeps every
      such element as often as `s` holds it. */
  lemma {:induction false} FilterUnique<T(!new)>(s: seq<T>, p: T -> bool, r: seq<T>)
    requires IsSubsequence(r, s)
    requires forall k :: 0 <= k < |r| ==> p(r[k])
    requires forall x :: p(x) ==> multiset(r)[x] == multiset(s)[x]
    ensures r == Filter(s, p)
    decreases |s|
  {
    if |s| == 0 {
      assert |r| == 0;
    } else {
      var t := s[1..];
      assert s == [s[0]] + t;
      if p(s[0]) {
        assert multiset(r)[s[0]] == multiset(s)[s[0]] > multiset(t)[s[0]];
        if IsSubsequence(r, t) {
          SubsequenceMultiset(r, t);
          assert false;
        }
        assert r == [r[0]] + r[1..];
        assert r[0] == s[0] && IsSubsequence(r[1..], t);
        FilterUnique(t, p, r[1..]);
      } else {
        if |r| > 0 {
          assert p(r[0]);
        }
        FilterUnique(t, p, r);
      }
    }
  }

  /** Nothing survives a filter that no element passes. */
  lemma FilterNone<T(!new)>(s: seq<T>, p: T -> bool)
    requires forall k :: 0 <= k < |s| ==> !p(s[k])
    ensures Filter(s, p) == []
  {
  }

  /** One step of the filter: the head is kept exactly when it passes. */
  lemma FilterHead<T(!new)>(s: seq<T>, p: T -> bool)
    requires |s| > 0
    ensures Filter(s, p) == if p(s[0]) then [s[0]] + Filter(s[1..], p) else Filter(s[1..], p)
  {
  }

  /** When exactly the elements at positions `lo` up to `hi` pass, the filter is that slice. */
  lemma {:induction false} FilterBlock<T(!new)>(s: seq<T>, p: T -> bool, lo: nat, hi: nat)
    requires lo <= hi <= |s|
    requires forall k :: 0 <= k < |s| ==> (p(s[k]) <==> lo <= k < hi)
    ensures Filter(s, p) == s[lo..hi]
    decreases |s|
  {
    if hi == 0 {
      FilterNone(s, p);
    } else {
      var t := s[1..];
      var lo', hi' := if lo > 0 then lo - 1 else 0, hi - 1;
      assert forall k :: 0 <= k < |t| ==> (p(t[k]) <==> lo' <= k < hi') by {
        forall k | 0 <= k < |t| ensures p(t[k]) <==> lo' <= k < hi' {
          assert t[k] == s[k + 1];
        }
      }
      FilterBlock(t, p, lo', hi');
      FilterHead(s, p);
      if lo > 0 {
        SliceOfTail(s, lo, hi);
      } else {
        HeadAndTailPrefix(s, hi);
      }
    }
  }

  lemma SliceOfTail<T>(s: seq<T>, lo: nat, hi: nat)
    requires 1 <= lo <= hi <= |s|
    ensures s[1..][lo - 1..hi - 1] == s[lo..hi]
  {
    assert forall k :: 0 <= k < hi - lo ==> s[1..][lo - 1..hi - 1][k] == s[lo..hi][k];
  }

  lemma HeadAndTailPrefix<T>(s: seq<T>, hi: nat)
    requires 1 <= hi <= |s|
    ensures [s[0]] + s[1..][..hi - 1] == s[..hi]
  {
    assert forall k :: 0 <= k < hi ==> ([s[0]] + s[1..][..hi - 1])[k] == s[..hi][k];
  }

  /** Filtering a concatenation filters each part and keeps the parts in order. */
  lemma {:induction false} FilterConcat<T(!new)>(a: seq<T>, b: seq<T>, p: T -> bool)
    ensures Filter(a + b, p) == Filter(a, p) + Filter(b, p)
  {
    if |a| == 0 {
      assert a + b == b;
    } else {
      assert (a + b)[1..] == a[1..] + b;
      FilterConcat(a[1..], b, p);
    }
  }

  /** No element occurs twice. */
  predicate NoDuplicates<T(==)>(s: seq<T>) {
    forall i, j :: 0 <= i < j < |s| ==> s[i] != s[j]
  }

  function Reverse<T>(s: seq<T>): (r: seq<T>)
    ensures |r| == |s|
    ensures forall i :: 0 <= i < |s| ==> r[i] == s[|s| - 1 - i]
  {
    if |s| == 0 then [] else Reverse(s[1..]) + [s[0]]
  }
}
