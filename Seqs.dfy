/** Order-preserving filtering of sequences: the `Array.prototype.filter`
    that both the campaign table and the pie chart apply to their data. */
module Seqs {

  /** The elements of `s` that satisfy `p`, in their original order. */
  function Filter<T>(s: seq<T>, p: T -> bool): (r: seq<T>)
    ensures |r| <= |s|
    ensures forall x :: x in r ==> x in s && p(x)
  {
    if s == [] then []
    else if p(s[0]) then [s[0]] + Filter(s[1..], p)
    else Filter(s[1..], p)
  }

  /** Positions `from`, `from + 1`, ... of the elements of `s` that satisfy
      `p`, in increasing order. */
  ghost function KeptIndices<T>(s: seq<T>, p: T -> bool, from: nat): seq<nat>
  {
    if s == [] then []
    else (if p(s[0]) then [from] else []) + KeptIndices(s[1..], p, from + 1)
  }

  /** Filtering drops or duplicates nothing: each value occurs in the result
      exactly as often as in the input when it passes, and never otherwise. */
  lemma {:induction false} FilterCounts<T>(s: seq<T>, p: T -> bool)
    ensures forall x :: multiset(Filter(s, p))[x] == if p(x) then multiset(s)[x] else 0
  {
    if s != [] {
      FilterCounts(s[1..], p);
      assert s == [s[0]] + s[1..];
    }
  }

  /** A value is kept exactly when it occurs in the input and passes. */
  lemma {:induction false} FilterMembership<T>(s: seq<T>, p: T -> bool, x: T)
    ensures x in Filter(s, p) <==> x in s && p(x)
  {
    FilterCounts(s, p);
    assert x in Filter(s, p) <==> multiset(Filter(s, p))[x] > 0;
  }

  /** Filtering distributes over concatenation. */
  lemma {:induction false} FilterAppend<T>(a: seq<T>, b: seq<T>, p: T -> bool)
    ensures Filter(a + b, p) == Filter(a, p) + Filter(b, p)
  {
    if a == [] {
      assert a + b == b;
    } else {
      assert (a + b)[1..] == a[1..] + b;
      FilterAppend(a[1..], b, p);
    }
  }

  /** Filtering with a predicate every element passes is the identity. */
  lemma {:induction false} FilterAll<T>(s: seq<T>, p: T -> bool)
    requires forall i :: 0 <= i < |s| ==> p(s[i])
    ensures Filter(s, p) == s
  {
    if s != [] {
      FilterAll(s[1..], p);
    }
  }

  /** The result is the subsequence of `s` at the increasing positions
      `KeptIndices(s, p, 0)`, and those are exactly the positions whose element
      passes: filtering keeps the original relative order. */
  lemma {:induction false} FilterOrder<T>(s: seq<T>, p: T -> bool)
    ensures |KeptIndices(s, p, 0)| == |Filter(s, p)|
    ensures forall i :: 0 <= i < |Filter(s, p)| ==>
              KeptIndices(s, p, 0)[i] < |s| && Filter(s, p)[i] == s[KeptIndices(s, p, 0)[i]]
    ensures forall i, j :: 0 <= i < j < |Filter(s, p)| ==> KeptIndices(s, p, 0)[i] < KeptIndices(s, p, 0)[j]
    ensures forall k :: 0 <= k < |s| ==> (p(s[k]) <==> k in KeptIndices(s, p, 0))
  {
    KeptIndicesAt(s, p, 0);
    KeptIndicesIncreasing(s, p, 0);
    KeptIndicesComplete(s, p, 0);
  }

  lemma {:induction false} KeptIndicesAt<T>(s: seq<T>, p: T -> bool, from: nat)
    ensures |KeptIndices(s, p, from)| == |Filter(s, p)|
    ensures forall i :: 0 <= i < |Filter(s, p)| ==>
              from <= KeptIndices(s, p, from)[i] < from + |s| &&
              Filter(s, p)[i] == s[KeptIndices(s, p, from)[i] - from]
  {
    if s != [] {
      KeptIndicesAt(s[1..], p, from + 1);
      var r, f := KeptIndices(s[1..], p, from + 1), Filter(s[1..], p);
      var ks, fs := KeptIndices(s, p, from), Filter(s, p);
      var k := if p(s[0]) then 1 else 0;
      assert ks == (if p(s[0]) then [from] else []) + r;
      assert fs == (if p(s[0]) then [s[0]] else []) + f;
      assert |ks| == |fs|;
      forall i | 0 <= i < |fs|
        ensures from <= ks[i] < from + |s| && fs[i] == s[ks[i] - from]
      {
        if i >= k {
          assert ks[i] == r[i - k];
          assert fs[i] == f[i - k];
          assert f[i - k] == s[1..][r[i - k] - (from + 1)];
        }
      }
    }
  }

  lemma {:induction false} KeptIndicesIncreasing<T>(s: seq<T>, p: T -> bool, from: nat)
    ensures forall i :: 0 <= i < |KeptIndices(s, p, from)| ==> from <= KeptIndices(s, p, from)[i]
    ensures forall i, j :: 0 <= i < j < |KeptIndices(s, p, from)| ==>
              KeptIndices(s, p, from)[i] < KeptIndices(s, p, from)[j]
  {
    if s != [] {
      KeptIndicesIncreasing(s[1..], p, from + 1);
    }
  }

  lemma {:induction false} KeptIndicesComplete<T>(s: seq<T>, p: T -> bool, from: nat)
    ensures forall k :: 0 <= k < |s| ==> (p(s[k]) <==> from + k in KeptIndices(s, p, from))
    ensures forall k :: k in KeptIndices(s, p, from) ==> from <= k
  {
    if s != [] {
      KeptIndicesComplete(s[1..], p, from + 1);
      forall k | 0 <= k < |s|
        ensures p(s[k]) <==> from + k in KeptIndices(s, p, from)
      {
        if k > 0 {
          assert s[k] == s[1..][k - 1];
        }
      }
    }
  }
}
