/** Stable sorting by a three-way comparator, as `Array.prototype.sort(cmp)`
    does it: `cmp(a, b) > 0` puts `b` before `a`, and elements that compare
    equal keep their relative order (ECMA-262 requires a stable sort). */
module Sorting {
  import opened Seqs

  /** The comparator is consistent in the sense ECMA-262 asks of a sort
      comparator: swapping the arguments flips the sign, and "not after" is
      transitive. Together these make `cmp(a, b) <= 0` a total preorder. */
  ghost predicate Consistent<T(!new)>(cmp: (T, T) -> real)
  {
    && (forall a, b :: Antisymmetric(cmp, a, b))
    && (forall a, b, c :: TransitiveAt(cmp, a, b, c))
  }

  ghost predicate Antisymmetric<T>(cmp: (T, T) -> real, a: T, b: T)
  {
    (cmp(a, b) < 0.0 <==> cmp(b, a) > 0.0) && (cmp(a, b) == 0.0 <==> cmp(b, a) == 0.0)
  }

  ghost predicate TransitiveAt<T>(cmp: (T, T) -> real, a: T, b: T, c: T)
  {
    cmp(a, b) <= 0.0 && cmp(b, c) <= 0.0 ==> cmp(a, c) <= 0.0
  }

  lemma Flip<T(!new)>(cmp: (T, T) -> real, a: T, b: T)
    requires Consistent(cmp)
    ensures cmp(a, b) < 0.0 <==> cmp(b, a) > 0.0
    ensures cmp(a, b) == 0.0 <==> cmp(b, a) == 0.0
  {
    assert Antisymmetric(cmp, a, b);
  }

  lemma Trans<T(!new)>(cmp: (T, T) -> real, a: T, b: T, c: T)
    requires Consistent(cmp)
    requires cmp(a, b) <= 0.0 && cmp(b, c) <= 0.0
    ensures cmp(a, c) <= 0.0
  {
    assert TransitiveAt(cmp, a, b, c);
  }

  /** Every earlier element is not after every later one. */
  ghost predicate Sorted<T>(s: seq<T>, cmp: (T, T) -> real)
  {
    forall i, j :: 0 <= i < j < |s| ==> cmp(s[i], s[j]) <= 0.0
  }

  /** The elements of `s` that compare equal to `k`, in their order in `s`. */
  function EqualTo<T>(s: seq<T>, k: T, cmp: (T, T) -> real): seq<T>
  {
    Filter(s, SameAs(k, cmp))
  }

  /** The test "compares equal to `k`". */
  function SameAs<T>(k: T, cmp: (T, T) -> real): T -> bool
  {
    x => cmp(k, x) == 0.0
  }

  /** `s` and `t` hold the same elements of every equivalence class, in the
      same order: the relation a stable sort keeps between input and output. */
  ghost predicate SameClasses<T(!new)>(s: seq<T>, t: seq<T>, cmp: (T, T) -> real)
  {
    forall k :: EqualTo(s, k, cmp) == EqualTo(t, k, cmp)
  }

  /** Insert `x` into `s` from the right: step left past every element that
      compares strictly after `x`, and place `x` there. */
  function InsertRight<T>(x: T, s: seq<T>, cmp: (T, T) -> real): seq<T>
  {
    if s == [] then [x]
    else if cmp(s[|s| - 1], x) > 0.0 then InsertRight(x, s[..|s| - 1], cmp) + [s[|s| - 1]]
    else s + [x]
  }

  /** Insertion sort: insert the elements of `s` one by one, left to right. */
  function InsertionSort<T>(s: seq<T>, cmp: (T, T) -> real): seq<T>
  {
    if s == [] then []
    else InsertRight(s[|s| - 1], InsertionSort(s[..|s| - 1], cmp), cmp)
  }

  /** Sort `a` in place: grow a sorted prefix one element at a time. */
  method SortInPlace<T>(a: array<T>, cmp: (T, T) -> real)
    modifies a
    ensures a[..] == InsertionSort(old(a[..]), cmp)
  {
    ghost var input := a[..];
    var i := 0;
    while i < a.Length
      invariant 0 <= i <= a.Length
      invariant a[..i] == InsertionSort(input[..i], cmp)
      invariant a[i..] == input[i..]
    {
      InsertLast(a, i, cmp);
      assert input[..i + 1][..i] == input[..i];
      assert input[..i + 1] == input[..i] + [input[i]];
      i := i + 1;
    }
    assert input[..a.Length] == input;
  }

  /** Move `a[i]` left into the sorted prefix `a[..i]`: shift each element
      that compares after it one step right and drop it into the gap. */
  method InsertLast<T>(a: array<T>, i: nat, cmp: (T, T) -> real)
    requires i < a.Length
    modifies a
    ensures a[..i + 1] == InsertRight(old(a[i]), old(a[..i]), cmp)
    ensures a[i + 1..] == old(a[i + 1..])
  {
    var x := a[i];
    ghost var prefix, suffix := a[..i], a[i + 1..];
    var j := i;
    assert a[..] == prefix + [x] + suffix;
    assert prefix[..j] == prefix && prefix[j..] == [];
    while j > 0 && cmp(a[j - 1], x) > 0.0
      invariant 0 <= j <= i
      invariant a[..] == prefix[..j] + [a[j]] + prefix[j..] + suffix
      invariant InsertRight(x, prefix, cmp) == InsertRight(x, prefix[..j], cmp) + prefix[j..]
    {
      InsertRightStep(x, prefix, j, cmp);
      ShiftGap(prefix, suffix, j, a[j]);
      a[j] := a[j - 1];
      j := j - 1;
    }
    InsertRightStop(x, prefix, j, cmp);
    FillGap(prefix, suffix, j, a[j], x);
    a[j] := x;
    assert a[..] == InsertRight(x, prefix, cmp) + suffix;
    assert |InsertRight(x, prefix, cmp)| == i + 1;
  }

  /** Shifting the element left of the gap into it moves the gap one place
      left. */
  lemma ShiftGap<T>(prefix: seq<T>, suffix: seq<T>, j: nat, h: T)
    requires 0 < j <= |prefix|
    ensures (prefix[..j] + [h] + prefix[j..] + suffix)[j := prefix[j - 1]]
            == prefix[..j - 1] + [prefix[j - 1]] + prefix[j - 1..] + suffix
  {
    assert prefix[..j] == prefix[..j - 1] + [prefix[j - 1]];
    assert prefix[j - 1..] == [prefix[j - 1]] + prefix[j..];
  }

  /** Dropping `x` into the gap. */
  lemma FillGap<T>(prefix: seq<T>, suffix: seq<T>, j: nat, h: T, x: T)
    requires j <= |prefix|
    ensures (prefix[..j] + [h] + prefix[j..] + suffix)[j := x] == prefix[..j] + [x] + prefix[j..] + suffix
  {
  }

  lemma InsertRightStep<T>(x: T, s: seq<T>, j: nat, cmp: (T, T) -> real)
    requires 0 < j <= |s| && cmp(s[j - 1], x) > 0.0
    ensures InsertRight(x, s[..j], cmp) + s[j..] == InsertRight(x, s[..j - 1], cmp) + s[j - 1..]
  {
    assert s[..j][..j - 1] == s[..j - 1];
    assert s[j - 1..] == [s[j - 1]] + s[j..];
  }

  lemma InsertRightStop<T>(x: T, s: seq<T>, j: nat, cmp: (T, T) -> real)
    requires j <= |s| && (j == 0 || cmp(s[j - 1], x) <= 0.0)
    ensures InsertRight(x, s[..j], cmp) == s[..j] + [x]
  {
  }

  /** Inserting adds exactly one occurrence of `x`. */
  lemma {:induction false} InsertRightPermutes<T>(x: T, s: seq<T>, cmp: (T, T) -> real)
    ensures multiset(InsertRight(x, s, cmp)) == multiset(s) + multiset{x}
  {
    if s != [] && cmp(s[|s| - 1], x) > 0.0 {
      InsertRightPermutes(x, s[..|s| - 1], cmp);
      assert s == s[..|s| - 1] + [s[|s| - 1]];
    }
  }

  /** The sorted sequence is a permutation of the input. */
  lemma {:induction false} SortPermutes<T>(s: seq<T>, cmp: (T, T) -> real)
    ensures multiset(InsertionSort(s, cmp)) == multiset(s)
  {
    if s != [] {
      var init, last := s[..|s| - 1], s[|s| - 1];
      assert s == init + [last];
      calc {
        multiset(InsertionSort(s, cmp));
        multiset(InsertRight(last, InsertionSort(init, cmp), cmp));
        { InsertRightPermutes(last, InsertionSort(init, cmp), cmp); }
        multiset(InsertionSort(init, cmp)) + multiset{last};
        { SortPermutes(init, cmp); }
        multiset(init) + multiset{last};
        multiset(s);
      }
    }
  }

  /** Inserting into a sorted sequence keeps it sorted. */
  lemma {:induction false} InsertRightSorted<T(!new)>(x: T, s: seq<T>, cmp: (T, T) -> real)
    requires Consistent(cmp)
    requires Sorted(s, cmp)
    ensures Sorted(InsertRight(x, s, cmp), cmp)
  {
    if s != [] {
      var init, last := s[..|s| - 1], s[|s| - 1];
      if cmp(last, x) > 0.0 {
        InsertRightSorted(x, init, cmp);
        InsertRightPermutes(x, init, cmp);
        var r := InsertRight(x, init, cmp);
        forall i | 0 <= i < |r|
          ensures cmp(r[i], last) <= 0.0
        {
          assert r[i] in multiset(r);
          if r[i] == x {
            Flip(cmp, x, last);
          } else {
            assert r[i] in multiset(init);
            var k :| 0 <= k < |init| && init[k] == r[i];
            assert s[k] == r[i];
          }
        }
        assert InsertRight(x, s, cmp) == r + [last];
      } else {
        forall i | 0 <= i < |s|
          ensures cmp(s[i], x) <= 0.0
        {
          if i < |s| - 1 {
            Trans(cmp, s[i], last, x);
          }
        }
        assert InsertRight(x, s, cmp) == s + [x];
      }
    }
  }

  /** Insertion sort sorts. */
  lemma {:induction false} SortSorted<T(!new)>(s: seq<T>, cmp: (T, T) -> real)
    requires Consistent(cmp)
    ensures Sorted(InsertionSort(s, cmp), cmp)
  {
    if s != [] {
      SortSorted(s[..|s| - 1], cmp);
      InsertRightSorted(s[|s| - 1], InsertionSort(s[..|s| - 1], cmp), cmp);
    }
  }

  /** Inserting `x` at the right puts it after every element equal to it and
      leaves every other class alone. */
  lemma {:induction false} InsertRightClasses<T(!new)>(x: T, s: seq<T>, k: T, cmp: (T, T) -> real)
    requires Consistent(cmp)
    ensures EqualTo(InsertRight(x, s, cmp), k, cmp) == EqualTo(s + [x], k, cmp)
  {
    if s != [] {
      var init, last := s[..|s| - 1], s[|s| - 1];
      if cmp(last, x) > 0.0 {
        var p := SameAs(k, cmp);
        assert s == init + [last];
        NotBothEqual(k, last, x, cmp);
        calc {
          EqualTo(InsertRight(x, s, cmp), k, cmp);
          Filter(InsertRight(x, init, cmp) + [last], p);
          { FilterAppend(InsertRight(x, init, cmp), [last], p); }
          Filter(InsertRight(x, init, cmp), p) + Filter([last], p);
          { InsertRightClasses(x, init, k, cmp); }
          Filter(init + [x], p) + Filter([last], p);
          { FilterAppend(init, [x], p); }
          Filter(init, p) + Filter([x], p) + Filter([last], p);
          Filter(init, p) + Filter([last], p) + Filter([x], p);
          { FilterAppend(init, [last], p); }
          Filter(s, p) + Filter([x], p);
          { FilterAppend(s, [x], p); }
          EqualTo(s + [x], k, cmp);
        }
      }
    }
  }

  /** An element that compares strictly after `x` is not in the class of `x`,
      so at most one of the two is equal to `k`. */
  lemma NotBothEqual<T(!new)>(k: T, last: T, x: T, cmp: (T, T) -> real)
    requires Consistent(cmp)
    requires cmp(last, x) > 0.0
    ensures Filter([x], SameAs(k, cmp)) == [] || Filter([last], SameAs(k, cmp)) == []
  {
    if SameAs(k, cmp)(x) && SameAs(k, cmp)(last) {
      Flip(cmp, k, last);
      Trans(cmp, last, k, x);
    }
  }

  /** Insertion sort is stable: every class keeps its input order. */
  lemma {:induction false} SortStable<T(!new)>(s: seq<T>, cmp: (T, T) -> real)
    requires Consistent(cmp)
    ensures SameClasses(InsertionSort(s, cmp), s, cmp)
  {
    if s != [] {
      var init, last := s[..|s| - 1], s[|s| - 1];
      SortStable(init, cmp);
      forall k
        ensures EqualTo(InsertionSort(s, cmp), k, cmp) == EqualTo(s, k, cmp)
      {
        var p := SameAs(k, cmp);
        InsertRightClasses(last, InsertionSort(init, cmp), k, cmp);
        FilterAppend(InsertionSort(init, cmp), [last], p);
        FilterAppend(init, [last], p);
        assert EqualTo(InsertionSort(init, cmp), k, cmp) == EqualTo(init, k, cmp);
        assert s == init + [last];
      }
    }
  }

  /** Every element compares equal to itself. */
  lemma Reflexive<T(!new)>(cmp: (T, T) -> real, a: T)
    requires Consistent(cmp)
    ensures cmp(a, a) == 0.0
  {
    Flip(cmp, a, a);
  }

  /** A sorted sequence is determined by the order of each of its classes:
      two sorted sequences with the same classes are equal. */
  lemma {:induction false} StableSortUnique<T(!new)>(s: seq<T>, t: seq<T>, cmp: (T, T) -> real)
    requires Consistent(cmp)
    requires Sorted(s, cmp) && Sorted(t, cmp)
    requires SameClasses(s, t, cmp)
    ensures s == t
    decreases |s| + |t|
  {
    if s == [] && t != [] {
      HeadInOther(t, s, cmp);
    } else if s != [] && t == [] {
      HeadInOther(s, t, cmp);
    } else if s != [] {
      SameHeads(s, t, cmp);
      SameTailClasses(s, t, cmp);
      StableSortUnique(s[1..], t[1..], cmp);
      assert s == [s[0]] + s[1..] && t == [t[0]] + t[1..];
    }
  }

  /** Two non-empty sorted sequences with the same classes start alike. */
  lemma SameHeads<T(!new)>(s: seq<T>, t: seq<T>, cmp: (T, T) -> real)
    requires Consistent(cmp)
    requires s != [] && t != []
    requires Sorted(s, cmp) && Sorted(t, cmp)
    requires SameClasses(s, t, cmp)
    ensures s[0] == t[0]
  {
    var a, b := s[0], t[0];
    // Each head occurs in the other sequence, so neither is after the other:
    // they compare equal, and then both lead the class of `a`.
    HeadInOther(s, t, cmp);
    HeadInOther(t, s, cmp);
    HeadNotAfter(t, a, cmp);
    HeadNotAfter(s, b, cmp);
    Flip(cmp, a, b);
    Reflexive(cmp, a);
    assert EqualTo(s, a, cmp) == [a] + EqualTo(s[1..], a, cmp);
    assert EqualTo(t, a, cmp) == [b] + EqualTo(t[1..], a, cmp);
    assert EqualTo(s, a, cmp)[0] == a;
    assert EqualTo(t, a, cmp)[0] == b;
  }

  /** The first element of `s` occurs in any sequence with the same classes. */
  lemma HeadInOther<T(!new)>(s: seq<T>, t: seq<T>, cmp: (T, T) -> real)
    requires Consistent(cmp)
    requires s != [] && SameClasses(s, t, cmp)
    ensures s[0] in t
  {
    Reflexive(cmp, s[0]);
    assert EqualTo(s, s[0], cmp) == [s[0]] + EqualTo(s[1..], s[0], cmp);
    assert s[0] in EqualTo(t, s[0], cmp);
  }

  /** The first element of a sorted sequence is not after any element of it. */
  lemma HeadNotAfter<T(!new)>(t: seq<T>, x: T, cmp: (T, T) -> real)
    requires Consistent(cmp)
    requires Sorted(t, cmp) && x in t
    ensures cmp(t[0], x) <= 0.0
  {
    var j :| 0 <= j < |t| && t[j] == x;
    if j == 0 {
      Reflexive(cmp, x);
    }
  }

  /** Dropping a common first element keeps the classes equal. */
  lemma SameTailClasses<T(!new)>(s: seq<T>, t: seq<T>, cmp: (T, T) -> real)
    requires s != [] && t != [] && s[0] == t[0]
    requires SameClasses(s, t, cmp)
    ensures SameClasses(s[1..], t[1..], cmp)
  {
    forall k
      ensures EqualTo(s[1..], k, cmp) == EqualTo(t[1..], k, cmp)
    {
      var p, n := SameAs(k, cmp), if SameAs(k, cmp)(s[0]) then 1 else 0;
      assert EqualTo(s, k, cmp) == EqualTo(t, k, cmp);
      assert EqualTo(s[1..], k, cmp) == EqualTo(s, k, cmp)[n..];
      assert EqualTo(t[1..], k, cmp) == EqualTo(t, k, cmp)[n..];
    }
  }

  /** Whatever stable sorting algorithm produced `t`, it is the insertion
      sort of the input: sorted output with the input's classes is unique. */
  lemma StableSortIsInsertionSort<T(!new)>(input: seq<T>, t: seq<T>, cmp: (T, T) -> real)
    requires Consistent(cmp)
    requires Sorted(t, cmp) && SameClasses(t, input, cmp)
    ensures t == InsertionSort(input, cmp)
  {
    SortSorted(input, cmp);
    SortStable(input, cmp);
    StableSortUnique(t, InsertionSort(input, cmp), cmp);
  }
}
