/** `Array.prototype.sort(comparefn)`, which section 23.1.3.30 of ECMA-262 (2024 edition)
    requires to be stable. A comparator `comparefn` is represented by `less`, where
    `less(a, b)` holds exactly when `comparefn(a, b) < 0`, i.e. `a` must precede `b`.
    For a consistent comparator, the output of a stable sort is determined by its input
    and comparator, so the insertion sort below stands for whatever algorithm the engine
    uses. */
module Sorting {
  import opened Common

  /** `less` is a strict weak order: asymmetric, and "not before" is transitive. This is
      what a consistent comparator (ECMA-262, `SortCompare`) induces. */
  ghost predicate StrictWeakOrder<T(!new)>(less: (T, T) -> bool)
  {
    && (forall x, y :: less(x, y) ==> !less(y, x))
    && (forall x, y, z :: !less(x, y) && !less(y, z) ==> !less(x, z))
  }

  /** No element is strictly before an earlier one. */
  ghost predicate Sorted<T>(s: seq<T>, less: (T, T) -> bool)
  {
    forall i, j :: 0 <= i < j < |s| ==> !less(s[j], s[i])
  }

  /** Neither element must precede the other: the comparator returns 0. */
  predicate Tied<T>(less: (T, T) -> bool, x: T, y: T)
  {
    !less(x, y) && !less(y, x)
  }

  function TiedWith<T>(less: (T, T) -> bool, x: T): T -> bool
  {
    y => Tied(less, x, y)
  }

  /** The elements of `s` that compare equal to `x`, in their order in `s`. */
  function Ties<T>(s: seq<T>, less: (T, T) -> bool, x: T): seq<T>
  {
    Filter(s, TiedWith(less, x))
  }

  /** Insert `x` into `s`, after every element it is not strictly before. */
  function Insert<T>(s: seq<T>, x: T, less: (T, T) -> bool): seq<T>
  {
    if s == [] || !less(x, s[|s| - 1]) then s + [x]
    else Insert(s[..|s| - 1], x, less) + [s[|s| - 1]]
  }

  lemma {:induction false} InsertPermutes<T>(s: seq<T>, x: T, less: (T, T) -> bool)
    ensures multiset(Insert(s, x, less)) == multiset(s) + multiset{x}
  {
    if s != [] && less(x, s[|s| - 1]) {
      var init, last := s[..|s| - 1], s[|s| - 1];
      InsertPermutes(init, x, less);
      assert s == init + [last];
      assert multiset(s) == multiset(init) + multiset{last};
      assert Insert(s, x, less) == Insert(init, x, less) + [last];
    }
  }

  /** Stable sort by insertion: sort all but the last element, then insert the last. */
  function Sort<T>(s: seq<T>, less: (T, T) -> bool): (r: seq<T>)
  {
    if s == [] then []
    else Insert(Sort(s[..|s| - 1], less), s[|s| - 1], less)
  }

  /** Sorting permutes its input. */
  lemma {:induction false} SortPermutes<T>(s: seq<T>, less: (T, T) -> bool)
    ensures multiset(Sort(s, less)) == multiset(s)
    ensures |Sort(s, less)| == |s|
  {
    if s != [] {
      SortPermutes(s[..|s| - 1], less);
      InsertPermutes(Sort(s[..|s| - 1], less), s[|s| - 1], less);
      assert s == s[..|s| - 1] + [s[|s| - 1]];
    }
    assert |Sort(s, less)| == |multiset(Sort(s, less))|;
  }

  lemma {:induction false} InsertSorted<T(!new)>(s: seq<T>, x: T, less: (T, T) -> bool)
    requires StrictWeakOrder(less)
    requires Sorted(s, less)
    ensures Sorted(Insert(s, x, less), less)
  {
    if s == [] || !less(x, s[|s| - 1]) {
      var r := s + [x];
      forall i, j | 0 <= i < j < |r| ensures !less(r[j], r[i]) {
        if j == |s| && i < |s| - 1 {
          assert !less(s[|s| - 1], s[i]);
        }
      }
    } else {
      var init, last := s[..|s| - 1], s[|s| - 1];
      InsertSorted(init, x, less);
      var r' := Insert(init, x, less);
      var r := r' + [last];
      InsertPermutes(init, x, less);
      forall i, j | 0 <= i < j < |r| ensures !less(r[j], r[i]) {
        if j == |r'| {
          assert r[i] in multiset(init) + multiset{x};
          if r[i] != x {
            assert r[i] in init;
            var k :| 0 <= k < |init| && init[k] == r[i];
            assert s[k] == r[i];
          }
        }
      }
    }
  }

  /** Sorting with a consistent comparator yields a sorted sequence. */
  lemma {:induction false} SortSorted<T(!new)>(s: seq<T>, less: (T, T) -> bool)
    requires StrictWeakOrder(less)
    ensures Sorted(Sort(s, less), less)
  {
    if s != [] {
      SortSorted(s[..|s| - 1], less);
      InsertSorted(Sort(s[..|s| - 1], less), s[|s| - 1], less);
    }
  }

  lemma {:induction false} InsertKeepsTies<T(!new)>(s: seq<T>, x: T, less: (T, T) -> bool, y: T)
    requires StrictWeakOrder(less)
    ensures Ties(Insert(s, x, less), less, y) == Ties(s, less, y) + Ties([x], less, y)
  {
    if s == [] || !less(x, s[|s| - 1]) {
      FilterAppend(s, [x], TiedWith(less, y));
    } else {
      var init, last := s[..|s| - 1], s[|s| - 1];
      InsertKeepsTies(init, x, less, y);
      FilterAppend(Insert(init, x, less), [last], TiedWith(less, y));
      assert s == init + [last];
      FilterAppend(init, [last], TiedWith(less, y));
      // x is strictly before `last`, so at most one of them is tied with y.
      if Tied(less, y, x) {
        assert !Tied(less, y, last);
        assert Ties([last], less, y) == [];
      } else if Tied(less, y, last) {
        assert Ties([x], less, y) == [];
      } else {
        assert Ties([x], less, y) == [] && Ties([last], less, y) == [];
      }
    }
  }

  /** Stability: the elements that compare equal to any `y` keep their relative order. */
  lemma {:induction false} SortStable<T(!new)>(s: seq<T>, less: (T, T) -> bool, y: T)
    requires StrictWeakOrder(less)
    ensures Ties(Sort(s, less), less, y) == Ties(s, less, y)
  {
    if s != [] {
      var init, last := s[..|s| - 1], s[|s| - 1];
      SortStable(init, less, y);
      InsertKeepsTies(Sort(init, less), last, less, y);
      assert s == init + [last];
      FilterAppend(init, [last], TiedWith(less, y));
    }
  }

  lemma TiesOfCons<T(!new)>(s: seq<T>, less: (T, T) -> bool, y: T)
    requires s != []
    ensures Ties(s, less, y) == (if Tied(less, y, s[0]) then [s[0]] else []) + Ties(s[1..], less, y)
  {
  }

  lemma TiesNonEmpty<T(!new)>(r: seq<T>, t: seq<T>, less: (T, T) -> bool)
    requires StrictWeakOrder(less)
    requires forall y :: Ties(r, less, y) == Ties(t, less, y)
    ensures r == [] <==> t == []
  {
    if r != [] {
      TiesOfCons(r, less, r[0]);
    } else if t != [] {
      TiesOfCons(t, less, t[0]);
    }
  }

  lemma SortedHeadsEqual<T(!new)>(r: seq<T>, t: seq<T>, less: (T, T) -> bool)
    requires StrictWeakOrder(less)
    requires Sorted(r, less) && Sorted(t, less) && r != [] && t != []
    requires forall y :: Ties(r, less, y) == Ties(t, less, y)
    ensures r[0] == t[0]
  {
    var x, y := r[0], t[0];
    TiesOfCons(r, less, x);
    assert x in Ties(t, less, x);
    var jx :| 0 <= jx < |t| && t[jx] == x;
    assert !less(x, y);
    TiesOfCons(t, less, y);
    assert y in Ties(r, less, y);
    var jy :| 0 <= jy < |r| && r[jy] == y;
    assert !less(y, x);
    TiesOfCons(t, less, x);
    assert Ties(r, less, x)[0] == x && Ties(t, less, x)[0] == y;
  }

  lemma TailTies<T(!new)>(r: seq<T>, t: seq<T>, less: (T, T) -> bool)
    requires r != [] && t != [] && r[0] == t[0]
    requires forall y :: Ties(r, less, y) == Ties(t, less, y)
    ensures forall z :: Ties(r[1..], less, z) == Ties(t[1..], less, z)
  {
    forall z ensures Ties(r[1..], less, z) == Ties(t[1..], less, z) {
      TiesOfCons(r, less, z);
      TiesOfCons(t, less, z);
      var head: seq<T> := if Tied(less, z, r[0]) then [r[0]] else [];
      assert Ties(r[1..], less, z) == Ties(r, less, z)[|head|..];
      assert Ties(t[1..], less, z) == Ties(t, less, z)[|head|..];
    }
  }

  /** Two sorted sequences whose elements compare-equal to any `y` appear in the same
      order are equal. */
  lemma {:induction false} SortedTiesDetermine<T(!new)>(r: seq<T>, t: seq<T>, less: (T, T) -> bool)
    requires StrictWeakOrder(less)
    requires Sorted(r, less) && Sorted(t, less)
    requires forall y :: Ties(r, less, y) == Ties(t, less, y)
    ensures r == t
    decreases |r|
  {
    TiesNonEmpty(r, t, less);
    if r != [] {
      SortedHeadsEqual(r, t, less);
      TailTies(r, t, less);
      SortedTiesDetermine(r[1..], t[1..], less);
      assert r == [r[0]] + r[1..] && t == [t[0]] + t[1..];
    }
  }

  /** A stable sort has exactly one possible output: any sorted sequence that keeps every
      group of compare-equal elements in input order is `Sort(s, less)`. So the insertion
      sort here gives the same result as any stable `Array.prototype.sort`. */
  lemma StableSortUnique<T(!new)>(s: seq<T>, r: seq<T>, less: (T, T) -> bool)
    requires StrictWeakOrder(less)
    requires Sorted(r, less)
    requires forall y :: Ties(r, less, y) == Ties(s, less, y)
    ensures r == Sort(s, less)
  {
    var t := Sort(s, less);
    SortSorted(s, less);
    forall y ensures Ties(r, less, y) == Ties(t, less, y) {
      SortStable(s, less, y);
    }
    SortedTiesDetermine(r, t, less);
  }

  /** Where `x` lands: after the elements it need not precede, before the run of
      elements at the end that it must precede. */
  lemma {:induction false} InsertPosition<T>(sorted: seq<T>, j: nat, x: T, less: (T, T) -> bool)
    requires j <= |sorted|
    requires forall k :: j <= k < |sorted| ==> less(x, sorted[k])
    requires j == 0 || !less(x, sorted[j - 1])
    ensures Insert(sorted, x, less) == sorted[..j] + [x] + sorted[j..]
    decreases |sorted|
  {
    if j < |sorted| {
      var init, last := sorted[..|sorted| - 1], sorted[|sorted| - 1];
      assert less(x, last);
      InsertPosition(init, j, x, less);
      assert Insert(sorted, x, less) == (init[..j] + [x] + init[j..]) + [last];
      assert init[..j] == sorted[..j];
      assert sorted[j..] == init[j..] + [last];
    } else {
      assert sorted[..j] == sorted && sorted[j..] == [];
    }
  }

  /** A sequence agreeing with `sorted` before `j`, holding `x` at `j` and `sorted`
      shifted by one after it, is `x` spliced into `sorted` at `j`. */
  lemma Spliced<T>(sorted: seq<T>, j: nat, x: T, b: seq<T>)
    requires j <= |sorted| && |b| == |sorted| + 1 && b[j] == x
    requires forall k :: 0 <= k < j ==> b[k] == sorted[k]
    requires forall k :: j < k < |b| ==> b[k] == sorted[k - 1]
    ensures b == sorted[..j] + [x] + sorted[j..]
  {
  }

  /** One step of the in-place sort: `a[..i]` is sorted and `a[i]` is shifted left
      past every element it must precede. */
  method InsertAt<T>(a: array<T>, i: nat, less: (T, T) -> bool)
    requires i < a.Length
    modifies a
    ensures a[..i + 1] == Insert(old(a[..i]), old(a[i]), less)
    ensures forall k :: i < k < a.Length ==> a[k] == old(a[k])
  {
    ghost var sorted := a[..i];
    var x := a[i];
    var j := i;
    while j > 0 && less(x, a[j - 1])
      invariant 0 <= j <= i
      invariant forall k :: 0 <= k < j ==> a[k] == sorted[k]
      invariant forall k :: j < k <= i ==> a[k] == sorted[k - 1]
      invariant forall k :: j <= k < i ==> less(x, sorted[k])
      invariant forall k :: i < k < a.Length ==> a[k] == old(a[k])
    {
      a[j] := a[j - 1];
      j := j - 1;
    }
    InsertPosition(sorted, j, x, less);
    a[j] := x;
    Spliced(sorted, j, x, a[..i + 1]);
  }

  /** Sorting in place on an array, as `Array.prototype.sort` does: the array ends up
      holding exactly the stable sort of its old contents. */
  method SortInPlace<T>(a: array<T>, less: (T, T) -> bool)
    modifies a
    ensures a[..] == Sort(old(a[..]), less)
  {
    ghost var orig := a[..];
    var i := 0;
    while i < a.Length
      invariant 0 <= i <= a.Length
      invariant a[..i] == Sort(orig[..i], less)
      invariant a[i..] == orig[i..]
    {
      ghost var prefix := orig[..i + 1];
      assert prefix[..i] == orig[..i] && prefix[i] == orig[i];
      assert Sort(prefix, less) == Insert(Sort(orig[..i], less), orig[i], less);
      assert a[i] == orig[i];
      InsertAt(a, i, less);
      assert forall k :: i < k < a.Length ==> a[k] == orig[k];
      assert a[i + 1..] == orig[i + 1..];
      i := i + 1;
    }
    assert orig[..a.Length] == orig;
  }
}
