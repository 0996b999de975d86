/** Orders, sorting, and the optional value used throughout the model. */
module Ordering {

  datatype Option<+T> = None | Some(value: T)

  /** The order of Go strings. Go compares bytes; on UTF-8 text that is the order of code points. */
  predicate Less(a: string, b: string) {
    b != "" && (a == "" || a[0] < b[0] || (a[0] == b[0] && Less(a[1..], b[1..])))
  }

  lemma {:induction false} LessIsTransitive(a: string, b: string, c: string)
    requires Less(a, b) && Less(b, c)
    ensures Less(a, c)
  {
    if a != "" && a[0] == b[0] && b[0] == c[0] {
      LessIsTransitive(a[1..], b[1..], c[1..]);
    }
  }

  lemma {:induction false} LessIsStrictAndTotal(a: string, b: string)
    ensures !(Less(a, b) && Less(b, a))
    ensures a == b <==> !Less(a, b) && !Less(b, a)
  {
    if a == "" || b == "" {
    } else {
      LessIsStrictAndTotal(a[1..], b[1..]);
      assert a == [a[0]] + a[1..] && b == [b[0]] + b[1..];
    }
  }

  /** `a` and `b` first differ at `n`, where `a` has ended or has the smaller character. */
  predicate DiffersAt(a: string, b: string, n: nat) {
    && n <= |a| && n < |b|
    && (forall k :: 0 <= k < n ==> a[k] == b[k])
    && (n == |a| || a[n] < b[n])
  }

  lemma {:induction false} LessHasDifference(a: string, b: string) returns (n: nat)
    requires Less(a, b)
    ensures DiffersAt(a, b, n)
  {
    if a == "" || a[0] < b[0] {
      n := 0;
    } else {
      n := LessHasDifference(a[1..], b[1..]);
      assert forall k :: 0 < k < n + 1 ==> a[k] == a[1..][k - 1] && b[k] == b[1..][k - 1];
      n := n + 1;
    }
  }

  lemma {:induction false} DifferenceIsLess(a: string, b: string, n: nat)
    requires DiffersAt(a, b, n)
    ensures Less(a, b)
  {
    if n > 0 {
      assert a[0] == b[0];
      DifferenceIsLess(a[1..], b[1..], n - 1);
    }
  }

  /** The order is that of the first difference. */
  lemma LessIsByFirstDifference(a: string, b: string)
    ensures Less(a, b) <==> exists n :: DiffersAt(a, b, n)
  {
    if Less(a, b) {
      var n := LessHasDifference(a, b);
    }
    if n :| DiffersAt(a, b, n) {
      DifferenceIsLess(a, b, n);
    }
  }

  ghost predicate StrictOrder<T(!new)>(less: (T, T) -> bool) {
    && (forall x :: !less(x, x))
    && (forall x, y, z :: less(x, y) && less(y, z) ==> less(x, z))
  }

  /** No element is preceded by one that should come after it. */
  ghost predicate Sorted<T>(xs: seq<T>, less: (T, T) -> bool) {
    forall i, j :: 0 <= i < j < |xs| ==> !less(xs[j], xs[i])
  }

  /** Any two different elements are ordered one way or the other. */
  ghost predicate TotalOn<T>(xs: seq<T>, less: (T, T) -> bool) {
    forall x, y :: x in xs && y in xs ==> x == y || less(x, y) || less(y, x)
  }

  lemma InsertKeepsSorted<T(!new)>(xs: seq<T>, i: nat, x: T, less: (T, T) -> bool)
    requires Sorted(xs, less) && i <= |xs|
    requires forall k :: 0 <= k < i ==> !less(x, xs[k])
    requires forall k :: i <= k < |xs| ==> !less(xs[k], x)
    ensures Sorted(xs[..i] + [x] + xs[i..], less)
  {
    var ys := xs[..i] + [x] + xs[i..];
    forall a, b | 0 <= a < b < |ys|
      ensures !less(ys[b], ys[a])
    {
      assert a != i ==> ys[a] == xs[if a < i then a else a - 1];
      assert b != i ==> ys[b] == xs[if b < i then b else b - 1];
    }
  }

  /** Puts `x` before the first element that must come after it. */
  method Insert<T(!new)>(xs: seq<T>, x: T, less: (T, T) -> bool) returns (ys: seq<T>)
    requires StrictOrder(less) && Sorted(xs, less)
    ensures multiset(ys) == multiset(xs) + multiset{x}
    ensures Sorted(ys, less)
  {
    var i := 0;
    while i < |xs| && !less(x, xs[i])
      invariant i <= |xs|
      invariant forall k :: 0 <= k < i ==> !less(x, xs[k])
    {
      i := i + 1;
    }
    ys := xs[..i] + [x] + xs[i..];
    assert xs == xs[..i] + xs[i..];
    forall k | i <= k < |xs|
      ensures !less(xs[k], x)
    {
      assert !less(xs[k], xs[i]);
    }
    InsertKeepsSorted(xs, i, x, less);
  }

  /** Stands for `sort.Slice`: callers learn only that the result is a sorted permutation. */
  method SortBy<T(!new)>(xs: seq<T>, less: (T, T) -> bool) returns (ys: seq<T>)
    requires StrictOrder(less)
    ensures multiset(ys) == multiset(xs)
    ensures Sorted(ys, less)
  {
    ys := [];
    for n := 0 to |xs|
      invariant multiset(ys) == multiset(xs[..n])
      invariant Sorted(ys, less)
    {
      ys := Insert(ys, xs[n], less);
      assert xs[..n + 1] == xs[..n] + [xs[n]];
    }
    assert xs[..|xs|] == xs;
  }

  lemma SortedStartsAreEqual<T>(a: seq<T>, b: seq<T>, less: (T, T) -> bool)
    requires a != [] && b != [] && a[0] in b && b[0] in a
    requires Sorted(a, less) && Sorted(b, less) && TotalOn(a, less)
    ensures a[0] == b[0]
  {
  }

  lemma MultisetOfRest<T>(a: seq<T>)
    requires a != []
    ensures multiset(a[1..]) == multiset(a) - multiset{a[0]}
  {
    assert a == [a[0]] + a[1..];
  }

  /** A sorted arrangement is unique when the order is total on what is arranged. */
  lemma {:induction false} SortedArrangementIsUnique<T>(a: seq<T>, b: seq<T>, less: (T, T) -> bool)
    requires multiset(a) == multiset(b)
    requires Sorted(a, less) && Sorted(b, less) && TotalOn(a, less)
    ensures a == b
  {
    assert |a| == |multiset(a)| == |multiset(b)| == |b|;
    if a != [] {
      PermutationKeepsElements(a, b);
      SortedStartsAreEqual(a, b, less);
      MultisetOfRest(a);
      MultisetOfRest(b);
      SortedArrangementIsUnique(a[1..], b[1..], less);
      assert a == [a[0]] + a[1..] && b == [b[0]] + b[1..];
    }
  }

  /** Nothing occurs twice. */
  ghost predicate NoRepeats<T>(xs: seq<T>) {
    forall i, j :: 0 <= i < j < |xs| ==> xs[i] != xs[j]
  }

  lemma {:induction false} NoRepeatsIsMultiplicityOne<T>(xs: seq<T>)
    ensures NoRepeats(xs) <==> forall x :: multiset(xs)[x] <= 1
  {
    if xs != [] {
      var rest, last := xs[..|xs| - 1], xs[|xs| - 1];
      assert xs == rest + [last];
      NoRepeatsIsMultiplicityOne(rest);
      if NoRepeats(xs) {
        assert last !in rest;
      } else if NoRepeats(rest) {
        assert last in rest;
        assert multiset(xs)[last] == multiset(rest)[last] + 1;
      } else {
        var x :| multiset(rest)[x] > 1;
        assert multiset(xs)[x] >= multiset(rest)[x];
      }
    }
  }

  /** A permutation repeats nothing if the original did not. */
  lemma PermutationKeepsNoRepeats<T>(xs: seq<T>, ys: seq<T>)
    requires multiset(xs) == multiset(ys) && NoRepeats(xs)
    ensures NoRepeats(ys)
  {
    NoRepeatsIsMultiplicityOne(xs);
    NoRepeatsIsMultiplicityOne(ys);
  }

  lemma PermutationKeepsElements<T>(xs: seq<T>, ys: seq<T>)
    requires multiset(xs) == multiset(ys)
    ensures forall x :: x in xs <==> x in ys
  {
    forall x
      ensures x in xs <==> x in ys
    {
      assert x in xs <==> x in multiset(xs);
    }
  }

  lemma SameElementsSameMultiset<T>(xs: seq<T>, ys: seq<T>)
    requires NoRepeats(xs) && NoRepeats(ys)
    requires forall x :: x in xs <==> x in ys
    ensures multiset(xs) == multiset(ys)
  {
    NoRepeatsIsMultiplicityOne(xs);
    NoRepeatsIsMultiplicityOne(ys);
    forall x
      ensures multiset(xs)[x] == multiset(ys)[x]
    {
      assert x in xs <==> x in multiset(xs);
      assert x in ys <==> x in multiset(ys);
    }
  }
}
