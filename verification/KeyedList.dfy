/** Slices searched by a key: the finite map they stand for, and what replace, append and cut do to it. */
module KeyedList {
  import opened Ordering

  /** The first position whose key is `k`. */
  function Find<T, K(==, !new)>(xs: seq<T>, key: T -> K, k: K): (r: Option<nat>)
    ensures r.Some? ==> r.value < |xs| && key(xs[r.value]) == k
    ensures r.Some? ==> forall i :: 0 <= i < r.value ==> key(xs[i]) != k
    ensures r.None? ==> forall i :: 0 <= i < |xs| ==> key(xs[i]) != k
  {
    if xs == [] then None
    else if key(xs[0]) == k then Some(0)
    else match Find(xs[1..], key, k) case None => None case Some(i) => Some(i + 1)
  }

  /** Replaces the first entry with the key of `x`, or appends `x`. */
  function Put<T, K(==, !new)>(xs: seq<T>, key: T -> K, x: T): seq<T> {
    match Find(xs, key, key(x))
    case Some(i) => xs[i := x]
    case None => xs + [x]
  }

  /** Cuts out the first entry with key `k`. */
  function Remove<T, K(==, !new)>(xs: seq<T>, key: T -> K, k: K): seq<T> {
    match Find(xs, key, k)
    case Some(i) => xs[..i] + xs[i + 1..]
    case None => xs
  }

  ghost predicate Distinct<T, K(!new)>(xs: seq<T>, key: T -> K) {
    forall i, j :: 0 <= i < j < |xs| ==> key(xs[i]) != key(xs[j])
  }

  function Keys<T, K>(xs: seq<T>, key: T -> K): seq<K> {
    seq(|xs|, i requires 0 <= i < |xs| => key(xs[i]))
  }

  /** What a search for `k` yields. */
  function Lookup<T, K(==, !new)>(xs: seq<T>, key: T -> K, k: K): Option<T> {
    match Find(xs, key, k) case Some(i) => Some(xs[i]) case None => None
  }

  /** The finite map a list stands for. */
  ghost function AsMap<T, K(!new)>(xs: seq<T>, key: T -> K): map<K, T> {
    map k | k in (set x | x in xs :: key(x)) && Find(xs, key, k).Some? :: xs[Find(xs, key, k).value]
  }

  lemma AsMapIsLookup<T, K(!new)>(xs: seq<T>, key: T -> K, k: K)
    ensures k in AsMap(xs, key) <==> Lookup(xs, key, k).Some?
    ensures k in AsMap(xs, key) ==> Lookup(xs, key, k) == Some(AsMap(xs, key)[k])
  {
    var at := Find(xs, key, k);
    assert at.Some? ==> xs[at.value] in xs;
  }

  lemma FindAt<T, K(!new)>(xs: seq<T>, key: T -> K, i: nat)
    requires Distinct(xs, key) && i < |xs|
    ensures Find(xs, key, key(xs[i])) == Some(i)
  {
  }

  lemma PutKeepsDistinct<T, K(!new)>(xs: seq<T>, key: T -> K, x: T)
    requires Distinct(xs, key)
    ensures Distinct(Put(xs, key, x), key)
  {
  }

  lemma LookupAfterPut<T, K(!new)>(xs: seq<T>, key: T -> K, x: T, k: K)
    requires Distinct(xs, key)
    ensures Lookup(Put(xs, key, x), key, k) == if k == key(x) then Some(x) else Lookup(xs, key, k)
  {
    var ys := Put(xs, key, x);
    PutKeepsDistinct(xs, key, x);
    var at := Find(xs, key, k);
    if at.Some? {
      FindAt(ys, key, at.value);
    } else if k == key(x) {
      FindAt(ys, key, |xs|);
    }
  }

  /** `Put` is map update; it keeps keys distinct and every other entry where it was. */
  lemma PutIsMapUpdate<T, K(!new)>(xs: seq<T>, key: T -> K, x: T)
    requires Distinct(xs, key)
    ensures Distinct(Put(xs, key, x), key)
    ensures AsMap(Put(xs, key, x), key) == AsMap(xs, key)[key(x) := x]
    ensures Keys(Put(xs, key, x), key) ==
            if Find(xs, key, key(x)).Some? then Keys(xs, key) else Keys(xs, key) + [key(x)]
  {
    var ys := Put(xs, key, x);
    PutKeepsDistinct(xs, key, x);
    var m, n := AsMap(xs, key)[key(x) := x], AsMap(ys, key);
    forall k
      ensures k in n <==> k in m
      ensures k in n ==> n[k] == m[k]
    {
      LookupAfterPut(xs, key, x, k);
      AsMapIsLookup(xs, key, k);
      AsMapIsLookup(ys, key, k);
    }
  }

  lemma LookupAfterRemove<T, K(!new)>(xs: seq<T>, key: T -> K, k: K, q: K)
    requires Distinct(xs, key)
    ensures Distinct(Remove(xs, key, k), key)
    ensures Lookup(Remove(xs, key, k), key, q) == if q == k then None else Lookup(xs, key, q)
  {
    var ys := Remove(xs, key, k);
    if Find(xs, key, k).Some? {
      var i := Find(xs, key, k).value;
      assert forall j :: 0 <= j < |ys| ==> ys[j] == xs[if j < i then j else j + 1];
      var at, left := Find(xs, key, q), Find(ys, key, q);
      if q != k && at.Some? {
        var j := if at.value < i then at.value else at.value - 1;
        assert ys[j] == xs[at.value];
        FindAt(ys, key, j);
      }
    }
  }

  lemma RemoveKeepsOrder<T, K(!new)>(xs: seq<T>, key: T -> K, i: nat)
    requires i < |xs|
    ensures Keys(xs[..i] + xs[i + 1..], key) == Keys(xs, key)[..i] + Keys(xs, key)[i + 1..]
  {
  }

  lemma MapAfterRemove<T, K(!new)>(xs: seq<T>, key: T -> K, k: K)
    requires Distinct(xs, key)
    ensures AsMap(Remove(xs, key, k), key) == AsMap(xs, key) - {k}
  {
    var m, n := AsMap(xs, key) - {k}, AsMap(Remove(xs, key, k), key);
    forall q
      ensures q in n <==> q in m
      ensures q in n ==> n[q] == m[q]
    {
      LookupAfterRemove(xs, key, k, q);
      AsMapIsLookup(xs, key, q);
      AsMapIsLookup(Remove(xs, key, k), key, q);
    }
  }

  /** `Remove` is map deletion; it keeps keys distinct and the order of what remains. */
  lemma RemoveIsMapDelete<T, K(!new)>(xs: seq<T>, key: T -> K, k: K)
    requires Distinct(xs, key)
    ensures Distinct(Remove(xs, key, k), key)
    ensures AsMap(Remove(xs, key, k), key) == AsMap(xs, key) - {k}
    ensures match Find(xs, key, k)
            case Some(i) => Keys(Remove(xs, key, k), key) == Keys(xs, key)[..i] + Keys(xs, key)[i + 1..]
            case None => Remove(xs, key, k) == xs
  {
    LookupAfterRemove(xs, key, k, k);
    MapAfterRemove(xs, key, k);
    match Find(xs, key, k)
    case Some(i) => RemoveKeepsOrder(xs, key, i);
    case None =>
  }

  lemma {:induction false} LookupInAppend<T, K(!new)>(xs: seq<T>, key: T -> K, x: T, k: K)
    ensures Lookup(xs + [x], key, k) ==
            if Lookup(xs, key, k).Some? then Lookup(xs, key, k) else if key(x) == k then Some(x) else None
  {
    if xs != [] {
      assert (xs + [x])[1..] == xs[1..] + [x];
      LookupInAppend(xs[1..], key, x, k);
    }
  }

  lemma DistinctAppend<T, K(!new)>(xs: seq<T>, key: T -> K, x: T)
    ensures Distinct(xs + [x], key) <==> Distinct(xs, key) && Lookup(xs, key, key(x)).None?
  {
    var ys := xs + [x];
    if Distinct(ys, key) {
      assert forall i :: 0 <= i < |xs| ==> ys[i] == xs[i];
      assert forall i :: 0 <= i < |xs| ==> key(ys[i]) != key(ys[|xs|]);
    } else if Distinct(xs, key) {
      var i, j :| 0 <= i < j < |ys| && key(ys[i]) == key(ys[j]);
      assert j == |xs|;
    }
  }

  /** At most one key more, at the end. */
  ghost predicate GrownBy<K>(before: seq<K>, after: seq<K>, k: K) {
    after == before || after == before + [k]
  }

  /** At most the key `k` less, in one place, the others in their order. */
  ghost predicate CutBy<K>(before: seq<K>, after: seq<K>, k: K) {
    after == before ||
    exists i :: 0 <= i < |before| && before[i] == k && after == before[..i] + before[i + 1..]
  }

  lemma KeysAfterPut<T, K(!new)>(xs: seq<T>, key: T -> K, x: T)
    ensures GrownBy(Keys(xs, key), Keys(Put(xs, key, x), key), key(x))
  {
  }

  lemma KeysAfterRemove<T, K(!new)>(xs: seq<T>, key: T -> K, k: K)
    ensures CutBy(Keys(xs, key), Keys(Remove(xs, key, k), key), k)
  {
    match Find(xs, key, k)
    case Some(i) =>
      RemoveKeepsOrder(xs, key, i);
      assert Keys(xs, key)[i] == k;
    case None =>
  }

  /** The last entry whose key is `k`. */
  function LastWith<T, K(==, !new)>(xs: seq<T>, key: T -> K, k: K): Option<T> {
    if xs == [] then None
    else if key(xs[|xs| - 1]) == k then Some(xs[|xs| - 1])
    else LastWith(xs[..|xs| - 1], key, k)
  }

  lemma LastWithAppend<T, K(!new)>(xs: seq<T>, key: T -> K, x: T, k: K)
    ensures LastWith(xs + [x], key, k) == if key(x) == k then Some(x) else LastWith(xs, key, k)
  {
    assert (xs + [x])[..|xs|] == xs;
  }

  /** With distinct keys the last entry of a key is the one a search finds. */
  lemma {:induction false} LastIsOnly<T, K(!new)>(xs: seq<T>, key: T -> K, k: K)
    requires Distinct(xs, key)
    ensures LastWith(xs, key, k) == Lookup(xs, key, k)
  {
    if xs != [] {
      var rest, last := xs[..|xs| - 1], xs[|xs| - 1];
      assert xs == rest + [last];
      LastIsOnly(rest, key, k);
      DistinctAppend(rest, key, last);
      LookupInAppend(rest, key, last, k);
    }
  }

  lemma {:induction false} LastWithAt<T, K(!new)>(xs: seq<T>, key: T -> K, i: nat)
    requires i < |xs| && forall j :: i < j < |xs| ==> key(xs[j]) != key(xs[i])
    ensures LastWith(xs, key, key(xs[i])) == Some(xs[i])
  {
    if i < |xs| - 1 {
      LastWithAt(xs[..|xs| - 1], key, i);
    }
  }
}
