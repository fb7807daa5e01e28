/** Index-free descriptions of what the three kinds of eager loading attach, on sequences of keys. */
module Joins {
  import opened Wrappers

  /** The elements whose key is k, in order. */
  function WithKey<K(==), T>(keys: seq<K>, xs: seq<T>, k: K): seq<T>
    requires |keys| == |xs|
    decreases |xs|
  {
    if xs == [] then []
    else
      var n := |xs| - 1;
      WithKey(keys[..n], xs[..n], k) + (if keys[n] == k then [xs[n]] else [])
  }

  /** The last element whose key is k. */
  function LastWithKey<K(==), T>(keys: seq<K>, xs: seq<T>, k: K): Option<T>
    requires |keys| == |xs|
    decreases |xs|
  {
    if xs == [] then None
    else
      var n := |xs| - 1;
      if keys[n] == k then Some(xs[n]) else LastWithKey(keys[..n], xs[..n], k)
  }

  /** The keys that are not nil, each at its first occurrence. */
  function FirstKeys(keys: seq<Option<int>>): seq<int>
    decreases |keys|
  {
    if keys == [] then []
    else
      var before := FirstKeys(keys[..|keys| - 1]);
      match keys[|keys| - 1]
      case None => before
      case Some(k) => if k in before then before else before + [k]
  }

  ghost predicate Distinct<T>(s: seq<T>) {
    forall i, j :: 0 <= i < j < |s| ==> s[i] != s[j]
  }

  /** No later position has the same value. */
  predicate IsLast<T(==)>(s: seq<T>, i: nat)
    requires i < |s|
  {
    s[i] !in s[i + 1..]
  }

  lemma {:induction false} FirstKeysExact(keys: seq<Option<int>>)
    ensures Distinct(FirstKeys(keys))
    ensures forall k :: k in FirstKeys(keys) <==> Some(k) in keys
    decreases |keys|
  {
    if keys != [] {
      var n := |keys| - 1;
      FirstKeysExact(keys[..n]);
      assert keys == keys[..n] + [keys[n]];
    }
  }

  lemma {:induction false} WithKeyMembers<K, T>(keys: seq<K>, xs: seq<T>, k: K)
    requires |keys| == |xs|
    ensures forall x <- WithKey(keys, xs, k) :: x in xs
    ensures forall i :: 0 <= i < |xs| && keys[i] == k ==> xs[i] in WithKey(keys, xs, k)
    ensures Distinct(xs) ==> forall i :: 0 <= i < |xs| && xs[i] in WithKey(keys, xs, k) ==> keys[i] == k
    decreases |xs|
  {
    if xs != [] {
      var n := |xs| - 1;
      WithKeyMembers(keys[..n], xs[..n], k);
      assert xs == xs[..n] + [xs[n]];
      assert Distinct(xs) ==> Distinct(xs[..n]) && xs[n] !in xs[..n];
    }
  }

  lemma {:induction false} LastWithKeyExists<K, T>(keys: seq<K>, xs: seq<T>, k: K)
    requires |keys| == |xs|
    ensures LastWithKey(keys, xs, k) == None <==> k !in keys
    ensures LastWithKey(keys, xs, k).Some? ==> exists i :: 0 <= i < |xs| && keys[i] == k && xs[i] == LastWithKey(keys, xs, k).value
    decreases |xs|
  {
    if xs != [] {
      var n := |xs| - 1;
      LastWithKeyExists(keys[..n], xs[..n], k);
      assert keys == keys[..n] + [keys[n]];
    }
  }

  lemma {:induction false} DistinctIsLast<T>(s: seq<T>, i: nat)
    requires Distinct(s) && i < |s|
    ensures IsLast(s, i)
  {
  }

  // ---------------------------------------------------------------- nothing is lost

  function Sum(ns: seq<nat>): nat
    decreases |ns|
  {
    if ns == [] then 0 else Sum(ns[..|ns| - 1]) + ns[|ns| - 1]
  }

  /** How many children each parent gets. */
  function Counts<T>(ids: seq<int>, keys: seq<int>, xs: seq<T>): seq<nat>
    requires |keys| == |xs|
  {
    seq(|ids|, i requires 0 <= i < |ids| => |WithKey(keys, xs, ids[i])|)
  }

  lemma {:induction false} SumBump(a: seq<nat>, b: seq<nat>, i: nat)
    requires |a| == |b| && i < |a| && b[i] == a[i] + 1
    requires forall j :: 0 <= j < |a| && j != i ==> a[j] == b[j]
    ensures Sum(b) == Sum(a) + 1
    decreases |a|
  {
    var n := |a| - 1;
    if i < n {
      SumBump(a[..n], b[..n], i);
    } else {
      assert a[..n] == b[..n];
    }
  }

  /** One-to-many: with distinct parents that include every child's key, each child lands in exactly one list. */
  lemma {:induction false} Partition<T>(ids: seq<int>, keys: seq<int>, xs: seq<T>)
    requires |keys| == |xs| && Distinct(ids) && forall k <- keys :: k in ids
    ensures Sum(Counts(ids, keys, xs)) == |xs|
    decreases |xs|
  {
    if xs == [] {
      SumZero(Counts(ids, keys, xs));
    } else {
      var n := |xs| - 1;
      Partition(ids, keys[..n], xs[..n]);
      assert keys[n] in keys;
      var i :| 0 <= i < |ids| && ids[i] == keys[n];
      SumBump(Counts(ids, keys[..n], xs[..n]), Counts(ids, keys, xs), i);
    }
  }

  lemma {:induction false} SumZero(ns: seq<nat>)
    requires forall i :: 0 <= i < |ns| ==> ns[i] == 0
    ensures Sum(ns) == 0
    decreases |ns|
  {
    if ns != [] {
      SumZero(ns[..|ns| - 1]);
    }
  }
}
