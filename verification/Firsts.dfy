/** Judging a list by the first relevant element of each key: when the judgement is the same in every order. */
module Firsts {

  /** No earlier relevant element has the same key. */
  ghost predicate IsFirst<E(!new), K>(rel: E -> bool, key: E -> K, s: seq<E>, j: nat)
    requires j < |s|
  {
    rel(s[j]) && forall i :: 0 <= i < j && rel(s[i]) ==> key(s[i]) != key(s[j])
  }

  ghost predicate FirstsGood<E(!new), K>(rel: E -> bool, key: E -> K, good: E -> bool, s: seq<E>) {
    forall j :: 0 <= j < |s| && IsFirst(rel, key, s, j) ==> good(s[j])
  }

  /** Every relevant element is good, not only the first of each key. */
  ghost predicate AllGood<E(!new)>(rel: E -> bool, good: E -> bool, s: seq<E>) {
    forall x <- s :: rel(x) ==> good(x)
  }

  /** No relevant element with the key of this one is good. */
  ghost predicate KeyBad<E(!new), K>(rel: E -> bool, key: E -> K, good: E -> bool, s: seq<E>, x: E) {
    rel(x) && forall y <- s :: rel(y) && key(y) == key(x) ==> !good(y)
  }

  ghost predicate SomeKeyBad<E(!new), K>(rel: E -> bool, key: E -> K, good: E -> bool, s: seq<E>) {
    exists x <- s :: KeyBad(rel, key, good, s, x)
  }

  lemma {:induction false} FirstAt<E(!new), K>(rel: E -> bool, key: E -> K, s: seq<E>, n: nat) returns (j: nat)
    requires n < |s| && rel(s[n])
    ensures j <= n && IsFirst(rel, key, s, j) && key(s[j]) == key(s[n])
  {
    if IsFirst(rel, key, s, n) {
      j := n;
    } else {
      var i :| 0 <= i < n && rel(s[i]) && key(s[i]) == key(s[n]);
      j := FirstAt(rel, key, s, i);
    }
  }

  lemma {:induction false} BadKeyFails<E(!new), K>(rel: E -> bool, key: E -> K, good: E -> bool, s: seq<E>)
    requires SomeKeyBad(rel, key, good, s)
    ensures !FirstsGood(rel, key, good, s)
  {
    var x :| x in s && KeyBad(rel, key, good, s, x);
    var n :| 0 <= n < |s| && s[n] == x;
    var j := FirstAt(rel, key, s, n);
    assert s[j] in s;
  }

  lemma SameMembers<E(!new)>(a: seq<E>, b: seq<E>)
    requires multiset(a) == multiset(b)
    ensures forall x :: x in a <==> x in b
  {
    assert forall x :: x in a <==> x in multiset(a);
    assert forall x :: x in b <==> x in multiset(b);
  }

  // ---------------------------------------------------------------- the best and the worst order

  function Keep<E(!new)>(p: E -> bool, s: seq<E>): seq<E> {
    if s == [] then [] else (if p(s[0]) then [s[0]] else []) + Keep(p, s[1..])
  }

  lemma {:induction false} KeepDropMembers<E(!new)>(p: E -> bool, s: seq<E>)
    ensures forall x :: x in Keep(p, s) <==> x in s && p(x)
    ensures forall x :: x in Drop(p, s) <==> x in s && !p(x)
  {
    if s != [] {
      KeepDropMembers(p, s[1..]);
      assert forall x :: x in s <==> x == s[0] || x in s[1..];
    }
  }

  function Drop<E(!new)>(p: E -> bool, s: seq<E>): seq<E> {
    if s == [] then [] else (if p(s[0]) then [] else [s[0]]) + Drop(p, s[1..])
  }

  function GoodFirst<E(!new)>(good: E -> bool, s: seq<E>): seq<E> {
    Keep(good, s) + Drop(good, s)
  }

  lemma {:induction false} GoodFirstPermutes<E(!new)>(good: E -> bool, s: seq<E>)
    ensures multiset(GoodFirst(good, s)) == multiset(s)
  {
    if s != [] {
      GoodFirstPermutes(good, s[1..]);
      assert s == [s[0]] + s[1..];
    }
  }

  /** With all good elements in front, only the keys without a good element fail. */
  lemma {:induction false} GoodFirstPasses<E(!new), K>(rel: E -> bool, key: E -> K, good: E -> bool, s: seq<E>)
    requires !SomeKeyBad(rel, key, good, s)
    ensures FirstsGood(rel, key, good, GoodFirst(good, s))
  {
    var front, back := Keep(good, s), Drop(good, s);
    KeepDropMembers(good, s);
    forall x | x in back && rel(x)
      ensures exists y <- front :: rel(y) && key(y) == key(x)
    {
      assert x in s && !KeyBad(rel, key, good, s, x);
    }
    FrontDecides(rel, key, good, front, back);
  }

  lemma {:induction false} FrontDecides<E(!new), K>(rel: E -> bool, key: E -> K, good: E -> bool, front: seq<E>, back: seq<E>)
    requires forall x <- front :: good(x)
    requires forall x <- back :: rel(x) ==> exists y <- front :: rel(y) && key(y) == key(x)
    ensures FirstsGood(rel, key, good, front + back)
  {
    var r := front + back;
    forall j | |front| <= j < |r| && rel(r[j])
      ensures !IsFirst(rel, key, r, j)
    {
      assert r[j] == back[j - |front|] && r[j] in back;
      var y :| y in front && rel(y) && key(y) == key(r[j]);
      var i :| 0 <= i < |front| && front[i] == y;
      assert r[i] == y;
    }
    assert forall j :: 0 <= j < |front| ==> r[j] == front[j] && front[j] in front;
  }

  /** With a bad element in front, its key fails. */
  lemma {:induction false} BadFirst<E(!new), K>(rel: E -> bool, key: E -> K, good: E -> bool, s: seq<E>) returns (r: seq<E>)
    requires !AllGood(rel, good, s)
    ensures multiset(r) == multiset(s) && !FirstsGood(rel, key, good, r)
  {
    var x :| x in s && rel(x) && !good(x);
    var n :| 0 <= n < |s| && s[n] == x;
    r := [x] + s[..n] + s[n + 1..];
    assert s == s[..n] + [x] + s[n + 1..];
    assert r[0] == x && IsFirst(rel, key, r, 0);
  }

  ghost predicate OrderFree<E(!new), K>(rel: E -> bool, key: E -> K, good: E -> bool, s: seq<E>) {
    forall r: seq<E> :: multiset(r) == multiset(s) ==> (FirstsGood(rel, key, good, r) <==> FirstsGood(rel, key, good, s))
  }

  /** The order does not matter exactly when every relevant element is good, or some key has no good element. */
  lemma {:induction false} OrderFreeExact<E(!new), K>(rel: E -> bool, key: E -> K, good: E -> bool, s: seq<E>)
    ensures OrderFree(rel, key, good, s) <==> AllGood(rel, good, s) || SomeKeyBad(rel, key, good, s)
  {
    if AllGood(rel, good, s) || SomeKeyBad(rel, key, good, s) {
      forall r: seq<E> | multiset(r) == multiset(s)
        ensures FirstsGood(rel, key, good, r) <==> FirstsGood(rel, key, good, s)
      {
        SettledInAnyOrder(rel, key, good, s, r);
      }
    } else {
      GoodFirstPermutes(good, s);
      GoodFirstPasses(rel, key, good, s);
      var r := BadFirst(rel, key, good, s);
      assert multiset(GoodFirst(good, s)) == multiset(s) && multiset(r) == multiset(s);
    }
  }

  lemma {:induction false} SettledInAnyOrder<E(!new), K>(rel: E -> bool, key: E -> K, good: E -> bool, s: seq<E>, r: seq<E>)
    requires multiset(r) == multiset(s)
    requires AllGood(rel, good, s) || SomeKeyBad(rel, key, good, s)
    ensures FirstsGood(rel, key, good, r) <==> FirstsGood(rel, key, good, s)
  {
    SameMembers(r, s);
    if AllGood(rel, good, s) {
      assert forall j :: 0 <= j < |s| ==> s[j] in s;
      assert forall j :: 0 <= j < |r| ==> r[j] in r;
    } else {
      var x :| x in s && KeyBad(rel, key, good, s, x);
      assert x in r && KeyBad(rel, key, good, r, x);
      BadKeyFails(rel, key, good, s);
      BadKeyFails(rel, key, good, r);
    }
  }

  lemma {:induction false} FirstOfTwo<E(!new), K>(rel: E -> bool, key: E -> K, good: E -> bool, a: E, b: E)
    requires rel(a) && rel(b) && key(a) == key(b)
    ensures FirstsGood(rel, key, good, [a, b]) <==> good(a)
  {
    var s := [a, b];
    assert s[0] == a && s[1] == b && IsFirst(rel, key, s, 0) && !IsFirst(rel, key, s, 1);
  }
}
