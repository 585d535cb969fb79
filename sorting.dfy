/** The two uses of Python's `sorted` in the compositor: the ascending order
    of a set of distinct keys (building heights, wall segments) and the
    stable sort of points by descending priority. */
module Sorting {

  /** `key` tells the members of `s` apart. */
  ghost predicate InjectiveOn<T(!new)>(s: set<T>, key: T -> real)
  {
    forall a, b :: a in s && b in s && key(a) == key(b) ==> a == b
  }

  ghost predicate StrictlyAscending<T(!new)>(r: seq<T>, key: T -> real)
  {
    forall i, j :: 0 <= i < j < |r| ==> key(r[i]) < key(r[j])
  }

  lemma {:induction false} MinExists<T(!new)>(s: set<T>, key: T -> real)
    requires s != {}
    ensures exists m :: m in s && forall y :: y in s ==> key(m) <= key(y)
    decreases |s|
  {
    var x :| x in s;
    if s != {x} {
      MinExists(s - {x}, key);
      var m :| m in s - {x} && forall y :: y in s - {x} ==> key(m) <= key(y);
      if key(x) < key(m) {
        assert forall y :: y in s ==> key(x) <= key(y);
      } else {
        assert forall y :: y in s ==> key(m) <= key(y);
      }
    } else {
      assert forall y :: y in s ==> key(x) <= key(y);
    }
  }

  /** The member of `s` with the least key. */
  function MinBy<T(!new)>(s: set<T>, key: T -> real): (m: T)
    requires s != {} && InjectiveOn(s, key)
    ensures m in s && forall y :: y in s ==> key(m) <= key(y)
  {
    MinExists(s, key);
    var m :| m in s && forall y :: y in s ==> key(m) <= key(y);
    m
  }

  /** `sorted(s)` for a set whose members are ordered by `key`: every member
      once, in ascending key order. */
  function SortedBy<T(!new)>(s: set<T>, key: T -> real): (r: seq<T>)
    requires InjectiveOn(s, key)
    ensures |r| == |s|
    ensures forall x :: x in r <==> x in s
    ensures StrictlyAscending(r, key)
    decreases |s|
  {
    if s == {} then []
    else
      var m := MinBy(s, key);
      var rest := SortedBy(s - {m}, key);
      PrependMin(s, key, m, rest);
      [m] + rest
  }

  lemma PrependMin<T(!new)>(s: set<T>, key: T -> real, m: T, rest: seq<T>)
    requires InjectiveOn(s, key) && m in s && forall y :: y in s ==> key(m) <= key(y)
    requires |rest| == |s - {m}| && StrictlyAscending(rest, key)
    requires forall x :: x in rest <==> x in s - {m}
    ensures |[m] + rest| == |s| && StrictlyAscending([m] + rest, key)
    ensures forall x :: x in [m] + rest <==> x in s
  {
    var r := [m] + rest;
    forall i, j | 0 <= i < j < |r| ensures key(r[i]) < key(r[j]) {
      if i == 0 {
        assert r[j] == rest[j - 1] && rest[j - 1] in s - {m};
      } else {
        assert r[i] == rest[i - 1] && r[j] == rest[j - 1];
      }
    }
  }

  /** Point `a` comes before point `b`: higher priority first, equal
      priorities in input order. This is the order of a stable sort on the
      key `-priority`. */
  predicate Before(priorities: seq<real>, a: nat, b: nat)
    requires a < |priorities| && b < |priorities|
  {
    priorities[a] > priorities[b] || (priorities[a] == priorities[b] && a < b)
  }

  predicate InRange(priorities: seq<real>, order: seq<nat>)
  {
    forall i :: 0 <= i < |order| ==> order[i] < |priorities|
  }

  predicate OrderedBy(priorities: seq<real>, order: seq<nat>)
    requires InRange(priorities, order)
  {
    forall i, j :: 0 <= i < j < |order| ==> Before(priorities, order[i], order[j])
  }

  /** Inserts index `x` in front of the first index it comes before. */
  function Insert(priorities: seq<real>, x: nat, order: seq<nat>): (r: seq<nat>)
    requires x < |priorities| && InRange(priorities, order)
    ensures |r| == |order| + 1 && InRange(priorities, r)
    ensures multiset(r) == multiset(order) + multiset{x}
  {
    if |order| == 0 then [x]
    else if Before(priorities, x, order[0]) then [x] + order
    else
      assert order == [order[0]] + order[1..];
      [order[0]] + Insert(priorities, x, order[1..])
  }

  lemma {:induction false} InsertOrdered(priorities: seq<real>, x: nat, order: seq<nat>)
    requires x < |priorities| && InRange(priorities, order) && OrderedBy(priorities, order)
    requires x !in order
    ensures OrderedBy(priorities, Insert(priorities, x, order))
  {
    if |order| > 0 && !Before(priorities, x, order[0]) {
      var tail := order[1..];
      assert x !in tail;
      InsertOrdered(priorities, x, tail);
      var r := Insert(priorities, x, order);
      var inserted := Insert(priorities, x, tail);
      assert r == [order[0]] + inserted;
      forall j | 0 < j < |r| ensures Before(priorities, order[0], r[j]) {
        assert r[j] in multiset(inserted);
        assert r[j] in multiset(tail) + multiset{x};
        if r[j] != x {
          assert r[j] in tail;
          var k :| 0 <= k < |tail| && tail[k] == r[j];
          assert order[k + 1] == r[j];
        } else {
          assert x != order[0];
        }
      }
    } else if |order| > 0 {
      var r := Insert(priorities, x, order);
      forall j | 0 < j < |r| ensures Before(priorities, x, r[j]) {
        assert r[j] == order[j - 1];
        if j > 1 {
          assert Before(priorities, order[0], order[j - 1]);
        }
      }
    }
  }

  /** `sorted(points, key=lambda x: -x.priority)` on the first `n` points,
      as the list of their indices. */
  function StableOrder(priorities: seq<real>, n: nat): (r: seq<nat>)
    requires n <= |priorities|
    ensures |r| == n && InRange(priorities, r)
    ensures multiset(r) == multiset(Indices(n))
  {
    if n == 0 then []
    else
      assert Indices(n) == Indices(n - 1) + [n - 1];
      Insert(priorities, n - 1, StableOrder(priorities, n - 1))
  }

  function Indices(n: nat): (r: seq<nat>)
    ensures |r| == n && forall i :: 0 <= i < n ==> r[i] == i
  {
    if n == 0 then [] else Indices(n - 1) + [n - 1]
  }

  /** The order in which the compositor visits points: every index once,
      higher priority first and equal priorities in input order. */
  lemma {:induction false} StableOrderSorted(priorities: seq<real>, n: nat)
    requires n <= |priorities|
    ensures OrderedBy(priorities, StableOrder(priorities, n))
    ensures forall i :: 0 <= i < n <==> i in StableOrder(priorities, n)
  {
    if n > 0 {
      StableOrderSorted(priorities, n - 1);
      var previous := StableOrder(priorities, n - 1);
      assert n - 1 !in previous;
      InsertOrdered(priorities, n - 1, previous);
    }
    forall i ensures 0 <= i < n <==> i in StableOrder(priorities, n) {
      assert i in StableOrder(priorities, n) <==> i in multiset(Indices(n));
      if 0 <= i < n {
        assert Indices(n)[i] == i;
      }
    }
  }
}
