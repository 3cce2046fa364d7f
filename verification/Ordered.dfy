/** Ascending lists of integers, as Python's `sorted` makes them from a set. */
module Ordered {
  ghost predicate Ascending(s: seq<int>) {
    forall i, j :: 0 <= i < j < |s| ==> s[i] < s[j]
  }

  ghost predicate Least(m: int, s: set<int>) {
    m in s && forall x :: x in s ==> m <= x
  }

  ghost function Pick<T>(s: set<T>): (x: T)
    requires s != {}
    ensures x in s
  {
    var x :| x in s; x
  }

  lemma {:induction false} HasLeast(s: set<int>)
    requires s != {}
    ensures exists m :: Least(m, s)
  {
    var x := Pick(s);
    if s == {x} {
      assert Least(x, s);
    } else {
      var rest := s - {x};
      assert s == rest + {x};
      HasLeast(rest);
      var m :| Least(m, rest);
      assert Least(if m < x then m else x, s) by {
        forall y | y in s
          ensures (if m < x then m else x) <= y
        {
          assert y == x || y in rest;
        }
      }
    }
  }

  function Minimum(s: set<int>): (m: int)
    requires s != {}
    ensures Least(m, s)
  {
    HasLeast(s);
    var m :| m in s && forall x :: x in s ==> m <= x;
    m
  }

  function Sorted(s: set<int>): (r: seq<int>)
    ensures Ascending(r)
    ensures forall x :: x in r <==> x in s
    ensures |r| == |s|
  {
    if s == {} then []
    else
      var m := Minimum(s);
      var rest := Sorted(s - {m});
      assert forall i :: 0 <= i < |rest| ==> rest[i] in rest;
      [m] + rest
  }

  /** An ascending list is determined by its elements. */
  lemma {:induction false} AscendingUnique(a: seq<int>, b: seq<int>)
    requires Ascending(a) && Ascending(b)
    requires forall x :: x in a <==> x in b
    ensures a == b
  {
    if a == [] {
      assert forall i :: 0 <= i < |b| ==> b[i] in b;
    } else {
      assert a[0] in b && b[0] in a;
      LeastFirst(a, b[0]);
      LeastFirst(b, a[0]);
      forall x
        ensures x in a[1..] <==> x in b[1..]
      {
        Tails(a, x);
        Tails(b, x);
      }
      AscendingUnique(a[1..], b[1..]);
    }
  }

  lemma LeastFirst(a: seq<int>, x: int)
    requires Ascending(a) && x in a
    ensures a[0] <= x
  {
    var k :| 0 <= k < |a| && a[k] == x;
    assert k > 0 ==> a[0] < a[k];
  }

  lemma Tails(a: seq<int>, x: int)
    requires a != [] && Ascending(a)
    ensures x in a[1..] <==> x in a && x != a[0]
  {
    if x in a[1..] {
      var k :| 0 <= k < |a| - 1 && a[1..][k] == x;
      assert a[k + 1] == x;
    }
    if x in a && x != a[0] {
      var k :| 0 <= k < |a| && a[k] == x;
      assert a[1..][k - 1] == x;
    }
  }
}
