/** Ordering of query results by a numeric key (the handlers sort by
    `Observer.Id`), and the enumeration of a set of int64 keys. */
module Sorting {
  import opened StrConv

  ghost predicate SortedBy<T>(s: seq<T>, key: T -> int) {
    forall i, j :: 0 <= i < j < |s| ==> key(s[i]) <= key(s[j])
  }

  /** Places `x` into the sorted sequence `s`. */
  function Insert<T(==)>(x: T, s: seq<T>, key: T -> int): (r: seq<T>)
    requires SortedBy(s, key)
    ensures SortedBy(r, key)
    ensures multiset(r) == multiset(s) + multiset{x}
  {
    if s == [] then [x]
    else if key(x) <= key(s[0]) then [x] + s
    else
      var rest := Insert(x, s[1..], key);
      InsertBehind(x, s, rest, key);
      [s[0]] + rest
  }

  /** When `x` goes after the head of `s`, the head followed by `x` inserted
      into the tail is sorted and holds `s` and `x`. */
  lemma InsertBehind<T>(x: T, s: seq<T>, rest: seq<T>, key: T -> int)
    requires s != [] && SortedBy(s, key) && key(s[0]) < key(x)
    requires SortedBy(rest, key) && multiset(rest) == multiset(s[1..]) + multiset{x}
    ensures SortedBy([s[0]] + rest, key)
    ensures multiset([s[0]] + rest) == multiset(s) + multiset{x}
  {
    assert s == [s[0]] + s[1..];
    forall i | 0 <= i < |rest|
      ensures key(s[0]) <= key(rest[i])
    {
      assert rest[i] in multiset(rest);
      if rest[i] != x {
        assert rest[i] in s[1..];
      }
    }
  }

  /** A reordering of `s` in ascending `key` order (`sort.Slice` with a
      less-than on the key). */
  function SortBy<T(==)>(s: seq<T>, key: T -> int): (r: seq<T>)
    ensures SortedBy(r, key)
    ensures multiset(r) == multiset(s)
    ensures |r| == |s|
  {
    if s == [] then []
    else
      assert s == [s[0]] + s[1..];
      var r := Insert(s[0], SortBy(s[1..], key), key);
      assert |r| == |multiset(r)|;
      r
  }

  predicate IsLeast(m: int64, s: set<int64>) {
    m in s && forall k :: k in s ==> m <= k
  }

  /** Every non-empty set of int64 values has a least element. */
  lemma {:induction false} LeastExists(s: set<int64>)
    requires s != {}
    ensures exists m :: IsLeast(m, s)
    decreases s
  {
    var x :| x in s;
    if s == {x} {
      assert IsLeast(x, s);
    } else {
      var rest := s - {x};
      LeastExists(rest);
      var m :| IsLeast(m, rest);
      var least := if x < m then x else m;
      forall k | k in s
        ensures least <= k
      {
        if k != x {
          assert k in rest;
        }
      }
      assert IsLeast(least, s);
    }
  }

  /** The least element of a non-empty set. */
  function Least(s: set<int64>): (m: int64)
    requires s != {}
    ensures m in s && forall k :: k in s ==> m <= k
  {
    LeastExists(s);
    var m :| IsLeast(m, s);
    m
  }

  /** The elements of `s` in strictly ascending order. */
  function Ascending(s: set<int64>): (ks: seq<int64>)
    ensures |ks| == |s|
    ensures forall i :: 0 <= i < |ks| ==> ks[i] in s
    ensures forall k :: k in s ==> k in ks
    ensures forall i, j :: 0 <= i < j < |ks| ==> ks[i] < ks[j]
    decreases |s|
  {
    if s == {} then []
    else
      var m := Least(s);
      var rest := Ascending(s - {m});
      ConsAscending(s, m, rest);
      [m] + rest
  }

  /** Putting the least element in front of the ascending enumeration of the
      others enumerates the whole set in ascending order. */
  lemma ConsAscending(s: set<int64>, m: int64, rest: seq<int64>)
    requires IsLeast(m, s)
    requires forall i :: 0 <= i < |rest| ==> rest[i] in s - {m}
    requires forall k :: k in s - {m} ==> k in rest
    requires forall i, j :: 0 <= i < j < |rest| ==> rest[i] < rest[j]
    ensures forall i :: 0 <= i < |[m] + rest| ==> ([m] + rest)[i] in s
    ensures forall k :: k in s ==> k in [m] + rest
    ensures forall i, j :: 0 <= i < j < |[m] + rest| ==> ([m] + rest)[i] < ([m] + rest)[j]
  {
    var ks := [m] + rest;
    assert forall i :: 0 < i < |ks| ==> ks[i] == rest[i - 1];
    forall k | k in s
      ensures k in ks
    {
      if k != m {
        assert k in s - {m};
      }
    }
  }
}
