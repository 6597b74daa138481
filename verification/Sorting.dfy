/** Sorting by an order that may have ties. What is promised is what the library promises: a sorted
    rearrangement; tied elements come in no particular order.
  */
module Sorting {

  ghost predicate TotalOrder<T(!new)>(le: (T, T) -> bool) {
    && (forall x, y :: le(x, y) || le(y, x))
    && (forall x, y, z :: le(x, y) && le(y, z) ==> le(x, z))
  }

  predicate SortedBy<T>(le: (T, T) -> bool, l: seq<T>) {
    forall i, j :: 0 <= i < j < |l| ==> le(l[i], l[j])
  }

  function Insert<T>(le: (T, T) -> bool, x: T, l: seq<T>): seq<T> {
    if l == [] || le(x, l[0]) then [x] + l else [l[0]] + Insert(le, x, l[1..])
  }

  function Sort<T>(le: (T, T) -> bool, l: seq<T>): seq<T> {
    if l == [] then [] else Insert(le, l[0], Sort(le, l[1..]))
  }

  lemma {:induction false} InsertSorts<T(!new)>(le: (T, T) -> bool, x: T, l: seq<T>)
    requires TotalOrder(le) && SortedBy(le, l)
    ensures SortedBy(le, Insert(le, x, l)) && multiset(Insert(le, x, l)) == multiset(l) + multiset{x}
  {
    if l == [] || le(x, l[0]) {
      forall j | 0 <= j < |l|
        ensures le(x, l[j])
      {
        assert j == 0 || le(l[0], l[j]);
      }
      assert Insert(le, x, l) == [x] + l;
    } else {
      InsertSorts(le, x, l[1..]);
      var r := Insert(le, x, l[1..]);
      assert l == [l[0]] + l[1..];
      forall j | 0 <= j < |r|
        ensures le(l[0], r[j])
      {
        assert r[j] in multiset(r);
        assert r[j] == x || r[j] in l[1..];
      }
    }
  }

  lemma {:induction false} SortSorts<T(!new)>(le: (T, T) -> bool, l: seq<T>)
    requires TotalOrder(le)
    ensures SortedBy(le, Sort(le, l)) && multiset(Sort(le, l)) == multiset(l)
  {
    if l != [] {
      SortSorts(le, l[1..]);
      InsertSorts(le, l[0], Sort(le, l[1..]));
      assert l == [l[0]] + l[1..];
    }
  }

  predicate DistinctBy<T, K(==)>(name: T -> K, l: seq<T>) {
    forall i, j :: 0 <= i < j < |l| ==> name(l[i]) != name(l[j])
  }

  // A rearrangement has the same members, and distinct names stay distinct.
  lemma SameMembers<T(!new), K>(name: T -> K, a: seq<T>, b: seq<T>)
    requires multiset(a) == multiset(b) && DistinctBy(name, a)
    ensures DistinctBy(name, b)
    ensures forall x :: x in a <==> x in b
  {
    forall x
      ensures x in a <==> x in b
    {
      assert x in multiset(a) <==> x in multiset(b);
    }
    forall i, j | 0 <= i < j < |b|
      ensures name(b[i]) != name(b[j])
    {
      if name(b[i]) == name(b[j]) {
        SameElement(name, a, b, i, j);
        TwiceIn(b, i, j);
        OnceIn(name, a, b[i]);
      }
    }
  }

  lemma SameElement<T, K>(name: T -> K, a: seq<T>, b: seq<T>, i: nat, j: nat)
    requires multiset(a) == multiset(b) && DistinctBy(name, a)
    requires i < |b| && j < |b| && name(b[i]) == name(b[j])
    ensures b[i] == b[j]
  {
    assert b[i] in multiset(b) && b[j] in multiset(b);
    assert b[i] in a && b[j] in a;
  }

  lemma TwiceIn<T>(b: seq<T>, i: nat, j: nat)
    requires i < j < |b| && b[i] == b[j]
    ensures multiset(b)[b[i]] >= 2
  {
    assert b == b[..j] + [b[j]] + b[j + 1..];
    assert b[i] in b[..j];
  }

  lemma {:induction false} OnceIn<T, K>(name: T -> K, a: seq<T>, x: T)
    requires DistinctBy(name, a)
    ensures multiset(a)[x] <= 1
    decreases |a|
  {
    if a != [] {
      assert a == [a[0]] + a[1..];
      OnceIn(name, a[1..], x);
      assert a[0] !in a[1..];
    }
  }
}
