/**
 Listings: sequences that name each element of a set once.  Ranging over a map
 visits its keys in some such order.
 */
module Listings {

  function Elems<T>(s: seq<T>): set<T> {
    set x | x in s
  }

  predicate NoDup<T(==)>(s: seq<T>) {
    forall i, j :: 0 <= i < j < |s| ==> s[i] != s[j]
  }

  /** `order` names each element of `s` exactly once: all of them, and no more names than elements. */
  predicate IsOrder<T(==)>(order: seq<T>, s: set<T>) {
    Elems(order) == s && |order| == |s|
  }

  lemma {:induction false} ElemsSize<T>(s: seq<T>)
    ensures |Elems(s)| <= |s|
  {
    if s != [] {
      ElemsSize(s[1..]);
      assert Elems(s) == {s[0]} + Elems(s[1..]);
    }
  }

  lemma {:induction false} OrderHasNoDup<T>(order: seq<T>, s: set<T>)
    requires IsOrder(order, s)
    ensures NoDup(order)
  {
    if order != [] {
      var rest := order[1..];
      assert Elems(order) == {order[0]} + Elems(rest);
      ElemsSize(rest);
      if order[0] in Elems(rest) {
        assert false;
      }
      OrderHasNoDup(rest, Elems(rest));
      assert order == [order[0]] + rest;
    }
  }

  lemma ElemsConcat<T>(a: seq<T>, b: seq<T>)
    ensures Elems(a + b) == Elems(a) + Elems(b)
  {
  }

  lemma ElemsSnoc<T>(s: seq<T>, last: T)
    ensures Elems(s + [last]) == Elems(s) + {last}
  {
  }

  lemma TakeOneMore<T>(s: seq<T>, i: nat)
    requires i < |s|
    ensures s[..i + 1] == s[..i] + [s[i]]
  {
  }

  lemma OrderSnoc<T>(order: seq<T>, s: set<T>, x: T)
    requires IsOrder(order, s) && x !in s
    ensures IsOrder(order + [x], s + {x})
  {
  }

  lemma AddOne<T>(s: set<T>, x: T)
    requires x !in s
    ensures multiset(s + {x}) == multiset(s) + multiset{x}
  {
  }

  lemma AddDisjoint<T>(a: set<T>, b: set<T>)
    requires a !! b
    ensures multiset(a + b) == multiset(a) + multiset(b)
  {
  }

  /** As a multiset, an order of a set is that set. */
  lemma {:induction false} OrderMultiset<T>(order: seq<T>, s: set<T>)
    requires IsOrder(order, s)
    ensures multiset(order) == multiset(s)
  {
    OrderHasNoDup(order, s);
    NoDupMultiset(order);
  }

  lemma {:induction false} NoDupMultiset<T>(s: seq<T>)
    requires NoDup(s)
    ensures multiset(s) == multiset(Elems(s))
  {
    if s != [] {
      var front, last := s[..|s| - 1], s[|s| - 1];
      assert s == front + [last];
      ElemsSnoc(front, last);
      NoDupMultiset(front);
      assert last !in Elems(front);
      AddOne(Elems(front), last);
    }
  }

  lemma CountedTwice<T>(names: seq<T>, i: nat, j: nat)
    requires i < j < |names| && names[i] == names[j]
    ensures multiset(names)[names[i]] >= 2
  {
    assert names == names[..i] + [names[i]] + names[i + 1..j] + [names[j]] + names[j + 1..];
  }

  /** A sequence that is, as a multiset, a set has no duplicates. */
  lemma MultisetNoDup<T>(names: seq<T>, s: set<T>)
    requires multiset(names) == multiset(s)
    ensures NoDup(names) && Elems(names) == s
  {
    if i, j :| 0 <= i < j < |names| && names[i] == names[j] {
      CountedTwice(names, i, j);
      assert false;
    }
    forall x
      ensures x in Elems(names) <==> x in s
    {
      assert x in multiset(names) <==> x in names;
    }
  }
}
