/** `ORDER BY`: the ascending list of a finite set under an integer key pair. */
module Ordering {
  import opened Common

  /** A row's sort key; the id breaks ties, so distinct rows are always ordered. */
  type Key = (int, Uuid)

  predicate Before(a: Key, b: Key) {
    a.0 < b.0 || (a.0 == b.0 && a.1 < b.1)
  }

  predicate IsLeast(keys: set<Key>, k: Key) {
    k in keys && forall x :: x in keys && x != k ==> Before(k, x)
  }

  lemma {:induction false} LeastExists(keys: set<Key>) returns (k: Key)
    requires keys != {}
    ensures IsLeast(keys, k)
    decreases keys
  {
    var a :| a in keys;
    if keys == {a} {
      k := a;
    } else {
      var m := LeastExists(keys - {a});
      k := if Before(a, m) then a else m;
      forall x | x in keys && x != k
        ensures Before(k, x)
      {
        assert x != a ==> x in keys - {a};
      }
    }
  }

  lemma SomeLeast(keys: set<Key>)
    requires keys != {}
    ensures exists k :: IsLeast(keys, k)
  {
    var k := LeastExists(keys);
  }

  /** Strictly ascending, hence without repetition. */
  ghost predicate Sorted(ks: seq<Key>) {
    forall i, j :: 0 <= i < j < |ks| ==> Before(ks[i], ks[j])
  }

  function InOrder(keys: set<Key>): (ks: seq<Key>)
    ensures Sorted(ks)
    ensures forall k :: k in ks <==> k in keys
    decreases keys
  {
    if keys == {} then []
    else
      SomeLeast(keys);
      var k :| IsLeast(keys, k);
      [k] + InOrder(keys - {k})
  }

  lemma HasMember<T>(s: seq<T>)
    requires s != []
    ensures exists x :: x in s
  {
    assert s[0] in s;
  }

  /** A sorted list is determined by its members. */
  lemma {:induction false} SortedUnique(a: seq<Key>, b: seq<Key>)
    requires Sorted(a) && Sorted(b) && forall k :: k in a <==> k in b
    ensures a == b
    decreases |a|
  {
    if a == [] {
      if b != [] {
        HasMember(b);
      }
    } else {
      assert a[0] in b && b != [];
      assert b[0] in a;
      assert a[0] == b[0];
      forall k
        ensures k in a[1..] <==> k in b[1..]
      {
        if k in a[1..] {
          assert k in b;
          assert Before(a[0], k);
        }
        if k in b[1..] {
          assert k in a;
          assert Before(b[0], k);
        }
      }
      SortedUnique(a[1..], b[1..]);
    }
  }
}
