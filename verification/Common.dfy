/** What every component uses. */
module Common {
  datatype Option<+T> = None | Some(value: T)

  /** A call that takes an item or, when there is none, waits for one unless its queue is closed. */
  datatype Attempt<+T> = Taken(item: T) | Closed | Waits

  ghost predicate NoDup<K>(s: seq<K>) {
    forall i, j :: 0 <= i < j < |s| ==> s[i] != s[j]
  }

  /** `order` is one of the orders in which ranging over a Go map with these keys may visit them. */
  ghost predicate Enumerates<K(!new)>(order: seq<K>, keys: set<K>) {
    NoDup(order) && forall k :: k in order <==> k in keys
  }

  ghost function Elems<K>(s: seq<K>): set<K> {
    set k | k in s
  }

  lemma {:induction false} DistinctCount<K>(s: seq<K>)
    requires NoDup(s)
    ensures |Elems(s)| == |s|
  {
    if s != [] {
      var n := |s| - 1;
      DistinctCount(s[..n]);
      assert Elems(s) == Elems(s[..n]) + {s[n]};
    }
  }

  lemma {:induction false} EnumerationExists<K(!new)>(keys: set<K>) returns (order: seq<K>)
    ensures Enumerates(order, keys) && |order| == |keys|
  {
    if keys == {} {
      order := [];
    } else {
      var k :| k in keys;
      var rest := EnumerationExists(keys - {k});
      order := [k] + rest;
    }
  }

  lemma EnumerationCount<K(!new)>(order: seq<K>, keys: set<K>)
    requires Enumerates(order, keys)
    ensures |order| == |keys|
  {
    DistinctCount(order);
    assert Elems(order) == keys;
  }

  lemma EnumerateOneMore<K(!new)>(order: seq<K>, keys: set<K>, k: K)
    requires Enumerates(order, keys) && k !in keys
    ensures Enumerates(order + [k], keys + {k})
  {
  }

  lemma EnumerateOneLess<K(!new)>(order: seq<K>, keys: set<K>, i: nat)
    requires Enumerates(order, keys) && i < |order|
    ensures Enumerates(order[..i] + order[i + 1..], keys - {order[i]})
  {
  }

  lemma {:induction false} SubsetCount<K>(a: set<K>, b: set<K>)
    requires a <= b
    ensures |a| <= |b| && (|a| == |b| ==> a == b)
  {
    if a != {} {
      var x :| x in a;
      SubsetCount(a - {x}, b - {x});
    }
  }

  lemma InLast<K>(s: seq<K>, k: K)
    requires s != []
    ensures k in s <==> k in s[..|s| - 1] || k == s[|s| - 1]
  {
    assert s == s[..|s| - 1] + [s[|s| - 1]];
  }
}
