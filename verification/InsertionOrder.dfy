/** The key order of an insertion-ordered dictionary. */
module InsertionOrder {

  ghost predicate Distinct<K>(order: seq<K>) {
    forall i, j :: 0 <= i < j < |order| ==> order[i] != order[j]
  }

  /** Deleting a key keeps the order of the others. */
  function Without<K(==)>(order: seq<K>, key: K): seq<K> {
    if order == [] then []
    else if order[0] == key then order[1..]
    else [order[0]] + Without(order[1..], key)
  }

  lemma {:induction false} WithoutIsRemoval<K>(order: seq<K>, key: K)
    requires Distinct(order)
    ensures Distinct(Without(order, key))
    ensures forall k :: k in Without(order, key) <==> k in order && k != key
    ensures |Without(order, key)| == if key in order then |order| - 1 else |order|
  {
    if order == [] || order[0] == key {
    } else {
      WithoutIsRemoval(order[1..], key);
      var rest := Without(order[1..], key);
      forall j | 0 <= j < |rest|
        ensures rest[j] != order[0]
      {
        assert rest[j] in rest;
      }
    }
  }

  lemma CutLater<K>(order: seq<K>, i: nat)
    requires 0 < i < |order|
    ensures [order[0]] + (order[1..][..i - 1] + order[1..][i..]) == order[..i] + order[i + 1..]
  {
    assert order[..i] == [order[0]] + order[1..][..i - 1];
    assert order[i + 1..] == order[1..][i..];
  }

  lemma CutIndex<K>(order: seq<K>, i: nat, j: nat)
    requires i < |order| && j < |order| - 1
    ensures (order[..i] + order[i + 1..])[j] == order[if j < i then j else j + 1]
  {
  }

  /** The key at position `i` is cut out; what is before it and after it stays. */
  lemma {:induction false} WithoutIsCut<K>(order: seq<K>, i: nat)
    requires Distinct(order) && i < |order|
    ensures Without(order, order[i]) == order[..i] + order[i + 1..]
  {
    if i == 0 {
    } else {
      assert order[0] != order[i] && order[1..][i - 1] == order[i];
      WithoutIsCut(order[1..], i - 1);
      CutLater(order, i);
    }
  }

  lemma {:induction false} WithoutAbsent<K>(order: seq<K>, key: K)
    requires key !in order
    ensures Without(order, key) == order
  {
    if order == [] {
    } else {
      WithoutAbsent(order[1..], key);
    }
  }

  lemma {:induction false} DistinctCount<K>(order: seq<K>, keys: set<K>)
    requires Distinct(order) && forall k :: k in keys <==> k in order
    ensures |order| == |keys|
  {
    if order == [] {
    } else {
      assert forall k :: k in keys - {order[0]} <==> k in order[1..];
      DistinctCount(order[1..], keys - {order[0]});
    }
  }
}
