/** Option and the insertion-ordered map of JavaScript. */
module Collections {

  datatype Option<+T> = None | Some(value: T)

  /**
   * A JavaScript Map. `order` lists the keys as iteration visits them: writing an existing key
   * keeps its place, a new key goes last.
   */
  datatype OrderedMap<K(==,!new), V> = OrderedMap(order: seq<K>, entries: map<K, V>) {

    ghost predicate Valid() {
      && (forall i, j :: 0 <= i < j < |order| ==> order[i] != order[j])
      && (forall k :: k in order <==> k in entries)
    }

    function Set(k: K, v: V): (r: OrderedMap<K, V>)
      ensures Valid() ==> r.Valid()
    {
      OrderedMap(if k in entries then order else order + [k], entries[k := v])
    }

    function DeleteFirst(): (r: OrderedMap<K, V>)
      requires order != []
      ensures Valid() ==> r.Valid()
    {
      assert Valid() ==> forall k :: k in order[1..] <==> k in order && k != order[0] by {
        if Valid() { assert order == [order[0]] + order[1..]; }
      }
      OrderedMap(order[1..], entries - {order[0]})
    }

    /** The values in iteration order. */
    function Values(): (r: seq<V>)
      requires Valid()
      ensures |r| == |order| && forall i :: 0 <= i < |r| ==> order[i] in entries && r[i] == entries[order[i]]
    {
      assert forall i :: 0 <= i < |order| ==> order[i] in order;
      seq(|order|, i requires 0 <= i < |order| && order[i] in entries => entries[order[i]])
    }
  }

  /** The chosen keys among the first `i` visited. */
  ghost function Seen<K>(chosen: set<K>, order: seq<K>, i: nat): set<K>
    requires i <= |order|
  {
    set k | k in chosen && k in order[..i]
  }

  lemma SeenStep<K>(chosen: set<K>, order: seq<K>, i: nat)
    requires i < |order|
    requires forall a, b :: 0 <= a < b < |order| ==> order[a] != order[b]
    ensures order[i] !in Seen(chosen, order, i)
    ensures Seen(chosen, order, i + 1) == Seen(chosen, order, i) + if order[i] in chosen then {order[i]} else {}
  {
    assert order[..i + 1] == order[..i] + [order[i]];
  }

  lemma SeenAll<K>(chosen: set<K>, order: seq<K>)
    requires forall k :: k in chosen ==> k in order
    ensures Seen(chosen, order, |order|) == chosen
  {
    assert order[..|order|] == order;
  }

  /** There is always a number that has not been used. */
  lemma NewId(used: set<nat>) returns (n: nat)
    ensures n !in used
  {
    n := 0;
    ghost var seen: set<nat> := {};
    while n in used
      invariant seen <= used && forall i :: i in seen <==> 0 <= i < n
      decreases used - seen
    {
      seen := seen + {n};
      n := n + 1;
    }
  }

  function Min(a: int, b: int): int {
    if a <= b then a else b
  }

  function Max(a: int, b: int): int {
    if a >= b then a else b
  }
}
