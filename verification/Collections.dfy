/** Sequences without repetitions, and sets listed in some order. */
module Collections {

  predicate Distinct<T(==)>(items: seq<T>) {
    forall i, j | 0 <= i < j < |items| :: items[i] != items[j]
  }

  /** Where an item first stands; the number of items where it does not. */
  function Index<T(==)>(items: seq<T>, item: T): (i: nat)
    ensures i <= |items|
    ensures i < |items| ==> items[i] == item
    ensures item !in items[..i]
  {
    if items == [] || items[0] == item then 0 else 1 + Index(items[1..], item)
  }

  lemma {:induction false} IndexFinds<T>(items: seq<T>, item: T)
    ensures Index(items, item) < |items| <==> item in items
  {
    var i := Index(items, item);
    if i == |items| { assert items[..i] == items; }
  }

  /** `order` lists a set's elements, each once, in an order nothing promises. */
  ghost predicate Enumerates<T(!new)>(order: seq<T>, s: set<T>) {
    (forall x :: x in s ==> x in order) && (forall i | 0 <= i < |order| :: order[i] in s) && Distinct(order)
  }

  method Enumerate<T(==, !new)>(s: set<T>) returns (order: seq<T>)
    ensures Enumerates(order, s)
  {
    order := [];
    var left := s;
    while left != {}
      invariant left <= s
      invariant Enumerates(order, s - left)
    {
      var x :| x in left;
      order := order + [x];
      left := left - {x};
    }
  }

  /** A sequence without repetitions is no longer than the set it is drawn from. */
  lemma {:induction false} DistinctFits<T>(items: seq<T>, s: set<T>)
    requires Distinct(items) && forall x | x in items :: x in s
    ensures |items| <= |s|
    decreases |items|
  {
    if items != [] {
      var last := items[|items| - 1];
      var front := items[..|items| - 1];
      forall x | x in front ensures x in s - {last} {
        var i :| 0 <= i < |front| && front[i] == x;
        assert items[i] == x;
      }
      DistinctFits(front, s - {last});
    }
  }
}
