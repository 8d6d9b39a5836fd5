/** A JavaScript `Map` with string keys: iteration follows first insertion. */
module OrderedMaps {
  import opened Wrappers

  class OrderedMap<V> {
    var order: seq<string>
    var entries: map<string, V>

    ghost predicate Valid()
      reads this
    {
      Distinct(order) && forall k :: k in order <==> k in entries
    }

    constructor ()
      ensures Valid() && order == [] && entries == map[]
    {
      order, entries := [], map[];
    }

    /** `set`: a known key keeps its place and gets the new value. */
    method Set(key: string, value: V)
      requires Valid()
      modifies this
      ensures Valid()
      ensures order == if key in old(order) then old(order) else old(order) + [key]
      ensures entries == old(entries)[key := value]
    {
      if key !in entries { order := order + [key]; }
      entries := entries[key := value];
    }

    method Has(key: string) returns (b: bool)
      requires Valid()
      ensures b <==> key in order
    {
      b := key in entries;
    }

    method Size() returns (n: nat)
      requires Valid()
      ensures n == |order|
    {
      n := |order|;
    }
  }
}
