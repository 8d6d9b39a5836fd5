/**
 * packages/nouns-webapp/src/utils/composables/composablesWrapper.ts: `getTokenHoldings` (keyed by
 * token id) and `getChildTokens` (keyed by token address and id) net event lists into balances.
 */
module Netting {
  import opened Wrappers

  /** An incoming or outgoing amount of one token. */
  datatype Movement<K> = Movement(key: K, amount: nat)

  datatype Item<K> = Item(key: K, balance: int)

  /** `list.findIndex(...)`; -1 when nothing matches. */
  function FindIndex<K(==)>(items: seq<Item<K>>, key: K): (i: int)
    ensures -1 <= i < |items|
    ensures i >= 0 ==> items[i].key == key
    ensures i == -1 ==> forall j :: 0 <= j < |items| ==> items[j].key != key
  {
    if items == [] then -1
    else
      var i := FindIndex(items[..|items| - 1], key);
      if i >= 0 then i else if items[|items| - 1].key == key then |items| - 1 else -1
  }

  /** The sum of a token's amounts in a list of events. */
  function Total<K(==)>(events: seq<Movement<K>>, key: K): nat {
    if events == [] then 0
    else
      var last := events[|events| - 1];
      Total(events[..|events| - 1], key) + if last.key == key then last.amount else 0
  }

  ghost predicate OneEach<K(!new)>(items: seq<Item<K>>) {
    forall i, j :: 0 <= i < j < |items| ==> items[i].key != items[j].key
  }

  ghost predicate Listed<K(!new)>(items: seq<Item<K>>, key: K) {
    exists i :: 0 <= i < |items| && items[i].key == key
  }

  /** Exactly one entry, with the net balance, for every token with more received than sent. */
  ghost predicate IsNetting<K(!new)>(items: seq<Item<K>>, received: seq<Movement<K>>, sent: seq<Movement<K>>) {
    && OneEach(items)
    && (forall i :: 0 <= i < |items| ==>
          items[i].balance == Total(received, items[i].key) - Total(sent, items[i].key) && items[i].balance > 0)
    && (forall key :: Total(received, key) > Total(sent, key) ==> Listed(items, key))
  }

  /** Both loops' state: one entry per token received so far, carrying what is netted so far. */
  ghost predicate Running<K(!new)>(items: seq<Item<K>>, received: seq<Movement<K>>, sent: seq<Movement<K>>) {
    && OneEach(items)
    && (forall i :: 0 <= i < |items| ==> items[i].balance == Total(received, items[i].key) - Total(sent, items[i].key))
    && (forall key :: Total(received, key) > 0 ==> Listed(items, key))
  }

  lemma TotalStep<K(!new)>(events: seq<Movement<K>>, n: nat)
    requires n < |events|
    ensures forall key :: Total(events[..n + 1], key) ==
              Total(events[..n], key) + if events[n].key == key then events[n].amount else 0
  {
    assert events[..n + 1][..n] == events[..n];
  }

  method NetBalances<K(==, !new)>(received: seq<Movement<K>>, sent: seq<Movement<K>>) returns (holdings: seq<Item<K>>)
    ensures IsNetting(holdings, received, sent)
  {
    var items: seq<Item<K>> := [];
    for n := 0 to |received|
      invariant Running(items, received[..n], [])
    {
      TotalStep(received, n);
      var key, amount := received[n].key, received[n].amount;
      var index := FindIndex(items, key);
      ghost var before := items;
      if index > -1 {
        items := items[index := items[index].(balance := items[index].balance + amount)];
      } else {
        items := items + [Item(key, amount)];
        assert !Listed(before, key);
        assert Total(received[..n], key) == 0;
      }
      forall k | Total(received[..n + 1], k) > 0 ensures Listed(items, k) {
        ListedAfter(before, items, received[..n], key, k, index, amount);
      }
    }
    assert received[..|received|] == received;
    for n := 0 to |sent|
      invariant Running(items, received, sent[..n])
    {
      TotalStep(sent, n);
      var key, amount := sent[n].key, sent[n].amount;
      var index := FindIndex(items, key);
      ghost var before := items;
      if index > -1 {
        items := items[index := items[index].(balance := items[index].balance - amount)];
      }
      forall k | Total(received, k) > 0 ensures Listed(items, k) {
        var i :| 0 <= i < |before| && before[i].key == k;
        assert items[i].key == k;
      }
    }
    assert sent[..|sent|] == sent;
    holdings := Positive(items);
    PositiveNets(items, received, sent);
  }

  lemma ListedAfter<K(!new)>(before: seq<Item<K>>, after: seq<Item<K>>, events: seq<Movement<K>>, key: K, k: K,
                      index: int, amount: nat)
    requires -1 <= index < |before|
    requires forall j: K :: Total(events, j) > 0 ==> Listed(before, j)
    requires Total(events, k) > 0 || k == key
    requires if index >= 0 then before[index].key == key
             && after == before[index := before[index].(balance := before[index].balance + amount)]
             else after == before + [Item(key, amount)]
    ensures Listed(after, k)
  {
    if k == key {
      assert after[if index >= 0 then index else |before|].key == k;
    } else {
      var i :| 0 <= i < |before| && before[i].key == k;
      assert after[i].key == k;
    }
  }

  /** `holdings.filter(holding => holding.balance.isGreaterThan(0))`. */
  function Positive<K>(items: seq<Item<K>>): seq<Item<K>> {
    if items == [] then []
    else
      var n := |items| - 1;
      Positive(items[..n]) + if items[n].balance > 0 then [items[n]] else []
  }

  lemma {:induction false} PositiveFilters<K(!new)>(items: seq<Item<K>>)
    ensures forall item :: item in Positive(items) <==> item in items && item.balance > 0
    ensures OneEach(items) ==> OneEach(Positive(items))
  {
    if items != [] {
      var n := |items| - 1;
      PositiveFilters(items[..n]);
      assert items == items[..n] + [items[n]];
      if OneEach(items) && items[n].balance > 0 {
        var front, all := Positive(items[..n]), Positive(items);
        forall i, j | 0 <= i < j < |all| ensures all[i].key != all[j].key {
          if j == |front| {
            assert front[i] in items[..n];
          }
        }
      }
    }
  }

  lemma PositiveNets<K(!new)>(items: seq<Item<K>>, received: seq<Movement<K>>, sent: seq<Movement<K>>)
    requires Running(items, received, sent)
    ensures IsNetting(Positive(items), received, sent)
  {
    PositiveFilters(items);
    var result := Positive(items);
    forall i | 0 <= i < |result|
      ensures result[i].balance == Total(received, result[i].key) - Total(sent, result[i].key) && result[i].balance > 0
    {
      assert result[i] in items;
    }
    forall key | Total(received, key) > Total(sent, key) ensures Listed(result, key) {
      var i :| 0 <= i < |items| && items[i].key == key;
      assert items[i] in result;
      var j :| 0 <= j < |result| && result[j] == items[i];
    }
  }

  // ---------- order does not matter ----------

  lemma {:induction false} TotalTakeOut<K(!new)>(events: seq<Movement<K>>, i: nat, key: K)
    requires i < |events|
    ensures Total(events, key) ==
              Total(events[..i] + events[i + 1..], key) + if events[i].key == key then events[i].amount else 0
  {
    var n := |events| - 1;
    if i == n {
      assert events[..i] + events[i + 1..] == events[..n];
    } else {
      var init := events[..n];
      TotalTakeOut(init, i, key);
      var rest := events[..i] + events[i + 1..];
      assert rest[..|rest| - 1] == init[..i] + init[i + 1..];
      assert rest[|rest| - 1] == events[n];
    }
  }

  lemma MatchLast<K(!new)>(a: seq<Movement<K>>, b: seq<Movement<K>>) returns (i: nat)
    requires multiset(a) == multiset(b) && a != []
    ensures i < |b| && b[i] == a[|a| - 1]
    ensures multiset(a[..|a| - 1]) == multiset(b[..i] + b[i + 1..])
  {
    var last := a[|a| - 1];
    assert a == a[..|a| - 1] + [last];
    assert last in multiset(b);
    i :| 0 <= i < |b| && b[i] == last;
    assert b == b[..i] + [last] + b[i + 1..];
    assert multiset(a[..|a| - 1]) == multiset(a) - multiset{last};
    assert multiset(b[..i] + b[i + 1..]) == multiset(b) - multiset{last};
  }

  lemma {:induction false} TotalReorder<K(!new)>(a: seq<Movement<K>>, b: seq<Movement<K>>, key: K)
    requires multiset(a) == multiset(b)
    ensures Total(a, key) == Total(b, key)
    decreases |a|
  {
    if a == [] {
      assert |multiset(b)| == |b| == 0;
    } else {
      var i := MatchLast(a, b);
      TotalReorder(a[..|a| - 1], b[..i] + b[i + 1..], key);
      TotalTakeOut(b, i, key);
    }
  }

  /** Whatever the order of the event lists, the holdings are the same entries. */
  lemma NettingIgnoresOrder<K(!new)>(items: seq<Item<K>>, received: seq<Movement<K>>, sent: seq<Movement<K>>,
                                     items': seq<Item<K>>, received': seq<Movement<K>>, sent': seq<Movement<K>>)
    requires IsNetting(items, received, sent) && IsNetting(items', received', sent')
    requires multiset(received) == multiset(received') && multiset(sent) == multiset(sent')
    ensures multiset(items) == multiset(items')
  {
    forall key ensures Total(received, key) == Total(received', key) && Total(sent, key) == Total(sent', key) {
      TotalReorder(received, received', key);
      TotalReorder(sent, sent', key);
    }
    SameEntries(items, items', received, sent);
    SameEntries(items', items, received, sent);
    ItemsOnce(items);
    ItemsOnce(items');
    forall item ensures multiset(items)[item] == multiset(items')[item] {
    }
  }

  lemma SameEntries<K(!new)>(items: seq<Item<K>>, items': seq<Item<K>>, received: seq<Movement<K>>,
                      sent: seq<Movement<K>>)
    requires IsNetting(items, received, sent) && IsNetting(items', received, sent)
    ensures forall item :: item in items ==> item in items'
  {
    forall item | item in items ensures item in items' {
      var i :| 0 <= i < |items| && items[i] == item;
      assert items[i].balance > 0;
      assert Listed(items', item.key);
      var j :| 0 <= j < |items'| && items'[j].key == item.key;
      assert items'[j] == item;
    }
  }

  lemma {:induction false} ItemsOnce<K(!new)>(items: seq<Item<K>>)
    requires OneEach(items)
    ensures forall item :: multiset(items)[item] == if item in items then 1 else 0
  {
    if items != [] {
      ItemsOnce(items[1..]);
      assert items == [items[0]] + items[1..];
      assert items[0] !in items[1..];
    }
  }
}
