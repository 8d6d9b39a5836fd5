/**
 * packages/nouns-webapp/src/utils/composables/composablesIndexer.ts: tables filled from the event
 * log by repeated indexing runs. A run compares every event with the keys read before its loop.
 */
module MarketIndex {
  datatype Created = Created(blockNumber: nat, listingId: nat, seller: string, tokenAddress: string, tokenId: nat,
                             price: nat, quantity: nat, maxPerAddress: nat)

  datatype Deleted = Deleted(blockNumber: nat, listingId: nat)

  datatype Filled = Filled(blockNumber: nat, transactionIndex: nat, listingId: nat, buyer: string, tokenAddress: string,
                           tokenId: nat, seller: string, price: nat, quantity: nat, sellerAmount: nat, feeAmount: nat)

  const CREATED_KEY: Created -> nat := (e: Created) => e.listingId
  const DELETED_KEY: Deleted -> nat := (e: Deleted) => e.listingId
  const FILLED_KEY: Filled -> (nat, nat) := (e: Filled) => (e.blockNumber, e.transactionIndex)

  predicate Known<E, K(==)>(table: seq<E>, e: E, key: E -> K) {
    exists i :: 0 <= i < |table| && key(table[i]) == key(e)
  }

  /** The events of the log whose key the table does not have. */
  function Fresh<E, K(==)>(table: seq<E>, log: seq<E>, key: E -> K): seq<E> {
    if log == [] then []
    else
      var last := log[|log| - 1];
      Fresh(table, log[..|log| - 1], key) + if Known(table, last, key) then [] else [last]
  }

  /** The table after one indexing run. */
  function Absorb<E, K(==)>(table: seq<E>, log: seq<E>, key: E -> K): seq<E> {
    table + Fresh(table, log, key)
  }

  function CreatedIds(table: seq<Created>): (ids: seq<nat>)
    ensures forall e: Created :: e.listingId in ids <==> Known(table, e, CREATED_KEY)
  {
    var ids := seq(|table|, i requires 0 <= i < |table| => table[i].listingId);
    assert forall i :: 0 <= i < |table| ==> ids[i] == CREATED_KEY(table[i]);
    ids
  }

  function DeletedIds(table: seq<Deleted>): (ids: seq<nat>)
    ensures forall e: Deleted :: e.listingId in ids <==> Known(table, e, DELETED_KEY)
  {
    var ids := seq(|table|, i requires 0 <= i < |table| => table[i].listingId);
    assert forall i :: 0 <= i < |table| ==> ids[i] == DELETED_KEY(table[i]);
    ids
  }

  class Index {
    var created: seq<Created>
    var deleted: seq<Deleted>
    var filled: seq<Filled>

    constructor ()
      ensures created == [] && deleted == [] && filled == []
    {
      created, deleted, filled := [], [], [];
    }

    method IndexComposablesMarketListings(listingsCreated: seq<Created>, listingsDeleted: seq<Deleted>)
      modifies this`created, this`deleted
      ensures created == Absorb(old(created), listingsCreated, CREATED_KEY)
      ensures deleted == Absorb(old(deleted), listingsDeleted, DELETED_KEY)
    {
      var listingIdsCreated := CreatedIds(created);
      for i := 0 to |listingsCreated|
        invariant created == Absorb(old(created), listingsCreated[..i], CREATED_KEY) && deleted == old(deleted)
      {
        var event := listingsCreated[i];
        assert listingsCreated[..i + 1][..i] == listingsCreated[..i];
        if event.listingId !in listingIdsCreated {
          created := created + [event];
        }
      }
      assert listingsCreated[..|listingsCreated|] == listingsCreated;

      var listingIdsDeleted := DeletedIds(deleted);
      for i := 0 to |listingsDeleted|
        invariant created == Absorb(old(created), listingsCreated, CREATED_KEY)
        invariant deleted == Absorb(old(deleted), listingsDeleted[..i], DELETED_KEY)
      {
        var event := listingsDeleted[i];
        assert listingsDeleted[..i + 1][..i] == listingsDeleted[..i];
        if event.listingId !in listingIdsDeleted {
          deleted := deleted + [event];
        }
      }
      assert listingsDeleted[..|listingsDeleted|] == listingsDeleted;
    }

    method IndexComposablesMarketListingsFilled(listingsFilled: seq<Filled>)
      modifies this`filled
      ensures filled == Absorb(old(filled), listingsFilled, FILLED_KEY)
    {
      var rows := filled;
      for i := 0 to |listingsFilled|
        invariant filled == Absorb(rows, listingsFilled[..i], FILLED_KEY)
      {
        var event := listingsFilled[i];
        assert listingsFilled[..i + 1][..i] == listingsFilled[..i];
        var found := exists j :: 0 <= j < |rows| && rows[j].blockNumber == event.blockNumber
                                 && rows[j].transactionIndex == event.transactionIndex;
        assert found <==> Known(rows, event, FILLED_KEY);
        if !found {
          filled := filled + [event];
        }
      }
      assert listingsFilled[..|listingsFilled|] == listingsFilled;
    }
  }

  // ---------- the index equals the log ----------

  /** The log is extended, and no added event has a key of the old part. */
  ghost predicate Grows<E(!new), K>(before: seq<E>, after: seq<E>, key: E -> K) {
    before <= after && forall i :: |before| <= i < |after| ==> !Known(before, after[i], key)
  }

  lemma {:induction false} FreshConcat<E, K>(table: seq<E>, a: seq<E>, b: seq<E>, key: E -> K)
    ensures Fresh(table, a + b, key) == Fresh(table, a, key) + Fresh(table, b, key)
  {
    if b == [] {
      assert a + b == a;
    } else {
      var n := |b| - 1;
      assert (a + b)[..|a + b| - 1] == a + b[..n];
      FreshConcat(table, a, b[..n], key);
    }
  }

  lemma {:induction false} KnownIsDropped<E, K>(table: seq<E>, log: seq<E>, key: E -> K)
    requires forall i :: 0 <= i < |log| ==> Known(table, log[i], key)
    ensures Fresh(table, log, key) == []
  {
    if log != [] { KnownIsDropped(table, log[..|log| - 1], key); }
  }

  /** The table knows none of these events. */
  ghost predicate AllNew<E(!new), K>(table: seq<E>, log: seq<E>, key: E -> K) {
    forall i :: 0 <= i < |log| ==> !Known(table, log[i], key)
  }

  lemma AllNewLast<E(!new), K>(table: seq<E>, init: seq<E>, e: E, key: E -> K)
    ensures AllNew(table, init + [e], key) <==> AllNew(table, init, key) && !Known(table, e, key)
  {
    var log := init + [e];
    if AllNew(table, log, key) {
      assert log[|init|] == e;
      forall i | 0 <= i < |init| ensures !Known(table, init[i], key) { assert log[i] == init[i]; }
    }
  }

  lemma {:induction false} FreshIsAllIff<E(!new), K>(table: seq<E>, log: seq<E>, key: E -> K)
    ensures |Fresh(table, log, key)| <= |log|
    ensures Fresh(table, log, key) == log <==> AllNew(table, log, key)
  {
    if log != [] {
      var init, e := log[..|log| - 1], log[|log| - 1];
      FreshIsAllIff(table, init, key);
      assert log == init + [e];
      AllNewLast(table, init, e, key);
      var kept := Fresh(table, init, key);
      if Known(table, e, key) {
        assert Fresh(table, log, key) == kept;
      } else {
        assert Fresh(table, log, key) == kept + [e];
        AppendCancels(kept, init, e);
      }
    }
  }

  lemma AppendCancels<E>(a: seq<E>, b: seq<E>, e: E)
    ensures a + [e] == b + [e] <==> a == b
  {
    assert (a + [e])[..|a|] == a && (b + [e])[..|b|] == b;
  }

  /** A run over an extension of the table adds the fresh part of the extension. */
  lemma AbsorbAdds<E, K>(table: seq<E>, added: seq<E>, key: E -> K)
    ensures Absorb(table, table + added, key) == table + Fresh(table, added, key)
  {
    forall i | 0 <= i < |table| ensures Known(table, table[i], key) {
    }
    KnownIsDropped(table, table, key);
    FreshConcat(table, table, added, key);
    assert Fresh(table, table + added, key) == Fresh(table, added, key);
  }

  lemma GrowsIsAllNew<E(!new), K>(table: seq<E>, added: seq<E>, key: E -> K)
    ensures Grows(table, table + added, key) <==> AllNew(table, added, key)
  {
    var log := table + added;
    if Grows(table, log, key) {
      forall i | 0 <= i < |added| ensures !Known(table, added[i], key) { assert added[i] == log[|table| + i]; }
    }
    if AllNew(table, added, key) {
      forall i | |table| <= i < |log| ensures !Known(table, log[i], key) { assert log[i] == added[i - |table|]; }
    }
  }

  /** Indexing an extended log brings the table up to it exactly when no new event reuses an old key. */
  lemma AbsorbIff<E(!new), K>(table: seq<E>, log: seq<E>, key: E -> K)
    requires table <= log
    ensures Absorb(table, log, key) == log <==> Grows(table, log, key)
  {
    var added := log[|table|..];
    assert log == table + added;
    AbsorbAdds(table, added, key);
    GrowsIsAllNew(table, added, key);
    FreshIsAllIff(table, added, key);
    PrefixCancels(table, Fresh(table, added, key), added);
  }

  lemma PrefixCancels<E>(table: seq<E>, a: seq<E>, b: seq<E>)
    ensures table + a == table + b <==> a == b
  {
    assert (table + a)[|table|..] == a && (table + b)[|table|..] == b;
  }

  /** The table after runs that saw these logs, one after the other. */
  function TableAfter<E, K(==)>(logs: seq<seq<E>>, key: E -> K): seq<E> {
    if logs == [] then [] else Absorb(TableAfter(logs[..|logs| - 1], key), logs[|logs| - 1], key)
  }

  /** After the run that saw `logs[n]` the table is that log. */
  ghost predicate CurrentAt<E, K>(logs: seq<seq<E>>, n: nat, key: E -> K)
    requires n < |logs|
  {
    TableAfter(logs[..n + 1], key) == logs[n]
  }

  /** After every run the table is the log of that run. */
  ghost predicate AlwaysCurrent<E, K>(logs: seq<seq<E>>, key: E -> K) {
    forall n :: 0 <= n < |logs| ==> CurrentAt(logs, n, key)
  }

  /** An append-only log: each run sees an extension of what the run before saw. */
  ghost predicate AppendOnly<E>(logs: seq<seq<E>>) {
    forall n :: 1 <= n < |logs| ==> logs[n - 1] <= logs[n]
  }

  /** Every step of the log grows it. */
  ghost predicate AllGrow<E(!new), K>(logs: seq<seq<E>>, key: E -> K) {
    forall n :: 1 <= n < |logs| ==> Grows(logs[n - 1], logs[n], key)
  }

  /** Over an append-only log the tables equal the log after every run exactly when it always grows. */
  lemma {:induction false} IndexEqualsReplayIff<E(!new), K>(logs: seq<seq<E>>, key: E -> K)
    requires AppendOnly(logs)
    ensures AlwaysCurrent(logs, key) <==> AllGrow(logs, key)
    decreases |logs|
  {
    if logs != [] {
      var n := |logs| - 1;
      var init := logs[..n];
      IndexEqualsReplayIff(init, key);
      CurrentSplit(logs, key);
      CurrentLast(logs, key);
      if n == 0 {
        FromNothing(logs[0], key);
        assert TableAfter(init, key) == [];
      } else {
        AbsorbIff(logs[n - 1], logs[n], key);
        GrowSplit(logs, key);
        if AlwaysCurrent(init, key) {
          CurrentLast(init, key);
          assert CurrentAt(init, n - 1, key);
        }
      }
    }
  }

  lemma GrowSplit<E(!new), K>(logs: seq<seq<E>>, key: E -> K)
    requires |logs| >= 2
    ensures AllGrow(logs, key) <==> AllGrow(logs[..|logs| - 1], key) && Grows(logs[|logs| - 2], logs[|logs| - 1], key)
  {
    var n := |logs| - 1;
    var init := logs[..n];
    if AllGrow(logs, key) {
      forall m | 1 <= m < n ensures Grows(init[m - 1], init[m], key) {
        assert Grows(logs[m - 1], logs[m], key);
      }
    }
    if AllGrow(init, key) && Grows(logs[n - 1], logs[n], key) {
      forall m | 1 <= m < |logs| ensures Grows(logs[m - 1], logs[m], key) {
        if m < n { assert Grows(init[m - 1], init[m], key); }
      }
    }
  }

  lemma CurrentEarlier<E, K>(logs: seq<seq<E>>, m: nat, key: E -> K)
    requires m < |logs| - 1
    ensures CurrentAt(logs[..|logs| - 1], m, key) <==> CurrentAt(logs, m, key)
  {
    assert logs[..|logs| - 1][..m + 1] == logs[..m + 1];
  }

  lemma CurrentLast<E, K>(logs: seq<seq<E>>, key: E -> K)
    requires logs != []
    ensures CurrentAt(logs, |logs| - 1, key) <==> TableAfter(logs, key) == logs[|logs| - 1]
  {
    assert logs[..|logs|] == logs;
  }

  lemma CurrentSplit<E, K>(logs: seq<seq<E>>, key: E -> K)
    requires logs != []
    ensures AlwaysCurrent(logs, key) <==> AlwaysCurrent(logs[..|logs| - 1], key) && CurrentAt(logs, |logs| - 1, key)
  {
    var n := |logs| - 1;
    var init := logs[..n];
    forall m | 0 <= m < n ensures CurrentAt(init, m, key) <==> CurrentAt(logs, m, key) {
      CurrentEarlier(logs, m, key);
    }
    if AlwaysCurrent(init, key) && CurrentAt(logs, n, key) {
      forall m | 0 <= m < |logs| ensures CurrentAt(logs, m, key) {
        if m < n { assert CurrentAt(init, m, key); }
      }
    }
  }

  lemma FromNothing<E(!new), K>(log: seq<E>, key: E -> K)
    ensures Absorb([], log, key) == log
  {
    assert Grows([], log, key);
    AbsorbIff([], log, key);
  }

  /** Unique listing ids are enough: no two events of the log share a key. */
  ghost predicate UniqueKeys<E, K>(log: seq<E>, key: E -> K) {
    forall i, j :: 0 <= i < j < |log| ==> key(log[i]) != key(log[j])
  }

  lemma UniqueKeysGrow<E(!new), K>(before: seq<E>, after: seq<E>, key: E -> K)
    requires before <= after && UniqueKeys(after, key)
    ensures Grows(before, after, key)
  {
    forall i | |before| <= i < |after| ensures !Known(before, after[i], key) {
      forall j | 0 <= j < |before| ensures key(before[j]) != key(after[i]) {
        assert after[j] == before[j];
      }
    }
  }

  // ---------- the open listings ----------

  predicate IsDeleted(deleted: seq<Deleted>, e: Created) {
    exists i :: 0 <= i < |deleted| && deleted[i].listingId == e.listingId
  }

  function Listings(created: seq<Created>, deleted: seq<Deleted>): seq<Created> {
    if created == [] then []
    else
      var last := created[|created| - 1];
      Listings(created[..|created| - 1], deleted) + if IsDeleted(deleted, last) then [] else [last]
  }

  lemma {:induction false} ListingsAreOpen(created: seq<Created>, deleted: seq<Deleted>, e: Created)
    ensures e in Listings(created, deleted) <==> e in created && !IsDeleted(deleted, e)
  {
    if created != [] {
      var n := |created| - 1;
      ListingsAreOpen(created[..n], deleted, e);
      assert created == created[..n] + [created[n]];
    }
  }

  lemma {:induction false} ListingsConcat(a: seq<Created>, b: seq<Created>, deleted: seq<Deleted>)
    ensures Listings(a + b, deleted) == Listings(a, deleted) + Listings(b, deleted)
  {
    if b == [] {
      assert a + b == a;
    } else {
      var init := b[..|b| - 1];
      assert (a + b)[..|a + b| - 1] == a + init;
      ListingsConcat(a, init, deleted);
    }
  }

  lemma {:induction false} SameDeletions(created: seq<Created>, deleted: seq<Deleted>, deleted': seq<Deleted>)
    requires forall e :: IsDeleted(deleted, e) <==> IsDeleted(deleted', e)
    ensures Listings(created, deleted) == Listings(created, deleted')
  {
    if created != [] { SameDeletions(created[..|created| - 1], deleted, deleted'); }
  }

  /** An open listing is returned as often as it was created, a closed one never. */
  lemma {:induction false} ListingsCount(created: seq<Created>, deleted: seq<Deleted>, e: Created)
    ensures multiset(Listings(created, deleted))[e] ==
            if exists i :: 0 <= i < |deleted| && deleted[i].listingId == e.listingId then 0 else multiset(created)[e]
  {
    if created != [] {
      var n := |created| - 1;
      ListingsCount(created[..n], deleted, e);
      assert created == created[..n] + [created[n]];
      assert IsDeleted(deleted, e) <==> exists i :: 0 <= i < |deleted| && deleted[i].listingId == e.listingId;
    }
  }

  // ---------- what one run adds, row by row ----------

  lemma {:induction false} FreshCount<E, K>(table: seq<E>, log: seq<E>, key: E -> K, e: E)
    ensures multiset(Fresh(table, log, key))[e] == if Known(table, e, key) then 0 else multiset(log)[e]
  {
    if log != [] {
      var init, last := log[..|log| - 1], log[|log| - 1];
      FreshCount(table, init, key, e);
      assert log == init + [last];
      CountSnoc(init, last, e);
      CountSnoc(Fresh(table, init, key), last, e);
      if key(last) == key(e) { SameKeySameKnown(table, last, e, key); }
    }
  }

  lemma CountSnoc<E>(xs: seq<E>, x: E, e: E)
    ensures multiset(xs + [x])[e] == multiset(xs)[e] + if x == e then 1 else 0
    ensures xs + [] == xs
  {
  }

  /** One run adds each creation as often as the log has it, unless a row has its listing id. */
  lemma CreatedRows(table: seq<Created>, log: seq<Created>, e: Created)
    ensures table <= Absorb(table, log, CREATED_KEY)
    ensures multiset(Absorb(table, log, CREATED_KEY))[e] == multiset(table)[e] +
            if exists i :: 0 <= i < |table| && table[i].listingId == e.listingId then 0 else multiset(log)[e]
  {
    FreshCount(table, log, CREATED_KEY, e);
    assert Known(table, e, CREATED_KEY) <==> exists i :: 0 <= i < |table| && table[i].listingId == e.listingId;
  }

  lemma DeletedRows(table: seq<Deleted>, log: seq<Deleted>, e: Deleted)
    ensures table <= Absorb(table, log, DELETED_KEY)
    ensures multiset(Absorb(table, log, DELETED_KEY))[e] == multiset(table)[e] +
            if exists i :: 0 <= i < |table| && table[i].listingId == e.listingId then 0 else multiset(log)[e]
  {
    FreshCount(table, log, DELETED_KEY, e);
    assert Known(table, e, DELETED_KEY) <==> exists i :: 0 <= i < |table| && table[i].listingId == e.listingId;
  }

  /** A fill is told by its block and its place in the block. */
  predicate SamePlace(a: Filled, b: Filled) {
    a.blockNumber == b.blockNumber && a.transactionIndex == b.transactionIndex
  }

  lemma FilledRows(table: seq<Filled>, log: seq<Filled>, e: Filled)
    ensures table <= Absorb(table, log, FILLED_KEY)
    ensures multiset(Absorb(table, log, FILLED_KEY))[e] == multiset(table)[e] +
            if exists i :: 0 <= i < |table| && SamePlace(table[i], e) then 0 else multiset(log)[e]
  {
    FreshCount(table, log, FILLED_KEY, e);
    SamePlaceIsKnown(table, e);
  }

  lemma SamePlaceIsKnown(table: seq<Filled>, e: Filled)
    ensures Known(table, e, FILLED_KEY) <==> exists i :: 0 <= i < |table| && SamePlace(table[i], e)
  {
    if Known(table, e, FILLED_KEY) {
      var i :| 0 <= i < |table| && FILLED_KEY(table[i]) == FILLED_KEY(e);
      assert SamePlace(table[i], e);
    }
    if exists i :: 0 <= i < |table| && SamePlace(table[i], e) {
      var i :| 0 <= i < |table| && SamePlace(table[i], e);
      assert FILLED_KEY(table[i]) == FILLED_KEY(e);
    }
  }

  // ---------- which keys the table has ----------

  lemma {:induction false} FreshKeys<E(!new), K>(table: seq<E>, log: seq<E>, e: E, key: E -> K)
    ensures Known(table, e, key) || Known(Fresh(table, log, key), e, key) <==>
              Known(table, e, key) || Known(log, e, key)
  {
    if log != [] {
      var init, last := log[..|log| - 1], log[|log| - 1];
      FreshKeys(table, init, e, key);
      assert log == init + [last];
      KnownConcat(init, [last], e, key);
      KnownConcat(Fresh(table, init, key), if Known(table, last, key) then [] else [last], e, key);
      KnownOne(last, e, key);
      if Known(table, last, key) && key(last) == key(e) { SameKeySameKnown(table, last, e, key); }
    }
  }

  lemma KnownOne<E, K>(x: E, e: E, key: E -> K)
    ensures Known([x], e, key) <==> key(x) == key(e)
  {
    if key(x) == key(e) { assert key([x][0]) == key(e); }
  }

  lemma SameKeySameKnown<E, K>(table: seq<E>, e: E, f: E, key: E -> K)
    requires key(e) == key(f)
    ensures Known(table, e, key) <==> Known(table, f, key)
  {
  }

  lemma KnownConcat<E, K>(a: seq<E>, b: seq<E>, e: E, key: E -> K)
    ensures Known(a + b, e, key) <==> Known(a, e, key) || Known(b, e, key)
  {
    if Known(a, e, key) {
      var i :| 0 <= i < |a| && key(a[i]) == key(e);
      assert (a + b)[i] == a[i];
    }
    if Known(b, e, key) {
      var i :| 0 <= i < |b| && key(b[i]) == key(e);
      assert (a + b)[|a| + i] == b[i];
    }
  }

  /** However keys repeat, the table has exactly the keys of the log. */
  lemma {:induction false} TableHasLogKeys<E(!new), K>(logs: seq<seq<E>>, e: E, key: E -> K)
    requires logs != [] && AppendOnly(logs)
    ensures Known(TableAfter(logs, key), e, key) <==> Known(logs[|logs| - 1], e, key)
  {
    var init, last := logs[..|logs| - 1], logs[|logs| - 1];
    var table := TableAfter(init, key);
    KnownConcat(table, Fresh(table, last, key), e, key);
    FreshKeys(table, last, e, key);
    if init != [] {
      assert AppendOnly(init);
      TableHasLogKeys(init, e, key);
      var before := init[|init| - 1];
      assert before <= last;
      assert last == before + last[|before|..];
      KnownConcat(before, last[|before|..], e, key);
    }
  }

  // ---------- listings through the index ----------

  /** Every added event whose id the earlier log has is a deleted listing. */
  ghost predicate OnlyClosedRepeats(before: seq<Created>, added: seq<Created>, deleted: seq<Deleted>) {
    forall i :: 0 <= i < |added| && Known(before, added[i], CREATED_KEY) ==> IsDeleted(deleted, added[i])
  }

  lemma OnlyClosedLast(before: seq<Created>, init: seq<Created>, e: Created, deleted: seq<Deleted>)
    ensures OnlyClosedRepeats(before, init + [e], deleted) <==>
              OnlyClosedRepeats(before, init, deleted) && (Known(before, e, CREATED_KEY) ==> IsDeleted(deleted, e))
  {
    var added := init + [e];
    if OnlyClosedRepeats(before, added, deleted) {
      assert added[|init|] == e;
      forall i | 0 <= i < |init| && Known(before, init[i], CREATED_KEY) ensures IsDeleted(deleted, init[i]) {
        assert added[i] == init[i];
      }
    }
  }

  /** What one run loses of the added listings. */
  lemma {:induction false} FreshListings(table: seq<Created>, added: seq<Created>, deleted: seq<Deleted>)
    ensures |Listings(Fresh(table, added, CREATED_KEY), deleted)| <= |Listings(added, deleted)|
    ensures Listings(Fresh(table, added, CREATED_KEY), deleted) == Listings(added, deleted) <==>
              OnlyClosedRepeats(table, added, deleted)
    ensures Listings(Fresh(table, added, CREATED_KEY), deleted) == Listings(added, deleted) <==>
              |Listings(Fresh(table, added, CREATED_KEY), deleted)| == |Listings(added, deleted)|
  {
    if added != [] {
      var init, e := added[..|added| - 1], added[|added| - 1];
      assert added == init + [e];
      FreshListings(table, init, deleted);
      OnlyClosedLast(table, init, e, deleted);
      var kept := Fresh(table, init, CREATED_KEY);
      var shown := if IsDeleted(deleted, e) then [] else [e];
      assert Listings(added, deleted) == Listings(init, deleted) + shown;
      assert Listings([e], deleted) == shown by {
        assert [e][..0] == [] && Listings([], deleted) == [];
        assert [] + shown == shown;
      }
      if Known(table, e, CREATED_KEY) {
        assert Fresh(table, added, CREATED_KEY) == kept;
      } else {
        assert Fresh(table, added, CREATED_KEY) == kept + [e];
        ListingsConcat(kept, [e], deleted);
        SameEndCancels(Listings(kept, deleted), Listings(init, deleted), shown);
      }
    }
  }

  lemma SameEndCancels<T>(a: seq<T>, b: seq<T>, end: seq<T>)
    ensures a + end == b + end <==> a == b
  {
    assert |a| == |b| ==> (a + end)[..|a|] == a && (b + end)[..|b|] == b;
  }

  ghost predicate NoOpenRepeats(logs: seq<seq<Created>>, deleted: seq<Deleted>)
    requires AppendOnly(logs)
  {
    forall n :: 1 <= n < |logs| ==> OnlyClosedAt(logs, n, deleted)
  }

  /** Run number n added no open listing under an id of an earlier run. */
  ghost predicate OnlyClosedAt(logs: seq<seq<Created>>, n: nat, deleted: seq<Deleted>)
    requires 1 <= n < |logs| && logs[n - 1] <= logs[n]
  {
    OnlyClosedRepeats(logs[n - 1], logs[n][|logs[n - 1]|..], deleted)
  }

  lemma NoOpenSplit(logs: seq<seq<Created>>, deleted: seq<Deleted>)
    requires |logs| >= 2 && AppendOnly(logs)
    ensures AppendOnly(logs[..|logs| - 1])
    ensures NoOpenRepeats(logs, deleted) <==>
              NoOpenRepeats(logs[..|logs| - 1], deleted) && OnlyClosedAt(logs, |logs| - 1, deleted)
  {
    var n, init := |logs| - 1, logs[..|logs| - 1];
    forall m | 1 <= m < n ensures OnlyClosedAt(init, m, deleted) <==> OnlyClosedAt(logs, m, deleted) {
    }
    if NoOpenRepeats(init, deleted) && OnlyClosedAt(logs, n, deleted) {
      forall m | 1 <= m < |logs| ensures OnlyClosedAt(logs, m, deleted) {
        if m < n { assert OnlyClosedAt(init, m, deleted); }
      }
    }
  }

  ghost predicate AllKnown<E, K>(table: seq<E>, log: seq<E>, key: E -> K) {
    forall i :: 0 <= i < |log| ==> Known(table, log[i], key)
  }

  lemma AbsorbGrown<E, K>(table: seq<E>, before: seq<E>, added: seq<E>, key: E -> K)
    requires AllKnown(table, before, key)
    ensures Absorb(table, before + added, key) == table + Fresh(table, added, key)
  {
    KnownIsDropped(table, before, key);
    FreshConcat(table, before, added, key);
    assert [] + Fresh(table, added, key) == Fresh(table, added, key);
  }

  lemma LogIsKnown(logs: seq<seq<Created>>)
    requires logs != [] && AppendOnly(logs)
    ensures AllKnown(TableAfter(logs, CREATED_KEY), logs[|logs| - 1], CREATED_KEY)
  {
    var log := logs[|logs| - 1];
    forall i | 0 <= i < |log| ensures Known(TableAfter(logs, CREATED_KEY), log[i], CREATED_KEY) {
      TableHasLogKeys(logs, log[i], CREATED_KEY);
    }
  }

  /** What the table shows of the log: never more, and all of it as long as only closed listings are lost. */
  ghost predicate ShowsIff(table: seq<Created>, log: seq<Created>, deleted: seq<Deleted>, ok: bool) {
    var (shown, all) := (Listings(table, deleted), Listings(log, deleted));
    |shown| <= |all| && (shown == all <==> ok) && (shown == all <==> |shown| == |all|)
  }

  lemma ShowsStep(table: seq<Created>, before: seq<Created>, added: seq<Created>, deleted: seq<Deleted>, ok: bool)
    requires ShowsIff(table, before, deleted, ok)
    ensures ShowsIff(table + Fresh(table, added, CREATED_KEY), before + added, deleted,
              ok && OnlyClosedRepeats(table, added, deleted))
  {
    var kept := Fresh(table, added, CREATED_KEY);
    ListingsConcat(table, kept, deleted);
    ListingsConcat(before, added, deleted);
    FreshListings(table, added, deleted);
    BothHalves(Listings(table, deleted), Listings(kept, deleted), Listings(before, deleted), Listings(added, deleted));
  }

  lemma {:induction false} TableListings(logs: seq<seq<Created>>, deleted: seq<Deleted>)
    requires logs != [] && AppendOnly(logs)
    ensures ShowsIff(TableAfter(logs, CREATED_KEY), logs[|logs| - 1], deleted, NoOpenRepeats(logs, deleted))
  {
    var init, last := logs[..|logs| - 1], logs[|logs| - 1];
    if init == [] {
      FromNothing(last, CREATED_KEY);
      assert TableAfter(init, CREATED_KEY) == [];
    } else {
      var table, before := TableAfter(init, CREATED_KEY), logs[|logs| - 2];
      NoOpenSplit(logs, deleted);
      TableListings(init, deleted);
      assert before == init[|init| - 1] && before <= last;
      var added := last[|before|..];
      assert last == before + added;
      LogIsKnown(init);
      AbsorbGrown(table, before, added, CREATED_KEY);
      ShowsStep(table, before, added, deleted, NoOpenRepeats(init, deleted));
      SameClosedRepeats(init, added, deleted);
    }
  }

  lemma SameClosedRepeats(logs: seq<seq<Created>>, added: seq<Created>, deleted: seq<Deleted>)
    requires logs != [] && AppendOnly(logs)
    ensures OnlyClosedRepeats(TableAfter(logs, CREATED_KEY), added, deleted) <==>
              OnlyClosedRepeats(logs[|logs| - 1], added, deleted)
  {
    forall i | 0 <= i < |added|
      ensures Known(TableAfter(logs, CREATED_KEY), added[i], CREATED_KEY) <==>
                Known(logs[|logs| - 1], added[i], CREATED_KEY)
    {
      TableHasLogKeys(logs, added[i], CREATED_KEY);
    }
  }

  lemma BothHalves<T>(a: seq<T>, b: seq<T>, x: seq<T>, y: seq<T>)
    requires |a| <= |x| && |b| <= |y| && (a == x <==> |a| == |x|) && (b == y <==> |b| == |y|)
    ensures a + b == x + y <==> a == x && b == y
    ensures a + b == x + y <==> |a + b| == |x + y|
  {
  }

  lemma TableDeletes(logs: seq<seq<Deleted>>, e: Created)
    requires logs != [] && AppendOnly(logs)
    ensures IsDeleted(TableAfter(logs, DELETED_KEY), e) <==> IsDeleted(logs[|logs| - 1], e)
  {
    TableHasLogKeys(logs, Deleted(0, e.listingId), DELETED_KEY);
    DeletedIsKnown(TableAfter(logs, DELETED_KEY), e);
    DeletedIsKnown(logs[|logs| - 1], e);
  }

  lemma DeletedIsKnown(deleted: seq<Deleted>, e: Created)
    ensures IsDeleted(deleted, e) <==> Known(deleted, Deleted(0, e.listingId), DELETED_KEY)
  {
    if IsDeleted(deleted, e) {
      var i :| 0 <= i < |deleted| && deleted[i].listingId == e.listingId;
      assert DELETED_KEY(deleted[i]) == DELETED_KEY(Deleted(0, e.listingId));
    }
  }

  /**
   * After any number of runs over append-only logs, the listings read through the index are those
   * read from the contract exactly when no open listing was created under an id an earlier run saw.
   */
  lemma ListingsThroughIndexIff(createdLogs: seq<seq<Created>>, deletedLogs: seq<seq<Deleted>>)
    requires createdLogs != [] && deletedLogs != [] && AppendOnly(createdLogs) && AppendOnly(deletedLogs)
    ensures Listings(TableAfter(createdLogs, CREATED_KEY), TableAfter(deletedLogs, DELETED_KEY))
            == Listings(createdLogs[|createdLogs| - 1], deletedLogs[|deletedLogs| - 1])
            <==> NoOpenRepeats(createdLogs, deletedLogs[|deletedLogs| - 1])
  {
    var deleted := deletedLogs[|deletedLogs| - 1];
    forall e ensures IsDeleted(TableAfter(deletedLogs, DELETED_KEY), e) <==> IsDeleted(deleted, e) {
      TableDeletes(deletedLogs, e);
    }
    SameDeletions(TableAfter(createdLogs, CREATED_KEY), TableAfter(deletedLogs, DELETED_KEY), deleted);
    TableListings(createdLogs, deleted);
  }

  /** Unique ids of created listings are enough, whatever the deletions. */
  lemma UniqueListingsThroughIndex(createdLogs: seq<seq<Created>>, deletedLogs: seq<seq<Deleted>>)
    requires createdLogs != [] && deletedLogs != [] && AppendOnly(createdLogs) && AppendOnly(deletedLogs)
    requires UniqueKeys(createdLogs[|createdLogs| - 1], CREATED_KEY)
    ensures Listings(TableAfter(createdLogs, CREATED_KEY), TableAfter(deletedLogs, DELETED_KEY))
            == Listings(createdLogs[|createdLogs| - 1], deletedLogs[|deletedLogs| - 1])
  {
    UniqueLogIsIndexed(createdLogs, CREATED_KEY);
    var deleted := deletedLogs[|deletedLogs| - 1];
    forall e ensures IsDeleted(TableAfter(deletedLogs, DELETED_KEY), e) <==> IsDeleted(deleted, e) {
      TableDeletes(deletedLogs, e);
    }
    SameDeletions(TableAfter(createdLogs, CREATED_KEY), TableAfter(deletedLogs, DELETED_KEY), deleted);
  }

  lemma {:induction false} EarlierIsPrefix<E>(logs: seq<seq<E>>, n: nat)
    requires AppendOnly(logs) && n < |logs|
    ensures logs[n] <= logs[|logs| - 1]
    decreases |logs| - n
  {
    if n < |logs| - 1 {
      EarlierIsPrefix(logs, n + 1);
      assert logs[n + 1 - 1] <= logs[n + 1];
    }
  }

  lemma UniqueLogIsIndexed<E(!new), K>(logs: seq<seq<E>>, key: E -> K)
    requires logs != [] && AppendOnly(logs) && UniqueKeys(logs[|logs| - 1], key)
    ensures TableAfter(logs, key) == logs[|logs| - 1]
  {
    forall n | 1 <= n < |logs| ensures Grows(logs[n - 1], logs[n], key) {
      EarlierIsPrefix(logs, n);
      assert logs[n - 1] <= logs[n];
      UniqueKeysGrow(logs[n - 1], logs[n], key);
    }
    IndexEqualsReplayIff(logs, key);
    CurrentLast(logs, key);
    assert CurrentAt(logs, |logs| - 1, key);
  }
}
