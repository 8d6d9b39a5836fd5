/**
 * packages/nouns-webapp/src/state/slices/logs.ts and state/updaters/logs.ts: which log queries are
 * open, what they returned, and which block ranges a query asks for.
 */
module LogFetch {
  import opened Wrappers
  import opened LogKeys
  import opened Occurrences

  /** `logs` is None for a failed query. */
  datatype Result = Result(blockNumber: nat, logs: Option<seq<string>>)

  datatype FetchState = FetchState(listeners: int, fetchingBlockNumber: Option<nat>, results: Option<Result>)

  type LogsState = map<string, FetchState>

  datatype Action =
    | AddListener(filter: EventFilter)
    | RemoveListener(filter: EventFilter)
    | FetchingLogs(filters: seq<EventFilter>, block: nat)
    | FetchedLogs(filter: EventFilter, reply: Result)

  function Mark(state: LogsState, filters: seq<EventFilter>, block: nat): LogsState {
    if filters == [] then state
    else
      var before := Mark(state, filters[..|filters| - 1], block);
      var key := FilterToKey(filters[|filters| - 1]);
      if key !in before then before else before[key := before[key].(fetchingBlockNumber := Some(block))]
  }

  /** `fetchedLogs` and `fetchedLogsError`: a reply older than the stored one is dropped. */
  function Store(state: LogsState, key: string, reply: Result): LogsState {
    if key !in state then state
    else if state[key].results.Some? && state[key].results.value.blockNumber > reply.blockNumber then state
    else state[key := state[key].(results := Some(reply))]
  }

  function Step(state: LogsState, a: Action): LogsState {
    match a
    case AddListener(filter) =>
      var key := FilterToKey(filter);
      if key !in state then state[key := FetchState(1, None, None)]
      else state[key := state[key].(listeners := state[key].listeners + 1)]
    case RemoveListener(filter) =>
      var key := FilterToKey(filter);
      if key !in state then state else state[key := state[key].(listeners := state[key].listeners - 1)]
    case FetchingLogs(filters, block) => Mark(state, filters, block)
    case FetchedLogs(filter, reply) => Store(state, FilterToKey(filter), reply)
  }

  class LogsSlice {
    var state: LogsState

    constructor ()
      ensures state == map[]
    {
      state := map[];
    }

    method DoAddListener(filter: EventFilter)
      modifies this
      ensures state == Step(old(state), AddListener(filter))
    {
      var key := FilterToKey(filter);
      if key !in state {
        state := state[key := FetchState(1, None, None)];
      } else {
        state := state[key := state[key].(listeners := state[key].listeners + 1)];
      }
    }

    method DoRemoveListener(filter: EventFilter)
      modifies this
      ensures state == Step(old(state), RemoveListener(filter))
    {
      var key := FilterToKey(filter);
      if key !in state { return; }
      state := state[key := state[key].(listeners := state[key].listeners - 1)];
    }

    method DoFetchingLogs(filters: seq<EventFilter>, blockNumber: nat)
      modifies this
      ensures state == Step(old(state), FetchingLogs(filters, blockNumber))
    {
      for i := 0 to |filters|
        invariant state == Mark(old(state), filters[..i], blockNumber)
      {
        assert filters[..i + 1][..i] == filters[..i];
        var key := FilterToKey(filters[i]);
        if key !in state { continue; }
        state := state[key := state[key].(fetchingBlockNumber := Some(blockNumber))];
      }
      assert filters[..|filters|] == filters;
    }

    method DoFetchedLogs(filter: EventFilter, blockNumber: nat, logs: seq<string>)
      modifies this
      ensures state == Step(old(state), FetchedLogs(filter, Result(blockNumber, Some(logs))))
    {
      var key := FilterToKey(filter);
      if key !in state { return; }
      if state[key].results.Some? && state[key].results.value.blockNumber > blockNumber { return; }
      state := state[key := state[key].(results := Some(Result(blockNumber, Some(logs))))];
    }

    method DoFetchedLogsError(filter: EventFilter, blockNumber: nat)
      modifies this
      ensures state == Step(old(state), FetchedLogs(filter, Result(blockNumber, None)))
    {
      var key := FilterToKey(filter);
      if key !in state { return; }
      if state[key].results.Some? && state[key].results.value.blockNumber > blockNumber { return; }
      state := state[key := state[key].(results := Some(Result(blockNumber, None)))];
    }
  }

  // ---------- results never go stale ----------

  function Run(state: LogsState, actions: seq<Action>): LogsState {
    if actions == [] then state else Step(Run(state, actions[..|actions| - 1]), actions[|actions| - 1])
  }

  /** The result that wins among those for one entry: the newest block, and of equal blocks the last. */
  function Newest(first: Option<Result>, actions: seq<Action>, key: string): Option<Result> {
    if actions == [] then first
    else
      var before := Newest(first, actions[..|actions| - 1], key);
      var a := actions[|actions| - 1];
      if a.FetchedLogs? && FilterToKey(a.filter) == key
          && !(before.Some? && before.value.blockNumber > a.reply.blockNumber)
      then Some(a.reply) else before
  }

  lemma {:induction false} MarkKeepsResults(state: LogsState, filters: seq<EventFilter>, block: nat)
    ensures Mark(state, filters, block).Keys == state.Keys
    ensures forall key :: key in state ==> Mark(state, filters, block)[key].results == state[key].results
    ensures forall key :: key in state ==> Mark(state, filters, block)[key].listeners == state[key].listeners
  {
    if filters != [] { MarkKeepsResults(state, filters[..|filters| - 1], block); }
  }

  /** Under any interleaving an entry holds the newest reply that was sent to it. */
  lemma {:induction false} ResultsAreNewest(state: LogsState, actions: seq<Action>, key: string)
    requires key in state
    ensures key in Run(state, actions)
    ensures Run(state, actions)[key].results == Newest(state[key].results, actions, key)
  {
    if actions != [] {
      var n := |actions| - 1;
      ResultsAreNewest(state, actions[..n], key);
      var a := actions[n];
      if a.FetchingLogs? { MarkKeepsResults(Run(state, actions[..n]), a.filters, a.block); }
    }
  }

  /** No reply for the entry is newer than its result, and the result is one of them or the first one. */
  lemma {:induction false} NewestIsGreatest(first: Option<Result>, actions: seq<Action>, key: string)
    ensures var r := Newest(first, actions, key);
            && (first.Some? ==> r.Some? && first.value.blockNumber <= r.value.blockNumber)
            && (forall i :: 0 <= i < |actions| && actions[i].FetchedLogs? && FilterToKey(actions[i].filter) == key ==>
                  r.Some? && actions[i].reply.blockNumber <= r.value.blockNumber)
            && (r == first || exists i :: 0 <= i < |actions| && actions[i].FetchedLogs?
                                          && FilterToKey(actions[i].filter) == key && r == Some(actions[i].reply))
  {
    if actions != [] {
      var n := |actions| - 1;
      var init := actions[..n];
      NewestIsGreatest(first, init, key);
      assert forall i :: 0 <= i < n ==> init[i] == actions[i];
      var before := Newest(first, init, key);
      if before != first {
        var i :| 0 <= i < n && init[i].FetchedLogs? && FilterToKey(init[i].filter) == key
            && before == Some(init[i].reply);
        assert actions[i] == init[i];
      }
    }
  }

  // ---------- the updater ----------

  /** The filter of `filtersNeedFetch`. */
  predicate NeedsFetch(entry: FetchState, blockNumber: nat) {
    && entry.listeners != 0
    && !(entry.fetchingBlockNumber.Some? && entry.fetchingBlockNumber.value >= blockNumber)
    && !(entry.results.Some? && entry.results.value.blockNumber >= blockNumber)
  }

  /** The reducer takes a reply that is not older than the stored result. */
  predicate Takes(entry: FetchState, reply: Result) {
    entry.results.None? || entry.results.value.blockNumber <= reply.blockNumber
  }

  /**
   * The updater asks with the filter parsed from an entry's key. A reply the entry would take is
   * stored under that entry exactly when the key is stable; otherwise the entry never hears of it.
   */
  lemma ReplyLandsIff(state: LogsState, key: string, reply: Result)
    requires key in state && KeyToFilter(key).Some?
    ensures var state' := Step(state, FetchedLogs(KeyToFilter(key).value, reply));
            && key in state'
            && state'[key] == (if StableKey(key) && Takes(state[key], reply)
                               then state[key].(results := Some(reply)) else state[key])
            && (Takes(state[key], reply) && state[key].results != Some(reply) ==>
                  (state'[key].results == Some(reply) <==> StableKey(key)))
  {
    KeyRoundTripIff(key);
  }

  /** Some of the filters has this key. */
  predicate Hits(filters: seq<EventFilter>, key: string) {
    exists i :: 0 <= i < |filters| && FilterToKey(filters[i]) == key
  }

  lemma HitsLast(filters: seq<EventFilter>, key: string)
    requires filters != []
    ensures Hits(filters, key) <==>
              Hits(filters[..|filters| - 1], key) || FilterToKey(filters[|filters| - 1]) == key
  {
    var init := filters[..|filters| - 1];
    if Hits(init, key) {
      var i :| 0 <= i < |init| && FilterToKey(init[i]) == key;
      assert filters[i] == init[i];
    }
    if Hits(filters, key) {
      var i :| 0 <= i < |filters| && FilterToKey(filters[i]) == key;
      assert i < |init| ==> init[i] == filters[i];
    }
  }

  /** Marking changes the fetching block of exactly the entries some filter hits, and nothing else. */
  lemma {:induction false} MarkIsExact(state: LogsState, filters: seq<EventFilter>, key: string, blockNumber: nat)
    requires key in state
    ensures key in Mark(state, filters, blockNumber)
    ensures Mark(state, filters, blockNumber)[key] ==
            if Hits(filters, key) then state[key].(fetchingBlockNumber := Some(blockNumber)) else state[key]
  {
    if filters != [] {
      MarkIsExact(state, filters[..|filters| - 1], key, blockNumber);
      HitsLast(filters, key);
    }
  }

  /** An entry that needs fetching stops to need it exactly when some marked filter has its key. */
  lemma MarkingStopsIff(state: LogsState, filters: seq<EventFilter>, key: string, blockNumber: nat)
    requires key in state && NeedsFetch(state[key], blockNumber)
    ensures key in Mark(state, filters, blockNumber)
    ensures !NeedsFetch(Mark(state, filters, blockNumber)[key], blockNumber) <==> Hits(filters, key)
  {
    MarkIsExact(state, filters, key, blockNumber);
  }

  /** `.map(key => keyToFilter(key))` on keys that have a colon. */
  function ParsedKeys(keys: seq<string>): (filters: seq<EventFilter>)
    requires forall i :: 0 <= i < |keys| ==> KeyToFilter(keys[i]).Some?
    ensures |filters| == |keys|
    ensures forall i :: 0 <= i < |keys| ==> KeyToFilter(keys[i]) == Some(filters[i])
  {
    if keys == [] then []
    else ParsedKeys(keys[..|keys| - 1]) + [KeyToFilter(keys[|keys| - 1]).value]
  }

  /**
   * One pass of the updater selects these entries and marks the filters parsed from their keys. An
   * entry is selected again at the same block exactly when no selected key prints as its own.
   */
  lemma SelectedAgainIff(state: LogsState, keys: seq<string>, key: string, blockNumber: nat)
    requires forall i :: 0 <= i < |keys| ==> KeyToFilter(keys[i]).Some?
    requires key in state && NeedsFetch(state[key], blockNumber)
    ensures key in Mark(state, ParsedKeys(keys), blockNumber)
    ensures NeedsFetch(Mark(state, ParsedKeys(keys), blockNumber)[key], blockNumber) <==>
              forall i :: 0 <= i < |keys| ==> FilterToKey(KeyToFilter(keys[i]).value) != key
  {
    MarkingStopsIff(state, ParsedKeys(keys), key, blockNumber);
    assert forall i :: 0 <= i < |keys| ==> ParsedKeys(keys)[i] == KeyToFilter(keys[i]).value;
  }

  /** In particular an entry with a stable key is asked for once per block. */
  lemma AskedOncePerBlock(state: LogsState, keys: seq<string>, key: string, blockNumber: nat)
    requires forall i :: 0 <= i < |keys| ==> KeyToFilter(keys[i]).Some?
    requires key in state && NeedsFetch(state[key], blockNumber) && key in keys && StableKey(key)
    ensures key in Mark(state, ParsedKeys(keys), blockNumber)
    ensures !NeedsFetch(Mark(state, ParsedKeys(keys), blockNumber)[key], blockNumber)
  {
    SelectedAgainIff(state, keys, key, blockNumber);
    KeyRoundTripIff(key);
  }

  // ---------- which entries the updater selects, by the actions alone ----------

  function Adding(key: string): Action -> bool {
    (a: Action) => a.AddListener? && FilterToKey(a.filter) == key
  }

  function Removing(key: string): Action -> bool {
    (a: Action) => a.RemoveListener? && FilterToKey(a.filter) == key
  }

  function Marking(key: string): Action -> bool {
    (a: Action) => a.FetchingLogs? && Hits(a.filters, key)
  }

  function Replying(key: string): Action -> bool {
    (a: Action) => a.FetchedLogs? && FilterToKey(a.filter) == key
  }

  /** The actions that find the entry there: those after the first one that adds a listener. */
  function Since(actions: seq<Action>, key: string): seq<Action> {
    var f := First(actions, Adding(key));
    if f.Some? then actions[f.value + 1..] else []
  }

  /** Listeners added, minus those removed since the first was added. */
  function Listening(actions: seq<Action>, key: string): int {
    Count(actions, Adding(key)) - Count(Since(actions, key), Removing(key))
  }

  function LastMark(actions: seq<Action>, key: string): Option<nat> {
    var a := LastOf(Since(actions, key), Marking(key));
    if a.Some? then Some(a.value.block) else None
  }

  predicate EntrySays(actions: seq<Action>, entry: FetchState, key: string) {
    && entry.listeners == Listening(actions, key) && entry.fetchingBlockNumber == LastMark(actions, key)
    && entry.results == Newest(None, Since(actions, key), key)
  }

  predicate EntryRight(actions: seq<Action>, state: LogsState, key: string) {
    && (key in state <==> First(actions, Adding(key)).Some?)
    && (key in state ==> EntrySays(actions, state[key], key))
  }

  lemma {:induction false} NoneCounted<T>(xs: seq<T>, p: T -> bool)
    ensures First(xs, p).None? ==> Count(xs, p) == 0
  {
    if xs != [] { NoneCounted(xs[..|xs| - 1], p); }
  }

  lemma SinceSnoc(init: seq<Action>, a: Action, key: string)
    ensures First(init, Adding(key)).Some? ==> Since(init + [a], key) == Since(init, key) + [a]
    ensures First(init, Adding(key)).None? ==> Since(init + [a], key) == []
  {
    var f := First(init, Adding(key));
    FirstSnoc(init, a, Adding(key));
    TailSnoc(init, a, if f.Some? then f.value + 1 else 0);
  }

  lemma NewestSnoc(first: Option<Result>, init: seq<Action>, a: Action, key: string)
    ensures var before := Newest(first, init, key);
            Newest(first, init + [a], key) ==
              if Replying(key)(a) && !(before.Some? && before.value.blockNumber > a.reply.blockNumber)
              then Some(a.reply) else before
  {
    assert (init + [a])[..|init|] == init;
  }

  /** One action on an entry. */
  predicate EntryMoves(a: Action, p: FetchState, q: FetchState, key: string) {
    && q.listeners == p.listeners + (if Adding(key)(a) then 1 else 0) - (if Removing(key)(a) then 1 else 0)
    && q.fetchingBlockNumber == (if Marking(key)(a) then Some(a.block) else p.fetchingBlockNumber)
    && q.results ==
       if Replying(key)(a) && !(p.results.Some? && p.results.value.blockNumber > a.reply.blockNumber)
       then Some(a.reply) else p.results
  }

  lemma ActionMovesEntry(state: LogsState, a: Action, key: string)
    ensures key in state ==> key in Step(state, a) && EntryMoves(a, state[key], Step(state, a)[key], key)
    ensures key !in state ==> (key in Step(state, a) <==> Adding(key)(a))
    ensures key !in state && Adding(key)(a) ==> Step(state, a)[key] == FetchState(1, None, None)
  {
    if a.FetchingLogs? {
      MarkKeepsResults(state, a.filters, a.block);
      if key in state { MarkIsExact(state, a.filters, key, a.block); }
    }
  }

  lemma KnownEntryStep(init: seq<Action>, a: Action, p: FetchState, q: FetchState, key: string)
    requires EntrySays(init, p, key) && EntryMoves(a, p, q, key) && First(init, Adding(key)).Some?
    ensures EntrySays(init + [a], q, key)
  {
    SinceSnoc(init, a, key);
    CountSnoc(init, a, Adding(key));
    CountSnoc(Since(init, key), a, Removing(key));
    LastSnoc(Since(init, key), a, Marking(key));
    NewestSnoc(None, Since(init, key), a, key);
  }

  lemma NewEntryStep(init: seq<Action>, a: Action, key: string)
    requires First(init, Adding(key)).None? && Adding(key)(a)
    ensures EntrySays(init + [a], FetchState(1, None, None), key)
  {
    SinceSnoc(init, a, key);
    CountSnoc(init, a, Adding(key));
    NoneCounted(init, Adding(key));
  }

  lemma EntryRightStep(init: seq<Action>, a: Action, state: LogsState, key: string)
    requires EntryRight(init, state, key)
    ensures EntryRight(init + [a], Step(state, a), key)
  {
    ActionMovesEntry(state, a, key);
    FirstSnoc(init, a, Adding(key));
    if key in state {
      KnownEntryStep(init, a, state[key], Step(state, a)[key], key);
    } else if Adding(key)(a) {
      NewEntryStep(init, a, key);
    }
  }

  /** An entry is opened by its first listener, and its fields are what the actions since say. */
  lemma {:induction false} EntriesAreTheirActions(actions: seq<Action>, key: string)
    ensures EntryRight(actions, Run(map[], actions), key)
  {
    if actions != [] {
      var init, a := actions[..|actions| - 1], actions[|actions| - 1];
      assert actions == init + [a];
      EntriesAreTheirActions(init, key);
      EntryRightStep(init, a, Run(map[], init), key);
    }
  }

  /** Some reply that found the entry is of this block or a later one. */
  predicate AnsweredFrom(actions: seq<Action>, key: string, blockNumber: nat) {
    var since := Since(actions, key);
    exists i :: 0 <= i < |since| && Replying(key)(since[i]) && since[i].reply.blockNumber >= blockNumber
  }

  lemma AnsweredIff(actions: seq<Action>, key: string, blockNumber: nat)
    ensures var r := Newest(None, Since(actions, key), key);
            AnsweredFrom(actions, key, blockNumber) <==> r.Some? && r.value.blockNumber >= blockNumber
  {
    var since := Since(actions, key);
    NewestIsGreatest(None, since, key);
    var r := Newest(None, since, key);
    if r.Some? && r.value.blockNumber >= blockNumber {
      var i :| 0 <= i < |since| && since[i].FetchedLogs? && FilterToKey(since[i].filter) == key
          && r == Some(since[i].reply);
      assert Replying(key)(since[i]);
    }
    if AnsweredFrom(actions, key, blockNumber) {
      var i :| 0 <= i < |since| && Replying(key)(since[i]) && since[i].reply.blockNumber >= blockNumber;
    }
  }

  /**
   * After any actions the updater selects an entry exactly when a listener was added, the listeners
   * added and removed do not cancel out, the last marking of it named an earlier block, and no reply
   * to it was of this block or a later one.
   */
  lemma SelectedIff(actions: seq<Action>, key: string, blockNumber: nat)
    ensures var state := Run(map[], actions);
            (key in state && NeedsFetch(state[key], blockNumber)) <==>
              && First(actions, Adding(key)).Some? && Listening(actions, key) != 0
              && (LastMark(actions, key).Some? ==> LastMark(actions, key).value < blockNumber)
              && !AnsweredFrom(actions, key, blockNumber)
  {
    EntriesAreTheirActions(actions, key);
    AnsweredIff(actions, key, blockNumber);
  }

  const MAX_BLOCKS_PER_CALL: nat := 1000000

  datatype Range = Range(fromBlock: nat, toBlock: nat)

  /**
   * The ranges of one query: they cover every block from the start to the head, none is longer
   * than the limit, and neighbours share exactly their boundary block.
   */
  method BlockRanges(start: nat, blockNumber: nat) returns (ranges: seq<Range>)
    ensures start > blockNumber ==> ranges == []
    ensures start <= blockNumber ==>
              ranges != [] && ranges[0].fromBlock == start && ranges[|ranges| - 1].toBlock == blockNumber
    ensures forall i :: 0 <= i < |ranges| ==>
              ranges[i].fromBlock <= ranges[i].toBlock <= ranges[i].fromBlock + 1000000
                  && ranges[i].toBlock <= blockNumber
    ensures forall i :: 0 <= i < |ranges| - 1 ==> ranges[i].toBlock == ranges[i].fromBlock + 1000000
    ensures forall i, j :: 0 <= i && j == i + 1 < |ranges| ==> ranges[i].toBlock == ranges[j].fromBlock
    ensures forall i, j :: 0 <= i && i + 1 < j < |ranges| ==> ranges[i].toBlock < ranges[j].fromBlock
    ensures forall b :: start <= b <= blockNumber ==> InSome(ranges, b)
  {
    ranges := [];
    var fromBlock := start;
    while fromBlock <= blockNumber
      invariant fromBlock == start + |ranges| * MAX_BLOCKS_PER_CALL
      invariant ranges != [] ==> fromBlock - MAX_BLOCKS_PER_CALL <= blockNumber
      invariant forall i :: 0 <= i < |ranges| ==>
                  ranges[i] == Range(start + i * MAX_BLOCKS_PER_CALL,
                                     if start + i * MAX_BLOCKS_PER_CALL + MAX_BLOCKS_PER_CALL <= blockNumber
                                     then start + i * MAX_BLOCKS_PER_CALL + MAX_BLOCKS_PER_CALL else blockNumber)
      invariant forall i :: 0 <= i < |ranges| ==> ranges[i].fromBlock <= blockNumber
      invariant forall b :: start <= b <= blockNumber && b < fromBlock ==> InSome(ranges, b)
    {
      ghost var before := ranges;
      var toBlock :=
        if fromBlock + MAX_BLOCKS_PER_CALL <= blockNumber then fromBlock + MAX_BLOCKS_PER_CALL else blockNumber;
      ranges := ranges + [Range(fromBlock, toBlock)];
      forall b | start <= b <= blockNumber && b < fromBlock + MAX_BLOCKS_PER_CALL ensures InSome(ranges, b) {
        if b < fromBlock {
          assert InSome(before, b);
          var i :| 0 <= i < |before| && before[i].fromBlock <= b <= before[i].toBlock;
          assert ranges[i] == before[i];
        } else {
          assert ranges[|before|].fromBlock <= b <= ranges[|before|].toBlock;
        }
      }
      fromBlock := fromBlock + MAX_BLOCKS_PER_CALL;
    }
  }

  predicate InSome(ranges: seq<Range>, block: int) {
    exists i :: 0 <= i < |ranges| && ranges[i].fromBlock <= block <= ranges[i].toBlock
  }
}
