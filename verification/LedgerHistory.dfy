/**
 * What the token's entities say, in terms of the transfers, delegate changes and vote changes that
 * arrived: owners, balances, delegates, votes, and the nouns each delegate lists.
 */
module LedgerHistory {
  import opened Wrappers
  import opened Entities
  import opened Occurrences
  import opened Ledger
  import opened LedgerInvariants
  import opened LedgerCounters
  import opened Runs

  // ---------- what the events say ----------

  function Moving(n: NounId): Event -> bool {
    (e: Event) => e.TransferEvent? && e.tokenId == n
  }

  function Receiving(a: Address): Event -> bool {
    (e: Event) => e.TransferEvent? && e.to == a
  }

  /** A transfer from the zero address is a mint: nothing leaves an account. */
  function Giving(a: Address): Event -> bool {
    (e: Event) => e.TransferEvent? && e.from == a && a != ZERO
  }

  function Recounting(d: Address): Event -> bool {
    (e: Event) => e.VotesChangedEvent? && e.delegate == d
  }

  function Held(es: seq<Event>, a: Address): int {
    Count(es, Receiving(a)) - Count(es, Giving(a))
  }

  /** Who received the noun last. */
  function LastOwner(es: seq<Event>, n: NounId): Option<Address> {
    var e := LastOf(es, Moving(n));
    if e.Some? then Some(e.value.to) else None
  }

  function LastVotes(es: seq<Event>, d: Address): nat {
    var e := LastOf(es, Recounting(d));
    if e.Some? then e.value.newBalance else 0
  }

  /**
   * The account named last by a delegate change; receiving the first noun makes an account its own
   * delegate, and giving away the last one leaves it without.
   */
  function DelegateOfAccount(es: seq<Event>, a: Address): Option<Address> {
    if es == [] then None
    else
      var init, e := es[..|es| - 1], es[|es| - 1];
      if e.DelegateChangedEvent? && e.delegator == a then Some(e.toDelegate)
      else if Receiving(a)(e) && Held(init, a) == 0 then Some(a)
      else if Giving(a)(e) && Held(init, a) == 1 then None
      else DelegateOfAccount(init, a)
  }

  // ---------- what the store should say ----------

  function AccountAt(s: State, a: Address): Account {
    if a in s.accounts then s.accounts[a] else NO_ACCOUNT
  }

  predicate AccountRight(es: seq<Event>, s: State, a: Address) {
    var account := AccountAt(s, a);
    && account.tokenBalance == Held(es, a) && account.totalTokensHeld == Count(es, Receiving(a))
    && account.delegate == DelegateOfAccount(es, a)
  }

  predicate OwnerRight(es: seq<Event>, s: State, n: NounId) {
    LastOwner(es, n) == if n in s.owners then Some(s.owners[n]) else None
  }

  predicate VotesRight(es: seq<Event>, s: State, d: Address) {
    RecordedVotes(s, d) == LastVotes(es, d)
  }

  // ---------- one event ----------

  lemma EnsuredAt(s: State, b: Address, a: Address)
    ensures AccountAt(EnsureAccount(s, b), a) == AccountAt(s, a)
  {
  }

  lemma LoadedAt(s: State, from: Address, to: Address, a: Address)
    ensures AccountAt(LoadBoth(s, from, to), a) == AccountAt(s, a)
  {
    EnsuredAt(s, from, a);
    EnsuredAt(EnsureAccount(s, from), to, a);
  }

  lemma SavedAt(accounts: map<Address, Account>, s: State, to: Address, account: Account, a: Address)
    requires s.accounts == accounts[to := account]
    ensures AccountAt(s, a) == if a == to then account else if a in accounts then accounts[a] else NO_ACCOUNT
  {
  }

  /** A legal transfer adds to the receiver and takes from the sender; no other account changes. */
  lemma TransferAccount(s: State, from: Address, to: Address, id: NounId, a: Address)
    requires Partition(s) && LegalTransfer(s, from, to, id)
    ensures AccountAt(Transfer(s, from, to, id), a) ==
            if a == to then Heavier(AccountAt(s, a), to, id)
            else if a == from && a != ZERO then Lighter(AccountAt(s, a), id)
            else AccountAt(s, a)
  {
    TransferMaps(s, from, to, id);
    LoadedAt(s, from, to, a);
    LoadedAt(s, from, to, to);
    SavedAt(Sent(s, from, to, id), Transfer(s, from, to, id), to,
        Heavier(LoadBoth(s, from, to).accounts[to], to, id), a);
  }

  lemma DelegatesOnly(s: State, d: Address)
    ensures EnsureDelegate(s, d).accounts == s.accounts && EnsureDelegate(s, d).owners == s.owners
  {
  }

  /** Of all accounts only the delegator's changes, and of that only its delegate. */
  lemma DelegateChangedAccount(s: State, delegator: Address, from: Address, to: Address, a: Address)
    ensures AccountAt(DelegateChanged(s, delegator, from, to), a) ==
            if a == delegator then AccountAt(s, a).(delegate := Some(to)) else AccountAt(s, a)
    ensures DelegateChanged(s, delegator, from, to).owners == s.owners
  {
    var s1 := EnsureAccount(s, delegator);
    EnsuredAt(s, delegator, a);
    EnsuredAt(s, delegator, delegator);
    DelegatesOnly(s1, from);
    DelegatesOnly(EnsureDelegate(s1, from), to);
  }

  lemma OtherAccounts(s: State, e: Event)
    requires Step(s, e).Some? && !e.TransferEvent? && !e.DelegateChangedEvent?
    ensures Step(s, e).value.accounts == s.accounts && Step(s, e).value.owners == s.owners
  {
    match e
    case CreatedEvent(id, proposer, block, startBlock, endBlock, threshold, quorumVotes) =>
      CreatedLedger(s, id, proposer, block, startBlock, endBlock, threshold, quorumVotes);
    case VoteEvent(voter, id, support, votes, block) =>
      VoteCastLedger(s, voter, id, support, votes, block);
    case _ =>
  }

  lemma HeldSnoc(es: seq<Event>, e: Event, a: Address)
    ensures Held(es + [e], a) ==
            Held(es, a) + (if Receiving(a)(e) then 1 else 0) - (if Giving(a)(e) then 1 else 0)
    ensures Count(es + [e], Receiving(a)) == Count(es, Receiving(a)) + if Receiving(a)(e) then 1 else 0
  {
    CountSnoc(es, e, Receiving(a));
    CountSnoc(es, e, Giving(a));
  }

  lemma DelegateSnoc(es: seq<Event>, e: Event, a: Address)
    ensures DelegateOfAccount(es + [e], a) ==
            if e.DelegateChangedEvent? && e.delegator == a then Some(e.toDelegate)
            else if Receiving(a)(e) && Held(es, a) == 0 then Some(a)
            else if Giving(a)(e) && Held(es, a) == 1 then None
            else DelegateOfAccount(es, a)
  {
    assert (es + [e])[..|es|] == es;
  }

  /** What an event does to an account. */
  predicate AccountMoves(e: Event, p: Account, q: Account, a: Address) {
    && q.tokenBalance == p.tokenBalance + (if Receiving(a)(e) then 1 else 0) - (if Giving(a)(e) then 1 else 0)
    && q.totalTokensHeld == p.totalTokensHeld + (if Receiving(a)(e) then 1 else 0)
    && q.delegate == if e.DelegateChangedEvent? && e.delegator == a then Some(e.toDelegate)
                     else if Receiving(a)(e) && p.tokenBalance == 0 then Some(a)
                     else if Giving(a)(e) && p.tokenBalance == 1 then None
                     else p.delegate
  }

  lemma EventMovesAccount(s: State, e: Event, a: Address)
    requires Partition(s) && Step(s, e).Some? && (e.TransferEvent? ==> LegalTransfer(s, e.from, e.to, e.tokenId))
    ensures AccountMoves(e, AccountAt(s, a), AccountAt(Step(s, e).value, a), a)
  {
    match e
    case TransferEvent(from, to, tokenId) => TransferAccount(s, from, to, tokenId, a);
    case DelegateChangedEvent(delegator, from, to) => DelegateChangedAccount(s, delegator, from, to, a);
    case _ => OtherAccounts(s, e);
  }

  lemma AccountRightStep(es: seq<Event>, e: Event, s: State, t: State, a: Address)
    requires AccountRight(es, s, a) && AccountMoves(e, AccountAt(s, a), AccountAt(t, a), a)
    ensures AccountRight(es + [e], t, a)
  {
    HeldSnoc(es, e, a);
    DelegateSnoc(es, e, a);
  }

  lemma EventMovesOwners(s: State, e: Event)
    requires Partition(s) && Step(s, e).Some? && (e.TransferEvent? ==> LegalTransfer(s, e.from, e.to, e.tokenId))
    ensures Step(s, e).value.owners == if e.TransferEvent? then s.owners[e.tokenId := e.to] else s.owners
  {
    match e
    case TransferEvent(from, to, tokenId) => TransferMaps(s, from, to, tokenId);
    case DelegateChangedEvent(delegator, from, to) => DelegateChangedAccount(s, delegator, from, to, ZERO);
    case _ => OtherAccounts(s, e);
  }

  lemma OwnerRightStep(es: seq<Event>, e: Event, s: State, t: State, n: NounId)
    requires OwnerRight(es, s, n) && t.owners == if e.TransferEvent? then s.owners[e.tokenId := e.to] else s.owners
    ensures OwnerRight(es + [e], t, n)
  {
    LastSnoc(es, e, Moving(n));
  }

  lemma VotesRightStep(es: seq<Event>, e: Event, s: State, d: Address)
    requires Partition(s) && VotesRight(es, s, d) && Step(s, e).Some?
    requires e.TransferEvent? ==> LegalTransfer(s, e.from, e.to, e.tokenId)
    ensures VotesRight(es + [e], Step(s, e).value, d)
  {
    LastSnoc(es, e, Recounting(d));
    match e
    case TransferEvent(from, to, tokenId) => TransferMaps(s, from, to, tokenId);
    case _ => OtherVotes(s, e, d);
  }

  lemma SameRecorded(s: State, t: State, d: Address)
    requires SameVotes(s.delegates, t.delegates)
    ensures RecordedVotes(t, d) == RecordedVotes(s, d)
  {
  }

  lemma VotesChangedRecorded(s: State, id: Address, previous: nat, next: nat, d: Address)
    ensures RecordedVotes(DelegateVotesChanged(s, id, previous, next), d) ==
              if d == id then next else RecordedVotes(s, d)
  {
  }

  lemma SameDelegates(s: State, e: Event)
    requires IsStatusEvent(e) || e.MinQuorumEvent? || e.MaxQuorumEvent? || e.CoefficientEvent?
    ensures Step(s, e).Some? ==> Step(s, e).value.delegates == s.delegates
  {
  }

  lemma OtherVotes(s: State, e: Event, d: Address)
    requires Step(s, e).Some? && !e.TransferEvent?
    ensures RecordedVotes(Step(s, e).value, d) == if Recounting(d)(e) then e.newBalance else RecordedVotes(s, d)
  {
    match e
    case DelegateChangedEvent(delegator, from, to) =>
      DelegateChangedExtends(s, delegator, from, to);
      SameRecorded(s, DelegateChanged(s, delegator, from, to), d);
    case VotesChangedEvent(id, previous, next) =>
      VotesChangedRecorded(s, id, previous, next, d);
    case CreatedEvent(id, proposer, block, startBlock, endBlock, threshold, quorumVotes) =>
      CreatedLedger(s, id, proposer, block, startBlock, endBlock, threshold, quorumVotes);
      EnsureDelegateVotes(s, proposer);
      SameRecorded(s, EnsureDelegate(s, proposer), d);
    case VoteEvent(voter, id, support, votes, block) =>
      VoteCastLedger(s, voter, id, support, votes, block);
      EnsureDelegateVotes(s, voter);
      SameRecorded(s, EnsureDelegate(s, voter), d);
    case _ =>
      SameDelegates(s, e);
  }

  // ---------- whole runs ----------

  predicate LedgerRight(es: seq<Event>, s: State, a: Address, n: NounId, d: Address) {
    AccountRight(es, s, a) && OwnerRight(es, s, n) && VotesRight(es, s, d)
  }

  lemma LedgerRightStep(es: seq<Event>, e: Event, s: State, now: nat, a: Address, n: NounId, d: Address)
    requires Inv(s, now) && Legal(s, now, e) && Step(s, e).Some? && LedgerRight(es, s, a, n, d)
    ensures LedgerRight(es + [e], Step(s, e).value, a, n, d)
  {
    EventMovesAccount(s, e, a);
    AccountRightStep(es, e, s, Step(s, e).value, a);
    EventMovesOwners(s, e);
    OwnerRightStep(es, e, s, Step(s, e).value, n);
    VotesRightStep(es, e, s, d);
  }

  lemma ShorterRun(es: seq<Event>, init: seq<Event>, e: Event)
    requires LegalRun(EMPTY, 0, es) && es == init + [e]
    ensures LegalRun(EMPTY, 0, init) && Run(EMPTY, init).Some? && Run(EMPTY, es) == Step(Run(EMPTY, init).value, e)
    ensures Inv(Run(EMPTY, init).value, EndClock(0, init)) && Legal(Run(EMPTY, init).value, EndClock(0, init), e)
    ensures Run(EMPTY, es).Some?
  {
    assert es[..|init|] == init && es[..|es|] == es;
    PrefixIsLegal(EMPTY, 0, es, |init|);
    StepsWell(es, |init|);
  }

  /**
   * At the end of a legal run: an account's balance is what it received minus what it gave, its
   * delegate is the one the events name last; a noun's owner is its last receiver; and a delegate's
   * votes are those reported last.
   */
  lemma {:induction false} LedgerIsItsEvents(es: seq<Event>, a: Address, n: NounId, d: Address)
    requires LegalRun(EMPTY, 0, es)
    ensures Run(EMPTY, es).Some? && LedgerRight(es, Run(EMPTY, es).value, a, n, d)
  {
    if es != [] {
      var init, e := es[..|es| - 1], es[|es| - 1];
      ShorterRun(es, init, e);
      LedgerIsItsEvents(init, a, n, d);
      LedgerRightStep(init, e, Run(EMPTY, init).value, EndClock(0, init), a, n, d);
    }
  }

  /** A delegate lists exactly the nouns whose last receiver named it last, each once. */
  lemma DelegateListsAreTheirEvents(es: seq<Event>, n: NounId, d: Address)
    requires LegalRun(EMPTY, 0, es)
    ensures Run(EMPTY, es).Some?
    ensures var (s, owner) := (Run(EMPTY, es).value, LastOwner(es, n));
            d in s.delegates ==>
              multiset(s.delegates[d].nounsRepresented)[n] ==
                if owner.Some? && DelegateOfAccount(es, owner.value) == Some(d) then 1 else 0
  {
    assert es[..|es|] == es;
    StateIsGood(es, |es|);
    var s := Run(EMPTY, es).value;
    LedgerIsItsEvents(es, if n in s.owners then s.owners[n] else ZERO, n, d);
    if d in s.delegates { ListedAsRecorded(s, n, d); }
  }

  /** How often a delegate lists a noun. */
  lemma ListedAsRecorded(s: State, n: NounId, d: Address)
    requires Partition(s) && d in s.delegates
    ensures multiset(s.delegates[d].nounsRepresented)[n] ==
            if n in s.owners && s.owners[n] in s.accounts && s.accounts[s.owners[n]].delegate == Some(d) then 1 else 0
  {
    var list := s.delegates[d].nounsRepresented;
    assert ListOk(s.accounts, s.owners, d, list);
    DistinctCountsOnce(list, n);
    assert n in list <==> DelegateOf(s.accounts, s.owners, n) == Some(d);
    var all: multiset<NounId> := multiset(list);
    assert n in list <==> all[n] > 0;
  }
}
