/**
 * How many holders a delegate represents, against the field named after that number
 * (packages/nouns-subgraph/src/nouns-erc-721.ts): re-delegation keeps the field, transfers do not.
 */
module RepresentedHolders {
  import opened Wrappers
  import opened Entities
  import opened Ledger
  import opened LedgerInvariants
  import opened LedgerCounters
  import opened MapSums
  import opened Runs

  ghost function HoldersOf(accounts: map<Address, Account>, d: Address): set<Address> {
    set a | a in accounts && accounts[a].delegate == Some(d)
  }

  /** The field; 0 for a delegate that has no entity yet. */
  function FieldOf(s: State, d: Address): int {
    if d in s.delegates then s.delegates[d].tokenHoldersRepresentedAmount else 0
  }

  /** How many holders of a delegate its field has missed. */
  ghost function Missed(s: State, d: Address): int {
    |HoldersOf(s.accounts, d)| - FieldOf(s, d)
  }

  predicate Represents(account: Account, d: Address) {
    account.delegate == Some(d)
  }

  // ---------- one account ----------

  lemma HoldersOfUpdate(accounts: map<Address, Account>, a: Address, account: Account, d: Address)
    requires a in accounts
    ensures |HoldersOf(accounts[a := account], d)| == |HoldersOf(accounts, d)|
            + (if Represents(account, d) then 1 else 0) - (if Represents(accounts[a], d) then 1 else 0)
  {
    var rest := HoldersOf(accounts, d) - {a};
    assert HoldersOf(accounts, d) == if Represents(accounts[a], d) then rest + {a} else rest;
    assert HoldersOf(accounts[a := account], d) == if Represents(account, d) then rest + {a} else rest;
  }

  lemma EnsureAccountHolders(s: State, a: Address, d: Address)
    ensures HoldersOf(EnsureAccount(s, a).accounts, d) == HoldersOf(s.accounts, d)
  {
  }

  lemma SameFields(s: State, t: State, d: Address)
    requires SameRepresented(s.delegates, t.delegates)
    ensures FieldOf(t, d) == FieldOf(s, d)
  {
  }

  // ---------- transfers ----------

  /** The receiver becomes its own delegate. */
  predicate Arrives(s: State, to: Address, d: Address) {
    Balance(s, to) == 0 && d == to
  }

  /** The sender gives away its last noun and loses its delegate. */
  predicate Departs(s: State, from: Address, d: Address) {
    from != ZERO && Balance(s, from) == 1 && from in s.accounts && s.accounts[from].delegate == Some(d)
  }

  /** An account loaded by the handler: as stored, or new. */
  lemma LoadedAccount(s: State, from: Address, to: Address, a: Address)
    requires a == from || a == to
    ensures var account := LoadBoth(s, from, to).accounts[a];
            account == if a in s.accounts then s.accounts[a] else NO_ACCOUNT
  {
  }

  lemma LoadBothHolders(s: State, from: Address, to: Address, d: Address)
    ensures HoldersOf(LoadBoth(s, from, to).accounts, d) == HoldersOf(s.accounts, d)
  {
    EnsureAccountHolders(s, from, d);
    EnsureAccountHolders(EnsureAccount(s, from), to, d);
  }

  lemma SentHolders(s: State, from: Address, to: Address, id: NounId, d: Address)
    requires Partition(s) && LegalTransfer(s, from, to, id)
    ensures |HoldersOf(Sent(s, from, to, id), d)| == |HoldersOf(s.accounts, d)| - if Departs(s, from, d) then 1 else 0
  {
    var s1 := LoadBoth(s, from, to);
    LoadBothHolders(s, from, to, d);
    LoadedAccount(s, from, to, from);
    if from != ZERO {
      HoldersOfUpdate(s1.accounts, from, Lighter(s1.accounts[from], id), d);
    }
  }

  lemma EmptyHasNoDelegate(s: State, a: Address)
    requires Partition(s) && a in s.accounts && s.accounts[a].tokenBalance == 0
    ensures s.accounts[a].delegate.None?
  {
    assert AccountOk(s.owners, a, s.accounts[a]) && HolderOk(s.delegates, s.accounts[a]);
  }

  lemma ReceivedHolders(s: State, from: Address, to: Address, id: NounId, d: Address)
    requires Partition(s) && LegalTransfer(s, from, to, id)
    ensures var sent, receiver := Sent(s, from, to, id), LoadBoth(s, from, to).accounts[to];
            |HoldersOf(sent[to := Heavier(receiver, to, id)], d)| ==
              |HoldersOf(sent, d)| + if Arrives(s, to, d) then 1 else 0
  {
    var s1, sent := LoadBoth(s, from, to), Sent(s, from, to, id);
    var receiver := s1.accounts[to];
    LoadBothFacts(s, from, to);
    assert receiver.tokenBalance == Balance(s1, to) == Balance(s, to);
    assert from != ZERO ==> from != to;
    assert to in sent && sent[to] == receiver;
    if receiver.tokenBalance == 0 { EmptyHasNoDelegate(s1, to); }
    HoldersOfUpdate(sent, to, Heavier(receiver, to, id), d);
  }

  /** A legal transfer: the receiver's first noun is missed, and so is the sender's last one. */
  lemma TransferMisses(s: State, from: Address, to: Address, id: NounId, d: Address)
    requires Partition(s) && LegalTransfer(s, from, to, id)
    ensures Missed(Transfer(s, from, to, id), d) == Missed(s, d)
            + (if Arrives(s, to, d) then 1 else 0) - (if Departs(s, from, d) then 1 else 0)
  {
    TransferMaps(s, from, to, id);
    SameFields(s, Transfer(s, from, to, id), d);
    SentHolders(s, from, to, id, d);
    ReceivedHolders(s, from, to, id, d);
  }

  // ---------- the other events ----------

  lemma ReassignMisses(t: State, delegator: Address, from: Address, to: Address, d: Address)
    requires delegator in t.accounts && from in t.delegates && to in t.delegates
    requires from != to && t.accounts[delegator].delegate == Some(from)
    ensures Missed(Reassign(t, delegator, from, to), d) == Missed(t, d)
  {
    HoldersOfUpdate(t.accounts, delegator, t.accounts[delegator].(delegate := Some(to)), d);
  }

  lemma EnsureDelegateMisses(s: State, e: Address, d: Address)
    ensures Missed(EnsureDelegate(s, e), d) == Missed(s, d)
  {
  }

  lemma DelegateChangedMisses(s: State, delegator: Address, from: Address, to: Address, d: Address)
    requires LegalDelegateChange(s, delegator, from, to)
    ensures Missed(DelegateChanged(s, delegator, from, to), d) == Missed(s, d)
  {
    var sa := EnsureAccount(s, delegator);
    assert sa == s;
    EnsureDelegateMisses(sa, from, d);
    EnsureDelegateMisses(EnsureDelegate(sa, from), to, d);
    ReassignMisses(LoadDelegates(s, delegator, from, to), delegator, from, to, d);
  }

  lemma VotesChangedMisses(s: State, id: Address, previous: nat, next: nat, d: Address)
    ensures Missed(DelegateVotesChanged(s, id, previous, next), d) == Missed(s, d)
  {
    EnsureDelegateMisses(s, id, d);
  }

  lemma SameLedgerMisses(s: State, t: State, d: Address)
    requires SameLedger(s, t)
    ensures Missed(t, d) == Missed(s, d)
  {
  }

  lemma DaoEventMisses(s: State, e: Event, d: Address)
    requires !IsTokenEvent(e) && Step(s, e).Some?
    ensures Missed(Step(s, e).value, d) == Missed(s, d)
  {
    var s' := Step(s, e).value;
    match e
    case CreatedEvent(id, proposer, block, startBlock, endBlock, threshold, quorumVotes) =>
      EnsureDelegateMisses(s, proposer, d);
      CreatedLedger(s, id, proposer, block, startBlock, endBlock, threshold, quorumVotes);
      SameLedgerMisses(EnsureDelegate(s, proposer), s', d);
    case VoteEvent(voter, id, support, votes, block) =>
      EnsureDelegateMisses(s, voter, d);
      VoteCastLedger(s, voter, id, support, votes, block);
      SameLedgerMisses(EnsureDelegate(s, voter), s', d);
    case _ =>
      SameLedgerMisses(s, s', d);
  }

  predicate ArrivesBy(s: State, e: Event, d: Address) {
    e.TransferEvent? && Arrives(s, e.to, d)
  }

  predicate DepartsBy(s: State, e: Event, d: Address) {
    e.TransferEvent? && Departs(s, e.from, d)
  }

  lemma StepMisses(s: State, now: nat, e: Event, d: Address)
    requires Inv(s, now) && Legal(s, now, e) && Step(s, e).Some?
    ensures Missed(Step(s, e).value, d) == Missed(s, d)
            + (if ArrivesBy(s, e, d) then 1 else 0) - (if DepartsBy(s, e, d) then 1 else 0)
  {
    match e
    case TransferEvent(from, to, tokenId) => TransferMisses(s, from, to, tokenId, d);
    case DelegateChangedEvent(delegator, fromDelegate, toDelegate) =>
      DelegateChangedMisses(s, delegator, fromDelegate, toDelegate, d);
    case VotesChangedEvent(delegate, previous, next) => VotesChangedMisses(s, delegate, previous, next, d);
    case _ => DaoEventMisses(s, e, d);
  }

  // ---------- over whole runs ----------

  predicate ArrivesAt(es: seq<Event>, i: nat, d: Address)
    requires i < |es|
  {
    Run(EMPTY, es[..i]).Some? && ArrivesBy(Run(EMPTY, es[..i]).value, es[i], d)
  }

  predicate DepartsAt(es: seq<Event>, i: nat, d: Address)
    requires i < |es|
  {
    Run(EMPTY, es[..i]).Some? && DepartsBy(Run(EMPTY, es[..i]).value, es[i], d)
  }

  function Arrivals(es: seq<Event>, i: nat, d: Address): nat
    requires i <= |es|
  {
    if i == 0 then 0 else Arrivals(es, i - 1, d) + if ArrivesAt(es, i - 1, d) then 1 else 0
  }

  function Departures(es: seq<Event>, i: nat, d: Address): nat
    requires i <= |es|
  {
    if i == 0 then 0 else Departures(es, i - 1, d) + if DepartsAt(es, i - 1, d) then 1 else 0
  }

  lemma EmptyMisses(d: Address)
    ensures Missed(EMPTY, d) == 0
  {
    assert HoldersOf(EMPTY.accounts, d) == {};
  }

  /** After any legal run the field is short by the arrivals minus the departures so far. */
  lemma {:induction false} MissedCounts(es: seq<Event>, i: nat, d: Address)
    requires LegalRun(EMPTY, 0, es) && i <= |es|
    ensures Run(EMPTY, es[..i]).Some?
    ensures Missed(Run(EMPTY, es[..i]).value, d) == Arrivals(es, i, d) - Departures(es, i, d)
  {
    if i == 0 {
      EmptyMisses(d);
      assert es[..0] == [];
    } else {
      MissedCounts(es, i - 1, d);
      StepsWell(es, i - 1);
      StepMisses(Run(EMPTY, es[..i - 1]).value, EndClock(0, es[..i - 1]), es[i - 1], d);
    }
  }

  /** One delegate's field is the number of its holders exactly when its arrivals equal its departures. */
  lemma FieldIsRightIff(es: seq<Event>, i: nat, d: Address)
    requires LegalRun(EMPTY, 0, es) && i <= |es|
    ensures Run(EMPTY, es[..i]).Some?
    ensures var s := Run(EMPTY, es[..i]).value;
            FieldOf(s, d) == |HoldersOf(s.accounts, d)| <==> Arrivals(es, i, d) == Departures(es, i, d)
  {
    MissedCounts(es, i, d);
  }

  // ---------- all fields at once ----------

  ghost predicate AllRight(s: State) {
    forall d :: d in s.delegates ==> s.delegates[d].tokenHoldersRepresentedAmount == |HoldersOf(s.accounts, d)|
  }

  predicate NoTransfer(es: seq<Event>) {
    forall i :: 0 <= i < |es| ==> !es[i].TransferEvent?
  }

  lemma {:induction false} WithoutTransfersNoneMissed(es: seq<Event>, i: nat, d: Address)
    requires i <= |es| && NoTransfer(es[..i])
    ensures Arrivals(es, i, d) == 0 && Departures(es, i, d) == 0
  {
    if i > 0 {
      assert forall j :: 0 <= j < i ==> es[..i][j] == es[j];
      WithoutTransfersNoneMissed(es, i - 1, d);
    }
  }

  lemma OtherEventsKeepOwners(s: State, e: Event)
    requires !e.TransferEvent? && Step(s, e).Some?
    ensures Step(s, e).value.owners == s.owners
  {
  }

  lemma OwnersStep(s: State, now: nat, e: Event)
    requires Inv(s, now) && Legal(s, now, e) && Step(s, e).Some? && (e.TransferEvent? || s.owners != map[])
    ensures Step(s, e).value.owners != map[]
  {
    if e.TransferEvent? {
      TransferMaps(s, e.from, e.to, e.tokenId);
      assert e.tokenId in Step(s, e).value.owners;
    } else {
      OtherEventsKeepOwners(s, e);
    }
  }

  lemma NoTransferFirst(es: seq<Event>)
    requires es != []
    ensures NoTransfer(es) <==> !es[0].TransferEvent? && NoTransfer(es[1..])
  {
    assert es == [es[0]] + es[1..];
  }

  /** The run ends, and some noun has an owner then. */
  predicate EndsOwned(s: State, es: seq<Event>) {
    Run(s, es).Some? && Run(s, es).value.owners != map[]
  }

  /** Once a noun was transferred, some noun has an owner ever after. */
  lemma {:induction false} OwnersStay(s: State, now: nat, es: seq<Event>)
    requires Inv(s, now) && LegalRun(s, now, es) && (s.owners != map[] || !NoTransfer(es))
    ensures EndsOwned(s, es)
    decreases |es|
  {
    if es != [] {
      var e, rest := es[0], es[1..];
      StepKeeps(s, now, e);
      NoTransferFirst(es);
      if e.TransferEvent? || s.owners != map[] { OwnersStep(s, now, e); }
      OwnersStay(Step(s, e).value, Clock(now, e), rest);
    }
  }

  lemma {:induction false} ZeroSumIsAllZero(m: map<Address, int>, k: Address)
    requires k in m && Sum(m) == 0 && forall j :: j in m ==> m[j] >= 0
    ensures m[k] == 0
  {
    SumTakeOut(m, k);
    SumNonNegative(m - {k});
  }

  /** Where nouns have owners, some delegate has a holder, so not all fields can be right and sum to zero. */
  lemma OwnedMeansMissed(s: State)
    requires Partition(s) && s.owners != map[] && Represented(s) == 0
    ensures !AllRight(s)
  {
    var n :| n in s.owners;
    var a := s.owners[n];
    assert AccountOk(s.owners, a, s.accounts[a]) && HolderOk(s.delegates, s.accounts[a]);
    assert n in s.accounts[a].nouns;
    var d := s.accounts[a].delegate.value;
    assert a in HoldersOf(s.accounts, d);
    if AllRight(s) {
      ZeroSumIsAllZero(RepresentedMap(s.delegates), d);
    }
  }

  lemma NoTransferAllRight(es: seq<Event>, i: nat)
    requires LegalRun(EMPTY, 0, es) && i <= |es| && NoTransfer(es[..i])
    ensures Run(EMPTY, es[..i]).Some? && AllRight(Run(EMPTY, es[..i]).value)
  {
    StateIsGood(es, i);
    var s := Run(EMPTY, es[..i]).value;
    forall d | d in s.delegates ensures s.delegates[d].tokenHoldersRepresentedAmount == |HoldersOf(s.accounts, d)| {
      WithoutTransfersNoneMissed(es, i, d);
      FieldIsRightIff(es, i, d);
    }
  }

  /**
   * In a state of a legal run every delegate's field is the number of its holders exactly when no
   * noun has been transferred yet, not even minted.
   */
  lemma AllFieldsRightIff(es: seq<Event>, i: nat)
    requires LegalRun(EMPTY, 0, es) && i <= |es|
    ensures Run(EMPTY, es[..i]).Some?
    ensures AllRight(Run(EMPTY, es[..i]).value) <==> NoTransfer(es[..i])
  {
    StateIsGood(es, i);
    if NoTransfer(es[..i]) {
      NoTransferAllRight(es, i);
    } else {
      EmptyInv();
      PrefixIsLegal(EMPTY, 0, es, i);
      OwnersStay(EMPTY, 0, es[..i]);
      RepresentedIsZero(es, i);
      OwnedMeansMissed(Run(EMPTY, es[..i]).value);
    }
  }

  /** After the first mint the receiver represents one holder, itself, and its field says none. */
  lemma FirstMintIsNotRepresented(to: Address, id: NounId)
    ensures var s := Transfer(EMPTY, ZERO, to, id);
            HoldersOf(s.accounts, to) == {to} && to in s.delegates && s.delegates[to].tokenHoldersRepresentedAmount == 0
  {
    EmptyInv();
    TransferMaps(EMPTY, ZERO, to, id);
    TransferMissesNewDelegate(EMPTY, ZERO, to, id);
    var s := Transfer(EMPTY, ZERO, to, id);
    assert LoadBoth(EMPTY, ZERO, to).accounts[to] == NO_ACCOUNT;
    assert to in s.accounts && s.accounts[to].delegate == Some(to);
    assert forall a :: a in s.accounts && a != to ==> s.accounts[a] == NO_ACCOUNT;
  }
}
