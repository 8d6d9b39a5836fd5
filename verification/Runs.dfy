/** Whole runs of the subgraph: token events and DAO events in one stream over one store. */
module Runs {
  import opened Wrappers
  import opened Entities
  import opened Ledger
  import opened LedgerInvariants
  import opened LedgerCounters
  import opened Dao
  import opened DaoInvariants

  datatype Event =
    | TransferEvent(from: Address, to: Address, tokenId: NounId)
    | DelegateChangedEvent(delegator: Address, fromDelegate: Address, toDelegate: Address)
    | VotesChangedEvent(delegate: Address, previousBalance: nat, newBalance: nat)
    | CreatedEvent(id: ProposalId, proposer: Address, block: nat, startBlock: nat, endBlock: nat, threshold: nat,
        quorumVotes: nat)
    | CanceledEvent(id: ProposalId)
    | VetoedEvent(id: ProposalId)
    | QueuedEvent(id: ProposalId, eta: nat)
    | ExecutedEvent(id: ProposalId)
    | VoteEvent(voter: Address, id: ProposalId, support: nat, votes: nat, block: nat)
    | MinQuorumEvent(bps: nat, block: nat)
    | MaxQuorumEvent(bps: nat, block: nat)
    | CoefficientEvent(coefficient: nat, block: nat)

  /** One handler; None when it aborts. */
  function Step(s: State, e: Event): Option<State> {
    match e
    case TransferEvent(from, to, tokenId) => Some(Transfer(s, from, to, tokenId))
    case DelegateChangedEvent(delegator, fromDelegate, toDelegate) =>
      Some(DelegateChanged(s, delegator, fromDelegate, toDelegate))
    case VotesChangedEvent(delegate, previous, next) => Some(DelegateVotesChanged(s, delegate, previous, next))
    case CreatedEvent(id, proposer, block, startBlock, endBlock, threshold, quorumVotes) =>
      Some(ProposalCreated(s, id, proposer, block, startBlock, endBlock, threshold, quorumVotes))
    case CanceledEvent(id) => SetStatus(s, id, Cancelled)
    case VetoedEvent(id) => SetStatus(s, id, Vetoed)
    case QueuedEvent(id, eta) => ProposalQueued(s, id, eta)
    case ExecutedEvent(id) => ProposalExecuted(s, id)
    case VoteEvent(voter, id, support, votes, block) => VoteCast(s, voter, id, support, votes, block)
    case MinQuorumEvent(bps, block) => Some(MinQuorumSet(s, bps, block))
    case MaxQuorumEvent(bps, block) => Some(MaxQuorumSet(s, bps, block))
    case CoefficientEvent(coefficient, block) => Some(CoefficientSet(s, coefficient, block))
  }

  /** Which events the contracts can send in a given state, at a given block. */
  predicate Legal(s: State, now: nat, e: Event) {
    match e
    case TransferEvent(from, to, tokenId) => LegalTransfer(s, from, to, tokenId)
    case DelegateChangedEvent(delegator, fromDelegate, toDelegate) =>
      LegalDelegateChange(s, delegator, fromDelegate, toDelegate)
    case VotesChangedEvent(delegate, previous, next) => LegalVotesChange(s, delegate, previous, next)
    case CreatedEvent(id, _, block, _, _, _, _) => id !in s.proposals && now <= block && CanPropose(s)
    case CanceledEvent(id) => id in s.proposals
    case VetoedEvent(id) => id in s.proposals
    case QueuedEvent(id, _) => id in s.proposals && s.proposals[id].executionETA.None?
    case ExecutedEvent(id) => id in s.proposals && s.proposals[id].executionETA.Some?
    case VoteEvent(voter, id, support, votes, _) =>
      id in s.proposals && FreshVote(s, voter, id) && VoteFits(s, id, support, votes)
    case MinQuorumEvent(_, block) => now <= block
    case MaxQuorumEvent(_, block) => now <= block
    case CoefficientEvent(_, block) => now <= block
  }

  /** The last block that mattered to the quorum parameters. */
  function Clock(now: nat, e: Event): nat {
    match e
    case CreatedEvent(_, _, block, _, _, _, _) => block
    case MinQuorumEvent(_, block) => block
    case MaxQuorumEvent(_, block) => block
    case CoefficientEvent(_, block) => block
    case _ => now
  }

  /** The whole invariant of the store. */
  ghost predicate Inv(s: State, now: nat) {
    LedgerInv(s) && DaoInv(s, now)
  }

  // ---------- one step ----------

  /** The entities and counters that belong to the DAO handlers. */
  predicate SameDao(s: State, t: State) {
    && t.proposals == s.proposals && t.votes == s.votes && t.params == s.params
    && t.governance.proposals == s.governance.proposals && t.governance.proposalsQueued == s.governance.proposalsQueued
  }

  lemma DebitSameDao(s: State, g: Governance, from: Address, id: NounId)
    requires from in s.accounts && SameDao(s, s.(governance := g))
    ensures var (t, g') := Debit(s, g, from, id); SameDao(s, t) && SameDao(s, t.(governance := g'))
  {
  }

  lemma SaveReceiverSameDao(s: State, g: Governance, holder: Account, to: Address, id: NounId)
    requires SameDao(s, s.(governance := g))
    ensures SameDao(s, SaveReceiver(s, g, holder, to, id))
  {
  }

  lemma CountBurnSameDao(s: State, s2: State, g: Governance, to: Address)
    requires SameDao(s, s2) && SameDao(s, s2.(governance := g))
    ensures var (t, g') := CountBurn(s2, g, to); SameDao(s, t) && SameDao(s, t.(governance := g'))
  {
  }

  lemma BeforeCreditSameDao(s: State, from: Address, to: Address, id: NounId)
    ensures var (t, g) := BeforeCredit(s, from, to, id); SameDao(s, t) && SameDao(s, t.(governance := g))
  {
    var s1 := LoadBoth(s, from, to);
    assert SameDao(s, s1);
    if from != ZERO { DebitSameDao(s1, s1.governance, from, id); }
    var (s2, g2) := if from == ZERO then CountMint(s1) else Debit(s1, s1.governance, from, id);
    assert SameDao(s, s2) && SameDao(s, s2.(governance := g2));
    CountBurnSameDao(s, s2, g2, to);
    assert BeforeCredit(s, from, to, id) == CountBurn(s2, g2, to);
  }

  lemma TransferSameDao(s: State, from: Address, to: Address, id: NounId)
    ensures SameDao(s, Transfer(s, from, to, id))
  {
    var (s3, g3) := BeforeCredit(s, from, to, id);
    BeforeCreditSameDao(s, from, to, id);
    CreditSameDao(s3, g3, LoadBoth(s, from, to).accounts[to], to, id);
  }

  lemma CreditSameDao(s: State, g: Governance, holder: Account, to: Address, id: NounId)
    requires SameDao(s, s.(governance := g))
    ensures SameDao(s, Credit(s, g, holder, to, id))
  {
    var listed := List(s, if holder.delegate.Some? then holder.delegate.value else to, id);
    assert SameDao(s, listed);
    SaveReceiverSameDao(listed, g, holder, to, id);
  }

  lemma LoadDelegatesSameDao(s: State, delegator: Address, from: Address, to: Address)
    ensures SameDao(s, LoadDelegates(s, delegator, from, to))
  {
    var t := EnsureDelegate(EnsureAccount(s, delegator), from);
    assert SameDao(s, t) && SameDao(t, EnsureDelegate(t, to));
  }

  lemma DelegateChangedSameDao(s: State, delegator: Address, from: Address, to: Address)
    ensures SameDao(s, DelegateChanged(s, delegator, from, to))
  {
    var t := LoadDelegates(s, delegator, from, to);
    LoadDelegatesSameDao(s, delegator, from, to);
    ReassignSameDao(t, delegator, from, to);
  }

  lemma ReassignSameDao(t: State, delegator: Address, from: Address, to: Address)
    requires delegator in t.accounts && from in t.delegates && to in t.delegates
    ensures SameDao(t, Reassign(t, delegator, from, to))
  {
  }

  lemma TransferStep(s: State, now: nat, from: Address, to: Address, id: NounId)
    requires Inv(s, now) && LegalTransfer(s, from, to, id)
    ensures Inv(Transfer(s, from, to, id), now) && ProposalsProgress(s, Transfer(s, from, to, id))
  {
    TransferIff(s, from, to, id);
    TransferSameDao(s, from, to, id);
    OutsideKeeps(s, Transfer(s, from, to, id), now);
  }

  lemma DelegateChangedStep(s: State, now: nat, delegator: Address, from: Address, to: Address)
    requires Inv(s, now) && LegalDelegateChange(s, delegator, from, to)
    ensures var s' := DelegateChanged(s, delegator, from, to); Inv(s', now) && ProposalsProgress(s, s')
  {
    var s' := DelegateChanged(s, delegator, from, to);
    DelegateChangedIff(s, delegator, from, to);
    DelegateChangedSameDao(s, delegator, from, to);
    OutsideKeeps(s, s', now);
  }

  lemma VotesChangedStep(s: State, now: nat, id: Address, previous: nat, next: nat)
    requires Inv(s, now) && LegalVotesChange(s, id, previous, next)
    ensures var s' := DelegateVotesChanged(s, id, previous, next); Inv(s', now) && ProposalsProgress(s, s')
  {
    DelegateVotesChangedIff(s, id, previous, next);
    OutsideKeeps(s, DelegateVotesChanged(s, id, previous, next), now);
  }

  /** The ledger does not see proposals, votes, parameters or their counters. */
  predicate SameLedger(s: State, t: State) {
    && t.accounts == s.accounts && t.delegates == s.delegates && t.owners == s.owners
    && t.governance == s.governance.(proposals := t.governance.proposals,
        proposalsQueued := t.governance.proposalsQueued)
  }

  lemma SameLedgerInv(s: State, t: State)
    requires LedgerInv(s) && SameLedger(s, t)
    ensures LedgerInv(t)
  {
    PartitionIgnoresGovernance(s, t);
  }

  lemma EnsureDelegateInv(s: State, d: Address)
    requires LedgerInv(s)
    ensures LedgerInv(EnsureDelegate(s, d))
  {
    EnsureDelegatePartition(s, d);
    EnsureDelegateExtends(s, d);
    SameVotesCount(s.delegates, EnsureDelegate(s, d).delegates);
  }

  lemma CreatedStep(s: State, now: nat, e: Event)
    requires Inv(s, now) && e.CreatedEvent? && Legal(s, now, e)
    ensures StepIsGood(s, now, e)
  {
    var s' := Step(s, e).value;
    CreateKeeps(s, now, e.id, e.proposer, e.block, e.startBlock, e.endBlock, e.threshold, e.quorumVotes);
    EnsureDelegateInv(s, e.proposer);
    CreatedLedger(s, e.id, e.proposer, e.block, e.startBlock, e.endBlock, e.threshold, e.quorumVotes);
    SameLedgerInv(EnsureDelegate(s, e.proposer), s');
  }

  lemma CreatedLedger(s: State, id: ProposalId, proposer: Address, block: nat, startBlock: nat, endBlock: nat,
                      threshold: nat, quorumVotes: nat)
    ensures SameLedger(EnsureDelegate(s, proposer),
              ProposalCreated(s, id, proposer, block, startBlock, endBlock, threshold, quorumVotes))
  {
  }

  lemma VoteStep(s: State, now: nat, e: Event)
    requires Inv(s, now) && e.VoteEvent? && Legal(s, now, e)
    ensures StepIsGood(s, now, e)
  {
    VoteCastKeeps(s, now, e.voter, e.id, e.support, e.votes, e.block);
    VoteCastProgress(s, now, e.voter, e.id, e.support, e.votes, e.block);
    EnsureDelegateInv(s, e.voter);
    VoteCastLedger(s, e.voter, e.id, e.support, e.votes, e.block);
    SameLedgerInv(EnsureDelegate(s, e.voter), Step(s, e).value);
  }

  lemma VoteCastLedger(s: State, voter: Address, id: ProposalId, support: nat, votes: nat, block: nat)
    requires VoteCast(s, voter, id, support, votes, block).Some?
    ensures SameLedger(EnsureDelegate(s, voter), VoteCast(s, voter, id, support, votes, block).value)
  {
  }

  predicate IsStatusEvent(e: Event) {
    e.CanceledEvent? || e.VetoedEvent? || e.QueuedEvent? || e.ExecutedEvent?
  }

  /** Only status, ETA and queue counter move. */
  lemma StatusShape(s: State, now: nat, e: Event)
    requires Legal(s, now, e) && IsStatusEvent(e)
    ensures Step(s, e).Some? && Restates(s, Step(s, e).value, e.id) && SameLedger(s, Step(s, e).value)
    ensures var (s', p) := (Step(s, e).value, s.proposals[e.id]);
            s'.governance == s.governance.(proposalsQueued := s.governance.proposalsQueued
              + (if s'.proposals[e.id].executionETA.Some? then 1 else 0) - (if p.executionETA.Some? then 1 else 0))
  {
  }

  lemma StatusStep(s: State, now: nat, e: Event)
    requires Inv(s, now) && Legal(s, now, e) && IsStatusEvent(e)
    ensures StepIsGood(s, now, e)
  {
    StatusShape(s, now, e);
    var s' := Step(s, e).value;
    assert QueueOk(s') by { QueuedUpdate(s.proposals, e.id, s'.proposals[e.id]); }
    StatusKeeps(s, s', now, e.id);
    assert LedgerInv(s') by { SameLedgerInv(s, s'); }
  }

  lemma ParamsStep(s: State, now: nat, e: Event)
    requires Inv(s, now) && Legal(s, now, e)
    requires e.MinQuorumEvent? || e.MaxQuorumEvent? || e.CoefficientEvent?
    ensures StepIsGood(s, now, e)
  {
    ParamsKeep(s, now, Clock(now, e), Step(s, e).value.params);
    SameLedgerInv(s, Step(s, e).value);
  }

  /** The handler does not abort, keeps the whole invariant, and lets proposals only progress. */
  ghost predicate StepIsGood(s: State, now: nat, e: Event) {
    Step(s, e).Some? && Inv(Step(s, e).value, Clock(now, e)) && ProposalsProgress(s, Step(s, e).value)
  }

  /** Every legal event is handled without aborting and keeps the whole invariant. */
  lemma StepKeeps(s: State, now: nat, e: Event)
    requires Inv(s, now) && Legal(s, now, e)
    ensures StepIsGood(s, now, e)
  {
    match e
    case TransferEvent(from, to, tokenId) => TransferStep(s, now, from, to, tokenId);
    case DelegateChangedEvent(delegator, fromDelegate, toDelegate) =>
      DelegateChangedStep(s, now, delegator, fromDelegate, toDelegate);
    case VotesChangedEvent(delegate, previous, next) => VotesChangedStep(s, now, delegate, previous, next);
    case CreatedEvent(_, _, _, _, _, _, _) => CreatedStep(s, now, e);
    case VoteEvent(_, _, _, _, _) => VoteStep(s, now, e);
    case MinQuorumEvent(_, _) => ParamsStep(s, now, e);
    case MaxQuorumEvent(_, _) => ParamsStep(s, now, e);
    case CoefficientEvent(_, _) => ParamsStep(s, now, e);
    case _ => StatusStep(s, now, e);
  }

  // ---------- whole runs ----------

  function Run(s: State, es: seq<Event>): Option<State>
    decreases |es|
  {
    if es == [] then Some(s)
    else
      var t := Step(s, es[0]);
      if t.None? then None else Run(t.value, es[1..])
  }

  /** Each event is legal when it arrives; whether its handler aborts is not asked. */
  predicate LegalRun(s: State, now: nat, es: seq<Event>)
    decreases |es|
  {
    es == [] ||
    (Legal(s, now, es[0]) && (Step(s, es[0]).Some? ==> LegalRun(Step(s, es[0]).value, Clock(now, es[0]), es[1..])))
  }

  function EndClock(now: nat, es: seq<Event>): nat
    decreases |es|
  {
    if es == [] then now else EndClock(Clock(now, es[0]), es[1..])
  }

  lemma EmptyInv()
    ensures Inv(EMPTY, 0)
  {
    assert Holders(EMPTY.accounts) == {} && Outstanding(EMPTY.owners) == {} && Voters(EMPTY.delegates) == {};
    assert NonZero(EMPTY.delegates) == {} && VoteMap(EMPTY.delegates) == map[] && QueuedSet(EMPTY.proposals) == {};
    assert Partition(EMPTY) && Counters(EMPTY) && QueueOk(EMPTY) && Tallies(EMPTY) && QuorumRecorded(EMPTY);
  }

  lemma ProgressChain(a: State, b: State, c: State)
    requires ProposalsProgress(a, b) && ProposalsProgress(b, c)
    ensures ProposalsProgress(a, c)
  {
    forall id | id in a.proposals ensures id in c.proposals && ProposalProgress(a, c, id) {
      assert ProposalProgress(a, b, id) && ProposalProgress(b, c, id);
    }
  }

  /** The run never aborts, ends with the whole invariant, and between its ends proposals only progress. */
  ghost predicate RunIsGood(s: State, now: nat, es: seq<Event>) {
    Run(s, es).Some? && Inv(Run(s, es).value, EndClock(now, es)) && ProposalsProgress(s, Run(s, es).value)
  }

  lemma ProgressRefl(s: State)
    ensures ProposalsProgress(s, s)
  {
  }

  lemma RunStep(s: State, now: nat, es: seq<Event>)
    requires es != []
    ensures StepIsGood(s, now, es[0]) && RunIsGood(Step(s, es[0]).value, Clock(now, es[0]), es[1..]) ==>
              RunIsGood(s, now, es)
  {
    if StepIsGood(s, now, es[0]) && RunIsGood(Step(s, es[0]).value, Clock(now, es[0]), es[1..]) {
      ProgressChain(s, Step(s, es[0]).value, Run(s, es).value);
    }
  }

  /** Legal events never abort a run and keep the whole invariant. */
  lemma {:induction false} RunKeeps(s: State, now: nat, es: seq<Event>)
    requires Inv(s, now) && LegalRun(s, now, es)
    ensures RunIsGood(s, now, es)
    decreases |es|
  {
    if es == [] {
      ProgressRefl(s);
    } else {
      StepKeeps(s, now, es[0]);
      RunKeeps(Step(s, es[0]).value, Clock(now, es[0]), es[1..]);
      RunStep(s, now, es);
    }
  }

  lemma {:induction false} PrefixIsLegal(s: State, now: nat, es: seq<Event>, i: nat)
    requires LegalRun(s, now, es) && i <= |es|
    ensures LegalRun(s, now, es[..i])
    decreases |es|
  {
    if i > 0 {
      assert es[..i][0] == es[0] && es[..i][1..] == es[1..][..i - 1];
      if Step(s, es[0]).Some? {
        PrefixIsLegal(Step(s, es[0]).value, Clock(now, es[0]), es[1..], i - 1);
      }
    }
  }

  /** In every state a legal run passes through, everything holds. */
  lemma EveryStateIsGood(es: seq<Event>, i: nat)
    requires LegalRun(EMPTY, 0, es) && i <= |es|
    ensures RunIsGood(EMPTY, 0, es[..i])
  {
    EmptyInv();
    PrefixIsLegal(EMPTY, 0, es, i);
    RunKeeps(EMPTY, 0, es[..i]);
  }

  /** One more event at the end of a run. */
  lemma {:induction false} RunSnoc(s: State, init: seq<Event>, e: Event)
    ensures Run(s, init + [e]) == if Run(s, init).None? then None else Step(Run(s, init).value, e)
    decreases |init|
  {
    var all := init + [e];
    if init == [] {
      assert all[1..] == [];
    } else {
      assert all[0] == init[0] && all[1..] == init[1..] + [e];
      if Step(s, init[0]).Some? { RunSnoc(Step(s, init[0]).value, init[1..], e); }
    }
  }

  // ---------- runs of token events: legal exactly when nothing breaks ----------

  predicate IsTokenEvent(e: Event) {
    e.TransferEvent? || e.DelegateChangedEvent? || e.VotesChangedEvent?
  }

  lemma TokenEventSameDao(s: State, e: Event)
    requires IsTokenEvent(e)
    ensures Step(s, e).Some? && SameDao(s, Step(s, e).value)
  {
    match e {
      case TransferEvent(from, to, tokenId) => TransferSameDao(s, from, to, tokenId);
      case DelegateChangedEvent(delegator, fromDelegate, toDelegate) =>
        DelegateChangedSameDao(s, delegator, fromDelegate, toDelegate);
      case VotesChangedEvent(delegate, previous, next) => VotesChangedSameDao(s, delegate, previous, next);
    }
  }

  lemma VotesChangedSameDao(s: State, id: Address, previous: nat, next: nat)
    ensures SameDao(s, DelegateVotesChanged(s, id, previous, next))
  {
  }

  /** The ledger's invariants hold after every event of the run. */
  ghost predicate HoldsThroughout(s: State, es: seq<Event>)
    requires forall i :: 0 <= i < |es| ==> IsTokenEvent(es[i])
    decreases |es|
  {
    es == [] ||
    (Step(s, es[0]).Some? && LedgerInv(Step(s, es[0]).value) && HoldsThroughout(Step(s, es[0]).value, es[1..]))
  }

  lemma TokenStepIff(s: State, e: Event)
    requires LedgerInv(s) && IsTokenEvent(e)
    ensures Step(s, e).Some? && Clock(0, e) == 0
    ensures LedgerInv(Step(s, e).value) <==> Legal(s, 0, e)
  {
    match e {
      case TransferEvent(from, to, tokenId) => TransferIff(s, from, to, tokenId);
      case DelegateChangedEvent(delegator, fromDelegate, toDelegate) =>
        DelegateChangedIff(s, delegator, fromDelegate, toDelegate);
      case VotesChangedEvent(delegate, previous, next) => DelegateVotesChangedIff(s, delegate, previous, next);
    }
  }

  /** A stream of token events keeps the ledger right at every point iff each event is legal when it arrives. */
  lemma {:induction false} TokenRunIff(s: State, es: seq<Event>)
    requires LedgerInv(s) && forall i :: 0 <= i < |es| ==> IsTokenEvent(es[i])
    ensures HoldsThroughout(s, es) <==> LegalRun(s, 0, es)
    decreases |es|
  {
    if es != [] {
      TokenStepIff(s, es[0]);
      var t := Step(s, es[0]).value;
      if LedgerInv(t) {
        TokenRunIff(t, es[1..]);
      }
    }
  }

  // ---------- what the invariant says to a reader ----------

  /** Each noun is listed once over all delegates: by the delegate its owner recorded. */
  lemma EachNounListedOnce(s: State, n: NounId, d: Address)
    requires Partition(s) && n in s.owners && d in s.delegates
    ensures s.owners[n] in s.accounts && s.accounts[s.owners[n]].delegate.Some?
    ensures n in s.delegates[d].nounsRepresented <==> s.accounts[s.owners[n]].delegate == Some(d)
    ensures s.accounts[s.owners[n]].delegate.value in s.delegates
    ensures multiset(s.delegates[d].nounsRepresented)[n] <= 1
  {
    var a := s.owners[n];
    assert AccountOk(s.owners, a, s.accounts[a]) && HolderOk(s.delegates, s.accounts[a]);
    assert n in s.accounts[a].nouns;
    var list := s.delegates[d].nounsRepresented;
    assert ListOk(s.accounts, s.owners, d, list);
    DistinctCountsOnce(list, n);
  }

  lemma {:induction false} DistinctCountsOnce(list: seq<NounId>, n: NounId)
    requires Distinct(list)
    ensures multiset(list)[n] <= 1
  {
    if list != [] {
      assert list == [list[0]] + list[1..];
      DistinctCountsOnce(list[1..], n);
      if list[0] == n { assert n !in list[1..]; }
    }
  }

  /** A vote entity records exactly the nouns whose owners had the voter as delegate. */
  lemma VoteRecordsItsNouns(s: State, voter: Address, id: ProposalId, support: nat, votes: nat, block: nat)
    requires Partition(s) && VoteCast(s, voter, id, support, votes, block).Some?
    ensures var s' := VoteCast(s, voter, id, support, votes, block).value;
            && (voter, id) in s'.votes && Distinct(s'.votes[(voter, id)].nouns)
            && forall n :: n in s'.votes[(voter, id)].nouns <==>
                 n in s.owners && s.owners[n] in s.accounts && s.accounts[s.owners[n]].delegate == Some(voter)
  {
    EnsureDelegatePartition(s, voter);
    var t := EnsureDelegate(s, voter);
    assert ListOk(t.accounts, t.owners, voter, t.delegates[voter].nounsRepresented);
    assert forall n :: DelegateOf(t.accounts, t.owners, n) == DelegateOf(s.accounts, s.owners, n);
  }

  lemma RunFirst(s: State, now: nat, es: seq<Event>, i: nat)
    requires 0 < i <= |es| && Step(s, es[0]).Some?
    ensures Run(s, es[..i]) == Run(Step(s, es[0]).value, es[1..][..i - 1])
    ensures EndClock(now, es[..i]) == EndClock(Clock(now, es[0]), es[1..][..i - 1])
    ensures es[i..] == es[1..][i - 1..]
  {
    assert es[..i][0] == es[0] && es[..i][1..] == es[1..][..i - 1];
  }

  lemma {:induction false} RunSplit(s: State, now: nat, es: seq<Event>, i: nat)
    requires LegalRun(s, now, es) && Run(s, es).Some? && i <= |es|
    ensures Run(s, es[..i]).Some?
    ensures LegalRun(Run(s, es[..i]).value, EndClock(now, es[..i]), es[i..])
    ensures Run(s, es) == Run(Run(s, es[..i]).value, es[i..])
    decreases |es|
  {
    if i == 0 {
      assert es[0..] == es;
    } else {
      RunFirst(s, now, es, i);
      RunSplit(Step(s, es[0]).value, Clock(now, es[0]), es[1..], i - 1);
    }
  }

  lemma CreatedSnapshot(s: State, e: Event)
    requires e.CreatedEvent? && Counters(s)
    ensures e.id in Step(s, e).value.proposals && IsSnapshot(s, Step(s, e).value.proposals[e.id])
  {
  }

  /** Supply and quorum parameters of a state, as a proposal copies them. */
  ghost predicate IsSnapshot(s: State, p: Proposal) {
    && p.totalSupply == |Outstanding(s.owners)| && p.minQuorumVotesBPS == s.params.minBPS
    && p.maxQuorumVotesBPS == s.params.maxBPS && p.quorumCoefficient == s.params.coefficient
  }

  /**
   * At the end of any legal run a proposal still carries what it copied when it was created: the
   * number of nouns that were not burned, and the quorum parameters, of that moment.
   */
  lemma SnapshotSurvives(es: seq<Event>, i: nat)
    requires LegalRun(EMPTY, 0, es) && i < |es| && es[i].CreatedEvent?
    ensures Run(EMPTY, es).Some? && Run(EMPTY, es[..i]).Some?
    ensures var s := Run(EMPTY, es).value;
            es[i].id in s.proposals && IsSnapshot(Run(EMPTY, es[..i]).value, s.proposals[es[i].id])
  {
    EveryStateIsGood(es, i);
    EmptyInv();
    RunKeeps(EMPTY, 0, es);
    RunSplit(EMPTY, 0, es, i);
    var t, now, e, rest := Run(EMPTY, es[..i]).value, EndClock(0, es[..i]), es[i], es[i..];
    assert rest[0] == e;
    StepKeeps(t, now, e);
    var t' := Step(t, e).value;
    CreatedSnapshot(t, e);
    RunKeeps(t', Clock(now, e), rest[1..]);
    assert ProposalProgress(t', Run(EMPTY, es).value, e.id);
  }

  // ---------- two counters over whole runs ----------

  lemma StateIsGood(es: seq<Event>, i: nat)
    requires LegalRun(EMPTY, 0, es) && i <= |es|
    ensures Run(EMPTY, es[..i]).Some? && Inv(Run(EMPTY, es[..i]).value, EndClock(0, es[..i]))
  {
    EveryStateIsGood(es, i);
  }

  /** The last event of a run, by the state before it. */
  lemma LastStep(s: State, now: nat, init: seq<Event>, e: Event)
    requires LegalRun(s, now, init + [e]) && Run(s, init + [e]).Some?
    ensures Run(s, init).Some?
    ensures Legal(Run(s, init).value, EndClock(now, init), e) && Run(s, init + [e]) == Step(Run(s, init).value, e)
  {
    var all := init + [e];
    RunSplit(s, now, all, |init|);
    assert all[..|init|] == init && all[|init|..] == [e];
    OneEvent(Run(s, init).value, EndClock(now, init), e);
  }

  lemma Snoc(es: seq<Event>, i: nat)
    requires i < |es|
    ensures es[..i + 1] == es[..i] + [es[i]]
  {
  }

  lemma PrefixRuns(s: State, now: nat, es: seq<Event>, i: nat)
    requires Inv(s, now) && LegalRun(s, now, es) && i <= |es|
    ensures LegalRun(s, now, es[..i]) && RunIsGood(s, now, es[..i])
  {
    PrefixIsLegal(s, now, es, i);
    RunKeeps(s, now, es[..i]);
  }

  /** Event number i of a legal run leads from state i to the next one. */
  ghost predicate Leads(s: State, now: nat, es: seq<Event>, i: nat)
    requires i < |es|
  {
    && Run(s, es[..i]).Some? && Run(s, es[..i + 1]).Some?
    && Run(s, es[..i + 1]) == Step(Run(s, es[..i]).value, es[i])
    && Legal(Run(s, es[..i]).value, EndClock(now, es[..i]), es[i])
  }

  lemma LastEvent(s: State, now: nat, es: seq<Event>, i: nat)
    requires i < |es|
    ensures Inv(s, now) && LegalRun(s, now, es) ==> Leads(s, now, es, i)
  {
    if Inv(s, now) && LegalRun(s, now, es) {
      PrefixRuns(s, now, es, i + 1);
      Snoc(es, i);
      LastStep(s, now, es[..i], es[i]);
    }
  }

  lemma EventIsLegal(es: seq<Event>, i: nat)
    requires LegalRun(EMPTY, 0, es) && i < |es|
    ensures Run(EMPTY, es[..i]).Some? && Legal(Run(EMPTY, es[..i]).value, EndClock(0, es[..i]), es[i])
  {
    EmptyInv();
    LastEvent(EMPTY, 0, es, i);
  }

  lemma OneEvent(s: State, now: nat, e: Event)
    ensures Run(s, [e]) == Step(s, e) && (LegalRun(s, now, [e]) ==> Legal(s, now, e))
  {
    assert [e][1..] == [];
  }

  lemma StepsWell(es: seq<Event>, i: nat)
    requires LegalRun(EMPTY, 0, es) && i < |es|
    ensures Leads(EMPTY, 0, es, i) && Inv(Run(EMPTY, es[..i]).value, EndClock(0, es[..i]))
  {
    StateIsGood(es, i);
    EmptyInv();
    LastEvent(EMPTY, 0, es, i);
  }

  /** The event makes a delegate and its handler forgets to count it. */
  predicate Opens(s: State, e: Event) {
    match e
    case TransferEvent(_, to, _) => Balance(s, to) == 0 && to !in s.delegates && to != ZERO
    case VotesChangedEvent(delegate, _, _) => delegate !in s.delegates && delegate != ZERO
    case _ => false
  }

  lemma SameLedgerCounts(s: State, t: State)
    requires SameLedger(s, t)
    ensures Gap(t) == Gap(s) && Represented(t) == Represented(s)
  {
  }

  /** The DAO's events make delegates through the helper alone. */
  lemma DaoEventCounts(s: State, e: Event)
    requires !IsTokenEvent(e) && Step(s, e).Some?
    ensures Gap(Step(s, e).value) == Gap(s) && Represented(Step(s, e).value) == Represented(s)
  {
    var s' := Step(s, e).value;
    match e
    case CreatedEvent(id, proposer, block, startBlock, endBlock, threshold, quorumVotes) =>
      EnsureDelegateGap(s, proposer);
      EnsureDelegateRepresented(s, proposer);
      CreatedLedger(s, id, proposer, block, startBlock, endBlock, threshold, quorumVotes);
      SameLedgerCounts(EnsureDelegate(s, proposer), s');
    case VoteEvent(voter, id, support, votes, block) =>
      EnsureDelegateGap(s, voter);
      EnsureDelegateRepresented(s, voter);
      VoteCastLedger(s, voter, id, support, votes, block);
      SameLedgerCounts(EnsureDelegate(s, voter), s');
    case _ =>
      SameLedgerCounts(s, s');
  }

  lemma GapStep(s: State, now: nat, e: Event)
    requires Inv(s, now) && Legal(s, now, e) && Step(s, e).Some?
    ensures Gap(Step(s, e).value) == Gap(s) + if Opens(s, e) then 1 else 0
  {
    match e
    case TransferEvent(from, to, tokenId) => TransferGap(s, from, to, tokenId);
    case DelegateChangedEvent(delegator, fromDelegate, toDelegate) =>
      DelegateChangedGap(s, delegator, fromDelegate, toDelegate);
    case VotesChangedEvent(delegate, previous, next) => VotesChangedGap(s, delegate, previous, next);
    case _ => DaoEventCounts(s, e);
  }

  /** Event number i of the run opens the gap. */
  predicate OpensAt(es: seq<Event>, i: nat)
    requires i < |es|
  {
    Run(EMPTY, es[..i]).Some? && Opens(Run(EMPTY, es[..i]).value, es[i])
  }

  function Openings(es: seq<Event>, i: nat): nat
    requires i <= |es|
  {
    if i == 0 then 0 else Openings(es, i - 1) + if OpensAt(es, i - 1) then 1 else 0
  }

  lemma GapNext(es: seq<Event>, i: nat)
    requires LegalRun(EMPTY, 0, es) && i < |es|
    ensures Run(EMPTY, es[..i]).Some? && Run(EMPTY, es[..i + 1]).Some?
    ensures Gap(Run(EMPTY, es[..i + 1]).value) == Gap(Run(EMPTY, es[..i]).value) + if OpensAt(es, i) then 1 else 0
  {
    StepsWell(es, i);
    GapStep(Run(EMPTY, es[..i]).value, EndClock(0, es[..i]), es[i]);
  }

  /** After any legal run `totalDelegates` is short by the number of events that opened the gap. */
  lemma {:induction false} GapCountsOpenings(es: seq<Event>, i: nat)
    requires LegalRun(EMPTY, 0, es) && i <= |es|
    ensures Run(EMPTY, es[..i]).Some? && Gap(Run(EMPTY, es[..i]).value) == Openings(es, i)
  {
    if i == 0 {
      EmptyGap();
      assert es[..0] == [];
    } else {
      GapCountsOpenings(es, i - 1);
      GapNext(es, i - 1);
    }
  }

  lemma EmptyGap()
    ensures Gap(EMPTY) == 0
  {
    assert NonZero(EMPTY.delegates) == {};
  }

  lemma {:induction false} NoOpenings(es: seq<Event>, i: nat)
    requires i <= |es|
    ensures Openings(es, i) == 0 <==> forall j :: 0 <= j < i ==> !OpensAt(es, j)
  {
    if i > 0 { NoOpenings(es, i - 1); }
  }

  /** The counter is right at the end of a legal run exactly when no event of the run opened the gap. */
  lemma DelegateCounterIff(es: seq<Event>)
    requires LegalRun(EMPTY, 0, es)
    ensures Run(EMPTY, es).Some?
    ensures var s := Run(EMPTY, es).value;
            s.governance.totalDelegates == |NonZero(s.delegates)| <==> forall j :: 0 <= j < |es| ==> !OpensAt(es, j)
  {
    assert es[..|es|] == es;
    GapCountsOpenings(es, |es|);
    NoOpenings(es, |es|);
  }

  lemma RepresentedStep(s: State, now: nat, e: Event)
    requires Inv(s, now) && Legal(s, now, e) && Step(s, e).Some?
    ensures Represented(Step(s, e).value) == Represented(s)
  {
    match e
    case TransferEvent(from, to, tokenId) => TransferRepresented(s, from, to, tokenId);
    case DelegateChangedEvent(delegator, fromDelegate, toDelegate) =>
      DelegateChangedRepresented(s, delegator, fromDelegate, toDelegate);
    case VotesChangedEvent(delegate, previous, next) => VotesChangedRepresented(s, delegate, previous, next);
    case _ => DaoEventCounts(s, e);
  }

  /**
   * `tokenHoldersRepresentedAmount` sums to zero over all delegates in every state of a legal run.
   */
  lemma {:induction false} RepresentedIsZero(es: seq<Event>, i: nat)
    requires LegalRun(EMPTY, 0, es) && i <= |es|
    ensures Run(EMPTY, es[..i]).Some? && Represented(Run(EMPTY, es[..i]).value) == 0
  {
    if i == 0 {
      assert es[..0] == [] && RepresentedMap(EMPTY.delegates) == map[];
    } else {
      RepresentedIsZero(es, i - 1);
      StepsWell(es, i - 1);
      RepresentedStep(Run(EMPTY, es[..i - 1]).value, EndClock(0, es[..i - 1]), es[i - 1]);
    }
  }

  /** In every state of a legal run a voted dynamic proposal records a quorum between its own floors. */
  lemma RecordedQuorumIsBounded(es: seq<Event>, i: nat, id: ProposalId)
    requires LegalRun(EMPTY, 0, es) && i <= |es|
    ensures Run(EMPTY, es[..i]).Some?
    ensures var s := Run(EMPTY, es[..i]).value;
            id in s.proposals && Voted(s, id) && UsesDynamicQuorum(s.params, s.proposals[id]) ==>
              var p := s.proposals[id];
              && p.totalSupply * p.minQuorumVotesBPS / 10000 <= p.quorumVotes
              && p.quorumVotes <= p.totalSupply * p.maxQuorumVotesBPS / 10000
  {
    EveryStateIsGood(es, i);
    var s := Run(EMPTY, es[..i]).value;
    if id in s.proposals && Voted(s, id) && UsesDynamicQuorum(s.params, s.proposals[id]) {
      RecordedQuorumBetween(s, EndClock(0, es[..i]), id);
    }
  }
}
