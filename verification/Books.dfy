/**
 * Which event streams keep the subgraph's books, events of both contracts in one stream: balances,
 * lists, delegations and counters of the ledger, tallies and queue counter of the DAO.
 */
module Books {
  import opened Wrappers
  import opened Entities
  import opened Ledger
  import opened LedgerInvariants
  import opened LedgerCounters
  import opened Dao
  import opened DaoInvariants
  import opened Runs

  ghost predicate VotesBelong(s: State) {
    forall k :: k in s.votes ==> k.1 in s.proposals
  }

  ghost predicate DaoBooks(s: State) {
    Tallies(s) && QueueOk(s) && VotesBelong(s)
  }

  ghost predicate InOrder(s: State) {
    LedgerInv(s) && DaoBooks(s)
  }

  /** The store after an event; an aborted handler leaves it as it was. */
  function Next(s: State, e: Event): State {
    if Step(s, e).Some? then Step(s, e).value else s
  }

  predicate Untallied(p: Proposal) {
    p.againstVotes == 0 && p.forVotes == 0 && p.abstainVotes == 0
  }

  /** What must hold of an event whose handler completes. */
  predicate Fits(s: State, e: Event) {
    match e
    case TransferEvent(from, to, tokenId) => LegalTransfer(s, from, to, tokenId)
    case DelegateChangedEvent(delegator, fromDelegate, toDelegate) =>
      LegalDelegateChange(s, delegator, fromDelegate, toDelegate)
    case VotesChangedEvent(delegate, previous, next) => LegalVotesChange(s, delegate, previous, next)
    case CreatedEvent(id, _, _, _, _, _, _) => id in s.proposals ==> Untallied(s.proposals[id])
    case QueuedEvent(id, _) => id in s.proposals ==> s.proposals[id].executionETA.None?
    case ExecutedEvent(id) => id in s.proposals ==> s.proposals[id].executionETA.Some?
    case VoteEvent(voter, id, support, votes, block) =>
      VoteCast(s, voter, id, support, votes, block).Some? ==> FreshVote(s, voter, id)
    case _ => true
  }

  // ---------- token events ----------

  lemma SameDaoBooks(s: State, t: State)
    requires DaoBooks(s) && SameDao(s, t)
    ensures DaoBooks(t)
  {
    forall id | id in t.proposals ensures TallyOk(t.votes, id, t.proposals[id]) {
      assert TallyOk(s.votes, id, s.proposals[id]);
    }
  }

  lemma TokenEventIff(s: State, e: Event)
    requires InOrder(s) && IsTokenEvent(e)
    ensures InOrder(Next(s, e)) <==> Fits(s, e)
  {
    TokenEventSameDao(s, e);
    SameDaoBooks(s, Step(s, e).value);
    TokenStepIff(s, e);
  }

  // ---------- creation ----------

  /** t is s with one record written whose tallies are zero and whose ETA is the old one, if any. */
  ghost predicate Writes(s: State, t: State, id: ProposalId) {
    && id in t.proposals && t.proposals == s.proposals[id := t.proposals[id]] && t.votes == s.votes
    && Untallied(t.proposals[id])
    && t.proposals[id].executionETA == (if id in s.proposals then s.proposals[id].executionETA else None)
    && t.governance.proposalsQueued == s.governance.proposalsQueued
    && t.governance.proposals == s.governance.proposals + if id in s.proposals then 0 else 1
  }

  lemma CreatedWrites(s: State, e: Event)
    requires e.CreatedEvent?
    ensures Step(s, e).Some? && Writes(s, Step(s, e).value, e.id)
  {
  }

  lemma WrittenTallyIff(s: State, t: State, id: ProposalId)
    requires DaoBooks(s) && Writes(s, t, id)
    ensures TallyOk(t.votes, id, t.proposals[id]) <==> (id in s.proposals ==> Untallied(s.proposals[id]))
  {
    if id in s.proposals {
      assert TallyOk(s.votes, id, s.proposals[id]);
    } else {
      NoVotesNoTally(s.votes, id, 0);
      NoVotesNoTally(s.votes, id, 1);
      NoVotesNoTally(s.votes, id, 2);
    }
  }

  lemma WrittenTalliesIff(s: State, t: State, id: ProposalId)
    requires DaoBooks(s) && Writes(s, t, id)
    ensures Tallies(t) <==> (id in s.proposals ==> Untallied(s.proposals[id]))
  {
    WrittenTallyIff(s, t, id);
    forall other | other in t.proposals && other != id ensures TallyOk(t.votes, other, t.proposals[other]) {
      assert TallyOk(s.votes, other, s.proposals[other]);
    }
  }

  lemma WrittenQueue(s: State, t: State, id: ProposalId)
    requires QueueOk(s) && Writes(s, t, id)
    ensures QueueOk(t)
  {
    if id in s.proposals {
      QueuedUpdate(s.proposals, id, t.proposals[id]);
    } else {
      NewProposalCounts(s.proposals, id, t.proposals[id]);
    }
  }

  lemma CreatedLedgerKept(s: State, e: Event)
    requires LedgerInv(s) && e.CreatedEvent?
    ensures Step(s, e).Some? && LedgerInv(Step(s, e).value)
  {
    EnsureDelegateInv(s, e.proposer);
    CreatedLedger(s, e.id, e.proposer, e.block, e.startBlock, e.endBlock, e.threshold, e.quorumVotes);
    SameLedgerInv(EnsureDelegate(s, e.proposer), Step(s, e).value);
  }

  lemma CreatedIff(s: State, e: Event)
    requires InOrder(s) && e.CreatedEvent?
    ensures InOrder(Next(s, e)) <==> Fits(s, e)
  {
    CreatedWrites(s, e);
    CreatedLedgerKept(s, e);
    WrittenTalliesIff(s, Step(s, e).value, e.id);
    WrittenQueue(s, Step(s, e).value, e.id);
  }

  // ---------- status and queue ----------

  lemma StatusRestates(s: State, e: Event)
    requires IsStatusEvent(e) && Step(s, e).Some?
    ensures Restates(s, Step(s, e).value, e.id) && SameLedger(s, Step(s, e).value)
  {
  }

  lemma StatusQueueIff(s: State, e: Event)
    requires QueueOk(s) && IsStatusEvent(e) && Step(s, e).Some?
    ensures QueueOk(Step(s, e).value) <==> Fits(s, e)
  {
    match e {
      case QueuedEvent(id, eta) => QueueIff(s, id, eta);
      case ExecutedEvent(id) => ExecuteIff(s, id);
      case CanceledEvent(id) => QueuedUpdate(s.proposals, id, s.proposals[id].(status := Cancelled));
      case VetoedEvent(id) => QueuedUpdate(s.proposals, id, s.proposals[id].(status := Vetoed));
    }
  }

  lemma StatusIff(s: State, e: Event)
    requires InOrder(s) && IsStatusEvent(e)
    ensures InOrder(Next(s, e)) <==> Fits(s, e)
  {
    if Step(s, e).Some? {
      var t := Step(s, e).value;
      StatusRestates(s, e);
      StatusKeepsTallies(s, t, e.id);
      StatusQueueIff(s, e);
      SameLedgerInv(s, t);
    }
  }

  // ---------- votes ----------

  lemma VoteLedgerKept(s: State, e: Event)
    requires LedgerInv(s) && e.VoteEvent? && Step(s, e).Some?
    ensures LedgerInv(Step(s, e).value)
  {
    EnsureDelegateInv(s, e.voter);
    VoteCastLedger(s, e.voter, e.id, e.support, e.votes, e.block);
    SameLedgerInv(EnsureDelegate(s, e.voter), Step(s, e).value);
  }

  lemma VoteQueueKept(s: State, e: Event)
    requires QueueOk(s) && VotesBelong(s) && e.VoteEvent? && Step(s, e).Some?
    ensures QueueOk(Step(s, e).value) && VotesBelong(Step(s, e).value)
  {
    VoteCastShape(s, e.voter, e.id, e.support, e.votes, e.block);
    QueuedUpdate(s.proposals, e.id, Step(s, e).value.proposals[e.id]);
  }

  lemma VoteIff(s: State, e: Event)
    requires InOrder(s) && e.VoteEvent?
    ensures InOrder(Next(s, e)) <==> Fits(s, e)
  {
    if Step(s, e).Some? {
      VoteCastTalliesIff(s, e.voter, e.id, e.support, e.votes, e.block);
      VoteQueueKept(s, e);
      VoteLedgerKept(s, e);
    }
  }

  // ---------- parameters ----------

  lemma ParamsKept(s: State, e: Event)
    requires InOrder(s) && (e.MinQuorumEvent? || e.MaxQuorumEvent? || e.CoefficientEvent?)
    ensures InOrder(Next(s, e))
  {
    var t := Next(s, e);
    ParamsShape(s, e);
    SameLedgerInv(s, t);
    OnlyParams(s, t.params);
  }

  lemma ParamsShape(s: State, e: Event)
    requires e.MinQuorumEvent? || e.MaxQuorumEvent? || e.CoefficientEvent?
    ensures Next(s, e) == s.(params := Next(s, e).params)
  {
  }

  lemma OnlyParams(s: State, params: QuorumParams)
    requires DaoBooks(s)
    ensures DaoBooks(s.(params := params))
  {
    forall id | id in s.proposals ensures TallyOk(s.votes, id, s.proposals[id]) {
    }
  }

  /** An event of either contract keeps the books exactly when it fits. */
  lemma EventIff(s: State, e: Event)
    requires InOrder(s)
    ensures InOrder(Next(s, e)) <==> Fits(s, e)
  {
    if IsTokenEvent(e) {
      TokenEventIff(s, e);
    } else if e.CreatedEvent? {
      CreatedIff(s, e);
    } else if e.VoteEvent? {
      VoteIff(s, e);
    } else if IsStatusEvent(e) {
      StatusIff(s, e);
    } else {
      ParamsKept(s, e);
    }
  }

  // ---------- whole streams ----------

  /** The books are in order after every event of the stream. */
  ghost predicate AlwaysInOrder(s: State, es: seq<Event>)
    decreases |es|
  {
    es == [] || (InOrder(Next(s, es[0])) && AlwaysInOrder(Next(s, es[0]), es[1..]))
  }

  /** Every event fits the store it meets. */
  predicate AllFit(s: State, es: seq<Event>)
    decreases |es|
  {
    es == [] || (Fits(s, es[0]) && AllFit(Next(s, es[0]), es[1..]))
  }

  /**
   * Any stream of events keeps the books at every point exactly when each event fits when it
   * arrives: legal token events, fresh votes, queueings without and executions with an ETA, and no
   * second creation over counted votes.
   */
  lemma {:induction false} StreamIff(s: State, es: seq<Event>)
    requires InOrder(s)
    ensures AlwaysInOrder(s, es) <==> AllFit(s, es)
    decreases |es|
  {
    if es != [] {
      EventIff(s, es[0]);
      if Fits(s, es[0]) { StreamIff(Next(s, es[0]), es[1..]); }
    }
  }

  /** The empty store is in order. */
  lemma EmptyInOrder()
    ensures InOrder(EMPTY)
  {
    EmptyInv();
  }
}
