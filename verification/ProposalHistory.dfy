/**
 * What the DAO's entities say, in terms of the events that arrived and of nothing else: after any
 * run that no handler aborted, each field of a proposal is that of its creating event, of the last
 * event that decided it, or a sum over the votes since.
 */
module ProposalHistory {
  import opened Wrappers
  import opened Entities
  import opened Occurrences
  import opened Runs
  import Ledger
  import Quorum

  // ---------- kinds of events ----------

  function Creating(id: ProposalId): Event -> bool {
    (e: Event) => e.CreatedEvent? && e.id == id
  }

  function Voting(id: ProposalId): Event -> bool {
    (e: Event) => e.VoteEvent? && e.id == id
  }

  function VotingBy(voter: Address, id: ProposalId): Event -> bool {
    (e: Event) => e.VoteEvent? && e.voter == voter && e.id == id
  }

  /** The events that decide a proposal's status by themselves. */
  function Ruling(id: ProposalId): Event -> bool {
    (e: Event) => (e.CreatedEvent? || IsStatusEvent(e)) && e.id == id
  }

  function Timing(id: ProposalId): Event -> bool {
    (e: Event) => (e.QueuedEvent? || e.ExecutedEvent?) && e.id == id
  }

  const MIN_SET: Event -> bool := (e: Event) => e.MinQuorumEvent?
  const MAX_SET: Event -> bool := (e: Event) => e.MaxQuorumEvent?
  const COEFFICIENT_SET: Event -> bool := (e: Event) => e.CoefficientEvent?
  const PARAMETER: Event -> bool := (e: Event) => e.MinQuorumEvent? || e.MaxQuorumEvent? || e.CoefficientEvent?
  const QUEUED: Event -> bool := (e: Event) => e.QueuedEvent?
  const EXECUTED: Event -> bool := (e: Event) => e.ExecutedEvent?
  const MINT: Event -> bool := (e: Event) => e.TransferEvent? && e.from == ZERO
  const BURN: Event -> bool := (e: Event) => e.TransferEvent? && e.to == ZERO

  // ---------- what the events say ----------

  function LastMin(es: seq<Event>): nat {
    var e := LastOf(es, MIN_SET);
    if e.Some? then e.value.bps else 0
  }

  function LastMax(es: seq<Event>): nat {
    var e := LastOf(es, MAX_SET);
    if e.Some? then e.value.bps else 0
  }

  function LastCoefficient(es: seq<Event>): nat {
    var e := LastOf(es, COEFFICIENT_SET);
    if e.Some? then e.value.coefficient else 0
  }

  /** Nouns minted and not burned. */
  function Supply(es: seq<Event>): int {
    Count(es, MINT) - Count(es, BURN)
  }

  /** The sum of the votes on a proposal with one support value, from event number `from` on. */
  function VotesFrom(es: seq<Event>, from: nat, id: ProposalId, support: nat): nat {
    if |es| <= from then 0
    else
      var n := |es| - 1;
      var e := es[n];
      VotesFrom(es[..n], from, id, support) + if e.VoteEvent? && e.id == id && e.support == support then e.votes else 0
  }

  /** There was a parameter event, and the first one was in an earlier block than this. */
  predicate StartsBefore(es: seq<Event>, block: nat) {
    var e := FirstOf(es, PARAMETER);
    e.Some? && e.value.block < block
  }

  /** Event number j is a vote on the proposal created by event c, and the dynamic quorum applies to it. */
  predicate DynamicVote(es: seq<Event>, c: nat, j: nat)
    requires c < |es| && es[c].CreatedEvent?
  {
    c < j < |es| && Voting(es[c].id)(es[j]) && StartsBefore(es[..j], es[c].block)
  }

  /** The quorum formula on the votes against since event c, and the supply and parameters before it. */
  function FormulaOf(es: seq<Event>, c: nat): Option<int>
    requires c < |es| && es[c].CreatedEvent?
  {
    Quorum.DynamicQuorumVotes(VotesFrom(es, c + 1, es[c].id, 0), Supply(es[..c]), LastMin(es[..c]), LastMax(es[..c]),
        LastCoefficient(es[..c]))
  }

  // ---------- what the store should say ----------

  predicate ParamsRight(es: seq<Event>, s: State) {
    && s.params.minBPS == LastMin(es) && s.params.maxBPS == LastMax(es) && s.params.coefficient == LastCoefficient(es)
    && s.params.startBlock == match FirstOf(es, PARAMETER)
                              case Some(e) => Some(e.block)
                              case None => None
  }

  predicate CountersRight(es: seq<Event>, s: State) {
    && s.governance.totalTokenHolders == Supply(es)
    && s.governance.proposalsQueued == Count(es, QUEUED) - Count(es, EXECUTED)
  }

  /** The record carries its creating event; it exists exactly if there was one. */
  predicate RecordRight(es: seq<Event>, s: State, id: ProposalId) {
    var c := Last(es, Creating(id));
    && (id in s.proposals <==> c.Some?)
    && (c.Some? ==>
          var (e, p) := (es[c.value], s.proposals[id]);
          && p.proposer == e.proposer && p.createdBlock == e.block && p.startBlock == e.startBlock
          && p.endBlock == e.endBlock && p.proposalThreshold == e.threshold)
  }

  /** Supply and parameters of the moment of creation. */
  predicate SnapshotRight(es: seq<Event>, s: State, id: ProposalId) {
    var c := Last(es, Creating(id));
    id in s.proposals && c.Some? ==>
      var (before, p) := (es[..c.value], s.proposals[id]);
      && p.totalSupply == Supply(before) && p.minQuorumVotesBPS == LastMin(before)
      && p.maxQuorumVotesBPS == LastMax(before) && p.quorumCoefficient == LastCoefficient(before)
  }

  /** The tallies are the sums of the votes since. */
  predicate TalliesRight(es: seq<Event>, s: State, id: ProposalId) {
    var c := Last(es, Creating(id));
    id in s.proposals && c.Some? ==>
      var (from, p) := (c.value + 1, s.proposals[id]);
      && p.againstVotes == VotesFrom(es, from, id, 0) && p.forVotes == VotesFrom(es, from, id, 1)
      && p.abstainVotes == VotesFrom(es, from, id, 2)
  }

  /** What the ruling event says; a creation leaves it to the start block and to the first vote. */
  predicate StatusRight(es: seq<Event>, s: State, id: ProposalId) {
    var k := Last(es, Ruling(id));
    id in s.proposals ==>
      k.Some? &&
      match es[k.value]
      case CreatedEvent(_, _, block, startBlock, _, _, _) =>
        var voted := Last(es, Voting(id)).Some? && Last(es, Voting(id)).value > k.value;
        s.proposals[id].status == if block >= startBlock || voted then Active else Pending
      case CanceledEvent(_) => s.proposals[id].status == Cancelled
      case VetoedEvent(_) => s.proposals[id].status == Vetoed
      case QueuedEvent(_, _) => s.proposals[id].status == Queued
      case ExecutedEvent(_) => s.proposals[id].status == Executed
      case _ => false
  }

  /** The ETA of the last queueing, unless an execution followed; a repeated creation keeps it. */
  predicate EtaRight(es: seq<Event>, s: State, id: ProposalId) {
    var e := LastOf(es, Timing(id));
    var eta := if e.Some? && e.value.QueuedEvent? then Some(e.value.eta) else None;
    if id in s.proposals then s.proposals[id].executionETA == eta else e.None?
  }

  /** The recorded quorum: the formula's value once a dynamic vote arrived, else the creating event's. */
  ghost predicate QuorumRight(es: seq<Event>, s: State, id: ProposalId) {
    var c := Last(es, Creating(id));
    id in s.proposals && c.Some? ==>
      if exists j :: DynamicVote(es, c.value, j)
      then FormulaOf(es, c.value) == Some(s.proposals[id].quorumVotes)
      else s.proposals[id].quorumVotes == es[c.value].quorumVotes
  }

  /** A vote entity is the last vote of its voter on its proposal. */
  predicate VoteRight(es: seq<Event>, s: State, voter: Address, id: ProposalId) {
    var e := LastOf(es, VotingBy(voter, id));
    && ((voter, id) in s.votes <==> e.Some?)
    && (e.Some? ==>
          var vote := s.votes[(voter, id)];
          vote.support == e.value.support && vote.votes == e.value.votes && vote.block == e.value.block)
  }

  ghost predicate AllRight(es: seq<Event>, s: State, id: ProposalId) {
    && ParamsRight(es, s) && CountersRight(es, s) && RecordRight(es, s, id) && SnapshotRight(es, s, id)
    && TalliesRight(es, s, id) && StatusRight(es, s, id) && EtaRight(es, s, id) && QuorumRight(es, s, id)
  }

  // ---------- one event ----------

  /** The event leaves a proposal alone. */
  predicate Apart(e: Event, id: ProposalId) {
    IsTokenEvent(e) || PARAMETER(e) || e.id != id
  }

  lemma ApartKeeps(s: State, e: Event, id: ProposalId)
    requires Step(s, e).Some? && Apart(e, id)
    ensures var t := Step(s, e).value;
            (id in t.proposals <==> id in s.proposals) && (id in s.proposals ==> t.proposals[id] == s.proposals[id])
  {
    if IsTokenEvent(e) { TokenEventSameDao(s, e); }
  }

  /** The record a creating event leaves behind. */
  predicate CreationWrote(s: State, e: Event, p: Proposal)
    requires e.CreatedEvent?
  {
    && p.proposer == e.proposer && p.createdBlock == e.block && p.startBlock == e.startBlock
    && p.endBlock == e.endBlock && p.proposalThreshold == e.threshold && p.quorumVotes == e.quorumVotes
    && p.againstVotes == 0 && p.forVotes == 0 && p.abstainVotes == 0
    && p.status == (if e.block >= e.startBlock then Active else Pending)
    && p.executionETA == (if e.id in s.proposals then s.proposals[e.id].executionETA else None)
    && p.totalSupply == s.governance.totalTokenHolders && p.minQuorumVotesBPS == s.params.minBPS
    && p.maxQuorumVotesBPS == s.params.maxBPS && p.quorumCoefficient == s.params.coefficient
  }

  predicate StatusWrote(e: Event, p: Proposal, q: Proposal) {
    && q == p.(status := q.status, executionETA := q.executionETA)
    && (e.CanceledEvent? ==> q.status == Cancelled && q.executionETA == p.executionETA)
    && (e.VetoedEvent? ==> q.status == Vetoed && q.executionETA == p.executionETA)
    && (e.QueuedEvent? ==> q.status == Queued && q.executionETA == Some(e.eta))
    && (e.ExecutedEvent? ==> q.status == Executed && q.executionETA == None)
  }

  predicate StartedBefore(s: State, block: nat) {
    s.params.startBlock.Some? && s.params.startBlock.value < block
  }

  predicate VoteWrote(s: State, e: Event, p: Proposal, q: Proposal)
    requires e.VoteEvent?
  {
    && q == p.(againstVotes := q.againstVotes, forVotes := q.forVotes, abstainVotes := q.abstainVotes,
               quorumVotes := q.quorumVotes, status := q.status)
    && q.againstVotes == p.againstVotes + (if e.support == 0 then e.votes else 0)
    && q.forVotes == p.forVotes + (if e.support == 1 then e.votes else 0)
    && q.abstainVotes == p.abstainVotes + (if e.support == 2 then e.votes else 0)
    && q.status == (if p.status == Pending then Active else p.status)
    && if StartedBefore(s, p.createdBlock)
       then Quorum.DynamicQuorumVotes(q.againstVotes, p.totalSupply, p.minQuorumVotesBPS, p.maxQuorumVotesBPS,
              p.quorumCoefficient) == Some(q.quorumVotes)
       else q.quorumVotes == p.quorumVotes
  }

  /** An event that is not apart from a proposal writes its record as follows. */
  lemma Meets(s: State, e: Event, id: ProposalId)
    requires Step(s, e).Some? && !Apart(e, id)
    ensures e.CreatedEvent? || IsStatusEvent(e) || e.VoteEvent?
    ensures e.id == id && id in Step(s, e).value.proposals
    ensures e.CreatedEvent? ==> CreationWrote(s, e, Step(s, e).value.proposals[id])
    ensures !e.CreatedEvent? ==> id in s.proposals
    ensures IsStatusEvent(e) ==> StatusWrote(e, s.proposals[id], Step(s, e).value.proposals[id])
    ensures e.VoteEvent? ==> VoteWrote(s, e, s.proposals[id], Step(s, e).value.proposals[id])
  {
  }

  /** Each parameter event writes its own parameter, and the first one the start block. */
  lemma ParameterWrites(s: State, e: Event)
    requires Step(s, e).Some?
    ensures var (p, q) := (s.params, Step(s, e).value.params);
            && q.minBPS == (if e.MinQuorumEvent? then e.bps else p.minBPS)
            && q.maxBPS == (if e.MaxQuorumEvent? then e.bps else p.maxBPS)
            && q.coefficient == (if e.CoefficientEvent? then e.coefficient else p.coefficient)
            && q.startBlock == if PARAMETER(e) && p.startBlock.None? then Some(e.block) else p.startBlock
  {
    if IsTokenEvent(e) { TokenEventSameDao(s, e); }
  }

  lemma VoteEntityWrites(s: State, e: Event)
    requires Step(s, e).Some?
    ensures var votes := Step(s, e).value.votes;
            if e.VoteEvent?
            then var k := (e.voter, e.id);
                 k in votes && votes == s.votes[k := votes[k]] && votes[k].support == e.support
                 && votes[k].votes == e.votes && votes[k].block == e.block
            else votes == s.votes
  {
    if IsTokenEvent(e) { TokenEventSameDao(s, e); }
  }

  // ---------- each predicate over one event ----------

  lemma ParamsRightStep(es: seq<Event>, e: Event, s: State)
    requires ParamsRight(es, s) && Step(s, e).Some?
    ensures ParamsRight(es + [e], Step(s, e).value)
  {
    LastSnoc(es, e, MIN_SET); LastSnoc(es, e, MAX_SET); LastSnoc(es, e, COEFFICIENT_SET);
    FirstSnoc(es, e, PARAMETER);
    ParameterWrites(s, e);
  }

  lemma TransferTotal(s: State, from: Address, to: Address, id: NounId)
    ensures Ledger.Transfer(s, from, to, id).governance.totalTokenHolders ==
            s.governance.totalTokenHolders + (if from == ZERO then 1 else 0) - (if to == ZERO then 1 else 0)
  {
    var s1 := Ledger.LoadBoth(s, from, to);
    var (s2, g2) := if from == ZERO then Ledger.CountMint(s1) else Ledger.Debit(s1, s1.governance, from, id);
    assert s1.governance == s.governance;
    assert s2.governance.totalTokenHolders == g2.totalTokenHolders by {
      if from != ZERO { DebitTotal(s1, from, id); }
    }
    assert g2.totalTokenHolders == s.governance.totalTokenHolders + if from == ZERO then 1 else 0 by {
      if from != ZERO { DebitTotal(s1, from, id); }
    }
    var (s3, g3) := Ledger.CountBurn(s2, g2, to);
    assert Ledger.BeforeCredit(s, from, to, id) == (s3, g3);
    CreditTotal(s3, g3, s1.accounts[to], to, id);
  }

  lemma DebitTotal(s: State, from: Address, id: NounId)
    requires from in s.accounts
    ensures var (t, g) := Ledger.Debit(s, s.governance, from, id);
            t.governance.totalTokenHolders == g.totalTokenHolders == s.governance.totalTokenHolders
  {
  }

  lemma CreditTotal(s: State, g: Governance, holder: Account, to: Address, id: NounId)
    requires s.governance.totalTokenHolders == g.totalTokenHolders
    ensures Ledger.Credit(s, g, holder, to, id).governance.totalTokenHolders == g.totalTokenHolders
  {
    var listed := Ledger.List(s, if holder.delegate.Some? then holder.delegate.value else to, id);
    assert listed.governance.totalTokenHolders == g.totalTokenHolders;
    SaveTotal(listed, g, holder, to, id);
  }

  lemma SaveTotal(s: State, g: Governance, holder: Account, to: Address, id: NounId)
    requires s.governance.totalTokenHolders == g.totalTokenHolders
    ensures Ledger.SaveReceiver(s, g, holder, to, id).governance.totalTokenHolders == g.totalTokenHolders
  {
  }

  lemma ReassignTotal(s: State, delegator: Address, from: Address, to: Address)
    ensures Ledger.DelegateChanged(s, delegator, from, to).governance.totalTokenHolders ==
            s.governance.totalTokenHolders
  {
    var s1 := EnsureAccount(s, delegator);
    var s2 := EnsureDelegate(s1, from);
    assert s2.governance.totalTokenHolders == s.governance.totalTokenHolders;
    assert EnsureDelegate(s2, to).governance.totalTokenHolders == s.governance.totalTokenHolders;
  }

  lemma TotalStep(s: State, e: Event)
    requires Step(s, e).Some?
    ensures Step(s, e).value.governance.totalTokenHolders == s.governance.totalTokenHolders
            + (if MINT(e) then 1 else 0) - (if BURN(e) then 1 else 0)
  {
    match e
    case TransferEvent(from, to, tokenId) => TransferTotal(s, from, to, tokenId);
    case DelegateChangedEvent(delegator, from, to) => ReassignTotal(s, delegator, from, to);
    case _ =>
  }

  lemma QueuedStep(s: State, e: Event)
    requires Step(s, e).Some?
    ensures Step(s, e).value.governance.proposalsQueued == s.governance.proposalsQueued
            + (if QUEUED(e) then 1 else 0) - (if EXECUTED(e) then 1 else 0)
  {
    if IsTokenEvent(e) { TokenEventSameDao(s, e); }
  }

  lemma CountersAdd(es: seq<Event>, e: Event, s: State, t: State)
    requires CountersRight(es, s)
    requires t.governance.totalTokenHolders == s.governance.totalTokenHolders
             + (if MINT(e) then 1 else 0) - (if BURN(e) then 1 else 0)
    requires t.governance.proposalsQueued == s.governance.proposalsQueued
             + (if QUEUED(e) then 1 else 0) - (if EXECUTED(e) then 1 else 0)
    ensures CountersRight(es + [e], t)
  {
    CountSnoc(es, e, MINT); CountSnoc(es, e, BURN); CountSnoc(es, e, QUEUED); CountSnoc(es, e, EXECUTED);
  }

  lemma CountersRightStep(es: seq<Event>, e: Event, s: State)
    requires CountersRight(es, s) && Step(s, e).Some?
    ensures CountersRight(es + [e], Step(s, e).value)
  {
    TotalStep(s, e);
    QueuedStep(s, e);
    CountersAdd(es, e, s, Step(s, e).value);
  }

  lemma RecordRightStep(es: seq<Event>, e: Event, s: State, id: ProposalId)
    requires RecordRight(es, s, id) && Step(s, e).Some?
    ensures RecordRight(es + [e], Step(s, e).value, id)
  {
    LastSnoc(es, e, Creating(id));
    if Apart(e, id) { ApartKeeps(s, e, id); } else { Meets(s, e, id); }
  }

  lemma SnapshotRightStep(es: seq<Event>, e: Event, s: State, id: ProposalId)
    requires ParamsRight(es, s) && CountersRight(es, s) && RecordRight(es, s, id) && SnapshotRight(es, s, id)
    requires Step(s, e).Some?
    ensures SnapshotRight(es + [e], Step(s, e).value, id)
  {
    var all, c := es + [e], Last(es, Creating(id));
    LastSnoc(es, e, Creating(id));
    assert all[..|es|] == es;
    if c.Some? { assert all[..c.value] == es[..c.value]; }
    if Apart(e, id) { ApartKeeps(s, e, id); } else { Meets(s, e, id); }
  }

  lemma VotesFromSnoc(es: seq<Event>, e: Event, from: nat, id: ProposalId, support: nat)
    requires from <= |es|
    ensures VotesFrom(es + [e], from, id, support) ==
            VotesFrom(es, from, id, support) + if e.VoteEvent? && e.id == id && e.support == support then e.votes else 0
    ensures VotesFrom(es, |es|, id, support) == 0
  {
    assert (es + [e])[..|es|] == es;
  }

  lemma TalliesRightStep(es: seq<Event>, e: Event, s: State, id: ProposalId)
    requires RecordRight(es, s, id) && TalliesRight(es, s, id) && Step(s, e).Some?
    ensures TalliesRight(es + [e], Step(s, e).value, id)
  {
    var c := Last(es, Creating(id));
    LastSnoc(es, e, Creating(id));
    if c.Some? {
      VotesFromSnoc(es, e, c.value + 1, id, 0);
      VotesFromSnoc(es, e, c.value + 1, id, 1);
      VotesFromSnoc(es, e, c.value + 1, id, 2);
    }
    if Apart(e, id) { ApartKeeps(s, e, id); } else { Meets(s, e, id); }
  }

  lemma StatusRightStep(es: seq<Event>, e: Event, s: State, id: ProposalId)
    requires StatusRight(es, s, id) && Step(s, e).Some?
    ensures StatusRight(es + [e], Step(s, e).value, id)
  {
    LastSnoc(es, e, Ruling(id));
    LastSnoc(es, e, Voting(id));
    if Apart(e, id) { ApartKeeps(s, e, id); } else { Meets(s, e, id); }
  }

  lemma EtaRightStep(es: seq<Event>, e: Event, s: State, id: ProposalId)
    requires EtaRight(es, s, id) && Step(s, e).Some?
    ensures EtaRight(es + [e], Step(s, e).value, id)
  {
    LastSnoc(es, e, Timing(id));
    if Apart(e, id) { ApartKeeps(s, e, id); } else { Meets(s, e, id); }
  }

  /** A dynamic vote stays one, and a new one is the last event. */
  lemma DynamicVotesSnoc(es: seq<Event>, e: Event, c: nat)
    requires c < |es| && es[c].CreatedEvent?
    ensures (exists j :: DynamicVote(es + [e], c, j)) <==>
              (exists j :: DynamicVote(es, c, j)) || (Voting(es[c].id)(e) && StartsBefore(es, es[c].block))
  {
    var all := es + [e];
    assert all[..|es|] == es && all[|es|] == e && all[c] == es[c];
    forall j | 0 <= j < |es| ensures DynamicVote(all, c, j) <==> DynamicVote(es, c, j) {
      assert all[..j] == es[..j];
    }
    if exists j :: DynamicVote(es, c, j) {
      var j :| DynamicVote(es, c, j);
      assert DynamicVote(all, c, j);
    }
    if Voting(es[c].id)(e) && StartsBefore(es, es[c].block) { assert DynamicVote(all, c, |es|); }
  }

  /** Once the dynamic quorum applies it applies to all later votes. */
  lemma StaysDynamic(es: seq<Event>, c: nat)
    requires c < |es| && es[c].CreatedEvent? && exists j :: DynamicVote(es, c, j)
    ensures StartsBefore(es, es[c].block)
  {
    var j :| DynamicVote(es, c, j);
    FirstStays(es, j, PARAMETER);
  }

  lemma FormulaSnoc(es: seq<Event>, e: Event, c: nat)
    requires c < |es| && es[c].CreatedEvent? && !(Voting(es[c].id)(e) && e.support == 0)
    ensures FormulaOf(es + [e], c) == FormulaOf(es, c)
  {
    assert (es + [e])[..c] == es[..c];
    VotesFromSnoc(es, e, c + 1, es[c].id, 0);
  }

  lemma NewRecordQuorum(es: seq<Event>, e: Event, s: State)
    requires e.CreatedEvent?
    ensures Step(s, e).Some? && QuorumRight(es + [e], Step(s, e).value, e.id)
  {
    LastSnoc(es, e, Creating(e.id));
    Meets(s, e, e.id);
    assert forall j :: !DynamicVote(es + [e], |es|, j);
  }

  /** An event that is neither a creation nor a vote leaves the recorded quorum. */
  lemma OtherQuorum(es: seq<Event>, e: Event, s: State, id: ProposalId)
    requires RecordRight(es, s, id) && QuorumRight(es, s, id) && Step(s, e).Some?
    requires Apart(e, id) || IsStatusEvent(e)
    ensures QuorumRight(es + [e], Step(s, e).value, id)
  {
    var c := Last(es, Creating(id));
    LastSnoc(es, e, Creating(id));
    if c.Some? {
      DynamicVotesSnoc(es, e, c.value);
      FormulaSnoc(es, e, c.value);
      assert (es + [e])[c.value] == es[c.value];
    }
    if Apart(e, id) { ApartKeeps(s, e, id); } else { Meets(s, e, id); }
  }

  /** The formula sees the supply, parameters and tally that the events say. */
  lemma VoteSees(es: seq<Event>, e: Event, s: State, c: nat)
    requires e.VoteEvent? && Step(s, e).Some? && e.id in s.proposals && Last(es, Creating(e.id)) == Some(c)
    requires SnapshotRight(es, s, e.id) && TalliesRight(es, s, e.id)
    ensures e.id in Step(s, e).value.proposals
    ensures var (p, q) := (s.proposals[e.id], Step(s, e).value.proposals[e.id]);
            FormulaOf(es + [e], c) == Quorum.DynamicQuorumVotes(q.againstVotes, p.totalSupply, p.minQuorumVotesBPS,
                                        p.maxQuorumVotesBPS, p.quorumCoefficient)
  {
    Meets(s, e, e.id);
    assert (es + [e])[..c] == es[..c];
    VotesFromSnoc(es, e, c + 1, e.id, 0);
  }

  lemma StartsAgree(es: seq<Event>, s: State, block: nat)
    requires ParamsRight(es, s)
    ensures StartedBefore(s, block) <==> StartsBefore(es, block)
  {
  }

  /** The recorded quorum after a vote, by whether one of the votes was dynamic. */
  lemma VoteQuorum(es: seq<Event>, e: Event, s: State)
    requires e.VoteEvent? && AllRight(es, s, e.id) && Step(s, e).Some?
    ensures QuorumRight(es + [e], Step(s, e).value, e.id)
  {
    Meets(s, e, e.id);
    var c := Last(es, Creating(e.id)).value;
    LastSnoc(es, e, Creating(e.id));
    assert (es + [e])[c] == es[c];
    VoteSees(es, e, s, c);
    StartsAgree(es, s, es[c].block);
    DynamicVotesSnoc(es, e, c);
    if exists j :: DynamicVote(es, c, j) { StaysDynamic(es, c); }
  }

  lemma QuorumRightStep(es: seq<Event>, e: Event, s: State, id: ProposalId)
    requires AllRight(es, s, id) && Step(s, e).Some?
    ensures QuorumRight(es + [e], Step(s, e).value, id)
  {
    if Apart(e, id) || IsStatusEvent(e) {
      OtherQuorum(es, e, s, id);
    } else {
      Meets(s, e, id);
      if e.CreatedEvent? { NewRecordQuorum(es, e, s); } else { VoteQuorum(es, e, s); }
    }
  }

  lemma VoteRightStep(es: seq<Event>, e: Event, s: State, voter: Address, id: ProposalId)
    requires VoteRight(es, s, voter, id) && Step(s, e).Some?
    ensures VoteRight(es + [e], Step(s, e).value, voter, id)
  {
    LastSnoc(es, e, VotingBy(voter, id));
    VoteEntityWrites(s, e);
  }

  // ---------- whole runs ----------

  lemma EmptyRight(id: ProposalId)
    ensures AllRight([], EMPTY, id)
  {
  }

  /**
   * After any run that no handler aborted, legal or not: parameters, counters and every field of
   * every proposal are what the events say.
   */
  lemma {:induction false} ProposalsAreTheirEvents(es: seq<Event>, id: ProposalId)
    requires Run(EMPTY, es).Some?
    ensures AllRight(es, Run(EMPTY, es).value, id)
  {
    if es == [] {
      EmptyRight(id);
    } else {
      var init, e := es[..|es| - 1], es[|es| - 1];
      assert es == init + [e];
      RunSnoc(EMPTY, init, e);
      ProposalsAreTheirEvents(init, id);
      var s := Run(EMPTY, init).value;
      ParamsRightStep(init, e, s);
      CountersRightStep(init, e, s);
      RecordRightStep(init, e, s, id);
      SnapshotRightStep(init, e, s, id);
      TalliesRightStep(init, e, s, id);
      StatusRightStep(init, e, s, id);
      EtaRightStep(init, e, s, id);
      QuorumRightStep(init, e, s, id);
    }
  }

  /** Each vote entity is the last vote of its voter on its proposal. */
  lemma {:induction false} VotesAreTheirEvents(es: seq<Event>, voter: Address, id: ProposalId)
    requires Run(EMPTY, es).Some?
    ensures VoteRight(es, Run(EMPTY, es).value, voter, id)
  {
    if es != [] {
      var init, e := es[..|es| - 1], es[|es| - 1];
      assert es == init + [e];
      RunSnoc(EMPTY, init, e);
      VotesAreTheirEvents(init, voter, id);
      VoteRightStep(init, e, Run(EMPTY, init).value, voter, id);
    }
  }

  // ---------- legal runs ----------

  /** Some event in front of event number i created the proposal. */
  predicate CreatedBefore(es: seq<Event>, i: nat, id: ProposalId)
    requires i <= |es|
  {
    exists j :: 0 <= j < i && Creating(id)(es[j])
  }

  /** A store knows a proposal exactly if it was created before. */
  lemma KnownIff(es: seq<Event>, i: nat, id: ProposalId)
    requires i <= |es| && Run(EMPTY, es[..i]).Some?
    ensures id in Run(EMPTY, es[..i]).value.proposals <==> CreatedBefore(es, i, id)
  {
    ProposalsAreTheirEvents(es[..i], id);
    assert forall j :: 0 <= j < i ==> es[..i][j] == es[j];
    var k := Last(es[..i], Creating(id));
    if k.Some? { assert Creating(id)(es[k.value]); }
  }

  /** In a legal run a proposal is created once, and voted on later. */
  lemma LegalOrder(es: seq<Event>, i: nat)
    requires LegalRun(EMPTY, 0, es) && i < |es|
    ensures es[i].CreatedEvent? ==> !CreatedBefore(es, i, es[i].id)
    ensures es[i].VoteEvent? ==> CreatedBefore(es, i, es[i].id)
  {
    EventIsLegal(es, i);
    if es[i].CreatedEvent? || es[i].VoteEvent? { KnownIff(es, i, es[i].id); }
  }

  lemma CreatedOnce(es: seq<Event>, c: nat)
    requires LegalRun(EMPTY, 0, es) && c < |es| && es[c].CreatedEvent?
    ensures Last(es, Creating(es[c].id)) == Some(c)
    ensures forall j :: 0 <= j < |es| && Voting(es[c].id)(es[j]) ==> c < j
  {
    var id := es[c].id;
    LegalOrder(es, Last(es, Creating(id)).value);
    LegalOrder(es, c);
    forall j | 0 <= j < |es| && Voting(id)(es[j]) ensures c < j {
      LegalOrder(es, j);
    }
  }

  lemma {:induction false} ClockSnoc(now: nat, init: seq<Event>, e: Event)
    ensures EndClock(now, init + [e]) == Clock(EndClock(now, init), e)
    decreases |init|
  {
    var all := init + [e];
    if init == [] {
      assert all[1..] == [];
    } else {
      assert all[0] == init[0] && all[1..] == init[1..] + [e];
      ClockSnoc(Clock(now, init[0]), init[1..], e);
    }
  }

  /** When event number i of the run arrives. */
  function ClockAt(es: seq<Event>, i: nat): nat
    requires i <= |es|
  {
    EndClock(0, es[..i])
  }

  /** Each event takes the clock from its own time on. */
  ghost predicate ClockRuns(es: seq<Event>) {
    forall i :: 0 <= i < |es| ==> ClockMoves(es, i)
  }

  ghost predicate ClockMoves(es: seq<Event>, i: nat)
    requires i < |es|
  {
    && ClockAt(es, i) <= ClockAt(es, i + 1)
    && (es[i].CreatedEvent? ==> ClockAt(es, i + 1) == es[i].block)
    && (PARAMETER(es[i]) ==> ClockAt(es, i) <= es[i].block)
  }

  lemma LegalClock(s: State, now: nat, e: Event)
    requires Legal(s, now, e)
    ensures now <= Clock(now, e) && (e.CreatedEvent? ==> Clock(now, e) == e.block) && (PARAMETER(e) ==> now <= e.block)
  {
  }

  lemma NextClock(es: seq<Event>, i: nat)
    requires i < |es|
    ensures ClockAt(es, i + 1) == Clock(ClockAt(es, i), es[i])
  {
    assert es[..i + 1] == es[..i] + [es[i]];
    ClockSnoc(0, es[..i], es[i]);
  }

  lemma ClockStep(es: seq<Event>, i: nat, s: State)
    requires i < |es| && Legal(s, ClockAt(es, i), es[i])
    ensures ClockMoves(es, i)
  {
    NextClock(es, i);
    LegalClock(s, ClockAt(es, i), es[i]);
  }

  lemma LegalClockRuns(es: seq<Event>)
    requires LegalRun(EMPTY, 0, es)
    ensures ClockRuns(es)
  {
    forall i | 0 <= i < |es| ensures ClockMoves(es, i) {
      EventIsLegal(es, i);
      ClockStep(es, i, Run(EMPTY, es[..i]).value);
    }
  }

  /** The clock of a legal run never goes back. */
  lemma {:induction false} ClockGrows(es: seq<Event>, i: nat, j: nat)
    requires ClockRuns(es) && i <= j <= |es|
    ensures ClockAt(es, i) <= ClockAt(es, j)
    decreases j
  {
    if i < j {
      ClockGrows(es, i, j - 1);
      assert ClockMoves(es, j - 1);
    }
  }

  /** A parameter event of an earlier block arrived earlier. */
  lemma EarlierBlockArrivedEarlier(es: seq<Event>, k: nat, c: nat)
    requires ClockRuns(es) && k < |es| && c < |es|
    requires PARAMETER(es[k]) && es[c].CreatedEvent? && es[k].block < es[c].block
    ensures k < c
  {
    assert ClockMoves(es, k) && ClockMoves(es, c);
    if c < k { ClockGrows(es, c + 1, k); }
  }

  predicate VotedOn(es: seq<Event>, id: ProposalId) {
    exists j :: 0 <= j < |es| && Voting(id)(es[j])
  }

  lemma DynamicVoteIff(es: seq<Event>, c: nat)
    requires LegalRun(EMPTY, 0, es) && c < |es| && es[c].CreatedEvent?
    ensures (exists j :: DynamicVote(es, c, j)) <==> StartsBefore(es, es[c].block) && VotedOn(es, es[c].id)
  {
    CreatedOnce(es, c);
    if exists j :: DynamicVote(es, c, j) { StaysDynamic(es, c); }
    if StartsBefore(es, es[c].block) && VotedOn(es, es[c].id) {
      var j :| 0 <= j < |es| && Voting(es[c].id)(es[j]);
      var k := First(es, PARAMETER).value;
      LegalClockRuns(es);
      EarlierBlockArrivedEarlier(es, k, c);
      FirstInFront(es, k, j);
      assert DynamicVote(es, c, j);
    }
  }

  lemma FirstInFront(es: seq<Event>, k: nat, j: nat)
    requires First(es, PARAMETER) == Some(k) && k < j <= |es|
    ensures FirstOf(es[..j], PARAMETER) == Some(es[k])
  {
    assert es[..j][k] == es[k];
    FirstStays(es, j, PARAMETER);
  }

  /**
   * At the end of a legal run the parameters' start block is the block of the first parameter event.
   * A proposal created in a later block than that records the formula's value as soon as it was
   * voted on; every other proposal keeps the quorum of its creating event.
   */
  lemma RecordedQuorumIff(es: seq<Event>, c: nat)
    requires LegalRun(EMPTY, 0, es) && c < |es| && es[c].CreatedEvent?
    ensures Run(EMPTY, es).Some? && es[c].id in Run(EMPTY, es).value.proposals
    ensures Run(EMPTY, es).value.params.startBlock ==
            match FirstOf(es, PARAMETER)
            case Some(first) => Some(first.block)
            case None => None
    ensures var (p, first) := (Run(EMPTY, es).value.proposals[es[c].id], FirstOf(es, PARAMETER));
            if first.Some? && first.value.block < es[c].block && VotedOn(es, es[c].id)
            then FormulaOf(es, c) == Some(p.quorumVotes)
            else p.quorumVotes == es[c].quorumVotes
  {
    EmptyInv();
    RunKeeps(EMPTY, 0, es);
    ProposalsAreTheirEvents(es, es[c].id);
    CreatedOnce(es, c);
    DynamicVoteIff(es, c);
  }
}
