/**
 * packages/nouns-subgraph/src/nouns-dao.ts as functions on the store. None means that the handler
 * aborts: it reads a field of a proposal that was never created, or the quorum formula aborts.
 */
module Dao {
  import opened Wrappers
  import opened Entities
  import Quorum

  function ProposalCreated(s: State, id: ProposalId, proposer: Address, block: nat, startBlock: nat, endBlock: nat,
                           threshold: nat, quorumVotes: nat): State
  {
    var isNew := id !in s.proposals;
    var g := s.governance;
    var s1 := if isNew then s.(governance := g.(proposals := g.proposals + 1)) else s;
    var s2 := EnsureDelegate(s1, proposer);
    var proposal := Proposal(
      proposer, block, startBlock, endBlock, threshold, quorumVotes, 0, 0, 0,
      if block >= startBlock then Active else Pending,
      if isNew then None else s.proposals[id].executionETA,
      s2.governance.totalTokenHolders, s2.params.minBPS, s2.params.maxBPS, s2.params.coefficient);
    s2.(proposals := s2.proposals[id := proposal])
  }

  function SetStatus(s: State, id: ProposalId, status: Status): Option<State> {
    if id !in s.proposals then None
    else Some(s.(proposals := s.proposals[id := s.proposals[id].(status := status)]))
  }

  function ProposalQueued(s: State, id: ProposalId, eta: nat): Option<State> {
    if id !in s.proposals then None
    else
      Some(s.(proposals := s.proposals[id := s.proposals[id].(status := Queued, executionETA := Some(eta))],
              governance := s.governance.(proposalsQueued := s.governance.proposalsQueued + 1)))
  }

  function ProposalExecuted(s: State, id: ProposalId): Option<State> {
    if id !in s.proposals then None
    else
      Some(s.(proposals := s.proposals[id := s.proposals[id].(status := Executed, executionETA := None)],
              governance := s.governance.(proposalsQueued := s.governance.proposalsQueued - 1)))
  }

  /** The start block is the block of the first parameter event; only earlier ones make a proposal dynamic. */
  predicate UsesDynamicQuorum(params: QuorumParams, p: Proposal) {
    params.startBlock.Some? && params.startBlock.value < p.createdBlock
  }

  function QuorumOf(p: Proposal): Option<int> {
    Quorum.DynamicQuorumVotes(p.againstVotes, p.totalSupply, p.minQuorumVotesBPS, p.maxQuorumVotesBPS,
        p.quorumCoefficient)
  }

  function Counted(p: Proposal, support: nat, votes: nat): Proposal {
    if support == 0 then p.(againstVotes := p.againstVotes + votes)
    else if support == 1 then p.(forVotes := p.forVotes + votes)
    else if support == 2 then p.(abstainVotes := p.abstainVotes + votes)
    else p
  }

  function VoteCast(s: State, voter: Address, id: ProposalId, support: nat, votes: nat, block: nat): Option<State> {
    if id !in s.proposals then None
    else
      var s1 := EnsureDelegate(s, voter);
      var vote := Vote(support, votes, s1.delegates[voter].nounsRepresented, block);
      var p := Counted(s.proposals[id], support, votes);
      if UsesDynamicQuorum(s.params, p) && QuorumOf(p).None? then None
      else
        var p1 := if UsesDynamicQuorum(s.params, p) then p.(quorumVotes := QuorumOf(p).value) else p;
        var p2 := if p1.status == Pending then p1.(status := Active) else p1;
        Some(s1.(votes := s1.votes[(voter, id) := vote], proposals := s1.proposals[id := p2]))
  }

  /** `getOrCreateDynamicQuorumParams(block)`. */
  function StartedParams(params: QuorumParams, block: nat): QuorumParams {
    if params.startBlock.None? then params.(startBlock := Some(block)) else params
  }

  function MinQuorumSet(s: State, bps: nat, block: nat): State {
    s.(params := StartedParams(s.params, block).(minBPS := bps))
  }

  function MaxQuorumSet(s: State, bps: nat, block: nat): State {
    s.(params := StartedParams(s.params, block).(maxBPS := bps))
  }

  function CoefficientSet(s: State, coefficient: nat, block: nat): State {
    s.(params := StartedParams(s.params, block).(coefficient := coefficient))
  }
}
