/** Tallies, queue counter, snapshots and recorded quorum of proposals. */
module DaoInvariants {
  import opened Wrappers
  import opened Entities
  import opened Dao
  import opened MapSums
  import Quorum

  type Votes = map<(Address, ProposalId), Vote>

  /** The vote entities of one proposal with one support value, by their votes. */
  ghost function TallyMap(votes: Votes, id: ProposalId, support: nat): map<(Address, ProposalId), int> {
    map k | k in votes && k.1 == id && votes[k].support == support :: votes[k].votes
  }

  ghost function Tally(votes: Votes, id: ProposalId, support: nat): int {
    Sum(TallyMap(votes, id, support))
  }

  ghost predicate TallyOk(votes: Votes, id: ProposalId, p: Proposal) {
    p.againstVotes == Tally(votes, id, 0) && p.forVotes == Tally(votes, id, 1) && p.abstainVotes == Tally(votes, id, 2)
  }

  ghost predicate Tallies(s: State) {
    forall id :: id in s.proposals ==> TallyOk(s.votes, id, s.proposals[id])
  }

  lemma SumWithout<K(!new)>(m: map<K, int>, k: K)
    ensures Sum(m - {k}) == Sum(m) - if k in m then m[k] else 0
  {
    if k in m { SumTakeOut(m, k); } else { assert m - {k} == m; }
  }

  /** Saving one vote entity changes one tally up and the one the overwritten entity was in down. */
  lemma TallyUpdate(votes: Votes, k: (Address, ProposalId), vote: Vote, support: nat)
    ensures Tally(votes[k := vote], k.1, support) == Tally(votes, k.1, support)
            + (if vote.support == support then vote.votes else 0)
            - (if k in votes && votes[k].support == support then votes[k].votes else 0)
  {
    var before, after := TallyMap(votes, k.1, support), TallyMap(votes[k := vote], k.1, support);
    if vote.support == support {
      assert after == before[k := vote.votes];
      SumUpdate(before, k, vote.votes);
    } else {
      assert after == before - {k};
      SumWithout(before, k);
    }
  }

  lemma TallyElsewhere(votes: Votes, k: (Address, ProposalId), vote: Vote, id: ProposalId, support: nat)
    requires id != k.1
    ensures Tally(votes[k := vote], id, support) == Tally(votes, id, support)
  {
    assert TallyMap(votes[k := vote], id, support) == TallyMap(votes, id, support);
  }

  /** No earlier vote of this voter that still counts is overwritten. */
  predicate FreshVote(s: State, voter: Address, id: ProposalId) {
    (voter, id) in s.votes ==> s.votes[(voter, id)].votes == 0 || s.votes[(voter, id)].support > 2
  }

  /** What a vote does to the three tallies of its proposal. */
  lemma VoteCastTallied(s: State, voter: Address, id: ProposalId, support: nat, votes: nat, block: nat)
    requires VoteCast(s, voter, id, support, votes, block).Some?
    ensures var s' := VoteCast(s, voter, id, support, votes, block).value;
            && id in s.proposals && id in s'.proposals && (voter, id) in s'.votes
            && s'.proposals == s.proposals[id := s'.proposals[id]]
            && s'.votes == s.votes[(voter, id) := s'.votes[(voter, id)]]
            && s'.votes[(voter, id)].support == support && s'.votes[(voter, id)].votes == votes
            && var (p, q) := (s.proposals[id], s'.proposals[id]);
               && q.againstVotes == p.againstVotes + (if support == 0 then votes else 0)
               && q.forVotes == p.forVotes + (if support == 1 then votes else 0)
               && q.abstainVotes == p.abstainVotes + (if support == 2 then votes else 0)
  {
  }

  /** Tallies stay the sums over vote entities exactly when the vote overwrites nothing that counts. */
  lemma VoteCastTalliesIff(s: State, voter: Address, id: ProposalId, support: nat, votes: nat, block: nat)
    requires Tallies(s) && VoteCast(s, voter, id, support, votes, block).Some?
    ensures Tallies(VoteCast(s, voter, id, support, votes, block).value) <==> FreshVote(s, voter, id)
  {
    var s' := VoteCast(s, voter, id, support, votes, block).value;
    VoteCastTallied(s, voter, id, support, votes, block);
    RetallyIff(s, s', (voter, id), s'.votes[(voter, id)]);
  }

  lemma RetallyIff(s: State, s': State, k: (Address, ProposalId), vote: Vote)
    requires Tallies(s) && k.1 in s.proposals && k.1 in s'.proposals
    requires s'.proposals == s.proposals[k.1 := s'.proposals[k.1]] && s'.votes == s.votes[k := vote]
    requires var (p, q) := (s.proposals[k.1], s'.proposals[k.1]);
             && q.againstVotes == p.againstVotes + (if vote.support == 0 then vote.votes else 0)
             && q.forVotes == p.forVotes + (if vote.support == 1 then vote.votes else 0)
             && q.abstainVotes == p.abstainVotes + (if vote.support == 2 then vote.votes else 0)
    ensures Tallies(s') <==> FreshVote(s, k.0, k.1)
  {
    var id := k.1;
    forall other | other in s'.proposals && other != id ensures TallyOk(s'.votes, other, s'.proposals[other]) {
      TallyElsewhere(s.votes, k, vote, other, 0); TallyElsewhere(s.votes, k, vote, other, 1);
      TallyElsewhere(s.votes, k, vote, other, 2);
      assert TallyOk(s.votes, other, s.proposals[other]);
    }
    assert TallyOk(s.votes, id, s.proposals[id]);
    TallyUpdate(s.votes, k, vote, 0); TallyUpdate(s.votes, k, vote, 1); TallyUpdate(s.votes, k, vote, 2);
    assert TallyOk(s'.votes, id, s'.proposals[id]) <==> FreshVote(s, k.0, k.1);
  }

  // ---------- queue ----------

  ghost function QueuedSet(proposals: map<ProposalId, Proposal>): set<ProposalId> {
    set id | id in proposals && proposals[id].executionETA.Some?
  }

  /** `proposals` and `proposalsQueued` count what they are named after. */
  ghost predicate QueueOk(s: State) {
    s.governance.proposalsQueued == |QueuedSet(s.proposals)| && s.governance.proposals == |s.proposals|
  }

  lemma QueuedUpdate(proposals: map<ProposalId, Proposal>, id: ProposalId, p: Proposal)
    requires id in proposals
    ensures |QueuedSet(proposals[id := p])| == |QueuedSet(proposals)|
            + (if p.executionETA.Some? then 1 else 0) - (if proposals[id].executionETA.Some? then 1 else 0)
    ensures |proposals[id := p]| == |proposals|
  {
    var rest := QueuedSet(proposals) - {id};
    assert QueuedSet(proposals) == if proposals[id].executionETA.Some? then rest + {id} else rest;
    assert QueuedSet(proposals[id := p]) == if p.executionETA.Some? then rest + {id} else rest;
    assert proposals[id := p].Keys == proposals.Keys;
    assert |proposals[id := p]| == |proposals[id := p].Keys| == |proposals.Keys|;
  }

  /** The queue counter stays right exactly when only proposals without an ETA are queued. */
  lemma QueueIff(s: State, id: ProposalId, eta: nat)
    requires QueueOk(s) && id in s.proposals
    ensures QueueOk(ProposalQueued(s, id, eta).value) <==> s.proposals[id].executionETA.None?
  {
    QueuedUpdate(s.proposals, id, s.proposals[id].(status := Queued, executionETA := Some(eta)));
  }

  /** ... and only proposals with an ETA are executed. */
  lemma ExecuteIff(s: State, id: ProposalId)
    requires QueueOk(s) && id in s.proposals
    ensures QueueOk(ProposalExecuted(s, id).value) <==> s.proposals[id].executionETA.Some?
  {
    QueuedUpdate(s.proposals, id, s.proposals[id].(status := Executed, executionETA := None));
  }

  // ---------- snapshots and recorded quorum ----------

  ghost predicate Voted(s: State, id: ProposalId) {
    exists voter :: (voter, id) in s.votes
  }

  /** Once dynamic, a proposal that received a vote records the formula's value for its votes against. */
  ghost predicate QuorumRecorded(s: State) {
    forall id :: id in s.proposals && Voted(s, id) ==> RecordOk(s.params, s.proposals[id])
  }

  predicate RecordOk(params: QuorumParams, p: Proposal) {
    UsesDynamicQuorum(params, p) ==> QuorumOf(p) == Some(p.quorumVotes)
  }

  /** What keeps the quorum formula from aborting. */
  predicate Countable(p: Proposal) {
    && p.totalSupply > 0 && p.againstVotes <= p.totalSupply
    && Quorum.InRange(p.minQuorumVotesBPS, p.maxQuorumVotesBPS, p.quorumCoefficient)
  }

  ghost predicate DaoInv(s: State, now: nat) {
    DaoCore(s, now) && QuorumRecorded(s)
  }

  ghost predicate DaoCore(s: State, now: nat) {
    && Tallies(s) && QueueOk(s)
    && (forall k :: k in s.votes ==> k.1 in s.proposals)
    && (forall id :: id in s.proposals ==> s.proposals[id].createdBlock <= now && Countable(s.proposals[id]))
    && (s.params.startBlock.Some? ==> s.params.startBlock.value <= now)
  }

  predicate SameSnapshot(p: Proposal, q: Proposal) {
    && p.createdBlock == q.createdBlock && p.totalSupply == q.totalSupply
    && p.minQuorumVotesBPS == q.minQuorumVotesBPS && p.maxQuorumVotesBPS == q.maxQuorumVotesBPS
    && p.quorumCoefficient == q.quorumCoefficient
  }

  /** What one event may do to proposals that exist already. */
  ghost predicate ProposalsProgress(s: State, s': State) {
    forall id :: id in s.proposals ==> id in s'.proposals && ProposalProgress(s, s', id)
  }

  ghost predicate ProposalProgress(s: State, s': State, id: ProposalId)
    requires id in s.proposals && id in s'.proposals
  {
    var p, q := s.proposals[id], s'.proposals[id];
    && SameSnapshot(p, q)
    && (UsesDynamicQuorum(s.params, p) <==> UsesDynamicQuorum(s'.params, q))
    && (Voted(s, id) ==> Voted(s', id))
    && (Voted(s, id) && UsesDynamicQuorum(s.params, p) ==> p.quorumVotes <= q.quorumVotes)
  }

  /** The proposal a vote leaves behind. */
  lemma VoteCastShape(s: State, voter: Address, id: ProposalId, support: nat, votes: nat, block: nat)
    requires VoteCast(s, voter, id, support, votes, block).Some?
    ensures var s' := VoteCast(s, voter, id, support, votes, block).value;
            && id in s.proposals && id in s'.proposals && (voter, id) in s'.votes
            && s'.proposals == s.proposals[id := s'.proposals[id]]
            && s'.votes == s.votes[(voter, id) := s'.votes[(voter, id)]] && s'.params == s.params
            && s'.governance == s.governance.(totalDelegates := s'.governance.totalDelegates)
            && SameSnapshot(s.proposals[id], s'.proposals[id])
            && s'.proposals[id].executionETA == s.proposals[id].executionETA
            && s.proposals[id].againstVotes <= s'.proposals[id].againstVotes
            && RecordOk(s.params, s'.proposals[id])
  {
    var s' := VoteCast(s, voter, id, support, votes, block).value;
    var p := Counted(s.proposals[id], support, votes);
    assert s'.proposals[id] == p.(quorumVotes := s'.proposals[id].quorumVotes, status := s'.proposals[id].status);
    assert QuorumOf(s'.proposals[id]) == QuorumOf(p);
  }

  lemma VoteCastVoted(s: State, s': State, k: (Address, ProposalId), vote: Vote)
    requires s'.votes == s.votes[k := vote]
    ensures forall id :: Voted(s', id) <==> id == k.1 || Voted(s, id)
  {
    assert k in s'.votes;
    forall id ensures Voted(s', id) <==> id == k.1 || Voted(s, id) {
      if Voted(s, id) {
        var v :| (v, id) in s.votes;
        assert (v, id) in s'.votes;
      }
      if Voted(s', id) {
        var v :| (v, id) in s'.votes;
        assert id != k.1 ==> (v, id) in s.votes;
      }
      if id == k.1 { assert (k.0, id) in s'.votes; }
    }
  }

  lemma RecordMonotone(s: State, id: ProposalId, q: Proposal)
    requires Tallies(s) && id in s.proposals
    requires UsesDynamicQuorum(s.params, s.proposals[id]) && RecordOk(s.params, s.proposals[id])
             && RecordOk(s.params, q)
    requires SameSnapshot(s.proposals[id], q) && s.proposals[id].againstVotes <= q.againstVotes && q.totalSupply >= 0
    ensures s.proposals[id].quorumVotes <= q.quorumVotes
  {
    var p := s.proposals[id];
    AgainstNonNegative(s, id);
    Quorum.QuorumMonotone(p.againstVotes, q.againstVotes, p.totalSupply, p.minQuorumVotesBPS, p.maxQuorumVotesBPS,
        p.quorumCoefficient);
  }

  /** A vote against asks for no more votes than there were nouns. */
  predicate VoteFits(s: State, id: ProposalId, support: nat, votes: nat)
    requires id in s.proposals
  {
    support == 0 ==> s.proposals[id].againstVotes + votes <= s.proposals[id].totalSupply
  }

  lemma CountableHasQuorum(p: Proposal)
    requires Countable(p) && p.againstVotes >= 0
    ensures QuorumOf(p).Some?
  {
    Quorum.CastCannotOverflow(p.againstVotes, p.totalSupply, p.minQuorumVotesBPS, p.maxQuorumVotesBPS,
        p.quorumCoefficient);
  }

  lemma CountedStaysCountable(p: Proposal, support: nat, votes: nat)
    requires Countable(p) && p.againstVotes >= 0 && (support == 0 ==> p.againstVotes + votes <= p.totalSupply)
    ensures Countable(Counted(p, support, votes)) && Counted(p, support, votes).againstVotes >= 0
  {
  }

  /** A vote that fits on a proposal that exists never aborts the handler. */
  lemma VoteCastSucceeds(s: State, now: nat, voter: Address, id: ProposalId, support: nat, votes: nat, block: nat)
    requires DaoCore(s, now) && id in s.proposals && VoteFits(s, id, support, votes)
    ensures VoteCast(s, voter, id, support, votes, block).Some?
  {
    var p := s.proposals[id];
    AgainstNonNegative(s, id);
    CountedStaysCountable(p, support, votes);
    CountableHasQuorum(Counted(p, support, votes));
  }

  /** Once dynamic and voted on, a proposal records a quorum between the floors of its own bounds. */
  lemma RecordedQuorumBetween(s: State, now: nat, id: ProposalId)
    requires DaoInv(s, now) && id in s.proposals && Voted(s, id) && UsesDynamicQuorum(s.params, s.proposals[id])
    ensures var p := s.proposals[id];
            p.totalSupply * p.minQuorumVotesBPS / 10000 <= p.quorumVotes <= p.totalSupply * p.maxQuorumVotesBPS / 10000
  {
    var p := s.proposals[id];
    AgainstNonNegative(s, id);
    assert Countable(p) && RecordOk(s.params, p);
    Quorum.QuorumBetweenBounds(p.againstVotes, p.totalSupply, p.minQuorumVotesBPS, p.maxQuorumVotesBPS,
        p.quorumCoefficient);
  }

  lemma VoteCastCountable(s: State, voter: Address, id: ProposalId, support: nat, votes: nat, block: nat)
    requires VoteCast(s, voter, id, support, votes, block).Some?
    requires Countable(s.proposals[id]) && VoteFits(s, id, support, votes)
    ensures Countable(VoteCast(s, voter, id, support, votes, block).value.proposals[id])
  {
    VoteCastTallied(s, voter, id, support, votes, block);
    VoteCastShape(s, voter, id, support, votes, block);
  }

  /** s' is s with one vote saved and one proposal's record replaced. */
  ghost predicate Votes1(s: State, s': State, k: (Address, ProposalId)) {
    && k.1 in s.proposals && k.1 in s'.proposals && k in s'.votes
    && s'.proposals == s.proposals[k.1 := s'.proposals[k.1]]
    && s'.votes == s.votes[k := s'.votes[k]] && s'.params == s.params
    && s'.governance == s.governance.(totalDelegates := s'.governance.totalDelegates)
    && SameSnapshot(s.proposals[k.1], s'.proposals[k.1])
    && s'.proposals[k.1].executionETA == s.proposals[k.1].executionETA
  }

  lemma VoteKeepsCore(s: State, s': State, now: nat, k: (Address, ProposalId))
    requires DaoCore(s, now) && Votes1(s, s', k) && Tallies(s') && Countable(s'.proposals[k.1])
    ensures DaoCore(s', now)
  {
    QueuedUpdate(s.proposals, k.1, s'.proposals[k.1]);
    assert QueueOk(s');
  }

  lemma VoteKeepsRecord(s: State, s': State, k: (Address, ProposalId))
    requires QuorumRecorded(s) && Votes1(s, s', k) && RecordOk(s'.params, s'.proposals[k.1])
    ensures QuorumRecorded(s')
  {
    VoteCastVoted(s, s', k, s'.votes[k]);
    forall id | id in s'.proposals && Voted(s', id) ensures RecordOk(s'.params, s'.proposals[id]) {
      if id != k.1 { assert Voted(s, id) && s'.proposals[id] == s.proposals[id]; }
    }
  }

  lemma VoteCastKeeps(s: State, now: nat, voter: Address, id: ProposalId, support: nat, votes: nat, block: nat)
    requires DaoInv(s, now) && id in s.proposals && FreshVote(s, voter, id) && VoteFits(s, id, support, votes)
    ensures VoteCast(s, voter, id, support, votes, block).Some?
    ensures DaoInv(VoteCast(s, voter, id, support, votes, block).value, now)
  {
    VoteCastSucceeds(s, now, voter, id, support, votes, block);
    var s' := VoteCast(s, voter, id, support, votes, block).value;
    VoteCastTalliesIff(s, voter, id, support, votes, block);
    VoteCastShape(s, voter, id, support, votes, block);
    VoteCastCountable(s, voter, id, support, votes, block);
    VoteKeepsCore(s, s', now, (voter, id));
    VoteKeepsRecord(s, s', (voter, id));
  }

  /** A vote leaves every snapshot alone and never lowers a recorded dynamic quorum. */
  lemma VoteCastProgress(s: State, now: nat, voter: Address, id: ProposalId, support: nat, votes: nat, block: nat)
    requires DaoInv(s, now) && VoteCast(s, voter, id, support, votes, block).Some?
    ensures ProposalsProgress(s, VoteCast(s, voter, id, support, votes, block).value)
  {
    var s' := VoteCast(s, voter, id, support, votes, block).value;
    VoteCastShape(s, voter, id, support, votes, block);
    VoteCastVoted(s, s', (voter, id), s'.votes[(voter, id)]);
    if Voted(s, id) && UsesDynamicQuorum(s.params, s.proposals[id]) {
      RecordMonotone(s, id, s'.proposals[id]);
    }
    assert ProposalProgress(s, s', id);
  }

  lemma AgainstNonNegative(s: State, id: ProposalId)
    requires Tallies(s) && id in s.proposals
    ensures s.proposals[id].againstVotes >= 0
  {
    assert TallyOk(s.votes, id, s.proposals[id]);
    SumNonNegative(TallyMap(s.votes, id, 0));
  }

  /** s' is s with one new, untouched proposal. */
  ghost predicate Adds(s: State, s': State, id: ProposalId, block: nat) {
    && id !in s.proposals && id in s'.proposals && s'.proposals == s.proposals[id := s'.proposals[id]]
    && s'.votes == s.votes && s'.params == s.params
    && s'.governance == s.governance.(proposals := s.governance.proposals + 1,
        totalDelegates := s'.governance.totalDelegates)
    && var p := s'.proposals[id];
       && p.againstVotes == 0 && p.forVotes == 0 && p.abstainVotes == 0 && p.executionETA.None?
       && p.createdBlock == block && p.totalSupply == s.governance.totalTokenHolders
       && p.minQuorumVotesBPS == s.params.minBPS && p.maxQuorumVotesBPS == s.params.maxBPS
       && p.quorumCoefficient == s.params.coefficient
  }

  /** There are nouns, and the current parameters are in the contract's ranges. */
  predicate CanPropose(s: State) {
    s.governance.totalTokenHolders > 0 && Quorum.InRange(s.params.minBPS, s.params.maxBPS, s.params.coefficient)
  }

  lemma CreateShape(s: State, id: ProposalId, proposer: Address, block: nat, startBlock: nat, endBlock: nat,
                    threshold: nat, quorumVotes: nat)
    requires id !in s.proposals
    ensures Adds(s, ProposalCreated(s, id, proposer, block, startBlock, endBlock, threshold, quorumVotes), id, block)
  {
  }

  lemma NewProposalCounts(proposals: map<ProposalId, Proposal>, id: ProposalId, p: Proposal)
    requires id !in proposals && p.executionETA.None?
    ensures QueuedSet(proposals[id := p]) == QueuedSet(proposals) && |proposals[id := p]| == |proposals| + 1
  {
    assert proposals[id := p].Keys == proposals.Keys + {id};
    assert |proposals[id := p].Keys| == |proposals.Keys| + 1;
  }

  lemma NoVotesNoTally(votes: Votes, id: ProposalId, support: nat)
    requires forall k :: k in votes ==> k.1 != id
    ensures Tally(votes, id, support) == 0
  {
    assert TallyMap(votes, id, support) == map[];
  }

  lemma AddKeepsTallies(s: State, s': State, id: ProposalId, block: nat)
    requires Tallies(s) && Adds(s, s', id, block) && forall k :: k in s.votes ==> k.1 in s.proposals
    ensures Tallies(s')
  {
    NoVotesNoTally(s.votes, id, 0); NoVotesNoTally(s.votes, id, 1); NoVotesNoTally(s.votes, id, 2);
    forall other | other in s'.proposals ensures TallyOk(s'.votes, other, s'.proposals[other]) {
      if other != id { assert TallyOk(s.votes, other, s.proposals[other]); }
    }
  }

  lemma AddKeepsQueue(s: State, s': State, id: ProposalId, block: nat)
    requires QueueOk(s) && Adds(s, s', id, block)
    ensures QueueOk(s')
  {
    NewProposalCounts(s.proposals, id, s'.proposals[id]);
  }

  lemma AddKeepsCore(s: State, s': State, now: nat, id: ProposalId, block: nat)
    requires DaoCore(s, now) && Adds(s, s', id, block) && now <= block && CanPropose(s)
    ensures DaoCore(s', block)
  {
    AddKeepsTallies(s, s', id, block);
    AddKeepsQueue(s, s', id, block);
    assert Countable(s'.proposals[id]);
    forall other | other in s'.proposals
      ensures s'.proposals[other].createdBlock <= block && Countable(s'.proposals[other])
    {
      if other != id { assert s'.proposals[other] == s.proposals[other]; }
    }
  }

  lemma AddKeepsRecord(s: State, s': State, now: nat, id: ProposalId, block: nat)
    requires DaoInv(s, now) && Adds(s, s', id, block)
    ensures QuorumRecorded(s')
  {
    SameVotesSameVoted(s, s');
    assert !Voted(s, id);
    forall other | other in s'.proposals && Voted(s', other) ensures RecordOk(s'.params, s'.proposals[other]) {
      assert Voted(s, other) && s'.proposals[other] == s.proposals[other];
    }
  }

  lemma AddProgress(s: State, s': State, id: ProposalId, block: nat)
    requires Adds(s, s', id, block)
    ensures ProposalsProgress(s, s')
  {
    SameVotesSameVoted(s, s');
  }

  lemma AddKeeps(s: State, s': State, now: nat, id: ProposalId, block: nat)
    requires DaoInv(s, now) && Adds(s, s', id, block) && now <= block && CanPropose(s)
    ensures DaoInv(s', block) && ProposalsProgress(s, s')
  {
    AddKeepsCore(s, s', now, id, block);
    AddKeepsRecord(s, s', now, id, block);
    AddProgress(s, s', id, block);
  }

  /** A new proposal starts with empty tallies and no ETA. */
  lemma CreateKeeps(s: State, now: nat, id: ProposalId, proposer: Address, block: nat, startBlock: nat, endBlock: nat,
                    threshold: nat, quorumVotes: nat)
    requires DaoInv(s, now) && id !in s.proposals && now <= block && CanPropose(s)
    ensures var s' := ProposalCreated(s, id, proposer, block, startBlock, endBlock, threshold, quorumVotes);
            && DaoInv(s', block) && ProposalsProgress(s, s')
            && id in s'.proposals && s'.proposals == s.proposals[id := s'.proposals[id]]
  {
    CreateShape(s, id, proposer, block, startBlock, endBlock, threshold, quorumVotes);
    AddKeeps(s, ProposalCreated(s, id, proposer, block, startBlock, endBlock, threshold, quorumVotes), now, id, block);
  }

  predicate StatusOnly(p: Proposal, q: Proposal) {
    q == p.(status := q.status, executionETA := q.executionETA)
  }

  /** s' is s with the status or ETA of one proposal changed, and perhaps the counters. */
  ghost predicate Restates(s: State, s': State, id: ProposalId) {
    && id in s.proposals && id in s'.proposals && s'.proposals == s.proposals[id := s'.proposals[id]]
    && StatusOnly(s.proposals[id], s'.proposals[id]) && s'.votes == s.votes && s'.params == s.params
  }

  lemma StatusSameRecord(params: QuorumParams, p: Proposal, q: Proposal)
    requires StatusOnly(p, q)
    ensures RecordOk(params, q) <==> RecordOk(params, p)
    ensures Countable(q) <==> Countable(p)
  {
    assert QuorumOf(q) == QuorumOf(p);
  }

  lemma StatusSameProgress(params: QuorumParams, p: Proposal, q: Proposal)
    requires StatusOnly(p, q)
    ensures SameSnapshot(p, q) && (UsesDynamicQuorum(params, p) <==> UsesDynamicQuorum(params, q))
              && p.quorumVotes == q.quorumVotes
  {
  }

  lemma StatusKeepsTallies(s: State, s': State, id: ProposalId)
    requires Tallies(s) && Restates(s, s', id)
    ensures Tallies(s')
  {
    forall other | other in s'.proposals ensures TallyOk(s'.votes, other, s'.proposals[other]) {
      assert TallyOk(s.votes, other, s.proposals[other]);
    }
  }

  lemma StatusKeepsRecords(s: State, s': State, id: ProposalId)
    requires QuorumRecorded(s) && Restates(s, s', id)
    ensures QuorumRecorded(s')
  {
    SameVotesSameVoted(s, s');
    StatusSameRecord(s.params, s.proposals[id], s'.proposals[id]);
    forall other | other in s'.proposals && Voted(s', other) ensures RecordOk(s'.params, s'.proposals[other]) {
      assert Voted(s, other) && RecordOk(s.params, s.proposals[other]);
    }
  }

  lemma StatusProgress(s: State, s': State, id: ProposalId)
    requires Restates(s, s', id)
    ensures ProposalsProgress(s, s')
  {
    SameVotesSameVoted(s, s');
    StatusSameProgress(s.params, s.proposals[id], s'.proposals[id]);
    assert ProposalProgress(s, s', id);
  }

  /** Changes of status or ETA touch neither tallies nor snapshots nor the recorded quorum. */
  lemma StatusKeeps(s: State, s': State, now: nat, id: ProposalId)
    requires DaoInv(s, now) && Restates(s, s', id) && QueueOk(s')
    ensures DaoInv(s', now) && ProposalsProgress(s, s')
  {
    StatusKeepsTallies(s, s', id);
    StatusSameRecord(s.params, s.proposals[id], s'.proposals[id]);
    StatusKeepsRecords(s, s', id);
    StatusProgress(s, s', id);
  }

  lemma SameVotesSameVoted(s: State, s': State)
    requires s'.votes == s.votes
    ensures forall id :: Voted(s', id) <==> Voted(s, id)
  {
  }

  /** Parameter events change what later proposals copy, not which of the existing ones are dynamic. */
  lemma ParamsKeep(s: State, now: nat, block: nat, params: QuorumParams)
    requires DaoInv(s, now) && now <= block
    requires params.startBlock == StartedParams(s.params, block).startBlock
    ensures DaoInv(s.(params := params), block) && ProposalsProgress(s, s.(params := params))
  {
    var s' := s.(params := params);
    forall id | id in s.proposals
      ensures UsesDynamicQuorum(s.params, s.proposals[id]) <==> UsesDynamicQuorum(params, s.proposals[id])
    {
      assert s.proposals[id].createdBlock <= now;
    }
    forall id | id in s'.proposals
      ensures TallyOk(s'.votes, id, s'.proposals[id]) && (Voted(s', id) <==> Voted(s, id))
    {
      assert TallyOk(s.votes, id, s.proposals[id]);
    }
  }

  /** Events of the token contract leave the DAO's entities alone. */
  lemma OutsideKeeps(s: State, s': State, now: nat)
    requires DaoInv(s, now) && s'.proposals == s.proposals && s'.votes == s.votes && s'.params == s.params
    requires s'.governance.proposals == s.governance.proposals
             && s'.governance.proposalsQueued == s.governance.proposalsQueued
    ensures DaoInv(s', now) && ProposalsProgress(s, s')
  {
    forall id | id in s'.proposals
      ensures TallyOk(s'.votes, id, s'.proposals[id]) && (Voted(s', id) <==> Voted(s, id))
    {
      assert TallyOk(s.votes, id, s.proposals[id]);
    }
  }
}
