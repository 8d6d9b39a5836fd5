/**
 * The event handlers as they run: entities are loaded into local copies, changed, and saved back.
 * Each handler is proved to do what the corresponding function on the store says.
 */
module Subgraph {
  import opened Wrappers
  import opened Entities
  import Ledger
  import Dao
  import Quorum

  class Subgraph {
    var accounts: map<Address, Account>
    var delegates: map<Address, Delegate>
    var owners: map<NounId, Address>
    var governance: Governance
    var proposals: map<ProposalId, Proposal>
    var votes: map<(Address, ProposalId), Vote>
    var params: QuorumParams
    // the mapping's module-level globals
    var accountNouns: seq<NounId>
    var transferredNounId: NounId

    ghost function Store(): State
      reads this
    {
      State(accounts, delegates, owners, governance, proposals, votes, params)
    }

    constructor ()
      ensures Store() == EMPTY
    {
      accounts, delegates, owners := map[], map[], map[];
      governance := Governance(0, 0, 0, 0, 0, 0, 0);
      proposals, votes, params := map[], map[], QuorumParams(0, 0, 0, None);
      accountNouns, transferredNounId := [], 0;
    }

    // ---------- helpers ----------

    method GetOrCreateAccount(id: Address) returns (account: Account)
      modifies this`accounts
      ensures Store() == EnsureAccount(old(Store()), id)
      ensures id in accounts && account == accounts[id]
    {
      if id in accounts {
        account := accounts[id];
      } else {
        account := Account(None, 0, 0, []);
        accounts := accounts[id := account];
      }
    }

    method GetOrCreateDelegate(id: Address) returns (delegate: Delegate)
      modifies this`delegates, this`governance
      ensures Store() == EnsureDelegate(old(Store()), id)
      ensures id in delegates && delegate == delegates[id]
    {
      if id in delegates {
        delegate := delegates[id];
      } else {
        delegate := Delegate(0, 0, []);
        if id != ZERO {
          var g := governance;
          g := g.(totalDelegates := g.totalDelegates + 1);
          governance := g;
        }
        delegates := delegates[id := delegate];
      }
    }

    // ---------- nouns-erc-721.ts ----------

    method HandleDelegateChanged(delegator: Address, fromDelegate: Address, toDelegate: Address)
      modifies this
      ensures Store() == Ledger.DelegateChanged(old(Store()), delegator, fromDelegate, toDelegate)
    {
      var tokenHolder := GetOrCreateAccount(delegator);
      var previousDelegate := GetOrCreateDelegate(fromDelegate);
      var newDelegate := GetOrCreateDelegate(toDelegate);
      assert Store() == Ledger.LoadDelegates(old(Store()), delegator, fromDelegate, toDelegate);
      assert previousDelegate == delegates[fromDelegate];
      accountNouns := tokenHolder.nouns;

      tokenHolder := tokenHolder.(delegate := Some(toDelegate));
      accounts := accounts[delegator := tokenHolder];

      previousDelegate := previousDelegate.(
        tokenHoldersRepresentedAmount := previousDelegate.tokenHoldersRepresentedAmount - 1);
      var previousNounsRepresented := previousDelegate.nounsRepresented;
      previousDelegate := previousDelegate.(nounsRepresented := Without(previousNounsRepresented, accountNouns));
      newDelegate := newDelegate.(tokenHoldersRepresentedAmount := newDelegate.tokenHoldersRepresentedAmount + 1);
      var newNounsRepresented := newDelegate.nounsRepresented;
      for i := 0 to |accountNouns|
        invariant newNounsRepresented == newDelegate.nounsRepresented + accountNouns[..i]
      {
        newNounsRepresented := newNounsRepresented + [accountNouns[i]];
        assert accountNouns[..i + 1] == accountNouns[..i] + [accountNouns[i]];
      }
      assert accountNouns[..|accountNouns|] == accountNouns;
      newDelegate := newDelegate.(nounsRepresented := newNounsRepresented);
      delegates := delegates[fromDelegate := previousDelegate];
      delegates := delegates[toDelegate := newDelegate];
    }

    method HandleDelegateVotesChanged(id: Address, previousBalance: nat, newBalance: nat)
      modifies this
      ensures Store() == Ledger.DelegateVotesChanged(old(Store()), id, previousBalance, newBalance)
    {
      var g := governance;
      var delegate := GetOrCreateDelegate(id);
      var votesDifference := newBalance - previousBalance;

      delegate := delegate.(delegatedVotes := newBalance);
      delegates := delegates[id := delegate];

      if previousBalance == 0 && newBalance > 0 {
        g := g.(currentDelegates := g.currentDelegates + 1);
      }
      if newBalance == 0 {
        g := g.(currentDelegates := g.currentDelegates - 1);
      }
      g := g.(delegatedVotes := g.delegatedVotes + votesDifference);
      governance := g;
    }

    method HandleTransfer(from: Address, to: Address, tokenId: NounId)
      modifies this
      ensures Store() == Ledger.Transfer(old(Store()), from, to, tokenId)
    {
      var fromHolder := GetOrCreateAccount(from);
      var toHolder := GetOrCreateAccount(to);
      assert fromHolder == accounts[from];
      var g := governance;
      transferredNounId := tokenId;
      if from == ZERO {
        g := g.(totalTokenHolders := g.totalTokenHolders + 1);
        governance := g;
      } else {
        g := DebitSender(fromHolder, from, g);
      }
      if to == ZERO {
        g := g.(totalTokenHolders := g.totalTokenHolders - 1);
        governance := g;
      }
      assert (Store(), g) == Ledger.BeforeCredit(old(Store()), from, to, tokenId);
      CreditReceiver(toHolder, to, g);
    }

    /** The branch for a sender other than the zero address; `g` is the handler's governance copy. */
    method DebitSender(loaded: Account, from: Address, loadedGovernance: Governance) returns (g: Governance)
      requires from in accounts && loaded == accounts[from]
      modifies this`accounts, this`delegates, this`governance
      ensures (Store(), g) == Ledger.Debit(old(Store()), loadedGovernance, from, transferredNounId)
    {
      g := loadedGovernance;
      var fromHolder := loaded;
      var fromHolderPreviousBalance := fromHolder.tokenBalance;
      fromHolder := fromHolder.(tokenBalance := fromHolder.tokenBalance - 1);
      var fromHolderNouns := fromHolder.nouns;
      fromHolder := fromHolder.(nouns := Without(fromHolderNouns, [transferredNounId]));

      if fromHolder.delegate.Some? {
        var fromHolderDelegate := GetOrCreateDelegate(fromHolder.delegate.value);
        var fromHolderNounsRepresented := fromHolderDelegate.nounsRepresented;
        fromHolderDelegate := fromHolderDelegate.(nounsRepresented := Without(fromHolderNounsRepresented,
            [transferredNounId]));
        delegates := delegates[fromHolder.delegate.value := fromHolderDelegate];
      }

      if fromHolder.tokenBalance == 0 && fromHolderPreviousBalance > 0 {
        g := g.(currentTokenHolders := g.currentTokenHolders - 1);
        governance := g;
        fromHolder := fromHolder.(delegate := None);
      } else if fromHolder.tokenBalance > 0 && fromHolderPreviousBalance == 0 {
        assert false; // the source's branch for this case is dead: the balance just fell by one
      }
      accounts := accounts[from := fromHolder];
    }

    /** The receiving half; `loaded` is the copy taken before the sender was saved. */
    method CreditReceiver(loaded: Account, to: Address, loadedGovernance: Governance)
      modifies this`accounts, this`delegates, this`governance, this`owners
      ensures Store() == Ledger.Credit(old(Store()), loadedGovernance, loaded, to, transferredNounId)
    {
      var g, toHolder := loadedGovernance, loaded;
      var toHolderDelegateId := if toHolder.delegate.Some? then toHolder.delegate.value else to;
      var toHolderDelegate := GetOrCreateDelegate(toHolderDelegateId);
      var toHolderNounsRepresented := toHolderDelegate.nounsRepresented;
      toHolderNounsRepresented := toHolderNounsRepresented + [transferredNounId];
      toHolderDelegate := toHolderDelegate.(nounsRepresented := toHolderNounsRepresented);
      delegates := delegates[toHolderDelegateId := toHolderDelegate];
      assert Store() == Ledger.List(old(Store()), toHolderDelegateId, transferredNounId);

      var toHolderPreviousBalance := toHolder.tokenBalance;
      toHolder := toHolder.(tokenBalance := toHolder.tokenBalance + 1, totalTokensHeld := toHolder.totalTokensHeld + 1);
      var toHolderNouns := toHolder.nouns;
      toHolder := toHolder.(nouns := toHolderNouns + [transferredNounId]);

      if toHolder.tokenBalance == 0 && toHolderPreviousBalance > 0 {
        assert false; // dead as well: the balance just rose by one
      } else if toHolder.tokenBalance > 0 && toHolderPreviousBalance == 0 {
        g := g.(currentTokenHolders := g.currentTokenHolders + 1);
        governance := g;
        toHolder := toHolder.(delegate := Some(to));
      }
      owners := owners[transferredNounId := to];
      accounts := accounts[to := toHolder];
    }

    // ---------- nouns-dao.ts ----------

    method HandleProposalCreated(id: ProposalId, proposer: Address, block: nat, startBlock: nat, endBlock: nat,
                                 threshold: nat, quorumVotes: nat)
      modifies this
      ensures Store() == Dao.ProposalCreated(old(Store()), id, proposer, block, startBlock, endBlock, threshold,
                quorumVotes)
    {
      var eta := None;
      if id in proposals {
        eta := proposals[id].executionETA;
      } else {
        var g := governance;
        g := g.(proposals := g.proposals + 1);
        governance := g;
      }
      var delegate := GetOrCreateDelegate(proposer);
      var status := if block >= startBlock then Active else Pending;
      var g := governance;
      var proposal := Proposal(proposer, block, startBlock, endBlock, threshold, quorumVotes, 0, 0, 0, status, eta,
                               g.totalTokenHolders, params.minBPS, params.maxBPS, params.coefficient);
      proposals := proposals[id := proposal];
    }

    method SetStatus(id: ProposalId, status: Status) returns (ok: bool)
      modifies this
      ensures ok == Dao.SetStatus(old(Store()), id, status).Some?
      ensures Store() == if ok then Dao.SetStatus(old(Store()), id, status).value else old(Store())
    {
      if id !in proposals { return false; }
      var proposal := proposals[id];
      proposal := proposal.(status := status);
      proposals := proposals[id := proposal];
      return true;
    }

    method HandleProposalCanceled(id: ProposalId) returns (ok: bool)
      modifies this
      ensures ok == Dao.SetStatus(old(Store()), id, Cancelled).Some?
      ensures Store() == if ok then Dao.SetStatus(old(Store()), id, Cancelled).value else old(Store())
    {
      ok := SetStatus(id, Cancelled);
    }

    method HandleProposalVetoed(id: ProposalId) returns (ok: bool)
      modifies this
      ensures ok == Dao.SetStatus(old(Store()), id, Vetoed).Some?
      ensures Store() == if ok then Dao.SetStatus(old(Store()), id, Vetoed).value else old(Store())
    {
      ok := SetStatus(id, Vetoed);
    }

    method HandleProposalQueued(id: ProposalId, eta: nat) returns (ok: bool)
      modifies this
      ensures ok == Dao.ProposalQueued(old(Store()), id, eta).Some?
      ensures Store() == if ok then Dao.ProposalQueued(old(Store()), id, eta).value else old(Store())
    {
      var g := governance;
      if id !in proposals { return false; }
      var proposal := proposals[id];
      proposal := proposal.(status := Queued);
      proposal := proposal.(executionETA := Some(eta));
      proposals := proposals[id := proposal];
      g := g.(proposalsQueued := g.proposalsQueued + 1);
      governance := g;
      return true;
    }

    method HandleProposalExecuted(id: ProposalId) returns (ok: bool)
      modifies this
      ensures ok == Dao.ProposalExecuted(old(Store()), id).Some?
      ensures Store() == if ok then Dao.ProposalExecuted(old(Store()), id).value else old(Store())
    {
      var g := governance;
      if id !in proposals { return false; }
      var proposal := proposals[id];
      proposal := proposal.(status := Executed);
      proposal := proposal.(executionETA := None);
      proposals := proposals[id := proposal];
      g := g.(proposalsQueued := g.proposalsQueued - 1);
      governance := g;
      return true;
    }

    /** An aborted handler leaves the store as it found it. */
    method HandleVoteCast(voterId: Address, id: ProposalId, support: nat, weight: nat, block: nat) returns (ok: bool)
      modifies this
      ensures ok == Dao.VoteCast(old(Store()), voterId, id, support, weight, block).Some?
      ensures Store() == if ok then Dao.VoteCast(old(Store()), voterId, id, support, weight, block).value
                else old(Store())
    {
      if id !in proposals { return false; }
      var proposal := proposals[id];
      if support == 0 {
        proposal := proposal.(againstVotes := proposal.againstVotes + weight);
      } else if support == 1 {
        proposal := proposal.(forVotes := proposal.forVotes + weight);
      } else if support == 2 {
        proposal := proposal.(abstainVotes := proposal.abstainVotes + weight);
      }
      assert proposal == Dao.Counted(proposals[id], support, weight);
      var usingDynamicQuorum := params.startBlock.Some? && params.startBlock.value < proposal.createdBlock;
      if usingDynamicQuorum {
        var quorum := Quorum.DynamicQuorumVotes(proposal.againstVotes, proposal.totalSupply, proposal.minQuorumVotesBPS,
                                                proposal.maxQuorumVotesBPS, proposal.quorumCoefficient);
        if quorum.None? { return false; }
        proposal := proposal.(quorumVotes := quorum.value);
      }
      if proposal.status == Pending {
        proposal := proposal.(status := Active);
      }
      var voter := GetOrCreateDelegate(voterId);
      var vote := Vote(support, weight, voter.nounsRepresented, block);
      votes := votes[(voterId, id) := vote];
      proposals := proposals[id := proposal];
      return true;
    }

    method GetOrCreateDynamicQuorumParams(block: Option<nat>) returns (p: QuorumParams)
      modifies this`params
      ensures p == params
      ensures params == if block.Some? then Dao.StartedParams(old(params), block.value) else old(params)
    {
      p := params;
      if p.startBlock.None? && block.Some? {
        p := p.(startBlock := block);
        params := p;
      }
    }

    method HandleMinQuorumVotesBPSSet(bps: nat, block: nat)
      modifies this`params
      ensures Store() == Dao.MinQuorumSet(old(Store()), bps, block)
    {
      var p := GetOrCreateDynamicQuorumParams(Some(block));
      params := p.(minBPS := bps);
    }

    method HandleMaxQuorumVotesBPSSet(bps: nat, block: nat)
      modifies this`params
      ensures Store() == Dao.MaxQuorumSet(old(Store()), bps, block)
    {
      var p := GetOrCreateDynamicQuorumParams(Some(block));
      params := p.(maxBPS := bps);
    }

    method HandleQuorumCoefficientSet(coefficient: nat, block: nat)
      modifies this`params
      ensures Store() == Dao.CoefficientSet(old(Store()), coefficient, block)
    {
      var p := GetOrCreateDynamicQuorumParams(Some(block));
      params := p.(coefficient := coefficient);
    }
  }
}
