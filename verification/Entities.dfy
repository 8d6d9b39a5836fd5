/**
 * The subgraph's entities and its get-or-create helpers (packages/nouns-subgraph/src/utils/helpers.ts).
 * An entity is a value: loading takes a copy, saving writes the copy back.
 */
module Entities {
  import opened Wrappers

  type Address = string
  type NounId = nat
  type ProposalId = nat

  const ZERO: Address := "0x0000000000000000000000000000000000000000"

  datatype Account = Account(delegate: Option<Address>, tokenBalance: int, totalTokensHeld: int, nouns: seq<NounId>)

  datatype Delegate = Delegate(delegatedVotes: int, tokenHoldersRepresentedAmount: int, nounsRepresented: seq<NounId>)

  datatype Governance = Governance(
    proposals: int, totalTokenHolders: int, currentTokenHolders: int, currentDelegates: int,
    totalDelegates: int, delegatedVotes: int, proposalsQueued: int)

  datatype Status = Pending | Active | Cancelled | Vetoed | Queued | Executed

  datatype Proposal = Proposal(
    proposer: Address, createdBlock: nat, startBlock: nat, endBlock: nat, proposalThreshold: nat,
    quorumVotes: int, forVotes: int, againstVotes: int, abstainVotes: int, status: Status,
    executionETA: Option<nat>, totalSupply: int, minQuorumVotesBPS: nat, maxQuorumVotesBPS: nat,
    quorumCoefficient: nat)

  /** Keyed by voter and proposal; the source joins the two ids with a dash. */
  datatype Vote = Vote(support: nat, votes: nat, nouns: seq<NounId>, block: nat)

  datatype QuorumParams = QuorumParams(minBPS: nat, maxBPS: nat, coefficient: nat, startBlock: Option<nat>)

  /**
   * The store. The governance and parameter entities exist once; before their first save they read
   * as the zeros their helpers create them with.
   */
  datatype State = State(
    accounts: map<Address, Account>,
    delegates: map<Address, Delegate>,
    owners: map<NounId, Address>,
    governance: Governance,
    proposals: map<ProposalId, Proposal>,
    votes: map<(Address, ProposalId), Vote>,
    params: QuorumParams)

  const NO_ACCOUNT := Account(None, 0, 0, [])
  const NO_DELEGATE := Delegate(0, 0, [])
  const EMPTY := State(map[], map[], map[], Governance(0, 0, 0, 0, 0, 0, 0), map[], map[], QuorumParams(0, 0, 0, None))

  /** `getOrCreateAccount`. */
  function EnsureAccount(s: State, id: Address): State {
    if id in s.accounts then s else s.(accounts := s.accounts[id := NO_ACCOUNT])
  }

  /** `getOrCreateDelegate`: a new delegate other than the zero address bumps the stored counter. */
  function EnsureDelegate(s: State, id: Address): State {
    if id in s.delegates then s
    else
      s.(delegates := s.delegates[id := NO_DELEGATE],
         governance := if id != ZERO then s.governance.(totalDelegates := s.governance.totalDelegates + 1)
             else s.governance)
  }

  /** `list.filter(n => !gone.includes(n))`. */
  function Without(list: seq<NounId>, gone: seq<NounId>): seq<NounId> {
    if list == [] then []
    else if list[0] in gone then Without(list[1..], gone)
    else [list[0]] + Without(list[1..], gone)
  }

  lemma {:induction false} WithoutKeeps(list: seq<NounId>, gone: seq<NounId>)
    ensures forall n :: n in Without(list, gone) <==> n in list && n !in gone
    ensures Distinct(list) ==> Distinct(Without(list, gone))
  {
    if list != [] {
      WithoutKeeps(list[1..], gone);
      assert list == [list[0]] + list[1..];
      if Distinct(list) {
        assert list[0] !in list[1..];
      }
    }
  }

  lemma {:induction false} WithoutOne(list: seq<NounId>, id: NounId)
    requires Distinct(list)
    ensures |Without(list, [id])| == if id in list then |list| - 1 else |list|
  {
    if list != [] {
      WithoutOne(list[1..], id);
      assert list == [list[0]] + list[1..];
      assert list[0] !in list[1..];
    }
  }

  lemma DistinctConcat(a: seq<NounId>, b: seq<NounId>)
    requires Distinct(a) && Distinct(b) && forall n :: n in a ==> n !in b
    ensures Distinct(a + b)
  {
    var c := a + b;
    forall i, j | 0 <= i < j < |c| ensures c[i] != c[j] {
      if i < |a| <= j { assert a[i] in a && b[j - |a|] in b; }
    }
  }
}
