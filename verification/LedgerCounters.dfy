/** The global counters of the governance entity against the entities they count. */
module LedgerCounters {
  import opened Wrappers
  import opened Entities
  import opened Ledger
  import opened LedgerInvariants
  import opened MapSums

  ghost function Holders(accounts: map<Address, Account>): set<Address> {
    set a | a in accounts && accounts[a].tokenBalance > 0
  }

  ghost function Outstanding(owners: map<NounId, Address>): set<NounId> {
    set n | n in owners && owners[n] != ZERO
  }

  ghost function Voters(delegates: map<Address, Delegate>): set<Address> {
    set d | d in delegates && delegates[d].delegatedVotes > 0
  }

  ghost function NonZero(delegates: map<Address, Delegate>): set<Address> {
    set d | d in delegates && d != ZERO
  }

  ghost function VoteMap(delegates: map<Address, Delegate>): map<Address, int> {
    map d | d in delegates :: delegates[d].delegatedVotes
  }

  /** `totalDelegates` only bounds the number of delegates from below. */
  ghost predicate Counters(s: State) {
    var g := s.governance;
    && g.currentTokenHolders == |Holders(s.accounts)|
    && g.totalTokenHolders == |Outstanding(s.owners)|
    && g.delegatedVotes == Sum(VoteMap(s.delegates))
    && g.currentDelegates == |Voters(s.delegates)|
    && (forall d :: d in s.delegates ==> s.delegates[d].delegatedVotes >= 0)
    && g.totalDelegates <= |NonZero(s.delegates)|
  }

  /** Everything the ERC-721 handlers maintain. */
  ghost predicate LedgerInv(s: State) {
    Partition(s) && Counters(s)
  }

  // ---------- steps that do not touch votes ----------

  /** The same votes as far as every vote counter can see; delegates may have been added. */
  ghost predicate SameVotes(before: map<Address, Delegate>, after: map<Address, Delegate>) {
    && before.Keys <= after.Keys
    && (forall d :: d in after ==> after[d].delegatedVotes == if d in before then before[d].delegatedVotes else 0)
    && Sum(VoteMap(after)) == Sum(VoteMap(before))
  }

  lemma SameVotesCount(before: map<Address, Delegate>, after: map<Address, Delegate>)
    requires SameVotes(before, after)
    ensures Voters(after) == Voters(before)
    ensures |NonZero(before)| <= |NonZero(after)|
  {
    assert NonZero(before) <= NonZero(after);
    SubsetSize(NonZero(before), NonZero(after));
  }

  lemma SubsetSize<T>(a: set<T>, b: set<T>)
    requires a <= b
    ensures |a| <= |b|
  {
    assert b == a + (b - a);
  }

  /** The same count of represented holders in every delegate; delegates may have been added. */
  ghost predicate SameRepresented(before: map<Address, Delegate>, after: map<Address, Delegate>) {
    && before.Keys <= after.Keys
    && forall d :: d in after ==>
         after[d].tokenHoldersRepresentedAmount == if d in before then before[d].tokenHoldersRepresentedAmount else 0
  }

  lemma SameRepresentedChain(a: map<Address, Delegate>, b: map<Address, Delegate>, c: map<Address, Delegate>)
    requires SameRepresented(a, b) && SameRepresented(b, c)
    ensures SameRepresented(a, c)
  {
  }

  lemma EnsureDelegateVotes(s: State, d: Address)
    ensures SameVotes(s.delegates, EnsureDelegate(s, d).delegates)
    ensures SameRepresented(s.delegates, EnsureDelegate(s, d).delegates)
  {
    if d !in s.delegates {
      var after := EnsureDelegate(s, d).delegates;
      assert VoteMap(after) == VoteMap(s.delegates)[d := 0];
      SumUpdate(VoteMap(s.delegates), d, 0);
    }
  }

  lemma RelistVotes(delegates: map<Address, Delegate>, d: Address, entity: Delegate)
    requires d in delegates && entity.delegatedVotes == delegates[d].delegatedVotes
    ensures SameVotes(delegates, delegates[d := entity])
    ensures entity.tokenHoldersRepresentedAmount == delegates[d].tokenHoldersRepresentedAmount ==>
              SameRepresented(delegates, delegates[d := entity])
  {
    assert VoteMap(delegates[d := entity]) == VoteMap(delegates);
  }

  lemma SameVotesChain(a: map<Address, Delegate>, b: map<Address, Delegate>, c: map<Address, Delegate>)
    requires SameVotes(a, b) && SameVotes(b, c)
    ensures SameVotes(a, c)
  {
  }

  lemma EnsureCount(s: State, d: Address)
    requires s.governance.totalDelegates <= |NonZero(s.delegates)|
    ensures EnsureDelegate(s, d).governance.totalDelegates <= |NonZero(EnsureDelegate(s, d).delegates)|
  {
    if d !in s.delegates && d != ZERO {
      assert NonZero(EnsureDelegate(s, d).delegates) == NonZero(s.delegates) + {d};
    } else {
      assert NonZero(EnsureDelegate(s, d).delegates) == NonZero(s.delegates);
    }
  }

  // ---------- DelegateChanged ----------

  /** Entities may have been created; no vote, balance or noun has moved. */
  ghost predicate Extends(s: State, t: State) {
    && SameVotes(s.delegates, t.delegates) && Holders(t.accounts) == Holders(s.accounts) && t.owners == s.owners
    && t.governance == s.governance.(totalDelegates := t.governance.totalDelegates)
    && (s.governance.totalDelegates <= |NonZero(s.delegates)| ==> t.governance.totalDelegates <= |NonZero(t.delegates)|)
  }

  lemma EnsureDelegateExtends(s: State, d: Address)
    ensures Extends(s, EnsureDelegate(s, d))
  {
    EnsureDelegateVotes(s, d);
    if s.governance.totalDelegates <= |NonZero(s.delegates)| { EnsureCount(s, d); }
  }

  lemma ExtendsChain(a: State, b: State, c: State)
    requires Extends(a, b) && Extends(b, c)
    ensures Extends(a, c)
  {
    SameVotesChain(a.delegates, b.delegates, c.delegates);
  }

  lemma EnsureAccountExtends(s: State, a: Address)
    ensures Extends(s, EnsureAccount(s, a))
  {
    assert Holders(EnsureAccount(s, a).accounts) == Holders(s.accounts);
  }

  lemma LoadDelegatesExtends(s: State, delegator: Address, from: Address, to: Address)
    ensures Extends(s, LoadDelegates(s, delegator, from, to))
  {
    var sa := EnsureAccount(s, delegator);
    var sb := EnsureDelegate(sa, from);
    var sc := EnsureDelegate(sb, to);
    EnsureAccountExtends(s, delegator);
    EnsureDelegateExtends(sa, from);
    EnsureDelegateExtends(sb, to);
    assert Extends(s, sb) by { ExtendsChain(s, sa, sb); }
    assert Extends(s, sc) by { ExtendsChain(s, sb, sc); }
  }

  lemma ReassignExtends(t: State, delegator: Address, from: Address, to: Address)
    requires delegator in t.accounts && from in t.delegates && to in t.delegates
    ensures Extends(t, Reassign(t, delegator, from, to))
  {
    var s' := Reassign(t, delegator, from, to);
    assert VoteMap(s'.delegates) == VoteMap(t.delegates);
    assert NonZero(s'.delegates) == NonZero(t.delegates);
  }

  lemma DelegateChangedExtends(s: State, delegator: Address, from: Address, to: Address)
    ensures Extends(s, DelegateChanged(s, delegator, from, to))
  {
    var t := LoadDelegates(s, delegator, from, to);
    LoadDelegatesExtends(s, delegator, from, to);
    ReassignExtends(t, delegator, from, to);
    ExtendsChain(s, t, Reassign(t, delegator, from, to));
  }

  lemma DelegateChangedCounters(s: State, delegator: Address, from: Address, to: Address)
    requires Counters(s)
    ensures Counters(DelegateChanged(s, delegator, from, to))
  {
    var s' := DelegateChanged(s, delegator, from, to);
    DelegateChangedExtends(s, delegator, from, to);
    SameVotesCount(s.delegates, s'.delegates);
  }

  /** An event keeps the ledger's invariants exactly when it is a legal re-delegation. */
  lemma DelegateChangedIff(s: State, delegator: Address, from: Address, to: Address)
    requires LedgerInv(s)
    ensures LedgerInv(DelegateChanged(s, delegator, from, to)) <==> LegalDelegateChange(s, delegator, from, to)
  {
    DelegateChangedKeepsIff(s, delegator, from, to);
    DelegateChangedCounters(s, delegator, from, to);
  }

  // ---------- DelegateVotesChanged ----------

  lemma VotesChangedPartition(s: State, id: Address, previous: nat, next: nat)
    requires Partition(s)
    ensures Partition(DelegateVotesChanged(s, id, previous, next))
  {
    EnsureDelegatePartition(s, id);
    var s1, s' := EnsureDelegate(s, id), DelegateVotesChanged(s, id, previous, next);
    forall a | a in s'.accounts ensures HolderOk(s'.delegates, s'.accounts[a]) {
      assert HolderOk(s1.delegates, s1.accounts[a]);
    }
    forall d | d in s'.delegates ensures ListOk(s'.accounts, s'.owners, d, s'.delegates[d].nounsRepresented) {
      assert ListOk(s1.accounts, s1.owners, d, s1.delegates[d].nounsRepresented);
    }
  }

  lemma VotesChangedSum(delegates: map<Address, Delegate>, id: Address, entity: Delegate)
    requires id in delegates
    ensures Sum(VoteMap(delegates[id := entity])) == Sum(VoteMap(delegates))
              + entity.delegatedVotes - delegates[id].delegatedVotes
  {
    assert VoteMap(delegates[id := entity]) == VoteMap(delegates)[id := entity.delegatedVotes];
    SumUpdate(VoteMap(delegates), id, entity.delegatedVotes);
  }

  lemma VotesChangedCount(delegates: map<Address, Delegate>, id: Address, entity: Delegate)
    requires id in delegates
    ensures |Voters(delegates[id := entity])| == |Voters(delegates)|
            + (if entity.delegatedVotes > 0 then 1 else 0) - (if delegates[id].delegatedVotes > 0 then 1 else 0)
    ensures NonZero(delegates[id := entity]) == NonZero(delegates)
  {
    var rest := Voters(delegates) - {id};
    assert Voters(delegates) == if delegates[id].delegatedVotes > 0 then rest + {id} else rest;
    assert Voters(delegates[id := entity]) == if entity.delegatedVotes > 0 then rest + {id} else rest;
  }

  lemma VotesChangedTotals(s: State, id: Address, previous: nat, next: nat)
    ensures var s' := DelegateVotesChanged(s, id, previous, next);
            && Sum(VoteMap(s'.delegates)) == Sum(VoteMap(s.delegates)) + next - RecordedVotes(s, id)
            && |Voters(s'.delegates)| == |Voters(s.delegates)|
                + (if next > 0 then 1 else 0) - (if RecordedVotes(s, id) > 0 then 1 else 0)
            && |NonZero(s.delegates)| <= |NonZero(s'.delegates)|
  {
    var s1, s' := EnsureDelegate(s, id), DelegateVotesChanged(s, id, previous, next);
    EnsureDelegateVotes(s, id);
    SameVotesCount(s.delegates, s1.delegates);
    var entity := s1.delegates[id].(delegatedVotes := next);
    assert s'.delegates == s1.delegates[id := entity];
    VotesChangedSum(s1.delegates, id, entity);
    VotesChangedCount(s1.delegates, id, entity);
  }

  lemma VotesChangedCounters(s: State, id: Address, previous: nat, next: nat)
    requires Counters(s)
    ensures Counters(DelegateVotesChanged(s, id, previous, next)) <==> LegalVotesChange(s, id, previous, next)
  {
    VotesChangedTotals(s, id, previous, next);
    var s' := DelegateVotesChanged(s, id, previous, next);
    assert forall d :: d in s'.delegates ==> s'.delegates[d].delegatedVotes >= 0;
    assert s'.accounts == s.accounts && s'.owners == s.owners;
    var up := if previous == 0 && next > 0 then 1 else 0;
    var down := if next == 0 then 1 else 0;
    assert s'.governance == s.governance.(
      currentDelegates := s.governance.currentDelegates + up - down,
      delegatedVotes := s.governance.delegatedVotes + (next - previous));
    assert RecordedVotes(s, id) >= 0;
  }

  /** The vote counters stay right exactly for events that continue from the recorded votes. */
  lemma DelegateVotesChangedIff(s: State, id: Address, previous: nat, next: nat)
    requires LedgerInv(s)
    ensures LedgerInv(DelegateVotesChanged(s, id, previous, next)) <==> LegalVotesChange(s, id, previous, next)
  {
    VotesChangedPartition(s, id, previous, next);
    VotesChangedCounters(s, id, previous, next);
  }

  // ---------- Transfer ----------

  function Balance(s: State, a: Address): int {
    if a in s.accounts then s.accounts[a].tokenBalance else 0
  }

  /** What a legal transfer does to the governance entity: `totalDelegates` never moves. */
  function GovernanceAfter(s: State, from: Address, to: Address): Governance {
    s.governance.(
      totalTokenHolders := s.governance.totalTokenHolders
          + (if from == ZERO then 1 else 0) - (if to == ZERO then 1 else 0),
      currentTokenHolders := s.governance.currentTokenHolders
        - (if from != ZERO && Balance(s, from) == 1 then 1 else 0) + (if Balance(s, to) == 0 then 1 else 0))
  }

  lemma DebitGovernance(s1: State, from: Address, id: NounId)
    requires Partition(s1) && id in s1.owners && s1.owners[id] == from
    ensures var (s2, g2) := Debit(s1, s1.governance, from, id);
            && g2 == s1.governance.(currentTokenHolders :=
                 s1.governance.currentTokenHolders - if s1.accounts[from].tokenBalance == 1 then 1 else 0)
            && s2.governance == g2
  {
    DebitShape(s1, s1.governance, from, id);
    assert AccountOk(s1.owners, from, s1.accounts[from]);
  }

  lemma CreditGovernance(s: State, g: Governance, to: Address, id: NounId)
    requires Partition(InFlight(s, id)) && to in s.accounts && s.governance == g
    ensures Credit(s, g, s.accounts[to], to, id).governance
            == g.(currentTokenHolders := g.currentTokenHolders + if s.accounts[to].tokenBalance == 0 then 1 else 0)
  {
    var u := InFlight(s, id);
    assert AccountOk(u.owners, to, s.accounts[to]) && HolderOk(u.delegates, s.accounts[to]);
  }

  /** Only empty accounts have been created. */
  ghost predicate Loads(s: State, t: State) {
    && t.governance == s.governance && t.owners == s.owners && t.delegates == s.delegates
    && (forall a :: Balance(t, a) == Balance(s, a)) && Holders(t.accounts) == Holders(s.accounts)
  }

  lemma EnsureAccountLoads(s: State, a: Address)
    ensures Loads(s, EnsureAccount(s, a))
  {
    assert Holders(EnsureAccount(s, a).accounts) == Holders(s.accounts);
  }

  lemma LoadBothFacts(s: State, from: Address, to: Address)
    requires Partition(s)
    ensures Loads(s, LoadBoth(s, from, to)) && Partition(LoadBoth(s, from, to))
  {
    EnsureAccountLoads(s, from);
    EnsureAccountLoads(EnsureAccount(s, from), to);
    LoadBothPartition(s, from, to);
  }

  lemma BeforeCreditGovernance(s: State, from: Address, to: Address, id: NounId)
    requires Partition(s) && LegalTransfer(s, from, to, id)
    ensures var (s3, g3) := BeforeCredit(s, from, to, id);
            && s3.governance == g3
            && g3 == GovernanceAfter(s, from, to).(currentTokenHolders :=
                 s.governance.currentTokenHolders - if from != ZERO && Balance(s, from) == 1 then 1 else 0)
  {
    var s1 := LoadBoth(s, from, to);
    LoadBothFacts(s, from, to);
    var (s2, g2) := if from == ZERO then CountMint(s1) else Debit(s1, s1.governance, from, id);
    assert s2.governance == g2 == s.governance.(
      totalTokenHolders := s.governance.totalTokenHolders + (if from == ZERO then 1 else 0),
      currentTokenHolders := s.governance.currentTokenHolders - if from != ZERO && Balance(s, from) == 1 then 1 else 0)
    by { if from != ZERO { DebitGovernance(s1, from, id); } }
    assert BeforeCredit(s, from, to, id) == CountBurn(s2, g2, to);
  }

  lemma TransferGovernance(s: State, from: Address, to: Address, id: NounId)
    requires Partition(s) && LegalTransfer(s, from, to, id)
    ensures Transfer(s, from, to, id).governance == GovernanceAfter(s, from, to)
  {
    var (s3, g3) := BeforeCredit(s, from, to, id);
    BeforeCreditGovernance(s, from, to, id);
    BeforeCreditStage(s, from, to, id);
    CreditGovernance(s3, g3, to, id);
  }

  /** The accounts once the sender's half is done. */
  function Sent(s: State, from: Address, to: Address, id: NounId): map<Address, Account> {
    var s1 := LoadBoth(s, from, to);
    if from == ZERO then s1.accounts else s1.accounts[from := Lighter(s1.accounts[from], id)]
  }

  lemma DebitMaps(s1: State, from: Address, id: NounId)
    requires Partition(s1) && id in s1.owners && s1.owners[id] == from
    ensures var s2 := Debit(s1, s1.governance, from, id).0;
            && s2.accounts == s1.accounts[from := Lighter(s1.accounts[from], id)] && s2.owners == s1.owners
            && SameVotes(s1.delegates, s2.delegates) && SameRepresented(s1.delegates, s2.delegates)
  {
    DebitShape(s1, s1.governance, from, id);
    var d := s1.accounts[from].delegate.value;
    RelistVotes(s1.delegates, d, Unlisted(s1.delegates[d], id));
  }

  /** The sender's half, on the loaded accounts. */
  lemma FirstHalfMaps(s1: State, from: Address, id: NounId)
    requires Partition(s1) && if from == ZERO then id !in s1.owners else id in s1.owners && s1.owners[id] == from
    ensures from != ZERO ==> from in s1.accounts
    ensures var s2 := if from == ZERO then CountMint(s1).0 else Debit(s1, s1.governance, from, id).0;
            && s2.accounts == (if from == ZERO then s1.accounts
                else s1.accounts[from := Lighter(s1.accounts[from], id)])
            && s2.owners == s1.owners && SameVotes(s1.delegates, s2.delegates)
                && SameRepresented(s1.delegates, s2.delegates)
  {
    if from != ZERO { DebitMaps(s1, from, id); }
  }

  lemma BeforeCreditMaps(s: State, from: Address, to: Address, id: NounId)
    requires Partition(s) && LegalTransfer(s, from, to, id)
    ensures var s3 := BeforeCredit(s, from, to, id).0;
            && s3.accounts == Sent(s, from, to, id) && s3.owners == s.owners
            && SameVotes(s.delegates, s3.delegates) && SameRepresented(s.delegates, s3.delegates)
  {
    LoadBothFacts(s, from, to);
    FirstHalfMaps(LoadBoth(s, from, to), from, id);
  }

  lemma CreditVotes(s: State, g: Governance, to: Address, id: NounId)
    requires Partition(InFlight(s, id)) && to in s.accounts
    ensures SameVotes(s.delegates, Credit(s, g, s.accounts[to], to, id).delegates)
    ensures SameRepresented(s.delegates, Credit(s, g, s.accounts[to], to, id).delegates)
  {
    var u := InFlight(s, id);
    assert AccountOk(u.owners, to, s.accounts[to]);
    CreditShape(s, g, to, id);
    var d := ReceivingDelegate(s.accounts[to], to);
    EnsureDelegateVotes(s, d);
    var v := EnsureDelegate(s, d).delegates;
    RelistVotes(v, d, v[d].(nounsRepresented := v[d].nounsRepresented + [id]));
    SameVotesChain(s.delegates, v, Credit(s, g, s.accounts[to], to, id).delegates);
    SameRepresentedChain(s.delegates, v, Credit(s, g, s.accounts[to], to, id).delegates);
  }

  lemma TransferMaps(s: State, from: Address, to: Address, id: NounId)
    requires Partition(s) && LegalTransfer(s, from, to, id)
    ensures var s' := Transfer(s, from, to, id);
            && s'.accounts == Sent(s, from, to, id)[to := Heavier(LoadBoth(s, from, to).accounts[to], to, id)]
            && s'.owners == s.owners[id := to]
            && SameVotes(s.delegates, s'.delegates) && SameRepresented(s.delegates, s'.delegates)
  {
    var (s3, g3) := BeforeCredit(s, from, to, id);
    BeforeCreditMaps(s, from, to, id);
    BeforeCreditStage(s, from, to, id);
    assert AccountOk(InFlight(s3, id).owners, to, s3.accounts[to]);
    CreditShape(s3, g3, to, id);
    CreditVotes(s3, g3, to, id);
  }

  /** One account's balance changes by one. */
  lemma HoldersUpdate(accounts: map<Address, Account>, a: Address, account: Account)
    requires a in accounts
    ensures |Holders(accounts[a := account])| == |Holders(accounts)|
            + (if account.tokenBalance > 0 then 1 else 0) - (if accounts[a].tokenBalance > 0 then 1 else 0)
  {
    var rest := Holders(accounts) - {a};
    assert Holders(accounts) == if accounts[a].tokenBalance > 0 then rest + {a} else rest;
    assert Holders(accounts[a := account]) == if account.tokenBalance > 0 then rest + {a} else rest;
  }

  lemma TransferHolders(s: State, from: Address, to: Address, id: NounId)
    requires Partition(s) && LegalTransfer(s, from, to, id)
    ensures |Holders(Transfer(s, from, to, id).accounts)|
            == |Holders(s.accounts)| - (if from != ZERO && Balance(s, from) == 1 then 1 else 0)
                + (if Balance(s, to) == 0 then 1 else 0)
  {
    var s1, sent := LoadBoth(s, from, to), Sent(s, from, to, id);
    LoadBothFacts(s, from, to);
    var payer, receiver := s1.accounts[from], s1.accounts[to];
    assert AccountOk(s1.owners, to, receiver) && AccountOk(s1.owners, from, payer);
    if from != ZERO {
      assert id in payer.nouns;
      HoldersUpdate(s1.accounts, from, Lighter(payer, id));
    }
    assert to in sent && sent[to].tokenBalance == receiver.tokenBalance;
    HoldersUpdate(sent, to, Heavier(receiver, to, id));
    TransferMaps(s, from, to, id);
  }

  lemma TransferOutstanding(owners: map<NounId, Address>, from: Address, to: Address, id: NounId)
    requires if from == ZERO then id !in owners else id in owners && owners[id] == from
    ensures |Outstanding(owners[id := to])| == |Outstanding(owners)|
              + (if from == ZERO then 1 else 0) - (if to == ZERO then 1 else 0)
  {
    var rest := Outstanding(owners) - {id};
    assert Outstanding(owners) == if from == ZERO then rest else rest + {id};
    assert Outstanding(owners[id := to]) == if to == ZERO then rest else rest + {id};
  }

  lemma TransferKeepsCounters(s: State, from: Address, to: Address, id: NounId)
    requires LedgerInv(s) && LegalTransfer(s, from, to, id)
    ensures Counters(Transfer(s, from, to, id))
    ensures Gap(Transfer(s, from, to, id)) ==
              Gap(s) + if Balance(s, to) == 0 && to !in s.delegates && to != ZERO then 1 else 0
  {
    TransferGap(s, from, to, id);
    TransferGovernance(s, from, to, id);
    TransferMaps(s, from, to, id);
    TransferHolders(s, from, to, id);
    TransferOutstanding(s.owners, from, to, id);
    SameVotesCount(s.delegates, Transfer(s, from, to, id).delegates);
  }

  // ---------- illegal transfers break the ledger ----------

  lemma DebitFrame(s: State, g: Governance, from: Address, id: NounId)
    requires from in s.accounts
    ensures var (t, g') := Debit(s, g, from, id);
            && t.owners == s.owners && from in t.accounts && t.accounts == s.accounts[from := t.accounts[from]]
            && t.accounts[from].tokenBalance == s.accounts[from].tokenBalance - 1
            && t.accounts[from].nouns == Without(s.accounts[from].nouns, [id])
            && g'.totalTokenHolders == g.totalTokenHolders
            && (t.governance.totalTokenHolders == s.governance.totalTokenHolders || t.governance == g')
  {
  }

  lemma SaveReceiverFrame(s: State, g: Governance, holder: Account, to: Address, id: NounId)
    ensures var t := SaveReceiver(s, g, holder, to, id);
            && t.owners == s.owners[id := to] && to in t.accounts && t.accounts == s.accounts[to := t.accounts[to]]
            && t.accounts[to].nouns == holder.nouns + [id]
            && (t.governance.totalTokenHolders == s.governance.totalTokenHolders
                || t.governance.totalTokenHolders == g.totalTokenHolders)
  {
  }

  lemma CreditFrame(s: State, g: Governance, holder: Account, to: Address, id: NounId)
    ensures var t := Credit(s, g, holder, to, id);
            && t.owners == s.owners[id := to] && to in t.accounts && t.accounts == s.accounts[to := t.accounts[to]]
            && t.accounts[to].nouns == holder.nouns + [id]
            && (t.governance.totalTokenHolders == s.governance.totalTokenHolders
                || t.governance.totalTokenHolders == g.totalTokenHolders)
  {
    var listed := List(s, if holder.delegate.Some? then holder.delegate.value else to, id);
    SaveReceiverFrame(listed, g, holder, to, id);
  }

  lemma BeforeCreditFrame(s: State, from: Address, to: Address, id: NounId)
    ensures var (s1, (t, g)) := (LoadBoth(s, from, to), BeforeCredit(s, from, to, id));
            && t.owners == s.owners && from in t.accounts
            && t.accounts == (if from == ZERO then s1.accounts else s1.accounts[from := t.accounts[from]])
            && (from != ZERO ==> t.accounts[from].tokenBalance == s1.accounts[from].tokenBalance - 1
                                 && t.accounts[from].nouns == Without(s1.accounts[from].nouns, [id]))
            && (from != ZERO && to != ZERO ==>
                  g.totalTokenHolders == s.governance.totalTokenHolders == t.governance.totalTokenHolders)
  {
    var s1 := LoadBoth(s, from, to);
    assert s1.owners == s.owners && s1.governance == s.governance;
    if from != ZERO { DebitFrame(s1, s1.governance, from, id); }
    var (s2, g2) := if from == ZERO then CountMint(s1) else Debit(s1, s1.governance, from, id);
    assert BeforeCredit(s, from, to, id) == CountBurn(s2, g2, to);
  }

  lemma TransferFrame(s: State, from: Address, to: Address, id: NounId)
    ensures var (s1, s3, s') := (LoadBoth(s, from, to), BeforeCredit(s, from, to, id).0, Transfer(s, from, to, id));
            && s'.owners == s.owners[id := to] && to in s'.accounts && s'.accounts == s3.accounts[to := s'.accounts[to]]
            && s'.accounts[to].nouns == s1.accounts[to].nouns + [id]
            && (from != ZERO && to != ZERO ==> s'.governance.totalTokenHolders == s.governance.totalTokenHolders)
  {
    var (s3, g3) := BeforeCredit(s, from, to, id);
    BeforeCreditFrame(s, from, to, id);
    CreditFrame(s3, g3, LoadBoth(s, from, to).accounts[to], to, id);
  }

  /** A mint or a self-transfer leaves every account but the receiver's alone. */
  lemma TransferOthers(s: State, from: Address, to: Address, id: NounId, a: Address)
    requires (from == ZERO || from == to) && a in s.accounts && a != to
    ensures var s' := Transfer(s, from, to, id); a in s'.accounts && s'.accounts[a] == s.accounts[a]
  {
    BeforeCreditFrame(s, from, to, id);
    TransferFrame(s, from, to, id);
    var s1, s3 := LoadBoth(s, from, to), BeforeCredit(s, from, to, id).0;
    assert a in s1.accounts && s1.accounts[a] == s.accounts[a];
    assert a in s3.accounts && s3.accounts[a] == s1.accounts[a];
  }

  lemma TransferSends(s: State, from: Address, to: Address, id: NounId)
    requires from != to && from != ZERO
    ensures var (account, s') := (LoadBoth(s, from, to).accounts[from], Transfer(s, from, to, id));
            && from in s'.accounts && s'.accounts[from].tokenBalance == account.tokenBalance - 1
            && s'.accounts[from].nouns == Without(account.nouns, [id])
  {
    BeforeCreditFrame(s, from, to, id);
    TransferFrame(s, from, to, id);
  }

  /** A holder that sends a noun to itself lists it twice: the copy taken first is saved last. */
  lemma SelfTransferListsTwice(a: Address, id: NounId)
    ensures var s := Transfer(EMPTY, ZERO, a, id);
            && a in s.accounts && s.accounts[a].nouns == [id]
            && a in Transfer(s, a, a, id).accounts && Transfer(s, a, a, id).accounts[a].nouns == [id, id]
  {
    TransferFrame(EMPTY, ZERO, a, id);
    var s := Transfer(EMPTY, ZERO, a, id);
    assert LoadBoth(EMPTY, ZERO, a).accounts[a] == NO_ACCOUNT && [] + [id] == [id];
    TransferFrame(s, a, a, id);
    assert LoadBoth(s, a, a).accounts[a] == s.accounts[a] && [id] + [id] == [id, id];
  }

  /** A noun that arrives while someone else lists it, or twice at the same account. */
  lemma StaleOwner(s: State, from: Address, to: Address, id: NounId)
    requires Partition(s) && id in s.owners && (from == ZERO || from == to)
    ensures !Partition(Transfer(s, from, to, id))
  {
    var s' := Transfer(s, from, to, id);
    var b := s.owners[id];
    TransferFrame(s, from, to, id);
    assert AccountOk(s.owners, b, s.accounts[b]) && id in s.accounts[b].nouns;
    if b == to {
      RepeatedNoun(s.accounts[b].nouns, [id], id);
      assert !AccountOk(s'.owners, to, s'.accounts[to]);
    } else {
      TransferOthers(s, from, to, id, b);
      assert !AccountOk(s'.owners, b, s'.accounts[b]);
    }
  }

  lemma NotTheOwner(s: State, from: Address, to: Address, id: NounId)
    requires Partition(s) && from != ZERO && from != to && !(id in s.owners && s.owners[id] == from)
    ensures !Partition(Transfer(s, from, to, id))
  {
    var s', s1 := Transfer(s, from, to, id), LoadBoth(s, from, to);
    LoadBothPartition(s, from, to);
    TransferSends(s, from, to, id);
    var account := s1.accounts[from];
    assert AccountOk(s1.owners, from, account);
    WithoutOne(account.nouns, id);
    assert !AccountOk(s'.owners, from, s'.accounts[from]);
  }

  lemma OneMoreOutstanding(owners: map<NounId, Address>, id: NounId, to: Address)
    requires id !in owners && to != ZERO
    ensures |Outstanding(owners[id := to])| == |Outstanding(owners)| + 1
  {
    assert Outstanding(owners[id := to]) == Outstanding(owners) + {id};
  }

  lemma UncountedMint(s: State, from: Address, id: NounId)
    requires Counters(s) && from != ZERO && id !in s.owners
    ensures !Counters(Transfer(s, from, from, id))
  {
    TransferFrame(s, from, from, id);
    OneMoreOutstanding(s.owners, id, from);
  }

  /** Exactly the legal transfers keep the ledger's invariants. */
  lemma TransferIff(s: State, from: Address, to: Address, id: NounId)
    requires LedgerInv(s)
    ensures LedgerInv(Transfer(s, from, to, id)) <==> LegalTransfer(s, from, to, id)
  {
    if LegalTransfer(s, from, to, id) {
      TransferKeepsPartition(s, from, to, id);
      TransferKeepsCounters(s, from, to, id);
    } else if id in s.owners && (from == ZERO || from == to) {
      StaleOwner(s, from, to, id);
    } else if from == to {
      UncountedMint(s, from, id);
    } else {
      NotTheOwner(s, from, to, id);
    }
  }

  // ---------- how far the delegate counter falls behind ----------

  lemma BeforeCreditDelegates(s: State, from: Address, to: Address, id: NounId)
    requires Partition(s) && LegalTransfer(s, from, to, id)
    ensures BeforeCredit(s, from, to, id).0.delegates.Keys == s.delegates.Keys
  {
    var s1 := LoadBoth(s, from, to);
    LoadBothFacts(s, from, to);
    if from != ZERO { DebitShape(s1, s1.governance, from, id); }
    var (s2, g2) := if from == ZERO then CountMint(s1) else Debit(s1, s1.governance, from, id);
    assert s2.delegates.Keys == s.delegates.Keys;
    assert BeforeCredit(s, from, to, id) == CountBurn(s2, g2, to);
  }

  lemma CreditDelegates(s: State, g: Governance, to: Address, id: NounId)
    requires Partition(InFlight(s, id)) && to in s.accounts
    ensures Credit(s, g, s.accounts[to], to, id).delegates.Keys
            == s.delegates.Keys + if s.accounts[to].tokenBalance == 0 then {to} else {}
  {
    var u, account := InFlight(s, id), s.accounts[to];
    assert AccountOk(u.owners, to, account) && HolderOk(u.delegates, account);
    CreditShape(s, g, to, id);
    var d := ReceivingDelegate(account, to);
    assert EnsureDelegate(s, d).delegates.Keys == s.delegates.Keys + {d};
  }

  /**
   * The handler's stale copy overwrites the increment made while it ran: a transfer never moves
   * `totalDelegates`, although a receiver without nouns becomes a delegate.
   */
  lemma TransferMissesNewDelegate(s: State, from: Address, to: Address, id: NounId)
    requires Partition(s) && LegalTransfer(s, from, to, id)
    ensures var s' := Transfer(s, from, to, id);
            && s'.governance.totalDelegates == s.governance.totalDelegates
            && s'.delegates.Keys == s.delegates.Keys + if Balance(s, to) == 0 then {to} else {}
  {
    var (s3, g3) := BeforeCredit(s, from, to, id);
    TransferGovernance(s, from, to, id);
    BeforeCreditStage(s, from, to, id);
    BeforeCreditDelegates(s, from, to, id);
    LoadBothFacts(s, from, to);
    assert s3.accounts[to].tokenBalance == Balance(LoadBoth(s, from, to), to) == Balance(s, to);
    CreditDelegates(s3, g3, to, id);
  }

  /** How many delegates other than the zero address `totalDelegates` has missed. */
  ghost function Gap(s: State): int {
    |NonZero(s.delegates)| - s.governance.totalDelegates
  }

  lemma NonZeroAdds(before: map<Address, Delegate>, after: map<Address, Delegate>, d: Address)
    requires after.Keys == before.Keys + {d}
    ensures |NonZero(after)| == |NonZero(before)| + if d !in before && d != ZERO then 1 else 0
  {
    assert NonZero(after) == if d != ZERO then NonZero(before) + {d} else NonZero(before);
    if d in before && d != ZERO { assert d in NonZero(before) && NonZero(before) + {d} == NonZero(before); }
  }

  lemma SameKeysSameNonZero(before: map<Address, Delegate>, after: map<Address, Delegate>)
    requires after.Keys == before.Keys
    ensures NonZero(after) == NonZero(before)
  {
  }

  /** A transfer opens the gap exactly when it makes a delegate of a receiver that was none. */
  lemma TransferGap(s: State, from: Address, to: Address, id: NounId)
    requires Partition(s) && LegalTransfer(s, from, to, id)
    ensures Gap(Transfer(s, from, to, id)) ==
              Gap(s) + if Balance(s, to) == 0 && to !in s.delegates && to != ZERO then 1 else 0
  {
    var s' := Transfer(s, from, to, id);
    TransferMissesNewDelegate(s, from, to, id);
    if Balance(s, to) == 0 {
      NonZeroAdds(s.delegates, s'.delegates, to);
    } else {
      SameKeysSameNonZero(s.delegates, s'.delegates);
    }
  }

  /** A change of votes opens the gap exactly when it makes a delegate: the copy saved last is the stale one. */
  lemma VotesChangedGap(s: State, id: Address, previous: nat, next: nat)
    ensures Gap(DelegateVotesChanged(s, id, previous, next)) ==
              Gap(s) + if id !in s.delegates && id != ZERO then 1 else 0
  {
    var s' := DelegateVotesChanged(s, id, previous, next);
    assert s'.delegates.Keys == s.delegates.Keys + {id};
    NonZeroAdds(s.delegates, s'.delegates, id);
  }

  /** The helper itself counts right. */
  lemma EnsureDelegateGap(s: State, d: Address)
    ensures Gap(EnsureDelegate(s, d)) == Gap(s)
  {
    if d !in s.delegates { NonZeroAdds(s.delegates, EnsureDelegate(s, d).delegates, d); }
  }

  lemma SameDelegatesSameGap(s: State, t: State)
    requires t.delegates.Keys == s.delegates.Keys && t.governance.totalDelegates == s.governance.totalDelegates
    ensures Gap(t) == Gap(s)
  {
    SameKeysSameNonZero(s.delegates, t.delegates);
  }

  lemma ReassignGap(t: State, delegator: Address, from: Address, to: Address)
    requires delegator in t.accounts && from in t.delegates && to in t.delegates
    ensures Gap(Reassign(t, delegator, from, to)) == Gap(t)
  {
    SameDelegatesSameGap(t, Reassign(t, delegator, from, to));
  }

  lemma LoadDelegatesGap(s: State, delegator: Address, from: Address, to: Address)
    ensures Gap(LoadDelegates(s, delegator, from, to)) == Gap(s)
  {
    var sa := EnsureAccount(s, delegator);
    SameDelegatesSameGap(s, sa);
    EnsureDelegateGap(sa, from);
    EnsureDelegateGap(EnsureDelegate(sa, from), to);
  }

  /** A delegate change never opens the gap: it saves no governance copy of its own. */
  lemma DelegateChangedGap(s: State, delegator: Address, from: Address, to: Address)
    ensures Gap(DelegateChanged(s, delegator, from, to)) == Gap(s)
  {
    LoadDelegatesGap(s, delegator, from, to);
    ReassignGap(LoadDelegates(s, delegator, from, to), delegator, from, to);
  }

  /** After the first mint one delegate exists and `totalDelegates` still says none. */
  lemma FirstMintIsNotCounted(to: Address, id: NounId)
    requires to != ZERO
    ensures var s := Transfer(EMPTY, ZERO, to, id);
            s.governance.totalDelegates == 0 && NonZero(s.delegates) == {to}
  {
    var listed := List(CountMint(LoadBoth(EMPTY, ZERO, to)).0, to, id);
    assert listed.delegates.Keys == {to};
  }

  // ---------- represented holders ----------

  ghost function RepresentedMap(delegates: map<Address, Delegate>): map<Address, int> {
    map d | d in delegates :: delegates[d].tokenHoldersRepresentedAmount
  }

  ghost function Represented(s: State): int {
    Sum(RepresentedMap(s.delegates))
  }

  lemma {:induction false} SumOfExtension(before: map<Address, int>, after: map<Address, int>)
    requires before.Keys <= after.Keys
    requires forall d :: d in after ==> after[d] == if d in before then before[d] else 0
    ensures Sum(after) == Sum(before)
    decreases |after|
  {
    if after.Keys <= before.Keys {
      assert after == before;
    } else {
      var d :| d in after.Keys && d !in before.Keys;
      var fewer := after - {d};
      assert |fewer.Keys| < |after.Keys| by { assert after.Keys == fewer.Keys + {d}; }
      SumTakeOut(after, d);
      SumOfExtension(before, fewer);
    }
  }

  lemma SameRepresentedSum(s: State, t: State)
    requires SameRepresented(s.delegates, t.delegates)
    ensures Represented(t) == Represented(s)
  {
    SumOfExtension(RepresentedMap(s.delegates), RepresentedMap(t.delegates));
  }

  lemma ReassignRepresented(t: State, delegator: Address, from: Address, to: Address)
    requires delegator in t.accounts && from in t.delegates && to in t.delegates
    ensures Represented(Reassign(t, delegator, from, to)) == Represented(t) + if from == to then 1 else 0
  {
    ReassignAmounts(t, delegator, from, to);
    var before := RepresentedMap(t.delegates);
    var mid := before[from := before[from] - 1];
    SumUpdate(before, from, before[from] - 1);
    SumUpdate(mid, to, before[to] + 1);
  }

  /** Both amounts are worked out on the copies taken before. */
  lemma ReassignAmounts(t: State, delegator: Address, from: Address, to: Address)
    requires delegator in t.accounts && from in t.delegates && to in t.delegates
    ensures var before := RepresentedMap(t.delegates);
            RepresentedMap(Reassign(t, delegator, from, to).delegates) ==
            before[from := before[from] - 1][to := before[to] + 1]
  {
  }

  lemma EnsureDelegateRepresented(s: State, d: Address)
    ensures Represented(EnsureDelegate(s, d)) == Represented(s)
  {
    EnsureDelegateVotes(s, d);
    SameRepresentedSum(s, EnsureDelegate(s, d));
  }

  lemma LoadDelegatesRepresented(s: State, delegator: Address, from: Address, to: Address)
    ensures Represented(LoadDelegates(s, delegator, from, to)) == Represented(s)
  {
    var sa := EnsureAccount(s, delegator);
    assert sa.delegates == s.delegates;
    EnsureDelegateRepresented(sa, from);
    EnsureDelegateRepresented(EnsureDelegate(sa, from), to);
  }

  /** Each re-delegation takes one holder from one delegate and gives one to another. */
  lemma DelegateChangedRepresented(s: State, delegator: Address, from: Address, to: Address)
    ensures Represented(DelegateChanged(s, delegator, from, to)) == Represented(s) + if from == to then 1 else 0
  {
    LoadDelegatesRepresented(s, delegator, from, to);
    ReassignRepresented(LoadDelegates(s, delegator, from, to), delegator, from, to);
  }

  lemma TransferRepresented(s: State, from: Address, to: Address, id: NounId)
    requires Partition(s) && LegalTransfer(s, from, to, id)
    ensures Represented(Transfer(s, from, to, id)) == Represented(s)
  {
    TransferMaps(s, from, to, id);
    SameRepresentedSum(s, Transfer(s, from, to, id));
  }

  lemma VotesChangedRepresented(s: State, id: Address, previous: nat, next: nat)
    ensures Represented(DelegateVotesChanged(s, id, previous, next)) == Represented(s)
  {
    EnsureDelegateVotes(s, id);
    var s1, s' := EnsureDelegate(s, id), DelegateVotesChanged(s, id, previous, next);
    assert SameRepresented(s1.delegates, s'.delegates);
    SameRepresentedChain(s.delegates, s1.delegates, s'.delegates);
    SameRepresentedSum(s, s');
  }
}
