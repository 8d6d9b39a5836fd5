/** What every ERC-721 event keeps, and exactly which events keep it. */
module LedgerInvariants {
  import opened Wrappers
  import opened Entities
  import opened Ledger
  import opened MapSums

  /** An account's list holds exactly the nouns that record it as owner, once each. */
  ghost predicate AccountOk(owners: map<NounId, Address>, a: Address, account: Account) {
    && account.tokenBalance == |account.nouns| && Distinct(account.nouns)
    && (forall n :: n in account.nouns <==> n in owners && owners[n] == a)
  }

  /** Balances, lists and recorded owners say the same. */
  ghost predicate Ownership(s: State) {
    && (forall a :: a in s.accounts ==> AccountOk(s.owners, a, s.accounts[a]))
    && (forall n :: n in s.owners ==> s.owners[n] in s.accounts)
  }

  /** The delegate recorded for a noun's owner. */
  function DelegateOf(accounts: map<Address, Account>, owners: map<NounId, Address>, n: NounId): Option<Address> {
    if n in owners && owners[n] in accounts then accounts[owners[n]].delegate else None
  }

  /** A delegate's list holds exactly the nouns whose owners recorded it, once each. */
  ghost predicate ListOk(accounts: map<Address, Account>, owners: map<NounId, Address>, d: Address,
                         nouns: seq<NounId>) {
    Distinct(nouns) && forall n :: n in nouns <==> DelegateOf(accounts, owners, n) == Some(d)
  }

  /** Exactly the holders have a delegate, and each noun is listed once, by its owner's delegate. */
  ghost predicate Delegation(s: State) {
    && (forall a :: a in s.accounts ==> HolderOk(s.delegates, s.accounts[a]))
    && (forall d :: d in s.delegates ==> ListOk(s.accounts, s.owners, d, s.delegates[d].nounsRepresented))
  }

  ghost predicate HolderOk(delegates: map<Address, Delegate>, account: Account) {
    && (account.delegate.Some? <==> account.nouns != [])
    && (account.delegate.Some? ==> account.delegate.value in delegates)
  }

  ghost predicate Partition(s: State) {
    Ownership(s) && Delegation(s)
  }

  // ---------- creating entities ----------

  lemma EnsureAccountPartition(s: State, a: Address)
    requires Partition(s)
    ensures Partition(EnsureAccount(s, a))
  {
    var t := EnsureAccount(s, a);
    if a !in s.accounts {
      assert AccountOk(t.owners, a, NO_ACCOUNT);
      forall d | d in t.delegates ensures ListOk(t.accounts, t.owners, d, t.delegates[d].nounsRepresented) {
        assert ListOk(s.accounts, s.owners, d, s.delegates[d].nounsRepresented);
        assert forall n :: DelegateOf(t.accounts, t.owners, n) == DelegateOf(s.accounts, s.owners, n);
      }
    }
  }

  /** A delegate nobody recorded starts with the empty list, which is right for it. */
  lemma EnsureDelegatePartition(s: State, d: Address)
    requires Partition(s)
    ensures Partition(EnsureDelegate(s, d))
  {
    if d !in s.delegates {
      var t := EnsureDelegate(s, d);
      forall n ensures DelegateOf(s.accounts, s.owners, n) != Some(d) {
        if n in s.owners { assert HolderOk(s.delegates, s.accounts[s.owners[n]]); }
      }
      assert ListOk(t.accounts, t.owners, d, []);
      forall a | a in t.accounts ensures HolderOk(t.delegates, t.accounts[a]) {
        assert HolderOk(s.delegates, s.accounts[a]);
      }
    }
  }

  // ---------- DelegateChanged ----------

  /** s' is s1 with the delegator's nouns moved from one delegate's list to another's. */
  ghost predicate Redelegates(s1: State, s': State, delegator: Address, from: Address, to: Address) {
    && delegator in s1.accounts && from in s1.delegates && to in s1.delegates && from != to
    && s'.owners == s1.owners && s'.accounts == s1.accounts[delegator := s1.accounts[delegator].(delegate := Some(to))]
    && s'.delegates.Keys == s1.delegates.Keys
    && forall d :: d in s'.delegates ==>
         s'.delegates[d].nounsRepresented ==
         if d == to then s1.delegates[d].nounsRepresented + s1.accounts[delegator].nouns
         else if d == from then Without(s1.delegates[d].nounsRepresented, s1.accounts[delegator].nouns)
         else s1.delegates[d].nounsRepresented
  }

  lemma DelegateChangedShape(s: State, delegator: Address, from: Address, to: Address)
    requires Partition(s) && LegalDelegateChange(s, delegator, from, to)
    ensures Redelegates(EnsureDelegate(s, to), DelegateChanged(s, delegator, from, to), delegator, from, to)
  {
    assert HolderOk(s.delegates, s.accounts[delegator]);
  }

  lemma RedelegatesAccounts(s1: State, s': State, delegator: Address, from: Address, to: Address)
    requires Partition(s1) && Redelegates(s1, s', delegator, from, to) && s1.accounts[delegator].nouns != []
    ensures forall a :: a in s'.accounts ==>
              HolderOk(s'.delegates, s'.accounts[a]) && AccountOk(s'.owners, a, s'.accounts[a])
  {
    forall a | a in s'.accounts
      ensures HolderOk(s'.delegates, s'.accounts[a]) && AccountOk(s'.owners, a, s'.accounts[a])
    {
      assert HolderOk(s1.delegates, s1.accounts[a]) && AccountOk(s1.owners, a, s1.accounts[a]);
    }
  }

  lemma RedelegatesOne(s1: State, s': State, delegator: Address, from: Address, to: Address, n: NounId)
    requires Ownership(s1) && Redelegates(s1, s', delegator, from, to)
    ensures DelegateOf(s'.accounts, s'.owners, n) ==
            if n in s1.accounts[delegator].nouns then Some(to) else DelegateOf(s1.accounts, s1.owners, n)
    ensures n in s1.accounts[delegator].nouns ==>
              DelegateOf(s1.accounts, s1.owners, n) == s1.accounts[delegator].delegate
  {
    assert AccountOk(s1.owners, delegator, s1.accounts[delegator]);
  }

  lemma RedelegatesList(s1: State, s': State, delegator: Address, from: Address, to: Address, d: Address)
    requires Partition(s1) && Redelegates(s1, s', delegator, from, to) && d in s'.delegates
    requires s1.accounts[delegator].delegate == Some(from)
    ensures ListOk(s'.accounts, s'.owners, d, s'.delegates[d].nounsRepresented)
  {
    var before, nouns := s1.delegates[d].nounsRepresented, s1.accounts[delegator].nouns;
    assert ListOk(s1.accounts, s1.owners, d, before) && AccountOk(s1.owners, delegator, s1.accounts[delegator]);
    forall n
      ensures DelegateOf(s'.accounts, s'.owners, n) ==
              (if n in nouns then Some(to) else DelegateOf(s1.accounts, s1.owners, n))
                     && (n in nouns ==> DelegateOf(s1.accounts, s1.owners, n) == Some(from)) {
      RedelegatesOne(s1, s', delegator, from, to, n);
    }
    if d == to {
      DistinctConcat(before, nouns);
    } else if d == from {
      WithoutKeeps(before, nouns);
    }
  }

  lemma DelegateChangedKeeps(s: State, delegator: Address, from: Address, to: Address)
    requires Partition(s) && LegalDelegateChange(s, delegator, from, to)
    ensures Partition(DelegateChanged(s, delegator, from, to))
  {
    var s1, s' := EnsureDelegate(s, to), DelegateChanged(s, delegator, from, to);
    EnsureDelegatePartition(s, to);
    DelegateChangedShape(s, delegator, from, to);
    RedelegatesAccounts(s1, s', delegator, from, to);
    forall d | d in s'.delegates ensures ListOk(s'.accounts, s'.owners, d, s'.delegates[d].nounsRepresented) {
      RedelegatesList(s1, s', delegator, from, to, d);
    }
  }

  lemma DelegateChangedNeeds(s: State, delegator: Address, from: Address, to: Address)
    requires Partition(s) && Partition(DelegateChanged(s, delegator, from, to))
    ensures LegalDelegateChange(s, delegator, from, to)
  {
    var sa := EnsureAccount(s, delegator);
    EnsureAccountPartition(s, delegator);
    EnsureDelegatePartition(sa, from);
    EnsureDelegatePartition(EnsureDelegate(sa, from), to);
    var s1, s' := EnsureDelegate(EnsureDelegate(sa, from), to), DelegateChanged(s, delegator, from, to);
    var nouns := s1.accounts[delegator].nouns;
    assert HolderOk(s'.delegates, s'.accounts[delegator]) && HolderOk(s1.delegates, s1.accounts[delegator]);
    var n, d := nouns[0], s1.accounts[delegator].delegate.value;
    assert n in nouns;
    assert AccountOk(s1.owners, delegator, s1.accounts[delegator]);
    assert DelegateOf(s1.accounts, s1.owners, n) == Some(d);
    assert DelegateOf(s'.accounts, s'.owners, n) == Some(to);
    var list := s1.delegates[d].nounsRepresented;
    assert ListOk(s1.accounts, s1.owners, d, list) && n in list;
    assert ListOk(s'.accounts, s'.owners, d, s'.delegates[d].nounsRepresented);
    if d == to {
      RepeatedNoun(list, nouns, n);
    }
  }

  lemma RepeatedNoun(list: seq<NounId>, more: seq<NounId>, n: NounId)
    requires n in list && n in more
    ensures !Distinct(list + more)
  {
    var i :| 0 <= i < |list| && list[i] == n;
    var j :| 0 <= j < |more| && more[j] == n;
    assert (list + more)[i] == (list + more)[|list| + j];
  }

  /** Exactly the legal re-delegations keep the partition. */
  lemma DelegateChangedKeepsIff(s: State, delegator: Address, from: Address, to: Address)
    requires Partition(s)
    ensures Partition(DelegateChanged(s, delegator, from, to)) <==> LegalDelegateChange(s, delegator, from, to)
  {
    if LegalDelegateChange(s, delegator, from, to) { DelegateChangedKeeps(s, delegator, from, to); }
    if Partition(DelegateChanged(s, delegator, from, to)) { DelegateChangedNeeds(s, delegator, from, to); }
  }

  // ---------- Transfer ----------

  /** The store once the noun has left its old owner and before it reaches the new one. */
  function InFlight(s: State, id: NounId): State {
    s.(owners := s.owners - {id})
  }

  /** A holder's account after it lost a noun: the last one takes the delegate with it. */
  function Lighter(account: Account, id: NounId): Account {
    account.(tokenBalance := account.tokenBalance - 1, nouns := Without(account.nouns, [id]),
             delegate := if account.tokenBalance == 1 then None else account.delegate)
  }

  function Unlisted(delegate: Delegate, id: NounId): Delegate {
    delegate.(nounsRepresented := Without(delegate.nounsRepresented, [id]))
  }

  lemma DebitShape(s: State, g: Governance, from: Address, id: NounId)
    requires Partition(s) && id in s.owners && s.owners[id] == from
    ensures s.accounts[from].delegate.Some? && s.accounts[from].delegate.value in s.delegates
    ensures var (t, d) := (Debit(s, g, from, id).0, s.accounts[from].delegate.value);
            && t.accounts == s.accounts[from := Lighter(s.accounts[from], id)]
            && t.delegates == s.delegates[d := Unlisted(s.delegates[d], id)]
            && t.owners == s.owners
  {
    var account := s.accounts[from];
    assert AccountOk(s.owners, from, account) && HolderOk(s.delegates, account);
    assert id in account.nouns;
    assert account.tokenBalance >= 1;
  }

  lemma LighterOk(owners: map<NounId, Address>, delegates: map<Address, Delegate>, a: Address, account: Account,
                  id: NounId)
    requires AccountOk(owners, a, account) && HolderOk(delegates, account) && id in account.nouns
    ensures AccountOk(owners - {id}, a, Lighter(account, id)) && HolderOk(delegates, Lighter(account, id))
  {
    WithoutKeeps(account.nouns, [id]);
    WithoutOne(account.nouns, id);
  }

  lemma DebitPartition(s: State, g: Governance, from: Address, id: NounId)
    requires Partition(s) && id in s.owners && s.owners[id] == from
    ensures Partition(InFlight(Debit(s, g, from, id).0, id))
  {
    DebitShape(s, g, from, id);
    var t := InFlight(Debit(s, g, from, id).0, id);
    var account := s.accounts[from];
    assert AccountOk(s.owners, from, account) && HolderOk(s.delegates, account);
    LighterOk(s.owners, s.delegates, from, account, id);
    forall a | a in t.accounts ensures AccountOk(t.owners, a, t.accounts[a]) && HolderOk(t.delegates, t.accounts[a]) {
      assert AccountOk(s.owners, a, s.accounts[a]) && HolderOk(s.delegates, s.accounts[a]);
    }
    forall n
      ensures DelegateOf(t.accounts, t.owners, n) == if n == id then None else DelegateOf(s.accounts, s.owners, n)
    {
      LostOnlyOne(s, from, id, n);
    }
    forall e | e in t.delegates ensures ListOk(t.accounts, t.owners, e, t.delegates[e].nounsRepresented) {
      assert ListOk(s.accounts, s.owners, e, s.delegates[e].nounsRepresented);
      WithoutKeeps(s.delegates[e].nounsRepresented, [id]);
    }
  }

  lemma LostOnlyOne(s: State, from: Address, id: NounId, n: NounId)
    requires Ownership(s) && id in s.owners && s.owners[id] == from
    ensures DelegateOf(s.accounts[from := Lighter(s.accounts[from], id)], s.owners - {id}, n)
            == if n == id then None else DelegateOf(s.accounts, s.owners, n)
  {
    var nouns := s.accounts[from].nouns;
    assert AccountOk(s.owners, from, s.accounts[from]);
    if n != id && n in s.owners && s.owners[n] == from {
      assert n in nouns && id in nouns;
      assert |nouns| != 1;
    }
  }

  /** A receiver's account: the first noun makes it its own delegate. */
  function Heavier(account: Account, to: Address, id: NounId): Account {
    account.(tokenBalance := account.tokenBalance + 1, totalTokensHeld := account.totalTokensHeld + 1,
             nouns := account.nouns + [id],
             delegate := if account.tokenBalance == 0 then Some(to) else account.delegate)
  }

  function ReceivingDelegate(account: Account, to: Address): Address {
    if account.delegate.Some? then account.delegate.value else to
  }

  lemma SaveReceiverShape(s: State, g: Governance, account: Account, to: Address, id: NounId)
    requires account.tokenBalance >= 0
    ensures var t := SaveReceiver(s, g, account, to, id);
            && t.accounts == s.accounts[to := Heavier(account, to, id)]
            && t.delegates == s.delegates && t.owners == s.owners[id := to]
  {
  }

  lemma CreditShape(s: State, g: Governance, to: Address, id: NounId)
    requires to in s.accounts && s.accounts[to].tokenBalance >= 0
    ensures var account := s.accounts[to];
            var d := ReceivingDelegate(account, to);
            var (v, t) := (EnsureDelegate(s, d), Credit(s, g, account, to, id));
            && t.accounts == s.accounts[to := Heavier(account, to, id)]
            && t.delegates == v.delegates[
                 d := v.delegates[d].(nounsRepresented := v.delegates[d].nounsRepresented + [id])]
            && t.owners == s.owners[id := to]
  {
    var account := s.accounts[to];
    SaveReceiverShape(List(s, ReceivingDelegate(account, to), id), g, account, to, id);
  }

  lemma HeavierOk(owners: map<NounId, Address>, delegates: map<Address, Delegate>, a: Address, account: Account,
                  id: NounId)
    requires AccountOk(owners, a, account) && HolderOk(delegates, account) && id !in owners
    requires ReceivingDelegate(account, a) in delegates
    ensures AccountOk(owners[id := a], a, Heavier(account, a, id)) && HolderOk(delegates, Heavier(account, a, id))
    ensures Heavier(account, a, id).delegate == Some(ReceivingDelegate(account, a))
  {
    DistinctConcat(account.nouns, [id]);
  }

  lemma GainedOnlyOne(s: State, to: Address, id: NounId, n: NounId)
    requires Partition(s) && to in s.accounts && id !in s.owners
    ensures DelegateOf(s.accounts[to := Heavier(s.accounts[to], to, id)], s.owners[id := to], n)
            == if n == id then Some(ReceivingDelegate(s.accounts[to], to)) else DelegateOf(s.accounts, s.owners, n)
  {
    var account := s.accounts[to];
    assert AccountOk(s.owners, to, account) && HolderOk(s.delegates, account);
    if n != id && n in s.owners && s.owners[n] == to { assert n in account.nouns; }
  }

  /** t is v after the receiver's half, where the receiving delegate exists. */
  ghost predicate Receives(v: State, t: State, to: Address, id: NounId) {
    && to in v.accounts && id !in v.owners
    && var (account, d) := (v.accounts[to], ReceivingDelegate(v.accounts[to], to));
       && d in v.delegates
       && t.accounts == v.accounts[to := Heavier(account, to, id)]
       && t.delegates == v.delegates[d := v.delegates[d].(nounsRepresented := v.delegates[d].nounsRepresented + [id])]
       && t.owners == v.owners[id := to]
  }

  lemma ReceiveAccounts(v: State, t: State, to: Address, id: NounId)
    requires Partition(v) && Receives(v, t, to, id)
    ensures forall a :: a in t.accounts ==>
              AccountOk(t.owners, a, t.accounts[a]) && HolderOk(t.delegates, t.accounts[a])
  {
    assert AccountOk(v.owners, to, v.accounts[to]) && HolderOk(v.delegates, v.accounts[to]);
    HeavierOk(v.owners, v.delegates, to, v.accounts[to], id);
    forall a | a in t.accounts ensures AccountOk(t.owners, a, t.accounts[a]) && HolderOk(t.delegates, t.accounts[a]) {
      assert AccountOk(v.owners, a, v.accounts[a]) && HolderOk(v.delegates, v.accounts[a]);
    }
  }

  lemma ReceiveLists(v: State, t: State, to: Address, id: NounId)
    requires Partition(v) && Receives(v, t, to, id)
    ensures forall e :: e in t.delegates ==> ListOk(t.accounts, t.owners, e, t.delegates[e].nounsRepresented)
  {
    var d := ReceivingDelegate(v.accounts[to], to);
    forall n
      ensures DelegateOf(t.accounts, t.owners, n) == if n == id then Some(d) else DelegateOf(v.accounts, v.owners, n)
    {
      GainedOnlyOne(v, to, id, n);
    }
    forall e | e in t.delegates ensures ListOk(t.accounts, t.owners, e, t.delegates[e].nounsRepresented) {
      var list := v.delegates[e].nounsRepresented;
      assert ListOk(v.accounts, v.owners, e, list);
      if e == d { DistinctConcat(list, [id]); }
    }
  }

  lemma ReceivePartition(v: State, t: State, to: Address, id: NounId)
    requires Partition(v) && Receives(v, t, to, id)
    ensures Partition(t)
  {
    ReceiveAccounts(v, t, to, id);
    ReceiveLists(v, t, to, id);
  }

  lemma CreditReceives(s: State, g: Governance, to: Address, id: NounId)
    requires to in s.accounts && s.accounts[to].tokenBalance >= 0
    ensures Receives(EnsureDelegate(InFlight(s, id), ReceivingDelegate(s.accounts[to], to)),
                     Credit(s, g, s.accounts[to], to, id), to, id)
  {
    CreditShape(s, g, to, id);
    assert s.owners[id := to] == (s.owners - {id})[id := to];
  }

  lemma CreditPartition(s: State, g: Governance, to: Address, id: NounId)
    requires Partition(InFlight(s, id)) && to in s.accounts
    ensures Partition(Credit(s, g, s.accounts[to], to, id))
  {
    var u, d := InFlight(s, id), ReceivingDelegate(s.accounts[to], to);
    assert AccountOk(u.owners, to, s.accounts[to]);
    EnsureDelegatePartition(u, d);
    CreditReceives(s, g, to, id);
    ReceivePartition(EnsureDelegate(u, d), Credit(s, g, s.accounts[to], to, id), to, id);
  }

  lemma PartitionIgnoresGovernance(s: State, t: State)
    requires Partition(s) && t.accounts == s.accounts && t.delegates == s.delegates && t.owners == s.owners
    ensures Partition(t)
  {
  }

  lemma LoadBothPartition(s: State, from: Address, to: Address)
    requires Partition(s)
    ensures Partition(LoadBoth(s, from, to))
  {
    EnsureAccountPartition(s, from);
    EnsureAccountPartition(EnsureAccount(s, from), to);
  }

  /** A stage of the transfer: the noun is in flight and the receiver's account is still as loaded. */
  ghost predicate Stage(s1: State, s: State, to: Address, id: NounId) {
    to in s.accounts && to in s1.accounts && s.accounts[to] == s1.accounts[to] && Partition(InFlight(s, id))
  }

  lemma MintStage(s1: State, to: Address, id: NounId)
    requires Partition(s1) && to in s1.accounts && id !in s1.owners
    ensures Stage(s1, CountMint(s1).0, to, id)
  {
    assert s1.owners - {id} == s1.owners;
    PartitionIgnoresGovernance(s1, InFlight(CountMint(s1).0, id));
  }

  lemma DebitStage(s1: State, from: Address, to: Address, id: NounId)
    requires Partition(s1) && to in s1.accounts && id in s1.owners && s1.owners[id] == from && from != to
    ensures Stage(s1, Debit(s1, s1.governance, from, id).0, to, id)
  {
    DebitPartition(s1, s1.governance, from, id);
    DebitShape(s1, s1.governance, from, id);
  }

  lemma BurnStage(s1: State, s2: State, g: Governance, to: Address, id: NounId)
    requires Stage(s1, s2, to, id)
    ensures Stage(s1, CountBurn(s2, g, to).0, to, id)
  {
    PartitionIgnoresGovernance(InFlight(s2, id), InFlight(CountBurn(s2, g, to).0, id));
  }

  lemma BeforeCreditStage(s: State, from: Address, to: Address, id: NounId)
    requires Partition(s) && LegalTransfer(s, from, to, id)
    ensures Stage(LoadBoth(s, from, to), BeforeCredit(s, from, to, id).0, to, id)
  {
    var s1 := LoadBoth(s, from, to);
    LoadBothPartition(s, from, to);
    if from == ZERO {
      MintStage(s1, to, id);
      BurnStage(s1, CountMint(s1).0, CountMint(s1).1, to, id);
    } else {
      DebitStage(s1, from, to, id);
      var (s2, g2) := Debit(s1, s1.governance, from, id);
      BurnStage(s1, s2, g2, to, id);
    }
  }

  lemma TransferKeepsPartition(s: State, from: Address, to: Address, id: NounId)
    requires Partition(s) && LegalTransfer(s, from, to, id)
    ensures Partition(Transfer(s, from, to, id))
  {
    var (s3, g3) := BeforeCredit(s, from, to, id);
    BeforeCreditStage(s, from, to, id);
    CreditPartition(s3, g3, to, id);
  }
}
