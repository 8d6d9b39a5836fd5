/**
 * packages/nouns-subgraph/src/nouns-erc-721.ts as functions on the store. Each function keeps the
 * handler's order of loads and saves, because a copy that went stale overwrites what was saved
 * after it was loaded.
 */
module Ledger {
  import opened Wrappers
  import opened Entities

  // ---------- handleDelegateChanged ----------

  function LoadDelegates(s: State, delegator: Address, fromDelegate: Address, toDelegate: Address): (r: State)
    ensures delegator in r.accounts && fromDelegate in r.delegates && toDelegate in r.delegates
  {
    EnsureDelegate(EnsureDelegate(EnsureAccount(s, delegator), fromDelegate), toDelegate)
  }

  /** Both delegate entities are copies taken before either is saved. */
  function Reassign(s1: State, delegator: Address, fromDelegate: Address, toDelegate: Address): State
    requires delegator in s1.accounts && fromDelegate in s1.delegates && toDelegate in s1.delegates
  {
    var tokenHolder, previousDelegate, newDelegate := s1.accounts[delegator], s1.delegates[fromDelegate],
      s1.delegates[toDelegate];
    var accountNouns := tokenHolder.nouns;
    var previous := previousDelegate.(
      tokenHoldersRepresentedAmount := previousDelegate.tokenHoldersRepresentedAmount - 1,
      nounsRepresented := Without(previousDelegate.nounsRepresented, accountNouns));
    var next := newDelegate.(
      tokenHoldersRepresentedAmount := newDelegate.tokenHoldersRepresentedAmount + 1,
      nounsRepresented := newDelegate.nounsRepresented + accountNouns);
    s1.(accounts := s1.accounts[delegator := tokenHolder.(delegate := Some(toDelegate))],
        delegates := s1.delegates[fromDelegate := previous][toDelegate := next])
  }

  function DelegateChanged(s: State, delegator: Address, fromDelegate: Address, toDelegate: Address): State {
    Reassign(LoadDelegates(s, delegator, fromDelegate, toDelegate), delegator, fromDelegate, toDelegate)
  }

  // ---------- handleDelegateVotesChanged ----------

  function DelegateVotesChanged(s: State, id: Address, previousBalance: nat, newBalance: nat): State {
    var governance := s.governance;
    var s1 := EnsureDelegate(s, id);
    var up := if previousBalance == 0 && newBalance > 0 then 1 else 0;
    var down := if newBalance == 0 then 1 else 0;
    s1.(delegates := s1.delegates[id := s1.delegates[id].(delegatedVotes := newBalance)],
        governance := governance.(
          currentDelegates := governance.currentDelegates + up - down,
          delegatedVotes := governance.delegatedVotes + (newBalance - previousBalance)))
  }

  // ---------- handleTransfer ----------

  /** The sender's half; also returns the handler's copy of the governance entity. */
  function Debit(s: State, g: Governance, from: Address, id: NounId): (State, Governance)
    requires from in s.accounts
  {
    var before := s.accounts[from];
    var holder := before.(tokenBalance := before.tokenBalance - 1, nouns := Without(before.nouns, [id]));
    var s1 :=
      if holder.delegate.None? then s
      else
        var d := holder.delegate.value;
        var t := EnsureDelegate(s, d);
        t.(delegates := t.delegates[
          d := t.delegates[d].(nounsRepresented := Without(t.delegates[d].nounsRepresented, [id]))]);
    if holder.tokenBalance == 0 && before.tokenBalance > 0 then
      var g' := g.(currentTokenHolders := g.currentTokenHolders - 1);
      (s1.(governance := g', accounts := s1.accounts[from := holder.(delegate := None)]), g')
    else if holder.tokenBalance > 0 && before.tokenBalance == 0 then
      var g' := g.(currentTokenHolders := g.currentTokenHolders + 1);
      (s1.(governance := g', accounts := s1.accounts[from := holder]), g')
    else
      (s1.(accounts := s1.accounts[from := holder]), g)
  }

  /** The noun joins the list of the receiver's delegate. */
  function List(s: State, d: Address, id: NounId): State {
    var t := EnsureDelegate(s, d);
    t.(delegates := t.delegates[d := t.delegates[d].(nounsRepresented := t.delegates[d].nounsRepresented + [id])])
  }

  /** Counts the receiver and saves it together with the noun. */
  function SaveReceiver(s: State, g: Governance, toHolder: Account, to: Address, id: NounId): State {
    var before := toHolder.tokenBalance;
    var holder := toHolder.(
      tokenBalance := before + 1, totalTokensHeld := toHolder.totalTokensHeld + 1, nouns := toHolder.nouns + [id]);
    var s2 := s.(owners := s.owners[id := to]);
    if holder.tokenBalance == 0 && before > 0 then
      s2.(governance := g.(currentTokenHolders := g.currentTokenHolders - 1), accounts := s2.accounts[to := holder])
    else if holder.tokenBalance > 0 && before == 0 then
      s2.(governance := g.(currentTokenHolders := g.currentTokenHolders + 1),
          accounts := s2.accounts[to := holder.(delegate := Some(to))])
    else
      s2.(accounts := s2.accounts[to := holder])
  }

  /** The receiver's half, working on the copy loaded when the handler started. */
  function Credit(s: State, g: Governance, toHolder: Account, to: Address, id: NounId): State {
    SaveReceiver(List(s, if toHolder.delegate.Some? then toHolder.delegate.value else to, id), g, toHolder, to, id)
  }

  /** Sender zero: a mint only counts. */
  function CountMint(s: State): (State, Governance) {
    var g := s.governance.(totalTokenHolders := s.governance.totalTokenHolders + 1);
    (s.(governance := g), g)
  }

  function CountBurn(s: State, g: Governance, to: Address): (State, Governance) {
    if to == ZERO then
      var g' := g.(totalTokenHolders := g.totalTokenHolders - 1);
      (s.(governance := g'), g')
    else (s, g)
  }

  function LoadBoth(s: State, from: Address, to: Address): (r: State)
    ensures from in r.accounts && to in r.accounts
  {
    EnsureAccount(EnsureAccount(s, from), to)
  }

  /** Everything up to the receiver's half. */
  function BeforeCredit(s: State, from: Address, to: Address, id: NounId): (State, Governance) {
    var s1 := LoadBoth(s, from, to);
    var (s2, g2) := if from == ZERO then CountMint(s1) else Debit(s1, s1.governance, from, id);
    CountBurn(s2, g2, to)
  }

  /** The receiver's half works on the copy of the receiver that was loaded first. */
  function Transfer(s: State, from: Address, to: Address, id: NounId): State {
    var (s3, g3) := BeforeCredit(s, from, to, id);
    Credit(s3, g3, LoadBoth(s, from, to).accounts[to], to, id)
  }

  // ---------- which events a token contract can send ----------

  predicate LegalTransfer(s: State, from: Address, to: Address, id: NounId) {
    if from == ZERO then id !in s.owners
    else from != to && id in s.owners && s.owners[id] == from
  }

  /** The delegator holds a noun, the event names its recorded delegate, and the delegate changes. */
  predicate LegalDelegateChange(s: State, delegator: Address, fromDelegate: Address, toDelegate: Address) {
    && delegator in s.accounts && s.accounts[delegator].nouns != []
    && s.accounts[delegator].delegate == Some(fromDelegate)
    && fromDelegate != toDelegate
  }

  function RecordedVotes(s: State, id: Address): int {
    if id in s.delegates then s.delegates[id].delegatedVotes else 0
  }

  predicate LegalVotesChange(s: State, id: Address, previousBalance: nat, newBalance: nat) {
    previousBalance == RecordedVotes(s, id) && !(previousBalance == 0 && newBalance == 0)
  }
}
