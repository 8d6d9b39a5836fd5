/** packages/nouns-webapp/src/state/slices/auction.ts: the current auction and its bids. */
module AuctionSlice {
  import opened Wrappers

  datatype Bid = Bid(nounId: nat, sender: string, value: nat, extended: bool, transactionHash: string, timestamp: nat)

  datatype Auction = Auction(amount: nat, bidder: string, startTime: nat, endTime: nat, nounId: nat, settled: bool)

  datatype AuctionState = AuctionState(activeAuction: Option<Auction>, bids: seq<Bid>)

  datatype Event =
    | CreatedEvent(nounId: nat, startTime: nat, endTime: nat)
    | FullEvent(auction: Auction)
    | BidEvent(bid: Bid)
    | SettledEvent(nounId: nat, winner: string, amount: nat)
    | ExtendedEvent(nounId: nat, endTime: nat)

  /** `bids.reduce(...)`: on equal values the later element of the list wins. */
  function MaxBid(bids: seq<Bid>): Bid
    requires bids != []
  {
    var n := |bids| - 1;
    if n == 0 then bids[0]
    else
      var prev := MaxBid(bids[..n]);
      if prev.value > bids[n].value then prev else bids[n]
  }

  predicate SameHash(b: Bid, c: Bid) {
    b.transactionHash == c.transactionHash
  }

  predicate ContainsBid(bids: seq<Bid>, bid: Bid) {
    exists i :: 0 <= i < |bids| && SameHash(bids[i], bid)
  }

  predicate IsActive(s: AuctionState, nounId: nat) {
    s.activeAuction.Some? && s.activeAuction.value.nounId == nounId
  }

  function AppendBid(s: AuctionState, bid: Bid): AuctionState {
    if !IsActive(s, bid.nounId) || ContainsBid(s.bids, bid) then s
    else
      var bids := [bid] + s.bids;
      var top := MaxBid(bids);
      AuctionState(Some(s.activeAuction.value.(amount := top.value, bidder := top.sender)), bids)
  }

  function Step(s: AuctionState, e: Event): AuctionState {
    match e
    case CreatedEvent(nounId, startTime, endTime) =>
      AuctionState(Some(Auction(0, "", startTime, endTime, nounId, false)), [])
    case FullEvent(auction) => s.(activeAuction := Some(auction))
    case BidEvent(bid) => AppendBid(s, bid)
    case SettledEvent(nounId, winner, amount) =>
      if IsActive(s, nounId)
      then s.(activeAuction := Some(s.activeAuction.value.(settled := true, bidder := winner, amount := amount))) else s
    case ExtendedEvent(nounId, endTime) =>
      if IsActive(s, nounId) then s.(activeAuction := Some(s.activeAuction.value.(endTime := endTime))) else s
  }

  class AuctionStore {
    var activeAuction: Option<Auction>
    var bids: seq<Bid>

    ghost function State(): AuctionState
      reads this
    {
      AuctionState(activeAuction, bids)
    }

    constructor ()
      ensures State() == AuctionState(None, [])
    {
      activeAuction, bids := None, [];
    }

    method SetActiveAuction(nounId: nat, startTime: nat, endTime: nat)
      modifies this
      ensures State() == Step(old(State()), CreatedEvent(nounId, startTime, endTime))
    {
      activeAuction := Some(Auction(0, "", startTime, endTime, nounId, false));
      bids := [];
    }

    method SetFullAuction(auction: Auction)
      modifies this
      ensures State() == Step(old(State()), FullEvent(auction))
    {
      activeAuction := Some(auction);
    }

    method AppendBid(bid: Bid)
      modifies this
      ensures State() == Step(old(State()), BidEvent(bid))
    {
      if !(activeAuction.Some? && activeAuction.value.nounId == bid.nounId) { return; }
      if ContainsBid(bids, bid) { return; }
      bids := [bid] + bids;
      var maxBid := MaxBid(bids);
      activeAuction := Some(activeAuction.value.(amount := maxBid.value));
      activeAuction := Some(activeAuction.value.(bidder := maxBid.sender));
    }

    method SetAuctionSettled(nounId: nat, winner: string, amount: nat)
      modifies this
      ensures State() == Step(old(State()), SettledEvent(nounId, winner, amount))
    {
      if !(activeAuction.Some? && activeAuction.value.nounId == nounId) { return; }
      activeAuction := Some(activeAuction.value.(settled := true, bidder := winner, amount := amount));
    }

    method SetAuctionExtended(nounId: nat, endTime: nat)
      modifies this
      ensures State() == Step(old(State()), ExtendedEvent(nounId, endTime))
    {
      if !(activeAuction.Some? && activeAuction.value.nounId == nounId) { return; }
      activeAuction := Some(activeAuction.value.(endTime := endTime));
    }
  }

  // ---------- convergence ----------

  function Run(s: AuctionState, es: seq<Event>): AuctionState {
    if es == [] then s else Step(Run(s, es[..|es| - 1]), es[|es| - 1])
  }

  /** While an auction runs only bids and extensions arrive. */
  predicate Running(es: seq<Event>) {
    forall i :: 0 <= i < |es| ==> es[i].BidEvent? || es[i].ExtendedEvent?
  }

  /** A bid on noun n that occurs in the stream. */
  predicate Offered(es: seq<Event>, n: nat, b: Bid) {
    BidEvent(b) in es && b.nounId == n
  }

  lemma {:induction false} MaxBidIsTop(bids: seq<Bid>)
    requires bids != []
    ensures MaxBid(bids) in bids && forall b :: b in bids ==> b.value <= MaxBid(bids).value
  {
    var n := |bids| - 1;
    if n > 0 {
      MaxBidIsTop(bids[..n]);
      assert bids == bids[..n] + [bids[n]];
    }
  }

  /** The list holds offered bids only, one of each transaction hash, and some bid of each offered hash. */
  ghost predicate OnePerHash(bids: seq<Bid>, es: seq<Event>, n: nat) {
    && (forall b :: b in bids ==> Offered(es, n, b))
    && (forall d :: Offered(es, n, d) ==> ContainsBid(bids, d))
    && (forall i, j :: 0 <= i < j < |bids| ==> !SameHash(bids[i], bids[j]))
  }

  /** Amount and bidder are those of the greatest bid of the list. */
  ghost predicate Collected(s: AuctionState, start: Auction, es: seq<Event>) {
    && s.activeAuction.Some? && s.activeAuction.value.nounId == start.nounId
    && OnePerHash(s.bids, es, start.nounId)
    && s.activeAuction.value.amount == (if s.bids == [] then start.amount else MaxBid(s.bids).value)
    && s.activeAuction.value.bidder == (if s.bids == [] then start.bidder else MaxBid(s.bids).sender)
  }

  lemma {:induction false} RunCollects(start: Auction, es: seq<Event>)
    requires Running(es)
    ensures Collected(Run(AuctionState(Some(start), []), es), start, es)
  {
    if es != [] {
      var init, e := es[..|es| - 1], es[|es| - 1];
      assert es == init + [e];
      assert forall b :: Offered(es, start.nounId, b) <==>
             Offered(init, start.nounId, b) || (e == BidEvent(b) && b.nounId == start.nounId);
      RunCollects(start, init);
      if e.BidEvent? { BidCollects(Run(AuctionState(Some(start), []), init), start, init, es, e.bid); }
    }
  }

  lemma BidCollects(s: AuctionState, start: Auction, init: seq<Event>, es: seq<Event>, bid: Bid)
    requires Collected(s, start, init)
    requires forall b :: Offered(es, start.nounId, b) <==>
               Offered(init, start.nounId, b) || (b == bid && bid.nounId == start.nounId)
    ensures Collected(AppendBid(s, bid), start, es)
  {
    if bid.nounId == start.nounId && !ContainsBid(s.bids, bid) {
      var bids := [bid] + s.bids;
      forall d | Offered(es, start.nounId, d) ensures ContainsBid(bids, d) {
        if d == bid {
          assert bids[0] == d;
        } else {
          var i :| 0 <= i < |s.bids| && SameHash(s.bids[i], d);
          assert bids[i + 1] == s.bids[i];
        }
      }
      assert forall b :: b in bids <==> b == bid || b in s.bids;
      forall i, j | 0 <= i < j < |bids| ensures !SameHash(bids[i], bids[j]) {
        if i == 0 { assert bids[j] == s.bids[j - 1]; }
      }
    }
  }

  function Final(start: Auction, es: seq<Event>): AuctionState {
    Run(AuctionState(Some(start), []), es)
  }

  /** Two streams offer the same bids on noun n, in whatever order and however often. */
  ghost predicate SameOffers(es: seq<Event>, fs: seq<Event>, n: nat) {
    forall b :: Offered(es, n, b) <==> Offered(fs, n, b)
  }

  /** The stream that starts with b. */
  function First(b: Bid, es: seq<Event>): seq<Event> {
    [BidEvent(b)] + es
  }

  lemma FirstOffers(es: seq<Event>, n: nat, b: Bid)
    requires Running(es)
    ensures Running(First(b, es))
    ensures forall d :: Offered(First(b, es), n, d) <==> Offered(es, n, d) || (d == b && b.nounId == n)
  {
    assert forall e :: e in First(b, es) <==> e == BidEvent(b) || e in es;
  }

  lemma FirstBid(start: Auction, b: Bid)
    requires b.nounId == start.nounId
    ensures Final(start, [BidEvent(b)]).bids == [b]
  {
    var s0, es := AuctionState(Some(start), []), [BidEvent(b)];
    assert es[..0] == [] && Run(s0, es[..0]) == s0;
    assert [b] + [] == [b];
  }

  /** The bid that arrived first stays at the end of the list. */
  lemma {:induction false} FirstBidStays(start: Auction, b: Bid, es: seq<Event>)
    requires Running(es) && b.nounId == start.nounId
    ensures var s := Final(start, First(b, es)); s.bids != [] && s.bids[|s.bids| - 1] == b
  {
    var all := First(b, es);
    if es == [] {
      assert all == [BidEvent(b)];
      FirstBid(start, b);
    } else {
      var init := es[..|es| - 1];
      assert all[..|all| - 1] == First(b, init) && all[|all| - 1] == es[|es| - 1];
      FirstBidStays(start, b, init);
      LastStays(Final(start, First(b, init)), es[|es| - 1]);
    }
  }

  /** Bids are only put in front. */
  lemma LastStays(s: AuctionState, e: Event)
    requires s.bids != [] && (e.BidEvent? || e.ExtendedEvent?)
    ensures var t := Step(s, e); t.bids != [] && t.bids[|t.bids| - 1] == s.bids[|s.bids| - 1]
  {
  }

  // ---------- when the bids converge ----------

  /** A transaction hash identifies a bid on noun n. */
  ghost predicate HashesIdentify(es: seq<Event>, n: nat) {
    forall b, c :: Offered(es, n, b) && Offered(es, n, c) && SameHash(b, c) ==> b == c
  }

  /** Every stream with the same bids ends with the same bids. */
  ghost predicate BidsAreFixed(start: Auction, es: seq<Event>) {
    forall fs :: Running(fs) && SameOffers(es, fs, start.nounId) ==>
      multiset(Final(start, fs).bids) == multiset(Final(start, es).bids)
  }

  /** The list of a finished stream holds each offered bid exactly once. */
  lemma BidsAreOffers(start: Auction, es: seq<Event>)
    requires Running(es) && HashesIdentify(es, start.nounId)
    ensures forall b :: multiset(Final(start, es).bids)[b] == if Offered(es, start.nounId, b) then 1 else 0
  {
    RunCollects(start, es);
    var bids := Final(start, es).bids;
    OncePerHash(bids);
    forall b | Offered(es, start.nounId, b) ensures b in bids {
      var i :| 0 <= i < |bids| && SameHash(bids[i], b);
      assert bids[i] in bids;
    }
  }

  lemma {:induction false} OncePerHash(bids: seq<Bid>)
    requires forall i, j :: 0 <= i < j < |bids| ==> !SameHash(bids[i], bids[j])
    ensures forall b :: multiset(bids)[b] == if b in bids then 1 else 0
  {
    if bids != [] {
      var rest := bids[1..];
      OncePerHash(rest);
      assert bids == [bids[0]] + rest;
      assert bids[0] !in rest;
    }
  }

  /** Whichever of two bids with one hash arrives first is kept, and the other is not. */
  lemma FirstOfHashIsKept(start: Auction, es: seq<Event>, b: Bid, c: Bid)
    requires Running(es) && b != c && SameHash(b, c)
    requires Offered(es, start.nounId, b) && Offered(es, start.nounId, c)
    ensures Running(First(b, es)) && SameOffers(es, First(b, es), start.nounId)
    ensures b in Final(start, First(b, es)).bids && c !in Final(start, First(b, es)).bids
  {
    FirstOffers(es, start.nounId, b);
    FirstBidStays(start, b, es);
    RunCollects(start, First(b, es));
    var bids := Final(start, First(b, es)).bids;
    forall i | 0 <= i < |bids| ensures bids[i] != c {
      if i < |bids| - 1 { assert !SameHash(bids[i], bids[|bids| - 1]); }
    }
  }

  lemma ClashMovesBids(start: Auction, es: seq<Event>, b: Bid, c: Bid)
    requires Running(es) && b != c && SameHash(b, c)
    requires Offered(es, start.nounId, b) && Offered(es, start.nounId, c)
    ensures !BidsAreFixed(start, es)
  {
    FirstOfHashIsKept(start, es, b, c);
    FirstOfHashIsKept(start, es, c, b);
    var x, y := multiset(Final(start, First(b, es)).bids), multiset(Final(start, First(c, es)).bids);
    assert b in x && b !in y;
  }

  /** The order of arrival does not matter for the bids exactly when hashes identify them. */
  lemma BidsConvergeIff(start: Auction, es: seq<Event>)
    requires Running(es)
    ensures BidsAreFixed(start, es) <==> HashesIdentify(es, start.nounId)
  {
    var n := start.nounId;
    if HashesIdentify(es, n) {
      BidsAreOffers(start, es);
      forall fs | Running(fs) && SameOffers(es, fs, n)
        ensures multiset(Final(start, fs).bids) == multiset(Final(start, es).bids)
      {
        assert HashesIdentify(fs, n);
        BidsAreOffers(start, fs);
        SameCounts(multiset(Final(start, fs).bids), multiset(Final(start, es).bids));
      }
    }
    if BidsAreFixed(start, es) {
      forall b, c | Offered(es, n, b) && Offered(es, n, c) && SameHash(b, c) ensures b == c {
        if b != c { ClashMovesBids(start, es, b, c); }
      }
    }
  }

  lemma SameCounts(a: multiset<Bid>, b: multiset<Bid>)
    requires forall bid :: a[bid] == b[bid]
    ensures a == b
  {
  }

  // ---------- who can win ----------

  /**
   * A bid that some order of arrival makes the greatest of the list: for every offered bid there
   * is one with the same hash that does not exceed it.
   */
  ghost predicate CanWin(es: seq<Event>, n: nat, b: Bid) {
    Offered(es, n, b) && forall d {:trigger Outbids(es, n, b, d)} :: Offered(es, n, d) ==> Outbids(es, n, b, d)
  }

  ghost predicate Outbids(es: seq<Event>, n: nat, b: Bid, d: Bid) {
    exists d' :: Offered(es, n, d') && SameHash(d', d) && d'.value <= b.value
  }

  /** Where hashes identify bids, those are the greatest bids. */
  lemma CanWinIsTop(es: seq<Event>, n: nat, b: Bid)
    requires HashesIdentify(es, n) && Offered(es, n, b)
    ensures CanWin(es, n, b) <==> forall d :: Offered(es, n, d) ==> d.value <= b.value
  {
    forall d | Offered(es, n, d) ensures Outbids(es, n, b, d) <==> d.value <= b.value {
      if d.value <= b.value { assert SameHash(d, d); }
    }
  }

  /** The greatest bid of any finished list could win. */
  lemma WinnerCanWin(start: Auction, es: seq<Event>)
    requires Running(es) && Final(start, es).bids != []
    ensures CanWin(es, start.nounId, MaxBid(Final(start, es).bids))
  {
    RunCollects(start, es);
    var bids := Final(start, es).bids;
    MaxBidIsTop(bids);
    forall d | Offered(es, start.nounId, d) ensures Outbids(es, start.nounId, MaxBid(bids), d) {
      var i :| 0 <= i < |bids| && SameHash(bids[i], d);
      assert bids[i] in bids && Offered(es, start.nounId, bids[i]);
    }
  }

  /** The events of a stream, without the bids that exceed a value. */
  function UpTo(es: seq<Event>, value: nat): seq<Event> {
    if es == [] then []
    else
      var e := es[|es| - 1];
      UpTo(es[..|es| - 1], value) + if e.BidEvent? && e.bid.value > value then [] else [e]
  }

  lemma {:induction false} UpToMembers(es: seq<Event>, value: nat)
    ensures forall f :: f in UpTo(es, value) <==> f in es && !(f.BidEvent? && f.bid.value > value)
  {
    if es != [] {
      var init, e := es[..|es| - 1], es[|es| - 1];
      UpToMembers(init, value);
      assert es == init + [e];
    }
  }

  lemma UpToOffers(es: seq<Event>, value: nat)
    requires Running(es)
    ensures Running(UpTo(es, value))
    ensures forall n, d :: Offered(UpTo(es, value), n, d) <==> Offered(es, n, d) && d.value <= value
  {
    UpToMembers(es, value);
    var some := UpTo(es, value);
    forall i | 0 <= i < |some| ensures some[i].BidEvent? || some[i].ExtendedEvent? {
      assert some[i] in some && some[i] in es;
    }
  }

  /** b first, then a bid of every hash that does not exceed it, then everything. */
  function Favouring(b: Bid, es: seq<Event>): seq<Event> {
    First(b, UpTo(es, b.value)) + es
  }

  /** Bids whose hashes are known change nothing. */
  lemma {:induction false} KnownHashesAreDropped(start: Auction, front: seq<Event>, es: seq<Event>)
    requires Running(front) && Running(es)
    requires forall d :: Offered(es, start.nounId, d) ==> ContainsBid(Final(start, front).bids, d)
    ensures Final(start, front + es).bids == Final(start, front).bids
  {
    if es == [] {
      assert front + es == front;
    } else {
      var init, e := es[..|es| - 1], es[|es| - 1];
      assert es == init + [e];
      KnownHashesAreDropped(start, front, init);
      assert (front + es)[..|front + es| - 1] == front + init;
      RunCollects(start, front + init);
      if e.BidEvent? && e.bid.nounId == start.nounId { assert Offered(es, start.nounId, e.bid); }
    }
  }

  lemma FavouringOffers(es: seq<Event>, n: nat, b: Bid)
    requires Running(es) && Offered(es, n, b)
    ensures Running(Favouring(b, es)) && SameOffers(es, Favouring(b, es), n)
  {
    UpToOffers(es, b.value);
    FirstOffers(UpTo(es, b.value), n, b);
    assert forall e :: e in Favouring(b, es) <==> e in First(b, UpTo(es, b.value)) || e in es;
  }

  /** A bid that can win does win if it and the weaker bids arrive first. */
  lemma FavouredWins(start: Auction, es: seq<Event>, b: Bid)
    requires Running(es) && CanWin(es, start.nounId, b)
    ensures Final(start, Favouring(b, es)).bids != [] && MaxBid(Final(start, Favouring(b, es)).bids) == b
  {
    var n, front := start.nounId, First(b, UpTo(es, b.value));
    UpToOffers(es, b.value);
    FirstOffers(UpTo(es, b.value), n, b);
    RunCollects(start, front);
    FirstBidStays(start, b, UpTo(es, b.value));
    var bids := Final(start, front).bids;
    forall d | Offered(es, n, d) ensures ContainsBid(bids, d) {
      assert Outbids(es, n, b, d);
      var d' :| Offered(es, n, d') && SameHash(d', d) && d'.value <= b.value;
      assert Offered(front, n, d');
      assert ContainsBid(bids, d');
      var i :| 0 <= i < |bids| && SameHash(bids[i], d');
      assert SameHash(bids[i], d);
    }
    KnownHashesAreDropped(start, front, es);
    assert forall c :: c in bids ==> c.value <= b.value;
    LastTopIsMax(bids);
  }

  /** Of equal greatest bids the last of the list is taken. */
  lemma LastTopIsMax(bids: seq<Bid>)
    requires bids != [] && forall c :: c in bids ==> c.value <= bids[|bids| - 1].value
    ensures MaxBid(bids) == bids[|bids| - 1]
  {
    if |bids| > 1 {
      var init := bids[..|bids| - 1];
      MaxBidIsTop(init);
      assert MaxBid(init) in bids;
    }
  }

  // ---------- when amount and bidder converge ----------

  function Amount(start: Auction, es: seq<Event>): Option<nat> {
    var s := Final(start, es);
    if s.activeAuction.Some? then Some(s.activeAuction.value.amount) else None
  }

  function Bidder(start: Auction, es: seq<Event>): Option<string> {
    var s := Final(start, es);
    if s.activeAuction.Some? then Some(s.activeAuction.value.bidder) else None
  }

  /** Every stream with the same bids ends with the same amount. */
  ghost predicate AmountIsFixed(start: Auction, es: seq<Event>) {
    forall fs :: Running(fs) && SameOffers(es, fs, start.nounId) ==> Amount(start, fs) == Amount(start, es)
  }

  /** Every stream with the same bids ends with the same bidder. */
  ghost predicate BidderIsFixed(start: Auction, es: seq<Event>) {
    forall fs :: Running(fs) && SameOffers(es, fs, start.nounId) ==> Bidder(start, fs) == Bidder(start, es)
  }

  /** A finished stream names a bid that can win, or offers none at all. */
  lemma Outcome(start: Auction, es: seq<Event>, fs: seq<Event>) returns (w: Option<Bid>)
    requires Running(es) && Running(fs) && SameOffers(es, fs, start.nounId)
    ensures w.None? ==> (forall b :: !Offered(es, start.nounId, b))
                        && Amount(start, fs) == Some(start.amount) && Bidder(start, fs) == Some(start.bidder)
    ensures w.Some? ==> CanWin(es, start.nounId, w.value)
                        && Amount(start, fs) == Some(w.value.value) && Bidder(start, fs) == Some(w.value.sender)
  {
    RunCollects(start, fs);
    var bids := Final(start, fs).bids;
    if bids == [] {
      w := None;
    } else {
      WinnerCanWin(start, fs);
      w := Some(MaxBid(bids));
      assert CanWin(es, start.nounId, MaxBid(bids)) by { SameOffersSameWinners(es, fs, start.nounId, MaxBid(bids)); }
    }
  }

  lemma SameOffersSameWinners(es: seq<Event>, fs: seq<Event>, n: nat, b: Bid)
    requires SameOffers(es, fs, n) && CanWin(fs, n, b)
    ensures CanWin(es, n, b)
  {
    forall d | Offered(es, n, d) ensures Outbids(es, n, b, d) {
      assert Outbids(fs, n, b, d);
      var d' :| Offered(fs, n, d') && SameHash(d', d) && d'.value <= b.value;
      assert Offered(es, n, d');
    }
  }

  lemma FavouredOutcome(start: Auction, es: seq<Event>, b: Bid)
    requires Running(es) && CanWin(es, start.nounId, b)
    ensures Running(Favouring(b, es)) && SameOffers(es, Favouring(b, es), start.nounId)
    ensures Amount(start, Favouring(b, es)) == Some(b.value) && Bidder(start, Favouring(b, es)) == Some(b.sender)
  {
    FavouringOffers(es, start.nounId, b);
    FavouredWins(start, es, b);
    RunCollects(start, Favouring(b, es));
  }

  /** The amount does not depend on the order exactly when all bids that can win have one value. */
  lemma AmountConvergesIff(start: Auction, es: seq<Event>)
    requires Running(es)
    ensures AmountIsFixed(start, es) <==>
              forall b, c :: CanWin(es, start.nounId, b) && CanWin(es, start.nounId, c) ==> b.value == c.value
  {
    var n := start.nounId;
    if forall b, c :: CanWin(es, n, b) && CanWin(es, n, c) ==> b.value == c.value {
      forall fs | Running(fs) && SameOffers(es, fs, n) ensures Amount(start, fs) == Amount(start, es) {
        var w := Outcome(start, es, fs);
        var v := Outcome(start, es, es);
      }
    }
    if AmountIsFixed(start, es) {
      forall b, c | CanWin(es, n, b) && CanWin(es, n, c) ensures b.value == c.value {
        FavouredOutcome(start, es, b);
        FavouredOutcome(start, es, c);
      }
    }
  }

  /** The bidder does not depend on the order exactly when all bids that can win come from one sender. */
  lemma BidderConvergesIff(start: Auction, es: seq<Event>)
    requires Running(es)
    ensures BidderIsFixed(start, es) <==>
              forall b, c :: CanWin(es, start.nounId, b) && CanWin(es, start.nounId, c) ==> b.sender == c.sender
  {
    var n := start.nounId;
    if forall b, c :: CanWin(es, n, b) && CanWin(es, n, c) ==> b.sender == c.sender {
      forall fs | Running(fs) && SameOffers(es, fs, n) ensures Bidder(start, fs) == Bidder(start, es) {
        var w := Outcome(start, es, fs);
        var v := Outcome(start, es, es);
      }
    }
    if BidderIsFixed(start, es) {
      forall b, c | CanWin(es, n, b) && CanWin(es, n, c) ensures b.sender == c.sender {
        FavouredOutcome(start, es, b);
        FavouredOutcome(start, es, c);
      }
    }
  }

  /** Where hashes identify bids, the amount is the greatest value offered, in any order of arrival. */
  lemma AmountIsGreatest(start: Auction, es: seq<Event>, fs: seq<Event>)
    requires Running(es) && Running(fs) && HashesIdentify(es, start.nounId) && SameOffers(es, fs, start.nounId)
    ensures Amount(start, fs).Some?
    ensures forall b :: Offered(es, start.nounId, b) ==> b.value <= Amount(start, fs).value
    ensures (exists b :: Offered(es, start.nounId, b)) ==>
              exists b :: Offered(es, start.nounId, b) && b.value == Amount(start, fs).value
  {
    var w := Outcome(start, es, fs);
    if w.Some? { CanWinIsTop(es, start.nounId, w.value); }
  }
}
