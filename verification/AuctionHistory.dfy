/**
 * What the auction slice shows after any stream of events, in terms of the events: the terms of the
 * last auction that was start, and the price set by the last event that could set one.
 */
module AuctionHistory {
  import opened Wrappers
  import opened AuctionSlice
  import Occurrences

  const NOTHING := AuctionState(None, [])

  const OPENING: Event -> bool := (e: Event) => e.CreatedEvent? || e.FullEvent?

  function Extending(n: nat): Event -> bool {
    (e: Event) => e.ExtendedEvent? && e.nounId == n
  }

  function Settling(n: nat): Event -> bool {
    (e: Event) => e.SettledEvent? && e.nounId == n
  }

  // ---------- the terms ----------

  /** The auction an event opens: a new one has no bid, no bidder, and is not settled. */
  predicate OpensAs(e: Event, a: Auction) {
    match e
    case CreatedEvent(nounId, startTime, endTime) =>
      && a.nounId == nounId && a.startTime == startTime && a.endTime == endTime
      && a.amount == 0 && a.bidder == "" && !a.settled
    case FullEvent(auction) => a == auction
    case _ => false
  }

  /** Noun and start of the opening event, the last extension if any, and whether a settlement followed. */
  ghost predicate TermsRight(es: seq<Event>, s: AuctionState) {
    var c := Occurrences.Last(es, OPENING);
    && (s.activeAuction.Some? <==> c.Some?)
    && (c.Some? ==> TermsSince(es[c.value], es[c.value + 1..], s.activeAuction.value))
  }

  ghost predicate TermsSince(opening: Event, rest: seq<Event>, a: Auction) {
    exists start :: OpensAs(opening, start) && Follows(start, rest, a)
  }

  predicate Follows(start: Auction, rest: seq<Event>, a: Auction) {
    && a.nounId == start.nounId && a.startTime == start.startTime && a.endTime == EndAfter(rest, start)
    && (a.settled <==> start.settled || Occurrences.Last(rest, Settling(start.nounId)).Some?)
  }

  function EndAfter(rest: seq<Event>, start: Auction): nat {
    var e := Occurrences.LastOf(rest, Extending(start.nounId));
    if e.Some? then e.value.endTime else start.endTime
  }

  lemma OpeningTerms(e: Event, s: AuctionState)
    requires OPENING(e)
    ensures Step(s, e).activeAuction.Some? && TermsSince(e, [], Step(s, e).activeAuction.value)
  {
    var a := Step(s, e).activeAuction.value;
    assert OpensAs(e, a) && Follows(a, [], a);
  }

  lemma StepFollows(start: Auction, rest: seq<Event>, e: Event, s: AuctionState)
    requires !OPENING(e) && s.activeAuction.Some? && Follows(start, rest, s.activeAuction.value)
    ensures Step(s, e).activeAuction.Some? && Follows(start, rest + [e], Step(s, e).activeAuction.value)
  {
    Occurrences.LastSnoc(rest, e, Extending(start.nounId));
    Occurrences.LastSnoc(rest, e, Settling(start.nounId));
  }

  lemma LaterTerms(opening: Event, rest: seq<Event>, e: Event, s: AuctionState)
    requires !OPENING(e) && s.activeAuction.Some? && TermsSince(opening, rest, s.activeAuction.value)
    ensures Step(s, e).activeAuction.Some? && TermsSince(opening, rest + [e], Step(s, e).activeAuction.value)
  {
    var start :| OpensAs(opening, start) && Follows(start, rest, s.activeAuction.value);
    StepFollows(start, rest, e, s);
  }

  /** After any stream of events the terms are those of the last opening and what followed it. */
  lemma {:induction false} TermsAreTheirEvents(es: seq<Event>)
    ensures TermsRight(es, Run(NOTHING, es))
  {
    if es != [] {
      var init, e := es[..|es| - 1], es[|es| - 1];
      assert es == init + [e];
      TermsAreTheirEvents(init);
      TermsStep(init, e, Run(NOTHING, init));
    }
  }

  lemma TermsStep(init: seq<Event>, e: Event, s: AuctionState)
    requires TermsRight(init, s)
    ensures TermsRight(init + [e], Step(s, e))
  {
    var c := Occurrences.Last(init, OPENING);
    Occurrences.LastSnoc(init, e, OPENING);
    if OPENING(e) {
      Occurrences.TailSnoc(init, e, 0);
      OpeningTerms(e, s);
    } else if c.Some? {
      var k := c.value;
      assert (init + [e])[k] == init[k];
      Occurrences.TailSnoc(init, e, k + 1);
      LaterTerms(init[k], init[k + 1..], e, s);
    }
  }

  // ---------- the price ----------

  /** A bid on the active noun whose transaction hash is not in the list. */
  predicate Accepts(s: AuctionState, b: Bid) {
    && s.activeAuction.Some? && s.activeAuction.value.nounId == b.nounId
    && forall i :: 0 <= i < |s.bids| ==> s.bids[i].transactionHash != b.transactionHash
  }

  predicate SettlesNow(s: AuctionState, e: Event) {
    e.SettledEvent? && s.activeAuction.Some? && s.activeAuction.value.nounId == e.nounId
  }

  /** The event sets amount and bidder. */
  predicate Prices(s: AuctionState, e: Event) {
    OPENING(e) || SettlesNow(s, e) || (e.BidEvent? && Accepts(s, e.bid))
  }

  predicate PricesAt(es: seq<Event>, k: nat)
    requires k < |es|
  {
    Prices(Run(NOTHING, es[..k]), es[k])
  }

  /** No bid of the list exceeds it, and those behind it are lower: of equal bids the one that came first. */
  ghost predicate IsTop(bids: seq<Bid>, b: Bid) {
    exists i :: TopAt(bids, i, b)
  }

  predicate TopAt(bids: seq<Bid>, i: nat, b: Bid) {
    && i < |bids| && bids[i] == b && (forall j :: 0 <= j < i ==> bids[j].value <= b.value)
    && forall j :: i < j < |bids| ==> bids[j].value < b.value
  }

  lemma LongerTop(init: seq<Bid>, last: Bid, i: nat, top: Bid)
    requires TopAt(init, i, top)
    ensures if top.value > last.value then TopAt(init + [last], i, top) else TopAt(init + [last], |init|, last)
  {
    var bids := init + [last];
    assert forall j :: 0 <= j < |init| ==> bids[j] == init[j] && init[j].value <= top.value;
  }

  lemma {:induction false} MaxBidIsLastTop(bids: seq<Bid>)
    requires bids != []
    ensures IsTop(bids, MaxBid(bids))
  {
    var init, last := bids[..|bids| - 1], bids[|bids| - 1];
    if init == [] {
      assert TopAt(bids, 0, MaxBid(bids));
    } else {
      MaxBidIsLastTop(init);
      var i :| TopAt(init, i, MaxBid(init));
      LongerTop(init, last, i, MaxBid(init));
      assert bids == init + [last];
    }
  }

  /** Amount and bidder as the event sets them; a bid leaves those of the top of the list it joins in front. */
  ghost predicate PriceOf(before: AuctionState, e: Event, amount: nat, bidder: string) {
    match e
    case CreatedEvent(_, _, _) => amount == 0 && bidder == ""
    case FullEvent(auction) => amount == auction.amount && bidder == auction.bidder
    case SettledEvent(_, winner, paid) => amount == paid && bidder == winner
    case BidEvent(bid) => exists top :: IsTop([bid] + before.bids, top) && amount == top.value && bidder == top.sender
    case ExtendedEvent(_, _) => false
  }

  lemma PricingEvent(s: AuctionState, e: Event)
    requires Prices(s, e)
    ensures Step(s, e).activeAuction.Some?
    ensures var a := Step(s, e).activeAuction.value; PriceOf(s, e, a.amount, a.bidder)
  {
    if e.BidEvent? {
      MaxBidIsLastTop([e.bid] + s.bids);
      assert !ContainsBid(s.bids, e.bid);
    }
  }

  lemma OtherEvent(s: AuctionState, e: Event)
    requires !Prices(s, e) && s.activeAuction.Some?
    ensures Step(s, e).activeAuction.Some?
    ensures var (a, b) := (s.activeAuction.value, Step(s, e).activeAuction.value);
            b.amount == a.amount && b.bidder == a.bidder
  {
    if e.BidEvent? && s.activeAuction.value.nounId == e.bid.nounId {
      var i :| 0 <= i < |s.bids| && s.bids[i].transactionHash == e.bid.transactionHash;
      assert SameHash(s.bids[i], e.bid);
    }
  }

  /** After any stream of events amount and bidder are those set by the last event that sets them. */
  lemma {:induction false} PriceIsItsEvent(es: seq<Event>, k: nat)
    requires k < |es| && PricesAt(es, k) && forall j :: k < j < |es| ==> !PricesAt(es, j)
    ensures Run(NOTHING, es).activeAuction.Some?
    ensures var a := Run(NOTHING, es).activeAuction.value;
            PriceOf(Run(NOTHING, es[..k]), es[k], a.amount, a.bidder)
    decreases |es|
  {
    var n := |es| - 1;
    if k == n {
      PricingEvent(Run(NOTHING, es[..n]), es[n]);
    } else {
      var init := es[..n];
      assert forall j :: k <= j < n ==> init[..j] == es[..j];
      forall j | k < j < n ensures !PricesAt(init, j) { assert !PricesAt(es, j); }
      PriceIsItsEvent(init, k);
      assert !PricesAt(es, n);
      OtherEvent(Run(NOTHING, init), es[n]);
    }
  }

  /** A new auction starts without bids, an accepted bid goes in front, and no other event moves the list. */
  lemma BidsMove(s: AuctionState, e: Event)
    ensures Step(s, e).bids ==
            if e.CreatedEvent? then []
            else if e.BidEvent? && Accepts(s, e.bid) then [e.bid] + s.bids
            else s.bids
  {
    if e.BidEvent? && IsActive(s, e.bid.nounId) {
      assert ContainsBid(s.bids, e.bid) <==>
             exists i :: 0 <= i < |s.bids| && s.bids[i].transactionHash == e.bid.transactionHash;
    }
  }
}
