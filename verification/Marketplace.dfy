/** Clearing bids against capacity offers (channel.rs): the stateless preview `match_offer` and
    the ledger that keeps an offer from being sold beyond what it advertises. */
module Marketplace {
  import opened Wrappers
  import opened Bytes
  import opened SignedObjects
  import Hex

  /** SHA-256: any function from bytes to 32 bytes. */
  type Digest = Bytes -> Key

  datatype SignedOffer = SignedOffer(offer: Offer, signature: Signature)
  datatype SignedBid = SignedBid(bid: Bid, signature: Signature)

  datatype Match = Match(provider: Key, consumer: Key, kind: CapacityKind, model: Text, units: u64, totalPrice: u64, matchRef: Key)

  // ---- `match_offer` ----

  predicate OfferIsValid(verify: Verifier, o: SignedOffer, now: u64) {
    now < o.offer.expiresAt && verify(o.offer.holder, SigningBytes(CapacityOffer(o.offer)), o.signature)
  }

  predicate BidIsValid(verify: Verifier, b: SignedBid, now: u64) {
    now < b.bid.expiresAt && verify(b.bid.bidder, SigningBytes(CapacityBid(b.bid)), b.signature)
  }

  /** What `match_ref` hashes. */
  function MatchPreimage(offer: Offer, bid: Bid): Bytes {
    Fix(Hex.Ascii("ct-capacity-match-v1"), Fix(offer.holder, Fix(bid.bidder, Tag(KindTag(bid.kind), Var(bid.model,
    U64(bid.units, U64(bid.totalPrice, U64(bid.issuedAt, U64(offer.issuedAt, [])))))))))
  }

  /** The bid asks for what the offer offers, at a price the offer accepts. */
  predicate Compatible(offer: Offer, bid: Bid) {
    && offer.kind == bid.kind && bid.model in offer.models
    && (bid.service.Some? ==> bid.service.value in offer.services)
    && bid.units <= offer.unitsAvailable && offer.minPrice <= bid.totalPrice
  }

  /** Clears exactly the compatible pairs that are both signed and unexpired, on the bid's terms. */
  function MatchOffer(verify: Verifier, sha: Digest, o: SignedOffer, b: SignedBid, now: u64): (r: Option<Match>)
    ensures r.Some? <==> OfferIsValid(verify, o, now) && BidIsValid(verify, b, now) && Compatible(o.offer, b.bid)
    ensures r.Some? ==>
              && r.value.provider == o.offer.holder && r.value.consumer == b.bid.bidder
              && r.value.kind == o.offer.kind && r.value.model == b.bid.model
              && r.value.units == b.bid.units && r.value.totalPrice == b.bid.totalPrice
              && r.value.matchRef == sha(MatchPreimage(o.offer, b.bid))
  {
    var offer, bid := o.offer, b.bid;
    if !OfferIsValid(verify, o, now) || !BidIsValid(verify, b, now) then None
    else if offer.kind != bid.kind then None
    else if bid.model !in offer.models then None
    else if bid.service.Some? && bid.service.value !in offer.services then None
    else if offer.unitsAvailable < bid.units then None
    else if bid.totalPrice < offer.minPrice then None
    else Some(Match(offer.holder, bid.bidder, bid.kind, bid.model, bid.units, bid.totalPrice, sha(MatchPreimage(offer, bid))))
  }

  /** The same with every check spelled out. */
  lemma MatchInPlainTerms(verify: Verifier, sha: Digest, o: SignedOffer, b: SignedBid, now: u64)
    ensures MatchOffer(verify, sha, o, b, now).Some? <==>
              && now < o.offer.expiresAt && verify(o.offer.holder, SigningBytes(CapacityOffer(o.offer)), o.signature)
              && now < b.bid.expiresAt && verify(b.bid.bidder, SigningBytes(CapacityBid(b.bid)), b.signature)
              && o.offer.kind == b.bid.kind
              && (exists i :: 0 <= i < |o.offer.models| && o.offer.models[i] == b.bid.model)
              && (b.bid.service.Some? ==> exists i :: 0 <= i < |o.offer.services| && o.offer.services[i] == b.bid.service.value)
              && b.bid.units <= o.offer.unitsAvailable && b.bid.totalPrice >= o.offer.minPrice
  {
  }

  /** The bytes under `match_ref` determine the parties, the terms and both issue times. */
  lemma MatchPreimageIsInjective(o: Offer, b: Bid, p: Offer, c: Bid)
    requires MatchPreimage(o, b) == MatchPreimage(p, c)
    ensures o.holder == p.holder && b.bidder == c.bidder && b.kind == c.kind && b.model == c.model && b.units == c.units
    ensures b.totalPrice == c.totalPrice && b.issuedAt == c.issuedAt && o.issuedAt == p.issuedAt
  {
    FieldsAreReadable();
  }

  // ---- `OfferCommitments` ----

  type Ledger = map<Signature, u64>

  function Committed(ledger: Ledger, o: SignedOffer): u64 {
    if o.signature in ledger then ledger[o.signature] else 0
  }

  function Remaining(ledger: Ledger, o: SignedOffer): u64 {
    var c := Committed(ledger, o);
    if o.offer.unitsAvailable >= c then o.offer.unitsAvailable - c else 0
  }

  predicate Fits(ledger: Ledger, o: SignedOffer, units: u64) {
    var total := Committed(ledger, o) + units;
    total < U64_LIMIT && total <= o.offer.unitsAvailable
  }

  function AfterCommit(ledger: Ledger, o: SignedOffer, units: u64): Ledger {
    if Fits(ledger, o, units) then ledger[o.signature := Committed(ledger, o) + units] else ledger
  }

  class OfferCommitments {
    var ledger: Ledger

    constructor ()
      ensures ledger == map[]
    {
      ledger := map[];
    }

    method Commit(o: SignedOffer, units: u64) returns (booked: bool)
      modifies this
      ensures ledger == AfterCommit(old(ledger), o, units)
      ensures booked <==> Fits(old(ledger), o, units)
      ensures booked ==> Committed(ledger, o) == Committed(old(ledger), o) + units
    {
      var already := Committed(ledger, o);
      if already + units >= U64_LIMIT {
        return false;
      }
      var total: u64 := already + units;
      if total <= o.offer.unitsAvailable {
        ledger := ledger[o.signature := total];
        return true;
      }
      return false;
    }
  }

  // ---- Whole runs of commits on any mix of offers ----

  datatype Request = Request(o: SignedOffer, units: u64)

  function Run(requests: seq<Request>): Ledger {
    if requests == [] then map[]
    else
      var last := requests[|requests| - 1];
      AfterCommit(Run(requests[..|requests| - 1]), last.o, last.units)
  }

  /** The reference: one offer of `limit` units, booked first come, first served. */
  function Booked(limit: nat, asks: seq<nat>): (b: nat)
    ensures b <= limit
  {
    if asks == [] then 0
    else
      var before, ask := Booked(limit, asks[..|asks| - 1]), asks[|asks| - 1];
      if before + ask <= limit then before + ask else before
  }

  /** The units asked of the offer with signature `sig`, in order. */
  function AsksOf(requests: seq<Request>, sig: Signature): seq<nat> {
    if requests == [] then []
    else
      var last := requests[|requests| - 1];
      AsksOf(requests[..|requests| - 1], sig) + (if last.o.signature == sig then [last.units] else [])
  }

  /** A signature fixes the offer it signs, in particular how many units it advertises. */
  predicate SignaturesFixUnits(requests: seq<Request>, units: Signature -> u64) {
    forall i | 0 <= i < |requests| :: requests[i].o.offer.unitsAvailable == units(requests[i].o.signature)
  }

  /** Every offer's tally is the first-come, first-served booking of its own requests alone:
      offers do not affect each other, a request is refused only when it would not fit, and no
      offer is booked beyond its advertised units. */
  lemma {:induction false} LedgerIsExact(requests: seq<Request>, units: Signature -> u64, o: SignedOffer)
    requires SignaturesFixUnits(requests, units) && o.offer.unitsAvailable == units(o.signature)
    ensures Committed(Run(requests), o) == Booked(o.offer.unitsAvailable, AsksOf(requests, o.signature))
    ensures Committed(Run(requests), o) + Remaining(Run(requests), o) == o.offer.unitsAvailable
  {
    if requests != [] {
      var n := |requests| - 1;
      var before, last := requests[..n], requests[n];
      assert last.o.offer.unitsAvailable == units(last.o.signature);
      LedgerIsExact(before, units, o);
      CommitBooksItsOffer(Run(before), last, o);
      var asks := AsksOf(before, o.signature);
      assert AsksOf(requests, o.signature) == if last.o.signature == o.signature then asks + [last.units] else asks;
      BookedOneMore(o.offer.unitsAvailable, asks, last.units);
    }
  }

  lemma CommitBooksItsOffer(ledger: Ledger, r: Request, o: SignedOffer)
    requires r.o.signature == o.signature ==> r.o.offer.unitsAvailable == o.offer.unitsAvailable
    ensures Committed(AfterCommit(ledger, r.o, r.units), o)
         == if r.o.signature == o.signature && Committed(ledger, o) + r.units <= o.offer.unitsAvailable
            then Committed(ledger, o) + r.units else Committed(ledger, o)
  {
  }

  lemma BookedOneMore(limit: nat, asks: seq<nat>, ask: nat)
    ensures Booked(limit, asks + [ask])
         == if Booked(limit, asks) + ask <= limit then Booked(limit, asks) + ask else Booked(limit, asks)
  {
    assert (asks + [ask])[..|asks|] == asks;
  }

  // ---- Clearing and committing ----

  /** Bids on one offer, cleared by `match_offer` and then committed: the units of the matches kept. */
  function Sold(verify: Verifier, sha: Digest, o: SignedOffer, bids: seq<SignedBid>, ledger: Ledger, now: u64): (r: (nat, Ledger))
    decreases |bids|
  {
    if bids == [] then (0, ledger)
    else
      match MatchOffer(verify, sha, o, bids[0], now)
      case None => Sold(verify, sha, o, bids[1..], ledger, now)
      case Some(m) =>
        var (rest, final) := Sold(verify, sha, o, bids[1..], AfterCommit(ledger, o, m.units), now);
        ((if Fits(ledger, o, m.units) then m.units else 0) + rest, final)
  }

  /** Cleared and committed bids never oversell, whatever was booked before; what is sold is
      exactly what the ledger gained. */
  lemma {:induction false} NeverOversold(verify: Verifier, sha: Digest, o: SignedOffer, bids: seq<SignedBid>, ledger: Ledger, now: u64)
    requires Committed(ledger, o) <= o.offer.unitsAvailable
    ensures var (sold, final) := Sold(verify, sha, o, bids, ledger, now);
            Committed(final, o) == Committed(ledger, o) + sold <= o.offer.unitsAvailable
  {
    if bids != [] {
      var r := MatchOffer(verify, sha, o, bids[0], now);
      NeverOversold(verify, sha, o, bids[1..], if r.None? then ledger else AfterCommit(ledger, o, r.value.units), now);
    }
  }
}
