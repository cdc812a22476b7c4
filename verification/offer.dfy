/** The offer record: every bid placed on one token, its lookup of a
    bidder's bid, its hand-written equality and its serialized form. */
module OfferStruct {
  import opened Base
  import opened Bytesrepr
  import opened Bids
  import Seqs

  datatype Offer = Offer(collection: Collection, tokenId: TokenId, bids: seq<Bid>)

  /** `get_bid_index_by_account`: the position of the first bid placed by
      `account`, if any. */
  function BidIndexByAccount(o: Offer, account: AccountHash): (r: Option<nat>)
    ensures r.Some? ==> r.value < |o.bids| && o.bids[r.value].offerer == account
    ensures r.Some? ==> forall j :: 0 <= j < r.value ==> o.bids[j].offerer != account
    ensures r.None? <==> forall j :: 0 <= j < |o.bids| ==> o.bids[j].offerer != account
  {
    Seqs.Position(o.bids, (b: Bid) => b.offerer == account)
  }

  /** No bidder has two bids in the list. */
  ghost predicate DistinctBidders(bids: seq<Bid>) {
    forall i, j :: 0 <= i < j < |bids| ==> bids[i].offerer != bids[j].offerer
  }

  ghost predicate AllPending(bids: seq<Bid>) {
    forall i :: 0 <= i < |bids| ==> bids[i].status == Pending
  }

  /** The number of positions at which the two lists, zipped, hold equal
      bids; zipping stops at the shorter list. */
  function MatchingPairs(a: seq<Bid>, b: seq<Bid>): nat
    decreases |a|
  {
    if |a| == 0 || |b| == 0 then 0
    else (if a[0] == b[0] then 1 else 0) + MatchingPairs(a[1..], b[1..])
  }

  /** `PartialEq for Offer`: same token, and as many zipped equal pairs as
      the left-hand offer has bids. */
  predicate OfferEq(x: Offer, y: Offer) {
    && x.collection == y.collection
    && x.tokenId == y.tokenId
    && MatchingPairs(x.bids, y.bids) == |x.bids|
  }

  lemma {:induction false} MatchingPairsBounded(a: seq<Bid>, b: seq<Bid>)
    ensures MatchingPairs(a, b) <= |a| && MatchingPairs(a, b) <= |b|
    decreases |a|
  {
    if |a| != 0 && |b| != 0 {
      MatchingPairsBounded(a[1..], b[1..]);
    }
  }

  /** All of `a` is matched exactly when `a` is a prefix of `b`. */
  lemma {:induction false} MatchingPairsFullIffPrefix(a: seq<Bid>, b: seq<Bid>)
    ensures MatchingPairs(a, b) == |a| <==> a <= b
    decreases |a|
  {
    if |a| == 0 {
    } else if |b| == 0 {
    } else {
      MatchingPairsFullIffPrefix(a[1..], b[1..]);
      if a[0] == b[0] {
        assert a <= b <==> a[1..] <= b[1..];
      } else {
        MatchingPairsBounded(a[1..], b[1..]);
      }
    }
  }

  /** The equality holds exactly when both offers name the same token and
      the left-hand bids are a prefix of the right-hand bids. */
  lemma OfferEqMeansPrefix(x: Offer, y: Offer)
    ensures OfferEq(x, y) <==> x.collection == y.collection && x.tokenId == y.tokenId && x.bids <= y.bids
  {
    MatchingPairsFullIffPrefix(x.bids, y.bids);
  }

  /** Hence it is not symmetric: an offer without bids equals every offer on
      the same token, but not the other way round. */
  lemma OfferEqAsymmetric(x: Offer, b: Bid)
    ensures OfferEq(x.(bids := []), x.(bids := [b]))
    ensures !OfferEq(x.(bids := [b]), x.(bids := []))
  {
  }

  /** The bids written one after another. */
  function EncodeBidSeq(bids: seq<Bid>): seq<Field> {
    if |bids| == 0 then [] else EncodeBid(bids[0]) + EncodeBidSeq(bids[1..])
  }

  /** `Vec<Bid>::to_bytes`: the element count, then each bid. */
  function EncodeBids(bids: seq<Bid>): seq<Field> {
    [LengthField(|bids|)] + EncodeBidSeq(bids)
  }

  /** Reads `n` bids one after another. */
  function DecodeBidSeq(n: nat, fs: seq<Field>): (r: Result<(seq<Bid>, seq<Field>), DecodeError>)
    ensures r.Success? ==> |r.value.0| == n
  {
    if n == 0 then Success(([], fs))
    else
      var first :- DecodeBid(fs);
      var others :- DecodeBidSeq(n - 1, first.1);
      Success(([first.0] + others.0, others.1))
  }

  /** `Vec<Bid>::from_bytes`. */
  function DecodeBids(fs: seq<Field>): Result<(seq<Bid>, seq<Field>), DecodeError> {
    if |fs| == 0 || !fs[0].LengthField? then Failure(Malformed)
    else DecodeBidSeq(fs[0].count, fs[1..])
  }

  /** `Offer::to_bytes`: collection, token id, bids. */
  function EncodeOffer(o: Offer): seq<Field> {
    [ContractHashField(o.collection), U256Field(o.tokenId)] + EncodeBids(o.bids)
  }

  /** `Offer::from_bytes`, in the same field order. */
  function DecodeOffer(fs: seq<Field>): Result<(Offer, seq<Field>), DecodeError> {
    if |fs| < 1 || !fs[0].ContractHashField? then Failure(Malformed)
    else if |fs| < 2 || !fs[1].U256Field? then Failure(Malformed)
    else
      var bids :- DecodeBids(fs[2..]);
      Success((Offer(fs[0].hash, fs[1].mid, bids.0), bids.1))
  }

  lemma {:induction false} BidSeqRoundTrip(bids: seq<Bid>, rest: seq<Field>)
    ensures DecodeBidSeq(|bids|, EncodeBidSeq(bids) + rest) == Success((bids, rest))
  {
    if |bids| == 0 {
      assert EncodeBidSeq(bids) + rest == rest;
    } else {
      var tail := EncodeBidSeq(bids[1..]) + rest;
      assert EncodeBidSeq(bids) + rest == EncodeBid(bids[0]) + tail;
      BidRoundTrip(bids[0], tail);
      BidSeqRoundTrip(bids[1..], rest);
      var first := DecodeBid(EncodeBid(bids[0]) + tail);
      assert first == Success((bids[0], tail));
      assert [bids[0]] + bids[1..] == bids;
    }
  }

  /** Decoding an encoded offer gives it back, whatever follows it. */
  lemma OfferRoundTrip(o: Offer, rest: seq<Field>)
    ensures DecodeOffer(EncodeOffer(o) + rest) == Success((o, rest))
  {
    var fs := EncodeOffer(o) + rest;
    assert fs[2..] == [LengthField(|o.bids|)] + (EncodeBidSeq(o.bids) + rest);
    assert fs[2..][1..] == EncodeBidSeq(o.bids) + rest;
    BidSeqRoundTrip(o.bids, rest);
  }
}
