/** Bidding scenarios, and the places where the offer bookkeeping and the
    escrow purse fall out of step. */
module OfferScenarios {
  import opened Base
  import opened Errors
  import opened Detail
  import opened Bids
  import opened OfferStruct
  import opened Store
  import opened Purse
  import opened MarketState
  import opened OrderBook
  import opened OfferBook
  import opened Invariants
  import OnOffers
  import Seqs

  /** Two different accounts bidding on a token nobody has bid on yet leave
      two bids, in the order they were placed. */
  lemma {:induction false} TwoBidders(st: State, a: Ctx, b: Ctx, c: Collection, t: TokenId, pa: U512, pb: U512)
    requires Valid(st) && DictionaryKey(c, t) !in st.slots && a.caller != b.caller
    requires CreateOffer(st, a, c, t, pa).Success?
    requires CreateOffer(CreateOffer(st, a, c, t, pa).value, b, c, t, pb).Success?
    ensures var s2 := CreateOffer(CreateOffer(st, a, c, t, pa).value, b, c, t, pb).value;
            CurrentOffer(s2, c, t) == Success(Offer(c, t, [NewBid(a, pa), NewBid(b, pb)]))
  {
    var s1 := CreateOffer(st, a, c, t, pa).value;
    assert CurrentOffer(st, c, t) == Success(Offer(c, t, []));
    assert !Indexed(st, c, t, a.caller);
    var p1 := s1.result.value.offer;
    assert p1.bids == [] + [NewBid(a, pa)];
    assert p1 == Offer(c, t, [NewBid(a, pa)]);
    assert s1.slots == WriteOffer(st.slots, p1);
    assert CurrentOffer(s1, c, t) == Success(p1);
    assert !Indexed(s1, c, t, b.caller) by {
      assert BidIndexByAccount(Offer(c, t, [NewBid(a, pa)]), b.caller).None?;
    }
    var s2 := CreateOffer(s1, b, c, t, pb).value;
    var p2 := s2.result.value.offer;
    assert p2 == Offer(c, t, [NewBid(a, pa), NewBid(b, pb)]);
    assert CurrentOffer(s2, c, t) == Success(p2);
  }

  /** Of two bids, cancelling the first leaves exactly the second, and
      refunds the first bidder their price. */
  lemma {:induction false} CancelFirstOfTwo(st: State, a: Ctx, b: Ctx, c: Collection, t: TokenId, pa: U512, pb: U512)
    requires Valid(st) && CurrentOffer(st, c, t) == Success(Offer(c, t, [NewBid(a, pa), NewBid(b, pb)]))
    requires a.caller != b.caller
    requires CancelOffer(st, a, c, t).Success?
    ensures var r := CancelOffer(st, a, c, t).value;
            && CurrentOffer(r, c, t) == Success(Offer(c, t, [NewBid(b, pb)]))
            && r.escrow.payouts == st.escrow.payouts + [Payment(a.caller, pa)]
  {
    var o := Offer(c, t, [NewBid(a, pa), NewBid(b, pb)]);
    assert BidIndexByAccount(o, a.caller) == Some(0);
    assert Seqs.RemoveAt(o.bids, 0) == [NewBid(b, pb)];
  }

  /** After `accept_offer` the winning bid is gone but the winner's index
      entry is not: the index lists a bidder with no bid. */
  lemma {:induction false} AcceptLeavesStaleEntry(st: State, ctx: Ctx, c: Collection, t: TokenId, bidId: U8, winner: AccountHash)
    requires Valid(st)
    requires AcceptOffer(st, ctx, c, t, bidId).Success?
    requires winner == CurrentOffer(st, c, t).value.bids[bidId].offerer
    ensures Indexed(AcceptOffer(st, ctx, c, t, bidId).value, c, t, winner)
    ensures CurrentOffer(AcceptOffer(st, ctx, c, t, bidId).value, c, t).Success?
    ensures BidIndexByAccount(CurrentOffer(AcceptOffer(st, ctx, c, t, bidId).value, c, t).value, winner).None?
  {
    var o := CurrentOffer(st, c, t).value;
    CurrentOfferValid(st, c, t);
    RemoveBid(o.bids, bidId as nat);
  }

  /** So the winner can neither withdraw nor bid again on that token:
      `cancel_offer` finds the entry but no bid, and `create_offer` finds
      the entry, looks for the old bid and panics. */
  lemma {:induction false} WinnerIsStuck(st: State, ctx: Ctx, c: Collection, t: TokenId, bidId: U8, w: Ctx, price: U512)
    requires Valid(st) && AcceptOffer(st, ctx, c, t, bidId).Success?
    requires w.caller == CurrentOffer(st, c, t).value.bids[bidId].offerer
    ensures var r := AcceptOffer(st, ctx, c, t, bidId).value;
            && CancelOffer(r, w, c, t) == Failure(Revert(PermissionDenied))
            && CreateOffer(r, w, c, t, price).Failure?
  {
    AcceptLeavesStaleEntry(st, ctx, c, t, bidId, w.caller);
  }

  /** A bidder who bids again loses the old bid without a refund: nothing
      is paid out, the purse keeps the old deposit, and the old bid is no
      longer in the offer. */
  lemma {:induction false} RebidLeaksEscrow(st: State, ctx: Ctx, c: Collection, t: TokenId, price: U512)
    requires Valid(st) && Indexed(st, c, t, ctx.caller) && CreateOffer(st, ctx, c, t, price).Success?
    ensures var r := CreateOffer(st, ctx, c, t, price).value;
            var prior := CurrentOffer(st, c, t).value;
            var p := CurrentOffer(r, c, t).value;
            && r.escrow.payouts == st.escrow.payouts
            && LiveBalance(r.escrow) == LiveBalance(st.escrow)
            && (exists i :: 0 <= i < |prior.bids| && prior.bids[i].offerer == ctx.caller)
            && p.bids[|p.bids| - 1] == NewBid(ctx, price)
            && (forall j :: 0 <= j < |p.bids| - 1 ==> p.bids[j].offerer != ctx.caller)
  {
    var r := CreateOffer(st, ctx, c, t, price).value;
    var prior := CurrentOffer(st, c, t).value;
    var i := BidIndexByAccount(prior, ctx.caller).value;
    CurrentOfferValid(st, c, t);
    RemoveBid(prior.bids, i);
    assert CurrentOffer(r, c, t) == Success(r.result.value.offer);
  }

  /** Listing a token that has bids overwrites its offer: afterwards the
      offer cannot be read, so no bidder on it can withdraw. */
  lemma {:induction false} ListingHidesOffer(st: State, ctx: Ctx, c: Collection, t: TokenId, price: U512, w: Ctx)
    requires CreateOrder(st, ctx, c, t, price).Success?
    requires DictionaryKey(c, t) in st.slots && st.slots[DictionaryKey(c, t)].OfferSlot?
    requires Indexed(st, c, t, w.caller)
    ensures var r := CreateOrder(st, ctx, c, t, price).value;
            && CurrentOffer(r, c, t) == Failure(HostError(ApiDeserialize))
            && CancelOffer(r, w, c, t) == Failure(HostError(ApiDeserialize))
  {
  }

  /** Once a token has been listed, its slot holds an order for good, and
      every bid on it that gets past the deposit check aborts. */
  lemma {:induction false} NoBidsAfterListing(st: State, ctx: Ctx, c: Collection, t: TokenId, price: U512)
    requires DictionaryKey(c, t) in st.slots && st.slots[DictionaryKey(c, t)].OrderSlot?
    requires CheckedBalance(st.escrow, price).Success?
    ensures CreateOffer(st, ctx, c, t, price) == Failure(HostError(ApiDeserialize))
  {
  }

  /** After every entry point that moves currency the cached purse balance
      equals the ledger's. */
  lemma EscrowSyncedAfter(st: State, ctx: Ctx, c: Collection, t: TokenId, amount: U512, bidId: U8)
    ensures BuyOrder(st, ctx, c, t, amount).Success? ==> Synced(BuyOrder(st, ctx, c, t, amount).value.escrow)
    ensures CreateOffer(st, ctx, c, t, amount).Success? ==> Synced(CreateOffer(st, ctx, c, t, amount).value.escrow)
    ensures CancelOffer(st, ctx, c, t).Success? ==> Synced(CancelOffer(st, ctx, c, t).value.escrow)
    ensures AcceptOffer(st, ctx, c, t, bidId).Success? ==> Synced(AcceptOffer(st, ctx, c, t, bidId).value.escrow)
  {
  }
}
