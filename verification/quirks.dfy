/** Behaviour the entry points show when composed: the listing round trip
    and the bidding scenarios, and the places where the bookkeeping does not
    add up. */
module Scenarios {
  import opened Base
  import opened Errors
  import opened Detail
  import opened Bids
  import opened OfferStruct
  import opened Store
  import opened Purse
  import opened Registry
  import opened MarketState
  import opened OrderBook
  import opened OfferBook
  import opened Invariants
  import OnOrders
  import OnOffers
  import Seqs

  /** Listing and then cancelling, on a direct call by the same account,
      gives the token back to that account and leaves the order index as it
      was, with the order kept but inactive. */
  lemma {:induction false} ListThenCancel(st: State, ctx: Ctx, c: Collection, t: TokenId, price: U512)
    requires DirectCall(ctx)
    requires CreateOrder(st, ctx, c, t, price).Success?
    ensures var s1 := CreateOrder(st, ctx, c, t, price).value;
            var s2 := CancelOrder(s1, ctx, c, t);
            && s2.Success?
            && s2.value.onOrders == st.onOrders
            && OwnerOf(s2.value.registry, c, t) == Success(Some(AccountAddr(ctx.caller)))
            && ReadOrder(s2.value.slots, c, t) == Success(Order(c, t, ctx.caller, price, false))
  {
    DirectCallResolves(ctx);
    var s1 := CreateOrder(st, ctx, c, t, price).value;
    var index := st.onOrders.value;
    assert !st.registry[c].ignoresTransfers;
    assert OnOrders.Position(index + [(c, t)], c, t) == Some(|index|);
    Seqs.RemoveLast(index, (c, t));
  }

  /** Once cancelled, the token can be listed again. */
  lemma {:induction false} RelistAfterCancel(st: State, ctx: Ctx, c: Collection, t: TokenId, price: U512)
    requires Valid(st) && CancelOrder(st, ctx, c, t).Success?
    ensures var s1 := CancelOrder(st, ctx, c, t).value;
            Listable(s1, c, t) && CreateOrder(s1, ctx, c, t, price) != Failure(Revert(OrderExist))
  {
    var i := OnOrders.Position(st.onOrders.value, c, t).value;
    Seqs.DistinctRemoveAt(st.onOrders.value, i);
  }

  /** Only the lister can buy: a successful purchase is always by the
      account that listed the token. */
  lemma BuyerIsLister(st: State, ctx: Ctx, c: Collection, t: TokenId, amount: U512)
    requires BuyOrder(st, ctx, c, t, amount).Success?
    ensures ctx.caller == ReadOrder(st.slots, c, t).value.offerer
  {
  }

  /** The purchase pays the lister and the treasury exactly the two fee
      shares of the price, out of the escrow purse, and the token is no
      longer listed. */
  lemma {:induction false} PurchaseSettlement(st: State, ctx: Ctx, c: Collection, t: TokenId, amount: U512)
    requires Valid(st) && BuyOrder(st, ctx, c, t, amount).Success?
    ensures var r := BuyOrder(st, ctx, c, t, amount).value;
            var o := ReadOrder(st.slots, c, t).value;
            && st.treasuryWallet.Some?
            && r.escrow.payouts == st.escrow.payouts + [Payment(o.offerer, SellerShare(amount, ReadFee(st))),
                                                        Payment(st.treasuryWallet.value, TreasuryShare(amount, ReadFee(st)))]
            && LiveBalance(r.escrow) + SellerShare(amount, ReadFee(st)) + TreasuryShare(amount, ReadFee(st)) == LiveBalance(st.escrow)
            && ReadOrder(r.slots, c, t) == Success(o.(isActive := false))
            && !Listed(r, c, t)
  {
    var r := BuyOrder(st, ctx, c, t, amount).value;
    assert CheckedBalance(st.escrow, amount).value.0.live == st.escrow.live;
    var i := OnOrders.Position(st.onOrders.value, c, t).value;
    Seqs.DistinctRemoveAt(st.onOrders.value, i);
  }
}
