/** The bidding entry points: `create_offer`, `cancel_offer` and
    `accept_offer`. A token's offer holds the open bids for it; the bidder
    index lists one (collection, token, bidder) triple per bid placed. */
module OfferBook {
  import opened Base
  import opened Errors
  import opened Detail
  import opened Bids
  import opened OfferStruct
  import opened Store
  import opened Purse
  import opened Registry
  import opened Events
  import opened MarketState
  import OnOffers
  import Seqs

  /** `read_offer` as the entry points use it: an empty slot stands for a
      fresh offer with no bids; a slot holding an order fails to decode. */
  function CurrentOffer(st: State, c: Collection, t: TokenId): (r: Result<Offer, Abort>)
    ensures DictionaryKey(c, t) !in st.slots ==> r == Success(Offer(c, t, []))
    ensures DictionaryKey(c, t) in st.slots && st.slots[DictionaryKey(c, t)].OfferSlot? ==>
              r == Success(st.slots[DictionaryKey(c, t)].offer)
    ensures DictionaryKey(c, t) in st.slots && st.slots[DictionaryKey(c, t)].OrderSlot? ==>
              r == Failure(HostError(ApiDeserialize))
  {
    var stored :- ReadOffer(st.slots, c, t);
    Success(stored.GetOr(Offer(c, t, [])))
  }

  /** The bidder index lists the caller as a bidder on the token. */
  predicate Indexed(st: State, c: Collection, t: TokenId, bidder: AccountHash) {
    (c, t, bidder) in OnOffers.Read(st.onOffers)
  }

  /** The bid `create_offer` places for the caller. */
  function NewBid(ctx: Ctx, price: U512): (b: Bid)
    ensures b.offerer == ctx.caller && b.price == price && b.bidTime == ctx.blockTime && b.status == Pending
  {
    Bid(ctx.caller, price, ctx.blockTime, Pending)
  }

  /** `create_offer`: places the caller's bid, paid for by the deposit that
      came with the call. A bidder already in the index has their old bid
      taken out first, without a refund; a new bidder is appended to the
      index. The new bid always goes last. */
  function CreateOffer(st: State, ctx: Ctx, c: Collection, t: TokenId, price: U512): (r: Result<State, Abort>)
    ensures CheckedBalance(st.escrow, price).Failure? ==> r == Failure(Revert(PermissionDenied))
    ensures CheckedBalance(st.escrow, price).Success? && CurrentOffer(st, c, t).Failure? ==>
              r == Failure(HostError(ApiDeserialize))
    ensures CheckedBalance(st.escrow, price).Success? && CurrentOffer(st, c, t).Success? && Indexed(st, c, t, ctx.caller)
            && BidIndexByAccount(CurrentOffer(st, c, t).value, ctx.caller).None?
            ==> r == Failure(Trap)
    ensures CheckedBalance(st.escrow, price).Success? && CurrentOffer(st, c, t).Success?
            && (Indexed(st, c, t, ctx.caller) ==> BidIndexByAccount(CurrentOffer(st, c, t).value, ctx.caller).Some?)
            ==> r.Success?
    ensures r.Success? ==> CheckedBalance(st.escrow, price).Success? && CurrentOffer(st, c, t).Success?
    ensures r.Success? && Indexed(st, c, t, ctx.caller) ==> BidIndexByAccount(CurrentOffer(st, c, t).value, ctx.caller).Some?
    ensures r.Success? ==> r.value.result.Some? && r.value.result.value.OfferResult?
    ensures r.Success? ==>
              var o := CurrentOffer(st, c, t).value;
              var p := r.value.result.value.offer;
              && p.collection == o.collection && p.tokenId == o.tokenId
              && (Indexed(st, c, t, ctx.caller) ==>
                    && p.bids == Seqs.RemoveAt(o.bids, BidIndexByAccount(o, ctx.caller).value) + [NewBid(ctx, price)]
                    && r.value.onOffers == Some(OnOffers.Read(st.onOffers)))
              && (!Indexed(st, c, t, ctx.caller) ==>
                    && p.bids == o.bids + [NewBid(ctx, price)]
                    && r.value.onOffers == Some(OnOffers.Read(st.onOffers) + [(c, t, ctx.caller)]))
              && r.value.slots == WriteOffer(st.slots, p)
              && r.value.escrow == CheckedBalance(st.escrow, price).value.0
              && r.value.events == Emit(st.events, OfferCreated(ctx.caller, c, t, price))
              && r.value == st.(escrow := r.value.escrow, slots := r.value.slots, onOffers := r.value.onOffers,
                                result := r.value.result, events := r.value.events)
  {
    var (escrow, _) :- CheckedBalance(st.escrow, price);
    var offerer := ctx.caller;
    var bid := NewBid(ctx, price);
    var offer :- CurrentOffer(st, c, t);
    var found := OnOffers.Find(st.onOffers, c, t, offerer);
    var index := OnOffers.Read(st.onOffers);
    var kept :- if found.Some? then
                  var i :- SomeOrTrap(BidIndexByAccount(offer, offerer));
                  Success(Seqs.RemoveAt(offer.bids, i))
                else Success(offer.bids);
    var placed := offer.(bids := kept + [bid]);
    var index' := if found.Some? then index else index + [(c, t, offerer)];
    Success(st.(escrow := escrow, result := StoreResult(st.result, OfferResult(placed)),
                slots := WriteOffer(st.slots, placed), onOffers := OnOffers.Write(index'),
                events := Emit(st.events, OfferCreated(offerer, c, t, price))))
  }

  /** `cancel_offer`: withdraws the caller's bid and refunds exactly its
      price from the escrow purse; the caller's index entry goes too, and
      every other bid stays where it was. */
  function CancelOffer(st: State, ctx: Ctx, c: Collection, t: TokenId): (r: Result<State, Abort>)
    ensures !Indexed(st, c, t, ctx.caller) ==> r == Failure(Revert(OfferNotExist))
    ensures Indexed(st, c, t, ctx.caller) && CurrentOffer(st, c, t).Failure? ==> r == Failure(HostError(ApiDeserialize))
    ensures Indexed(st, c, t, ctx.caller) && CurrentOffer(st, c, t).Success?
            && BidIndexByAccount(CurrentOffer(st, c, t).value, ctx.caller).None?
            ==> r == Failure(Revert(PermissionDenied))
    ensures Indexed(st, c, t, ctx.caller) && CurrentOffer(st, c, t).Success?
            && BidIndexByAccount(CurrentOffer(st, c, t).value, ctx.caller).Some?
            ==> var o := CurrentOffer(st, c, t).value;
                var i := BidIndexByAccount(o, ctx.caller).value;
                (r.Success? <==> st.escrow.live.Some? && o.bids[i].price <= st.escrow.live.value)
    ensures r.Success? ==>
              && Indexed(st, c, t, ctx.caller) && CurrentOffer(st, c, t).Success?
              && BidIndexByAccount(CurrentOffer(st, c, t).value, ctx.caller).Some?
    ensures r.Success? ==>
              var o := CurrentOffer(st, c, t).value;
              var i := BidIndexByAccount(o, ctx.caller).value;
              var entry := OnOffers.Position(OnOffers.Read(st.onOffers), c, t, ctx.caller).value;
              var p := o.(bids := Seqs.RemoveAt(o.bids, i));
              && Purse.Transfer(st.escrow, ctx.caller, o.bids[i].price) == Success(r.value.escrow)
              && r.value.escrow.payouts == st.escrow.payouts + [Payment(ctx.caller, o.bids[i].price)]
              && r.value.slots == WriteOffer(st.slots, p)
              && r.value.result == Some(OfferResult(p))
              && r.value.onOffers == Some(Seqs.RemoveAt(OnOffers.Read(st.onOffers), entry))
              && r.value.events == Emit(st.events, OfferCanceled(ctx.caller, c, t))
              && r.value == st.(escrow := r.value.escrow, slots := r.value.slots, onOffers := r.value.onOffers,
                                result := r.value.result, events := r.value.events)
  {
    var offerer := ctx.caller;
    var found := OnOffers.Find(st.onOffers, c, t, offerer);
    if found.None? then Failure(Revert(OfferNotExist))
    else
      var offer :- CurrentOffer(st, c, t);
      match BidIndexByAccount(offer, offerer)
      case None => Failure(Revert(PermissionDenied))
      case Some(i) =>
        var bid := offer.bids[i];
        var escrow :- Purse.Transfer(st.escrow, bid.offerer, bid.price);
        var remaining := offer.(bids := Seqs.RemoveAt(offer.bids, i));
        var index := OnOffers.Read(st.onOffers);
        Success(st.(escrow := escrow, result := StoreResult(st.result, OfferResult(remaining)),
                    slots := WriteOffer(st.slots, remaining),
                    onOffers := OnOffers.Write(Seqs.RemoveAt(index, found.value)),
                    events := Emit(st.events, OfferCanceled(offerer, c, t))))
  }

  /** `accept_offer`: the token's owner takes bid number `bidId`. The
      owner is paid the bid's price through the fee split, the token moves
      from the owner to the bidder, and that one bid is removed. The bidder
      index is left exactly as it was. */
  function AcceptOffer(st: State, ctx: Ctx, c: Collection, t: TokenId, bidId: U8): (r: Result<State, Abort>)
    ensures c !in st.registry ==> r == Failure(RegistryFailure)
    ensures c in st.registry && t !in st.registry[c].owners ==> r == Failure(Trap)
    ensures c in st.registry && t in st.registry[c].owners && st.registry[c].owners[t] != AccountAddr(ctx.caller) ==>
              r == Failure(Revert(PermissionDenied))
    ensures c in st.registry && t in st.registry[c].owners && st.registry[c].owners[t] == AccountAddr(ctx.caller) ==>
              && (CurrentOffer(st, c, t).Failure? ==> r == Failure(HostError(ApiDeserialize)))
              && (CurrentOffer(st, c, t).Success? && bidId >= |CurrentOffer(st, c, t).value.bids| ==> r == Failure(Trap))
    ensures c in st.registry && t in st.registry[c].owners && st.registry[c].owners[t] == AccountAddr(ctx.caller)
            && CurrentOffer(st, c, t).Success? && bidId < |CurrentOffer(st, c, t).value.bids|
            ==> var accepted := CurrentOffer(st, c, t).value.bids[bidId];
                (r.Success? <==>
                   && TransferWithFee(st.escrow, ReadFee(st), st.treasuryWallet, ctx.caller, accepted.price).Success?
                   && TransferFrom(st.registry, c, PackageAddr(ctx.self), AccountAddr(ctx.caller), AccountAddr(accepted.offerer), t).Success?)
    ensures ReadFee(st) > FEE_DENOMINATOR ==> r.Failure?
    ensures r.Success? ==>
              && c in st.registry && t in st.registry[c].owners && st.registry[c].owners[t] == AccountAddr(ctx.caller)
              && CurrentOffer(st, c, t).Success? && bidId < |CurrentOffer(st, c, t).value.bids|
    ensures r.Success? ==>
              var o := CurrentOffer(st, c, t).value;
              var accepted := o.bids[bidId];
              && TransferWithFee(st.escrow, ReadFee(st), st.treasuryWallet, ctx.caller, accepted.price) == Success(r.value.escrow)
              && TransferFrom(st.registry, c, PackageAddr(ctx.self), AccountAddr(ctx.caller), AccountAddr(accepted.offerer), t)
                 == Success(r.value.registry)
              && r.value.slots == WriteOffer(st.slots, o.(bids := Seqs.RemoveAt(o.bids, bidId)))
              && r.value.onOffers == st.onOffers
              && r.value.events == Emit(st.events, OfferAccepted(ctx.caller, c, t, accepted.price))
              && r.value == st.(escrow := r.value.escrow, registry := r.value.registry, slots := r.value.slots,
                                events := r.value.events)
  {
    var caller := ctx.caller;
    var owner :- OwnerOf(st.registry, c, t);
    var holder :- SomeOrTrap(owner);
    if holder != AccountAddr(caller) then Failure(Revert(PermissionDenied))
    else
      var offer :- CurrentOffer(st, c, t);
      if bidId as nat >= |offer.bids| then Failure(Trap)
      else
        var accepted := offer.bids[bidId];
        var escrow :- TransferWithFee(st.escrow, ReadFee(st), st.treasuryWallet, caller, accepted.price);
        var registry :- TransferFrom(st.registry, c, PackageAddr(ctx.self), AccountAddr(caller), AccountAddr(accepted.offerer), t);
        var remaining := offer.(bids := Seqs.RemoveAt(offer.bids, bidId));
        Success(st.(escrow := escrow, registry := registry, slots := WriteOffer(st.slots, remaining),
                    events := Emit(st.events, OfferAccepted(caller, c, t, accepted.price))))
  }
}
