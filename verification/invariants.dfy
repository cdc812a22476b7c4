/** What every successful entry point keeps true of the stored state: no
    token is listed twice, no bidder appears twice in the bidder index or in
    one offer, every stored bid is still pending, every bid has its bidder
    index entry, and every record sits under its own token's key. */
module Invariants {
  import opened Base
  import opened Errors
  import opened Bids
  import opened OfferStruct
  import opened Store
  import opened MarketState
  import opened OrderBook
  import opened OfferBook
  import opened Admin
  import OnOrders
  import OnOffers
  import Seqs

  /** A record sits under the key derived from its own token. */
  ghost predicate SlotMatches(k: SlotKey, s: Slot) {
    match s
    case OrderSlot(o) => OrderKey(o) == k
    case OfferSlot(o) => OfferKey(o) == k
  }

  /** Every bidder on the token has an entry in the bidder index. */
  ghost predicate BidsIndexed(index: seq<OnOffers.OnOffer>, c: Collection, t: TokenId, bids: seq<Bid>) {
    forall i :: 0 <= i < |bids| ==> (c, t, bids[i].offerer) in index
  }

  ghost predicate WellFormedBids(index: seq<OnOffers.OnOffer>, c: Collection, t: TokenId, bids: seq<Bid>) {
    DistinctBidders(bids) && AllPending(bids) && BidsIndexed(index, c, t, bids)
  }

  ghost predicate SlotValid(index: seq<OnOffers.OnOffer>, k: SlotKey, s: Slot) {
    SlotMatches(k, s) && (s.OfferSlot? ==> WellFormedBids(index, k.collection, k.tokenId, s.offer.bids))
  }

  ghost predicate SlotsValid(slots: Dictionary, index: seq<OnOffers.OnOffer>) {
    forall k :: k in slots ==> SlotValid(index, k, slots[k])
  }

  ghost predicate Valid(st: State) {
    && st.onOrders.Some? && Seqs.Distinct(st.onOrders.value)
    && Seqs.Distinct(OnOffers.Read(st.onOffers))
    && SlotsValid(st.slots, OnOffers.Read(st.onOffers))
  }

  /** The state the installer leaves: both indexes empty, the dictionary
      empty. */
  lemma InitialValid(st: State)
    requires st.onOrders == Some([]) && st.onOffers == Some([]) && st.slots == map[]
    ensures Valid(st)
  {
  }

  /** A larger bidder index keeps every stored offer's bidders indexed. */
  lemma {:induction false} SlotsValidGrow(slots: Dictionary, index: seq<OnOffers.OnOffer>, index': seq<OnOffers.OnOffer>)
    requires SlotsValid(slots, index)
    requires forall x :: x in index ==> x in index'
    ensures SlotsValid(slots, index')
  {
    forall k | k in slots
      ensures SlotValid(index', k, slots[k])
    {
      assert SlotValid(index, k, slots[k]);
    }
  }

  /** Writing one valid slot keeps the dictionary valid when the others
      already were. */
  lemma {:induction false} SlotsValidWrite(slots: Dictionary, index: seq<OnOffers.OnOffer>, k: SlotKey, s: Slot)
    requires forall k' :: k' in slots && k' != k ==> SlotValid(index, k', slots[k'])
    requires SlotValid(index, k, s)
    ensures SlotsValid(slots[k := s], index)
  {
  }

  /** Taking one bid out keeps the rest distinct and pending, leaves no bid
      by the removed bidder, and keeps only bids that were there. */
  lemma {:induction false} RemoveBid(bids: seq<Bid>, i: nat)
    requires i < |bids| && DistinctBidders(bids) && AllPending(bids)
    ensures var r := Seqs.RemoveAt(bids, i);
            && DistinctBidders(r) && AllPending(r)
            && (forall j :: 0 <= j < |r| ==> r[j].offerer != bids[i].offerer)
            && (forall j :: 0 <= j < |r| ==> r[j] in bids)
  {
    var r := Seqs.RemoveAt(bids, i);
    forall a, b | 0 <= a < b < |r|
      ensures r[a].offerer != r[b].offerer
    {
      var a' := if a < i then a else a + 1;
      var b' := if b < i then b else b + 1;
      assert r[a] == bids[a'] && r[b] == bids[b'] && a' < b';
    }
    forall j | 0 <= j < |r|
      ensures r[j].offerer != bids[i].offerer && r[j] in bids
    {
      var j' := if j < i then j else j + 1;
      assert r[j] == bids[j'] && j' != i;
    }
  }

  /** A bid from a bidder with no bid yet keeps the bidders distinct. */
  lemma AppendBid(bids: seq<Bid>, b: Bid)
    requires DistinctBidders(bids) && AllPending(bids) && b.status == Pending
    requires forall j :: 0 <= j < |bids| ==> bids[j].offerer != b.offerer
    ensures DistinctBidders(bids + [b]) && AllPending(bids + [b])
  {
  }

  /** The token's offer as read by an entry point sits under the token's
      key and is well formed. */
  lemma CurrentOfferValid(st: State, c: Collection, t: TokenId)
    requires Valid(st) && CurrentOffer(st, c, t).Success?
    ensures var o := CurrentOffer(st, c, t).value;
            o.collection == c && o.tokenId == t && WellFormedBids(OnOffers.Read(st.onOffers), c, t, o.bids)
  {
    var k := DictionaryKey(c, t);
    if k in st.slots {
      assert SlotValid(OnOffers.Read(st.onOffers), k, st.slots[k]);
    }
  }

  lemma CreateOrderPreserves(st: State, ctx: Ctx, c: Collection, t: TokenId, price: U512)
    requires Valid(st) && CreateOrder(st, ctx, c, t, price).Success?
    ensures Valid(CreateOrder(st, ctx, c, t, price).value)
  {
    var r := CreateOrder(st, ctx, c, t, price).value;
    Seqs.DistinctAppend(st.onOrders.value, (c, t));
    var order := Order(c, t, ctx.caller, price, true);
    SlotsValidWrite(st.slots, OnOffers.Read(st.onOffers), OrderKey(order), OrderSlot(order));
  }

  /** Closing the order stored under the token's key keeps the state
      valid once its index entry is removed. */
  lemma {:induction false} CloseOrderValid(st: State, c: Collection, t: TokenId, r: State)
    requires Valid(st) && Listed(st, c, t) && ReadOrder(st.slots, c, t).Success?
    requires r.onOrders == Some(Delisted(st, c, t)) && r.onOffers == st.onOffers
    requires r.slots == WriteOrder(st.slots, ReadOrder(st.slots, c, t).value.(isActive := false))
    ensures Valid(r)
  {
    var i := OnOrders.Position(st.onOrders.value, c, t).value;
    Seqs.DistinctRemoveAt(st.onOrders.value, i);
    var k := DictionaryKey(c, t);
    var o := ReadOrder(st.slots, c, t).value;
    assert SlotValid(OnOffers.Read(st.onOffers), k, st.slots[k]);
    SlotsValidWrite(st.slots, OnOffers.Read(st.onOffers), OrderKey(o), OrderSlot(o.(isActive := false)));
  }

  lemma CancelOrderPreserves(st: State, ctx: Ctx, c: Collection, t: TokenId)
    requires Valid(st) && CancelOrder(st, ctx, c, t).Success?
    ensures Valid(CancelOrder(st, ctx, c, t).value)
  {
    CloseOrderValid(st, c, t, CancelOrder(st, ctx, c, t).value);
  }

  lemma BuyOrderPreserves(st: State, ctx: Ctx, c: Collection, t: TokenId, amount: U512)
    requires Valid(st) && BuyOrder(st, ctx, c, t, amount).Success?
    ensures Valid(BuyOrder(st, ctx, c, t, amount).value)
  {
    CloseOrderValid(st, c, t, BuyOrder(st, ctx, c, t, amount).value);
  }

  lemma CreateOfferPreserves(st: State, ctx: Ctx, c: Collection, t: TokenId, price: U512)
    requires Valid(st) && CreateOffer(st, ctx, c, t, price).Success?
    ensures Valid(CreateOffer(st, ctx, c, t, price).value)
  {
    var r := CreateOffer(st, ctx, c, t, price).value;
    var index := OnOffers.Read(st.onOffers);
    var index' := OnOffers.Read(r.onOffers);
    var o := CurrentOffer(st, c, t).value;
    var p := r.result.value.offer;
    var bid := NewBid(ctx, price);
    CurrentOfferValid(st, c, t);
    if Indexed(st, c, t, ctx.caller) {
      var i := BidIndexByAccount(o, ctx.caller).value;
      RemoveBid(o.bids, i);
      var kept := Seqs.RemoveAt(o.bids, i);
      AppendBid(kept, bid);
      assert p.bids == kept + [bid];
      forall j | 0 <= j < |p.bids|
        ensures (c, t, p.bids[j].offerer) in index'
      {
        if j < |kept| {
          var j' :| 0 <= j' < |o.bids| && o.bids[j'] == kept[j];
        }
      }
    } else {
      assert forall j :: 0 <= j < |o.bids| ==> o.bids[j].offerer != ctx.caller;
      AppendBid(o.bids, bid);
      Seqs.DistinctAppend(index, (c, t, ctx.caller));
      SlotsValidGrow(st.slots, index, index');
    }
    assert SlotsValid(st.slots, index');
    SlotsValidWrite(st.slots, index', OfferKey(p), OfferSlot(p));
  }

  lemma CancelOfferPreserves(st: State, ctx: Ctx, c: Collection, t: TokenId)
    requires Valid(st) && CancelOffer(st, ctx, c, t).Success?
    ensures Valid(CancelOffer(st, ctx, c, t).value)
  {
    var r := CancelOffer(st, ctx, c, t).value;
    var index := OnOffers.Read(st.onOffers);
    var entry := OnOffers.Position(index, c, t, ctx.caller).value;
    var index' := OnOffers.Read(r.onOffers);
    var o := CurrentOffer(st, c, t).value;
    var i := BidIndexByAccount(o, ctx.caller).value;
    var p := o.(bids := Seqs.RemoveAt(o.bids, i));
    CurrentOfferValid(st, c, t);
    Seqs.DistinctRemoveAt(index, entry);
    RemoveBid(o.bids, i);
    forall j | 0 <= j < |p.bids|
      ensures (c, t, p.bids[j].offerer) in index'
    {
      var j' :| 0 <= j' < |o.bids| && o.bids[j'] == p.bids[j];
      Seqs.RemoveAtKeepsOthers(index, entry, (c, t, p.bids[j].offerer));
    }
    forall k | k in st.slots && k != OfferKey(p)
      ensures SlotValid(index', k, st.slots[k])
    {
      assert SlotValid(index, k, st.slots[k]);
      if st.slots[k].OfferSlot? {
        var bids := st.slots[k].offer.bids;
        forall j | 0 <= j < |bids|
          ensures (k.collection, k.tokenId, bids[j].offerer) in index'
        {
          Seqs.RemoveAtKeepsOthers(index, entry, (k.collection, k.tokenId, bids[j].offerer));
        }
      }
    }
    SlotsValidWrite(st.slots, index', OfferKey(p), OfferSlot(p));
  }

  lemma AcceptOfferPreserves(st: State, ctx: Ctx, c: Collection, t: TokenId, bidId: U8)
    requires Valid(st) && AcceptOffer(st, ctx, c, t, bidId).Success?
    ensures Valid(AcceptOffer(st, ctx, c, t, bidId).value)
  {
    var r := AcceptOffer(st, ctx, c, t, bidId).value;
    var index := OnOffers.Read(st.onOffers);
    var o := CurrentOffer(st, c, t).value;
    var p := o.(bids := Seqs.RemoveAt(o.bids, bidId as nat));
    CurrentOfferValid(st, c, t);
    RemoveBid(o.bids, bidId as nat);
    forall j | 0 <= j < |p.bids|
      ensures (c, t, p.bids[j].offerer) in index
    {
      var j' :| 0 <= j' < |o.bids| && o.bids[j'] == p.bids[j];
    }
    SlotsValidWrite(st.slots, index, OfferKey(p), OfferSlot(p));
  }

  lemma SetFeePreserves(st: State, fee: U512)
    requires Valid(st)
    ensures Valid(SetFee(st, fee))
  {
  }

  lemma SetTreasuryWalletPreserves(st: State, parsed: Option<AccountHash>)
    requires Valid(st) && SetTreasuryWallet(st, parsed).Success?
    ensures Valid(SetTreasuryWallet(st, parsed).value)
  {
  }
}
