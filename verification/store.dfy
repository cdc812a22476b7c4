/** The orders dictionary. Orders and offers are both kept in it, under a
    key derived from the token's collection and id alone, so an order and
    an offer for the same token occupy the same slot. */
module Store {
  import opened Base
  import opened Errors
  import opened OfferStruct

  /** A fixed-price listing. */
  datatype Order = Order(collection: Collection, tokenId: TokenId, offerer: AccountHash, price: U512, isActive: bool)

  /** A dictionary item key. The contract hashes the serialized pair; the
      hash is taken to be injective, so the key is the pair itself. */
  datatype SlotKey = SlotKey(collection: Collection, tokenId: TokenId)

  /** What a slot holds: whichever record was written there last. */
  datatype Slot = OrderSlot(order: Order) | OfferSlot(offer: Offer)

  type Dictionary = map<SlotKey, Slot>

  /** `make_dictionary_item_key`, identical for orders and offers: it
      depends on the collection and the token id and on nothing else. */
  function DictionaryKey(collection: Collection, tokenId: TokenId): SlotKey {
    SlotKey(collection, tokenId)
  }

  function OrderKey(o: Order): SlotKey {
    DictionaryKey(o.collection, o.tokenId)
  }

  function OfferKey(o: Offer): SlotKey {
    DictionaryKey(o.collection, o.tokenId)
  }

  /** An order and an offer share a slot exactly when they are for the same
      token. */
  lemma SharedSlot(order: Order, offer: Offer)
    ensures OrderKey(order) == OfferKey(offer) <==>
            order.collection == offer.collection && order.tokenId == offer.tokenId
  {
  }

  /** `read_order`: a missing item, or a slot holding an offer, aborts. The
      host's behaviour on decoding an offer's bytes as an order is not
      determined by the contract; the model takes it to fail. */
  function ReadOrder(d: Dictionary, collection: Collection, tokenId: TokenId): (r: Result<Order, Abort>)
    ensures DictionaryKey(collection, tokenId) !in d <==> r == Failure(HostError(ApiNone))
    ensures r.Success? <==> DictionaryKey(collection, tokenId) in d && d[DictionaryKey(collection, tokenId)].OrderSlot?
    ensures r.Success? ==> d[DictionaryKey(collection, tokenId)] == OrderSlot(r.value)
  {
    var key := DictionaryKey(collection, tokenId);
    if key !in d then Failure(HostError(ApiNone))
    else
      match d[key]
      case OrderSlot(o) => Success(o)
      case OfferSlot(_) => Failure(HostError(ApiDeserialize))
  }

  /** `read_offer`: a missing item is a valid "no offer yet"; a slot holding
      an order fails to decode (the same assumption as for `ReadOrder`). */
  function ReadOffer(d: Dictionary, collection: Collection, tokenId: TokenId): (r: Result<Option<Offer>, Abort>)
    ensures DictionaryKey(collection, tokenId) !in d <==> r == Success(None)
    ensures r.Success? && r.value.Some? <==> DictionaryKey(collection, tokenId) in d && d[DictionaryKey(collection, tokenId)].OfferSlot?
    ensures r.Success? && r.value.Some? ==> d[DictionaryKey(collection, tokenId)] == OfferSlot(r.value.value)
    ensures r.Failure? ==> r.error == HostError(ApiDeserialize)
  {
    var key := DictionaryKey(collection, tokenId);
    if key !in d then Success(None)
    else
      match d[key]
      case OfferSlot(o) => Success(Some(o))
      case OrderSlot(_) => Failure(HostError(ApiDeserialize))
  }

  /** `write_order`: overwrites whatever the slot held, touching no other slot. */
  function WriteOrder(d: Dictionary, o: Order): (r: Dictionary)
    ensures ReadOrder(r, o.collection, o.tokenId) == Success(o)
    ensures r.Keys == d.Keys + {OrderKey(o)}
    ensures forall k :: k in d && k != OrderKey(o) ==> r[k] == d[k]
  {
    d[OrderKey(o) := OrderSlot(o)]
  }

  /** `write_offer`: overwrites whatever the slot held, an order included,
      touching no other slot. */
  function WriteOffer(d: Dictionary, o: Offer): (r: Dictionary)
    ensures ReadOffer(r, o.collection, o.tokenId) == Success(Some(o))
    ensures ReadOrder(r, o.collection, o.tokenId).Failure?
    ensures r.Keys == d.Keys + {OfferKey(o)}
    ensures forall k :: k in d && k != OfferKey(o) ==> r[k] == d[k]
  {
    d[OfferKey(o) := OfferSlot(o)]
  }
}
