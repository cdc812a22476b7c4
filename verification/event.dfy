/** Contract events. Each event becomes one parameter map stored in a fresh
    slot, so the event log only ever grows. */
module Events {
  import opened Base
  import EntryPoints

  /** The principal of the six market events is the account that raised it. */
  datatype Event =
    | OrderCreated(maker: AccountHash, collection: Collection, tokenId: TokenId, price: U512)
    | OrderBought(maker: AccountHash, collection: Collection, tokenId: TokenId, price: U512)
    | OrderCanceled(maker: AccountHash, collection: Collection, tokenId: TokenId)
    | OfferCreated(maker: AccountHash, collection: Collection, tokenId: TokenId, price: U512)
    | OfferAccepted(maker: AccountHash, collection: Collection, tokenId: TokenId, price: U512)
    | OfferCanceled(maker: AccountHash, collection: Collection, tokenId: TokenId)
    | TreasuryWalletChanged(treasuryWallet: AccountHash)
    | FeeChanged(fee: U512)
  {
    predicate IsMarketEvent() {
      !TreasuryWalletChanged? && !FeeChanged?
    }
  }

  /** A parameter value before it is rendered as text. */
  datatype EventValue =
    | Text(text: string)
    | AccountValue(account: AccountHash)
    | KeyValue(key: Collection)
    | TokenValue(token: TokenId)
    | AmountValue(amount: U512)

  type EventParams = map<string, EventValue>

  const EVENT_TYPE: string := "event_type"
  const MAKER: string := "maker"
  const COLLECTION: string := "collection"
  const TOKEN_ID: string := "token_id"
  const PRICE: string := "price"
  const FEE: string := "fee"
  const TREASURY_WALLET: string := "treasury_wallet"

  /** The entry point each event variant is tagged with. */
  function Source(e: Event): EntryPoints.Name {
    match e
    case OrderCreated(_, _, _, _) => EntryPoints.CreateOrder
    case OrderBought(_, _, _, _) => EntryPoints.BuyOrder
    case OrderCanceled(_, _, _) => EntryPoints.CancelOrder
    case OfferCreated(_, _, _, _) => EntryPoints.CreateOffer
    case OfferAccepted(_, _, _, _) => EntryPoints.AcceptOffer
    case OfferCanceled(_, _, _) => EntryPoints.CancelOffer
    case TreasuryWalletChanged(_) => EntryPoints.SetTreasuryWallet
    case FeeChanged(_) => EntryPoints.SetFee
  }

  /** The keys every market event records. */
  function MarketParams(tag: EntryPoints.Name, maker: AccountHash, collection: Collection, tokenId: TokenId): EventParams {
    map[EVENT_TYPE := Text(EntryPoints.Text(tag)), MAKER := AccountValue(maker),
        COLLECTION := KeyValue(collection), TOKEN_ID := TokenValue(tokenId)]
  }

  /** The parameter map `emit` builds for one event. */
  function Params(e: Event): (p: EventParams)
    ensures EVENT_TYPE in p && p[EVENT_TYPE] == Text(EntryPoints.Text(Source(e)))
    ensures PRICE in p <==> e.OrderCreated? || e.OrderBought? || e.OfferCreated? || e.OfferAccepted?
    ensures PRICE in p ==> p[PRICE] == AmountValue(e.price)
    ensures e.IsMarketEvent() ==>
              && MAKER in p && p[MAKER] == AccountValue(e.maker)
              && COLLECTION in p && p[COLLECTION] == KeyValue(e.collection)
              && TOKEN_ID in p && p[TOKEN_ID] == TokenValue(e.tokenId)
    ensures e.IsMarketEvent() ==> p.Keys == {EVENT_TYPE, MAKER, COLLECTION, TOKEN_ID} + (if PRICE in p then {PRICE} else {})
    ensures e.FeeChanged? ==> p.Keys == {EVENT_TYPE, FEE} && p[FEE] == AmountValue(e.fee)
    ensures e.TreasuryWalletChanged? ==>
              p.Keys == {EVENT_TYPE, TREASURY_WALLET} && p[TREASURY_WALLET] == AccountValue(e.treasuryWallet)
  {
    match e
    case OrderCreated(maker, c, t, price) => MarketParams(Source(e), maker, c, t)[PRICE := AmountValue(price)]
    case OrderBought(maker, c, t, price) => MarketParams(Source(e), maker, c, t)[PRICE := AmountValue(price)]
    case OrderCanceled(maker, c, t) => MarketParams(Source(e), maker, c, t)
    case OfferCreated(maker, c, t, price) => MarketParams(Source(e), maker, c, t)[PRICE := AmountValue(price)]
    case OfferAccepted(maker, c, t, price) => MarketParams(Source(e), maker, c, t)[PRICE := AmountValue(price)]
    case OfferCanceled(maker, c, t) => MarketParams(Source(e), maker, c, t)
    case TreasuryWalletChanged(wallet) =>
      map[EVENT_TYPE := Text(EntryPoints.Text(Source(e))), TREASURY_WALLET := AccountValue(wallet)]
    case FeeChanged(fee) => map[EVENT_TYPE := Text(EntryPoints.Text(Source(e))), FEE := AmountValue(fee)]
  }

  /** `emit`: one more map in the log, earlier ones untouched. */
  function Emit(log: seq<EventParams>, e: Event): (r: seq<EventParams>)
    ensures |r| == |log| + 1 && r[..|log|] == log
    ensures r[|log|] == Params(e)
  {
    log + [Params(e)]
  }

  /** Each event is tagged with the name of a registered entry point, one
      the host admits callers to, and not the constructor's. */
  lemma EventTypeIsEntryPoint(e: Event)
    ensures var tag := Source(e);
            && EntryPoints.Lookup(EntryPoints.Default(), tag).Some?
            && Params(e)[EVENT_TYPE] == Text(EntryPoints.Text(tag))
            && tag != EntryPoints.Constructor
  {
    EntryPoints.LookupDefault(Source(e));
  }

  /** Different variants are tagged differently, so the tag identifies the
      variant. */
  lemma {:induction false} TagIdentifiesVariant(a: Event, b: Event)
    requires Params(a)[EVENT_TYPE] == Params(b)[EVENT_TYPE]
    ensures Source(a) == Source(b)
  {
    TextInjective(Source(a), Source(b));
  }

  /** The registered names are pairwise distinct strings. */
  lemma TextInjective(x: EntryPoints.Name, y: EntryPoints.Name)
    requires EntryPoints.Text(x) == EntryPoints.Text(y)
    ensures x == y
  {
  }
}
