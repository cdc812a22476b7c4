/** Calling the contract: the host checks the entry-point table's access
    rule for the named entry point, then runs it. */
module Dispatch {
  import opened Base
  import opened Errors
  import EntryPoints
  import opened MarketState
  import opened OrderBook
  import opened OfferBook
  import opened Admin
  import opened Invariants

  /** A call to a state-changing entry point, with its arguments. */
  datatype Call =
    | SetTreasuryWalletCall(parsed: Option<AccountHash>)
    | SetFeeCall(fee: U512)
    | CreateOrderCall(collection: Collection, tokenId: TokenId, price: U512)
    | CancelOrderCall(collection: Collection, tokenId: TokenId)
    | BuyOrderCall(collection: Collection, tokenId: TokenId, amount: U512)
    | CreateOfferCall(collection: Collection, tokenId: TokenId, amount: U512)
    | CancelOfferCall(collection: Collection, tokenId: TokenId)
    | AcceptOfferCall(collection: Collection, tokenId: TokenId, bidId: U8)

  /** The entry point a call names. */
  function Target(call: Call): EntryPoints.Name {
    match call
    case SetTreasuryWalletCall(_) => EntryPoints.SetTreasuryWallet
    case SetFeeCall(_) => EntryPoints.SetFee
    case CreateOrderCall(_, _, _) => EntryPoints.CreateOrder
    case CancelOrderCall(_, _) => EntryPoints.CancelOrder
    case BuyOrderCall(_, _, _) => EntryPoints.BuyOrder
    case CreateOfferCall(_, _, _) => EntryPoints.CreateOffer
    case CancelOfferCall(_, _) => EntryPoints.CancelOffer
    case AcceptOfferCall(_, _, _) => EntryPoints.AcceptOffer
  }

  /** The entry point's body, once the host has let the call in. */
  function Run(st: State, ctx: Ctx, call: Call): Result<State, Abort> {
    match call
    case SetTreasuryWalletCall(parsed) => SetTreasuryWallet(st, parsed)
    case SetFeeCall(fee) => Success(SetFee(st, fee))
    case CreateOrderCall(c, t, price) => CreateOrder(st, ctx, c, t, price)
    case CancelOrderCall(c, t) => CancelOrder(st, ctx, c, t)
    case BuyOrderCall(c, t, amount) => BuyOrder(st, ctx, c, t, amount)
    case CreateOfferCall(c, t, amount) => CreateOffer(st, ctx, c, t, amount)
    case CancelOfferCall(c, t) => CancelOffer(st, ctx, c, t)
    case AcceptOfferCall(c, t, bidId) => AcceptOffer(st, ctx, c, t, bidId)
  }

  /** A call by a caller holding the keys of the groups `held`. */
  function Invoke(st: State, ctx: Ctx, held: set<string>, call: Call): (r: Result<State, Abort>)
    ensures !EntryPoints.Admits(Target(call), held) ==> r == Failure(Forbidden)
    ensures EntryPoints.Admits(Target(call), held) ==> r == Run(st, ctx, call)
  {
    if !EntryPoints.Admits(Target(call), held) then Failure(Forbidden) else Run(st, ctx, call)
  }

  /** Only holders of an admins key can change the fee or the treasury
      wallet; everyone else is turned away before the body runs. */
  lemma {:induction false} SettersAreAdminOnly(st: State, ctx: Ctx, held: set<string>, call: Call)
    requires call.SetFeeCall? || call.SetTreasuryWalletCall?
    ensures EntryPoints.ADMINS_GROUP !in held <==> Invoke(st, ctx, held, call) == Failure(Forbidden)
  {
    EntryPoints.AdmittedByDefault(Target(call), held);
  }

  /** The order and offer entry points are open to every caller. */
  lemma {:induction false} MarketCallsArePublic(st: State, ctx: Ctx, held: set<string>, call: Call)
    requires !call.SetFeeCall? && !call.SetTreasuryWalletCall?
    ensures Invoke(st, ctx, held, call) == Run(st, ctx, call)
  {
    EntryPoints.AdmittedByDefault(Target(call), held);
  }

  /** Whatever is called, by whomever, a call that goes through keeps the
      stored state valid. */
  lemma {:induction false} InvokePreserves(st: State, ctx: Ctx, held: set<string>, call: Call)
    requires Valid(st) && Invoke(st, ctx, held, call).Success?
    ensures Valid(Invoke(st, ctx, held, call).value)
  {
    match call
    case SetTreasuryWalletCall(parsed) => SetTreasuryWalletPreserves(st, parsed);
    case SetFeeCall(fee) => SetFeePreserves(st, fee);
    case CreateOrderCall(c, t, price) => CreateOrderPreserves(st, ctx, c, t, price);
    case CancelOrderCall(c, t) => CancelOrderPreserves(st, ctx, c, t);
    case BuyOrderCall(c, t, amount) => BuyOrderPreserves(st, ctx, c, t, amount);
    case CreateOfferCall(c, t, amount) => CreateOfferPreserves(st, ctx, c, t, amount);
    case CancelOfferCall(c, t) => CancelOfferPreserves(st, ctx, c, t);
    case AcceptOfferCall(c, t, bidId) => AcceptOfferPreserves(st, ctx, c, t, bidId);
  }
}
