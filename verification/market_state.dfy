/** The marketplace contract's stored state and the context of one call. */
module MarketState {
  import opened Base
  import opened Errors
  import opened Detail
  import opened OfferStruct
  import opened Store
  import opened Purse
  import opened Registry
  import opened Events
  import OnOrders
  import OnOffers

  /** What `store_result` last saved. */
  datatype ResultValue = OrderResult(order: Order) | OfferResult(offer: Offer)

  /** Every stored value the entry points touch, plus the token registries
      they call. A stored value that may be absent is an `Option`.
      `accessKeys` holds the named keys the deployment put under each
      account's name. */
  datatype State = State(
    fee: Option<U512>,
    treasuryWallet: Option<AccountHash>,
    escrow: Escrow,
    slots: Dictionary,
    onOrders: Option<seq<OnOrders.OnOrder>>,
    onOffers: Option<seq<OnOffers.OnOffer>>,
    result: Option<ResultValue>,
    events: seq<EventParams>,
    registry: Registries,
    accessKeys: map<AccountHash, Key>)

  /** One call: `caller` is the account `get_caller` reports, `stack` the
      host's call stack, `blockTime` the block's timestamp, and `self` the
      package the token registry sees as its caller. */
  datatype Ctx = Ctx(caller: AccountHash, stack: seq<CallStackElement>, blockTime: U64, self: PackageHash)

  /** `read_fee`: an absent fee reads as 0. */
  function ReadFee(st: State): (fee: nat)
    ensures st.fee.None? ==> fee == 0
    ensures st.fee.Some? ==> fee == st.fee.value
  {
    st.fee.GetOr(0)
  }

  /** Rust's `unwrap` on a detail-level result: an error panics. */
  function UnwrapOrTrap<T>(r: Result<T, Error>): (u: Result<T, Abort>)
    ensures u.Success? <==> r.Success?
    ensures u.Failure? ==> u.error == Trap
    ensures u.Success? ==> u.value == r.value
  {
    match r
    case Success(v) => Success(v)
    case Failure(_) => Failure(Trap)
  }

  /** Rust's `unwrap` on an option: `None` panics. */
  function SomeOrTrap<T>(o: Option<T>): (u: Result<T, Abort>)
    ensures u.Success? <==> o.Some?
    ensures u.Failure? ==> u.error == Trap
    ensures u.Success? ==> u.value == o.value
  {
    match o
    case Some(v) => Success(v)
    case None => Failure(Trap)
  }

  /** The marketplace's own package, read off the top of the call stack and
      unwrapped as a package hash. */
  function Marketplace(ctx: Ctx): (r: Result<PackageHash, Abort>)
    ensures r.Success? <==> |ctx.stack| > 0 && ctx.stack[|ctx.stack| - 1].StoredContract?
    ensures r.Failure? ==> r.error == Trap
    ensures r.Success? ==> r.value == ctx.stack[|ctx.stack| - 1].packageHash
  {
    var top :- UnwrapOrTrap(CallerAddress(ctx.stack));
    SomeOrTrap(top.AsPackageHash())
  }

  /** The account directly below the marketplace on the call stack,
      unwrapped as an account hash. */
  function Seller(ctx: Ctx): (r: Result<AccountHash, Abort>)
    ensures r.Success? <==> |ctx.stack| > 1 && !ctx.stack[|ctx.stack| - 2].StoredContract?
    ensures r.Failure? ==> r.error == Trap
    ensures r.Success? ==> r.value == ctx.stack[|ctx.stack| - 2].accountHash
  {
    var below :- UnwrapOrTrap(ImmediateCallerAddress(ctx.stack));
    SomeOrTrap(below.AsAccountHash())
  }

  /** A call from session code straight into the marketplace: the session's
      account is the caller and the marketplace is the package on top. */
  predicate DirectCall(ctx: Ctx) {
    |ctx.stack| == 2 && ctx.stack[0] == Session(ctx.caller) && ctx.stack[1].StoredContract?
    && ctx.stack[1].packageHash == ctx.self
  }

  /** On a direct call both stack readings succeed and agree with the
      caller and with the package the registry sees. */
  lemma DirectCallResolves(ctx: Ctx)
    requires DirectCall(ctx)
    ensures Marketplace(ctx) == Success(ctx.self)
    ensures Seller(ctx) == Success(ctx.caller)
  {
  }
}
