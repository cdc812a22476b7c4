/** The fixed-price listing entry points: `create_order`, `cancel_order`
    and `buy_order`. Each is a function from the stored state to the state
    after the call, or to the abort that reverts the whole call. */
module OrderBook {
  import opened Base
  import opened Errors
  import opened Detail
  import opened Store
  import opened Purse
  import opened Registry
  import opened Events
  import opened MarketState
  import OnOrders
  import Seqs

  /** The order index exists and does not yet list the token. */
  predicate Listable(st: State, c: Collection, t: TokenId) {
    st.onOrders.Some? && (c, t) !in st.onOrders.value
  }

  /** The order index exists and lists the token. */
  predicate Listed(st: State, c: Collection, t: TokenId) {
    st.onOrders.Some? && (c, t) in st.onOrders.value
  }

  /** The index with the token's (first) entry taken out. */
  function Delisted(st: State, c: Collection, t: TokenId): (s: seq<OnOrders.OnOrder>)
    requires Listed(st, c, t)
    ensures |s| == |st.onOrders.value| - 1
    ensures multiset(s) == multiset(st.onOrders.value) - multiset{(c, t)}
  {
    var i := OnOrders.Position(st.onOrders.value, c, t).value;
    Seqs.RemoveAtMultiset(st.onOrders.value, i);
    Seqs.RemoveAt(st.onOrders.value, i)
  }

  /** `create_order`: lists a token the caller has approved the
      marketplace to move. The index entry comes first, then the two stack
      readings, the approval check, the escrow transfer and the check that
      the marketplace really holds the token; the order is stored active. */
  function CreateOrder(st: State, ctx: Ctx, c: Collection, t: TokenId, price: U512): (r: Result<State, Abort>)
    ensures st.onOrders.None? ==> r == Failure(HostError(ApiNone))
    ensures Listed(st, c, t) ==> r == Failure(Revert(OrderExist))
    ensures Listable(st, c, t) && (Marketplace(ctx).Failure? || Seller(ctx).Failure?) ==> r == Failure(Trap)
    ensures Listable(st, c, t) && Marketplace(ctx).Success? && Seller(ctx).Success? && c in st.registry
            && GetApproved(st.registry, c, AccountAddr(Seller(ctx).value), t) != Success(Some(PackageAddr(Marketplace(ctx).value)))
            ==> r == Failure(Revert(NotApproved))
    ensures Listable(st, c, t) && Marketplace(ctx).Success? && Seller(ctx).Success? && c !in st.registry
            ==> r == Failure(RegistryFailure)
    ensures Listable(st, c, t) && Marketplace(ctx).Success? && Seller(ctx).Success?
            && GetApproved(st.registry, c, AccountAddr(Seller(ctx).value), t) == Success(Some(PackageAddr(Marketplace(ctx).value)))
            ==> var moved := TransferFrom(st.registry, c, PackageAddr(ctx.self), AccountAddr(ctx.caller), PackageAddr(Marketplace(ctx).value), t);
                && (moved.Failure? ==> r == Failure(RegistryFailure))
                && (moved.Success? && OwnerOf(moved.value, c, t) != Success(Some(PackageAddr(Marketplace(ctx).value)))
                    ==> r == Failure(Revert(NotOwner)))
                && (moved.Success? && OwnerOf(moved.value, c, t) == Success(Some(PackageAddr(Marketplace(ctx).value)))
                    ==> r.Success?)
    ensures r == Failure(Revert(NotOwner)) ==> c in st.registry && st.registry[c].ignoresTransfers
    ensures r.Success? ==>
              && Listable(st, c, t) && Marketplace(ctx).Success? && Seller(ctx).Success?
              && GetApproved(st.registry, c, AccountAddr(Seller(ctx).value), t) == Success(Some(PackageAddr(Marketplace(ctx).value)))
              && TransferFrom(st.registry, c, PackageAddr(ctx.self), AccountAddr(ctx.caller), PackageAddr(Marketplace(ctx).value), t)
                 == Success(r.value.registry)
              && OwnerOf(r.value.registry, c, t) == Success(Some(PackageAddr(Marketplace(ctx).value)))
    ensures r.Success? ==>
              && r.value.onOrders == Some(st.onOrders.value + [(c, t)])
              && ReadOrder(r.value.slots, c, t) == Success(Order(c, t, ctx.caller, price, true))
              && r.value.slots == WriteOrder(st.slots, Order(c, t, ctx.caller, price, true))
              && r.value.events == Emit(st.events, OrderCreated(ctx.caller, c, t, price))
              && r.value == st.(onOrders := r.value.onOrders, slots := r.value.slots,
                                registry := r.value.registry, events := r.value.events)
  {
    var index :- OnOrders.Read(st.onOrders);
    var found := OnOrders.Position(index, c, t);
    if found.Some? then Failure(Revert(OrderExist))
    else
      var listed := OnOrders.Write(index + [(c, t)]);
      var offerer := ctx.caller;
      var me :- Marketplace(ctx);
      var caller :- Seller(ctx);
      var approved :- GetApproved(st.registry, c, AccountAddr(caller), t);
      if approved != Some(PackageAddr(me)) then Failure(Revert(NotApproved))
      else
        var registry :- TransferFrom(st.registry, c, PackageAddr(ctx.self), AccountAddr(ctx.caller), PackageAddr(me), t);
        var owner := OwnerOf(registry, c, t).value;
        if owner != Some(PackageAddr(me)) then Failure(Revert(NotOwner))
        else
          var order := Order(c, t, offerer, price, true);
          Success(st.(onOrders := listed, slots := WriteOrder(st.slots, order), registry := registry,
                      events := Emit(st.events, OrderCreated(offerer, c, t, price))))
  }

  /** `cancel_order`: the lister takes the token back. The order record is
      kept, marked inactive, and saved as the call's result; only the
      token's index entry goes. */
  function CancelOrder(st: State, ctx: Ctx, c: Collection, t: TokenId): (r: Result<State, Abort>)
    ensures st.onOrders.None? ==> r == Failure(HostError(ApiNone))
    ensures st.onOrders.Some? && !Listed(st, c, t) ==> r == Failure(Revert(OrderNotExist))
    ensures Listed(st, c, t) && ReadOrder(st.slots, c, t).Failure? ==> r == Failure(ReadOrder(st.slots, c, t).error)
    ensures Listed(st, c, t) && ReadOrder(st.slots, c, t).Success? && ctx.caller != ReadOrder(st.slots, c, t).value.offerer
            ==> r == Failure(Revert(NotOrderMaker))
    ensures Listed(st, c, t) && ReadOrder(st.slots, c, t).Success? && ctx.caller == ReadOrder(st.slots, c, t).value.offerer
            ==> var o := ReadOrder(st.slots, c, t).value;
                (r.Success? <==> Registry.Transfer(st.registry, o.collection, PackageAddr(ctx.self), AccountAddr(o.offerer), o.tokenId).Success?)
    ensures r.Failure? ==> r.error != Trap && r.error != Forbidden
    ensures r.Success? ==> Listed(st, c, t) && ReadOrder(st.slots, c, t).Success?
    ensures r.Success? ==>
              var o := ReadOrder(st.slots, c, t).value;
              var closed := o.(isActive := false);
              && ctx.caller == o.offerer
              && Registry.Transfer(st.registry, o.collection, PackageAddr(ctx.self), AccountAddr(o.offerer), o.tokenId)
                 == Success(r.value.registry)
              && r.value.slots == WriteOrder(st.slots, closed)
              && r.value.onOrders == Some(Delisted(st, c, t))
              && r.value.result == Some(OrderResult(closed))
              && r.value.events == Emit(st.events, OrderCanceled(ctx.caller, c, t))
              && r.value == st.(registry := r.value.registry, slots := r.value.slots, onOrders := r.value.onOrders,
                                result := r.value.result, events := r.value.events)
  {
    var found :- OnOrders.Find(st.onOrders, c, t);
    if found.None? then Failure(Revert(OrderNotExist))
    else
      var order :- ReadOrder(st.slots, c, t);
      var caller := ctx.caller;
      if caller != order.offerer then Failure(Revert(NotOrderMaker))
      else
        var registry :- Registry.Transfer(st.registry, order.collection, PackageAddr(ctx.self), AccountAddr(order.offerer), order.tokenId);
        var closed := order.(isActive := false);
        var slots := WriteOrder(st.slots, closed);
        var delisted := OnOrders.Write(Seqs.RemoveAt(st.onOrders.value, found.value));
        Success(st.(registry := registry, slots := slots, onOrders := delisted,
                    result := StoreResult(st.result, OrderResult(closed)),
                    events := Emit(st.events, OrderCanceled(caller, c, t))))
  }

  /** `buy_order`: settles a listing against the deposit that came with the
      call. The checks run in the order: listed, deposit, amount equals
      price, caller is the lister. The token goes to the caller, the price
      is split between the lister and the treasury, and the order is closed
      and delisted. */
  function BuyOrder(st: State, ctx: Ctx, c: Collection, t: TokenId, amount: U512): (r: Result<State, Abort>)
    ensures st.onOrders.None? ==> r == Failure(HostError(ApiNone))
    ensures st.onOrders.Some? && !Listed(st, c, t) ==> r == Failure(Revert(OrderNotExist))
    ensures Listed(st, c, t) && CheckedBalance(st.escrow, amount).Failure? ==> r == Failure(Revert(PermissionDenied))
    ensures Listed(st, c, t) && CheckedBalance(st.escrow, amount).Success? && ReadOrder(st.slots, c, t).Success?
            ==> (amount != ReadOrder(st.slots, c, t).value.price ==> r == Failure(Revert(NotValidAmount)))
    ensures Listed(st, c, t) && CheckedBalance(st.escrow, amount).Success? && ReadOrder(st.slots, c, t).Success?
            && amount == ReadOrder(st.slots, c, t).value.price && ctx.caller != ReadOrder(st.slots, c, t).value.offerer
            ==> r == Failure(Revert(NotOrderMaker))
    ensures Listed(st, c, t) && CheckedBalance(st.escrow, amount).Success? && ReadOrder(st.slots, c, t).Failure?
            ==> r == Failure(ReadOrder(st.slots, c, t).error)
    ensures Listed(st, c, t) && CheckedBalance(st.escrow, amount).Success? && ReadOrder(st.slots, c, t).Success?
            && amount == ReadOrder(st.slots, c, t).value.price && ctx.caller == ReadOrder(st.slots, c, t).value.offerer
            ==> var o := ReadOrder(st.slots, c, t).value;
                var deposited := CheckedBalance(st.escrow, amount).value.0;
                (r.Success? <==>
                   && Registry.Transfer(st.registry, o.collection, PackageAddr(ctx.self), AccountAddr(ctx.caller), o.tokenId).Success?
                   && TransferWithFee(deposited, ReadFee(st), st.treasuryWallet, o.offerer, o.price).Success?)
    ensures ReadFee(st) > FEE_DENOMINATOR ==> r.Failure?
    ensures r.Success? ==> Listed(st, c, t) && ReadOrder(st.slots, c, t).Success? && CheckedBalance(st.escrow, amount).Success?
    ensures r.Success? ==>
              var o := ReadOrder(st.slots, c, t).value;
              var deposited := CheckedBalance(st.escrow, amount).value.0;
              && amount == o.price && ctx.caller == o.offerer
              && Registry.Transfer(st.registry, o.collection, PackageAddr(ctx.self), AccountAddr(ctx.caller), o.tokenId)
                 == Success(r.value.registry)
              && TransferWithFee(deposited, ReadFee(st), st.treasuryWallet, o.offerer, o.price) == Success(r.value.escrow)
              && r.value.slots == WriteOrder(st.slots, o.(isActive := false))
              && r.value.onOrders == Some(Delisted(st, c, t))
              && r.value.events == Emit(st.events, OrderBought(ctx.caller, c, t, o.price))
              && r.value == st.(registry := r.value.registry, escrow := r.value.escrow, slots := r.value.slots,
                                onOrders := r.value.onOrders, events := r.value.events)
  {
    var found :- OnOrders.Find(st.onOrders, c, t);
    if found.None? then Failure(Revert(OrderNotExist))
    else
      var (escrow, _) :- CheckedBalance(st.escrow, amount);
      var order :- ReadOrder(st.slots, c, t);
      if amount != order.price then Failure(Revert(NotValidAmount))
      else
        var caller := ctx.caller;
        if caller != order.offerer then Failure(Revert(NotOrderMaker))
        else
          var registry :- Registry.Transfer(st.registry, order.collection, PackageAddr(ctx.self), AccountAddr(caller), order.tokenId);
          var settled :- TransferWithFee(escrow, ReadFee(st), st.treasuryWallet, order.offerer, order.price);
          var closed := order.(isActive := false);
          var delisted := OnOrders.Write(Seqs.RemoveAt(st.onOrders.value, found.value));
          Success(st.(registry := registry, escrow := settled, onOrders := delisted,
                      slots := WriteOrder(st.slots, closed),
                      events := Emit(st.events, OrderBought(caller, c, t, order.price))))
  }
}
