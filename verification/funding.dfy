/** The session programs that pay into the escrow purse and then call the
    marketplace in the same deploy: one funds `create_offer`, the other
    `buy_order`. Both run as one unit, so a failure anywhere reverts the
    deposit too. */
module Funding {
  import opened Base
  import opened Errors
  import opened Purse
  import opened MarketState
  import opened OrderBook
  import opened OfferBook

  /** Obtain the marketplace's purse (`get_purse`), then move `amount` from
      the caller's main purse, holding `funds`, into it. The ledger refuses
      the transfer when it knows no balance for the target purse or the
      caller's purse holds too little. */
  function Deposit(e: Escrow, funds: nat, amount: U512): (r: Result<(Escrow, nat), Abort>)
    ensures r.Failure? <==> e.live.None? || amount > funds
    ensures r.Failure? ==> r.error == HostError(ApiError.Transfer)
    ensures r.Success? ==> e.live.Some? && amount <= funds
    ensures r.Success? ==> r.value.0 == e.(live := Some(e.live.value + amount)) && r.value.1 == funds - amount
  {
    match e.live
    case None => Failure(HostError(ApiError.Transfer))
    case Some(balance) =>
      if amount > funds then Failure(HostError(ApiError.Transfer))
      else Success((e.(live := Some(balance + amount)), funds - amount))
  }

  /** The fund-then-`create_offer` session: the same collection, token and
      amount are passed on. Returns the state and what is left in the
      caller's purse. */
  function FundedCreateOffer(st: State, ctx: Ctx, funds: nat, c: Collection, t: TokenId, amount: U512): (r: Result<(State, nat), Abort>)
    ensures Deposit(st.escrow, funds, amount).Failure? ==> r == Failure(Deposit(st.escrow, funds, amount).error)
    ensures Deposit(st.escrow, funds, amount).Success? ==>
              var (paid, left) := Deposit(st.escrow, funds, amount).value;
              var inner := CreateOffer(st.(escrow := paid), ctx, c, t, amount);
              && (inner.Failure? ==> r == Failure(inner.error))
              && (inner.Success? ==> r == Success((inner.value, left)))
  {
    var (paid, left) :- Deposit(st.escrow, funds, amount);
    var after :- CreateOffer(st.(escrow := paid), ctx, c, t, amount);
    Success((after, left))
  }

  /** The fund-then-`buy_order` session. */
  function FundedBuyOrder(st: State, ctx: Ctx, funds: nat, c: Collection, t: TokenId, amount: U512): (r: Result<(State, nat), Abort>)
    ensures Deposit(st.escrow, funds, amount).Failure? ==> r == Failure(Deposit(st.escrow, funds, amount).error)
    ensures Deposit(st.escrow, funds, amount).Success? ==>
              var (paid, left) := Deposit(st.escrow, funds, amount).value;
              var inner := BuyOrder(st.(escrow := paid), ctx, c, t, amount);
              && (inner.Failure? ==> r == Failure(inner.error))
              && (inner.Success? ==> r == Success((inner.value, left)))
  {
    var (paid, left) :- Deposit(st.escrow, funds, amount);
    var after :- BuyOrder(st.(escrow := paid), ctx, c, t, amount);
    Success((after, left))
  }

  /** A deposit into a purse whose snapshot is current passes the deposit
      check for exactly the amount deposited, and for no other amount. */
  lemma {:induction false} DepositPassesCheck(e: Escrow, funds: nat, amount: U512, claimed: U512)
    requires Synced(e) && e.live.Some? && amount <= funds && e.live.value + amount < U512_MODULUS
    ensures var paid := Deposit(e, funds, amount).value.0;
            CheckedBalance(paid, claimed).Success? <==> claimed == amount
  {
    var paid := Deposit(e, funds, amount).value.0;
    assert ReadPurseBalance(paid) == e.live.value;
    assert LiveBalance(paid) == e.live.value + amount;
    if e.live.value + claimed >= U512_MODULUS {
      assert LiveBalance(paid) != 0 || claimed != amount;
    }
  }

  /** Calling `create_offer` or `buy_order` directly, with nothing
      deposited, is refused by the deposit check whenever the snapshot is
      current and a positive amount is claimed. */
  lemma {:induction false} UnfundedCallRefused(e: Escrow, amount: U512)
    requires Synced(e) && amount > 0
    ensures CheckedBalance(e, amount) == Failure(Revert(PermissionDenied))
  {
    assert LiveBalance(e) < U512_MODULUS || ReadPurseBalance(e) + amount >= U512_MODULUS;
  }

  /** A funded bid whose purse snapshot was current is never refused as an
      unfunded call. */
  lemma {:induction false} FundedBidPassesDepositCheck(st: State, ctx: Ctx, funds: nat, c: Collection, t: TokenId, amount: U512)
    requires Synced(st.escrow) && st.escrow.live.Some? && amount <= funds
    requires st.escrow.live.value + amount < U512_MODULUS
    ensures FundedCreateOffer(st, ctx, funds, c, t, amount) != Failure(Revert(PermissionDenied))
  {
    var paid := Deposit(st.escrow, funds, amount).value.0;
    DepositPassesCheck(st.escrow, funds, amount, amount);
    assert CheckedBalance(paid, amount).Success?;
  }

  /** Likewise a funded purchase whose purse snapshot was current is never
      refused by the deposit check inside `buy_order`. */
  lemma {:induction false} FundedBuyPassesDepositCheck(st: State, ctx: Ctx, funds: nat, c: Collection, t: TokenId, amount: U512)
    requires Synced(st.escrow) && st.escrow.live.Some? && amount <= funds
    requires st.escrow.live.value + amount < U512_MODULUS
    ensures FundedBuyOrder(st, ctx, funds, c, t, amount) != Failure(Revert(PermissionDenied))
  {
    var paid := Deposit(st.escrow, funds, amount).value.0;
    DepositPassesCheck(st.escrow, funds, amount, amount);
    assert CheckedBalance(paid, amount).Success?;
  }
}
