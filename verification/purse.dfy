/** The escrow purse: a live balance kept by the ledger, the contract's
    cached snapshot of it, and the payments made out of it. */
module Purse {
  import opened Base
  import opened Errors

  /** Currency sent from the escrow purse to an account. */
  datatype Payment = Payment(to: AccountHash, amount: nat)

  /** `cached` is the stored purse-balance value and `live` the ledger's
      balance of the purse; either may be absent, and both read as 0 then. */
  datatype Escrow = Escrow(cached: Option<nat>, live: Option<nat>, payouts: seq<Payment>)

  /** The fee rate's implicit denominator: parts per thousand. */
  const FEE_DENOMINATOR: nat := 1000

  /** `read_purse_balance`. */
  function ReadPurseBalance(e: Escrow): nat {
    e.cached.GetOr(0)
  }

  /** `get_purse_balance(..).unwrap_or_default()`. */
  function LiveBalance(e: Escrow): nat {
    e.live.GetOr(0)
  }

  /** The snapshot agrees with the ledger. */
  predicate Synced(e: Escrow) {
    e.cached == Some(LiveBalance(e))
  }

  /** `update_purse_balance`: the snapshot is refreshed from the ledger. */
  function UpdatePurseBalance(e: Escrow): (r: Escrow)
    ensures Synced(r)
    ensures r.live == e.live && r.payouts == e.payouts
    ensures ReadPurseBalance(r) == LiveBalance(e)
  {
    e.(cached := Some(LiveBalance(e)))
  }

  /** `U512::checked_add(..).unwrap_or_default()`: an overflowing sum reads as 0. */
  function AddOrZero(a: nat, b: nat): (r: nat)
    ensures a + b < U512_MODULUS ==> r == a + b
    ensures a + b >= U512_MODULUS ==> r == 0
  {
    if a + b < U512_MODULUS then a + b else 0
  }

  /** `checked_balance`: the call is accepted only if the ledger balance is
      exactly the snapshot plus the claimed deposit; the snapshot is then
      refreshed and the ledger balance returned. */
  function CheckedBalance(e: Escrow, amount: U512): (r: Result<(Escrow, nat), Abort>)
    ensures ReadPurseBalance(e) + amount < U512_MODULUS ==>
              (r.Success? <==> LiveBalance(e) == ReadPurseBalance(e) + amount)
    ensures ReadPurseBalance(e) + amount >= U512_MODULUS ==> (r.Success? <==> LiveBalance(e) == 0)
    ensures r.Failure? ==> r.error == Revert(PermissionDenied)
    ensures r.Success? ==> r.value.1 == LiveBalance(e) && Synced(r.value.0)
    ensures r.Success? ==> r.value.0.live == e.live && r.value.0.payouts == e.payouts
  {
    var live := LiveBalance(e);
    if AddOrZero(ReadPurseBalance(e), amount) != live then Failure(Revert(PermissionDenied))
    else Success((UpdatePurseBalance(e), live))
  }

  /** `transfer`: pays `amount` out of the purse; the ledger refuses a
      missing purse or an amount above its balance. The snapshot is then
      refreshed. */
  function Transfer(e: Escrow, account: AccountHash, amount: nat): (r: Result<Escrow, Abort>)
    ensures r.Success? <==> e.live.Some? && amount <= e.live.value
    ensures r.Failure? ==> r.error == HostError(ApiError.Transfer)
    ensures r.Success? ==> LiveBalance(r.value) == LiveBalance(e) - amount && r.value.live.Some?
    ensures r.Success? ==> Synced(r.value)
    ensures r.Success? ==> r.value.payouts == e.payouts + [Payment(account, amount)]
  {
    match e.live
    case None => Failure(HostError(ApiError.Transfer))
    case Some(balance) =>
      if amount > balance then Failure(HostError(ApiError.Transfer))
      else
        var paid := e.(live := Some(balance - amount), payouts := e.payouts + [Payment(account, amount)]);
        Success(UpdatePurseBalance(paid))
  }

  /** The seller's part of a settlement at fee rate `fee`, truncated. */
  function SellerShare(amount: nat, fee: nat): nat
    requires fee <= FEE_DENOMINATOR
  {
    amount * (FEE_DENOMINATOR - fee) / FEE_DENOMINATOR
  }

  /** The treasury's part of a settlement at fee rate `fee`, truncated. */
  function TreasuryShare(amount: nat, fee: nat): nat {
    amount * fee / FEE_DENOMINATOR
  }

  /** The two parts add up to the amount when `amount * fee` is a multiple of
      the denominator and to one unit less otherwise: the truncation
      remainder stays in the purse. */
  lemma {:induction false} SharesSum(amount: nat, fee: nat)
    requires fee <= FEE_DENOMINATOR
    ensures (amount * fee) % FEE_DENOMINATOR == 0 ==> SellerShare(amount, fee) + TreasuryShare(amount, fee) == amount
    ensures (amount * fee) % FEE_DENOMINATOR != 0 ==> SellerShare(amount, fee) + TreasuryShare(amount, fee) == amount - 1
  {
    var q := amount * fee / 1000;
    var m := amount * fee % 1000;
    assert amount * fee == 1000 * q + m;
    assert amount * (1000 - fee) == 1000 * amount - amount * fee;
    assert q <= amount by {
      assert amount * fee <= amount * 1000;
    }
    if m == 0 {
      assert amount * (1000 - fee) == 1000 * (amount - q);
      DivExact(amount - q, 0);
    } else {
      assert q < amount;
      assert amount * (1000 - fee) == 1000 * (amount - q - 1) + (1000 - m);
      DivExact(amount - q - 1, 1000 - m);
    }
  }

  lemma DivExact(k: nat, m: nat)
    requires m < 1000
    ensures (1000 * k + m) / 1000 == k
  {
  }

  /** The worked examples: at 2.5%, 1000 splits as 975 + 25 with nothing
      lost, while 7 splits as 6 + 0 and one unit stays behind. */
  lemma FeeSplitExamples()
    ensures SellerShare(1000, 25) == 975 && TreasuryShare(1000, 25) == 25
    ensures SellerShare(7, 25) == 6 && TreasuryShare(7, 25) == 0
  {
  }

  /** `transfer_with_fee`: splits `amount` at fee rate `fee` and pays the
      seller's part to `account`, then the treasury's part to the treasury
      wallet. A fee above the denominator, an overflowing product or a
      missing treasury wallet aborts before anything is paid. */
  function TransferWithFee(e: Escrow, fee: nat, treasury: Option<AccountHash>, account: AccountHash, amount: U512): (r: Result<Escrow, Abort>)
    ensures fee > FEE_DENOMINATOR ==> r == Failure(HostError(ApiNone))
    ensures fee <= FEE_DENOMINATOR && amount * (FEE_DENOMINATOR - fee) >= U512_MODULUS ==> r == Failure(HostError(ApiNone))
    ensures amount * fee >= U512_MODULUS ==> r.Failure?
    ensures r.Success? ==> fee <= FEE_DENOMINATOR && treasury.Some?
    ensures r.Success? ==>
              r.value.payouts == e.payouts + [Payment(account, SellerShare(amount, fee)), Payment(treasury.value, TreasuryShare(amount, fee))]
    ensures r.Success? ==> LiveBalance(r.value) == LiveBalance(e) - SellerShare(amount, fee) - TreasuryShare(amount, fee)
    ensures r.Success? ==> Synced(r.value)
  {
    if fee > FEE_DENOMINATOR then Failure(HostError(ApiNone))
    else if amount * (FEE_DENOMINATOR - fee) >= U512_MODULUS then Failure(HostError(ApiNone))
    else
      var toAccount := amount * (FEE_DENOMINATOR - fee) / FEE_DENOMINATOR;
      if amount * fee >= U512_MODULUS then Failure(HostError(ApiNone))
      else
        var toTreasury := amount * fee / FEE_DENOMINATOR;
        match treasury
        case None => Failure(HostError(ApiNone))
        case Some(wallet) =>
          var e1 :- Transfer(e, account, toAccount);
          Transfer(e1, wallet, toTreasury)
  }

  /** A settlement the purse can cover goes through: with a sane fee, no
      overflow, a treasury wallet and at least `amount` in the purse, the
      split never asks for more than is there. */
  lemma TransferWithFeeSucceeds(e: Escrow, fee: nat, treasury: Option<AccountHash>, account: AccountHash, amount: U512)
    requires fee <= FEE_DENOMINATOR && amount * FEE_DENOMINATOR < U512_MODULUS
    requires treasury.Some? && e.live.Some? && amount <= e.live.value
    ensures TransferWithFee(e, fee, treasury, account, amount).Success?
  {
    SharesSum(amount, fee);
    assert amount * fee <= amount * FEE_DENOMINATOR;
    assert amount * (FEE_DENOMINATOR - fee) <= amount * FEE_DENOMINATOR;
  }
}
