/** The administrative entry points `set_fee` and `set_treasury_wallet`,
    and the `get_access_uref` query. */
module Admin {
  import opened Base
  import opened Errors
  import opened Detail
  import opened Purse
  import opened Events
  import opened MarketState

  /** `set_fee`: stores the new rate as given. Nothing bounds it, and a
      rate above the denominator makes every later settlement abort. */
  function SetFee(st: State, fee: U512): (r: State)
    ensures ReadFee(r) == fee
    ensures r.events == Emit(st.events, FeeChanged(fee))
    ensures r == st.(fee := Some(fee), events := r.events)
  {
    st.(fee := Some(fee), events := Emit(st.events, FeeChanged(fee)))
  }

  /** `set_treasury_wallet`: the argument is a formatted account-hash
      string; `parsed` is what parsing it gave, and a string that does not
      parse panics. */
  function SetTreasuryWallet(st: State, parsed: Option<AccountHash>): (r: Result<State, Abort>)
    ensures parsed.None? <==> r == Failure(Trap)
    ensures parsed.Some? <==> r.Success?
    ensures r.Success? ==> r.value.treasuryWallet == parsed
    ensures r.Success? ==> r.value.events == Emit(st.events, TreasuryWalletChanged(parsed.value))
    ensures r.Success? ==> r.value == st.(treasuryWallet := parsed, events := r.value.events)
  {
    var wallet :- SomeOrTrap(parsed);
    Success(st.(treasuryWallet := Some(wallet), events := Emit(st.events, TreasuryWalletChanged(wallet))))
  }

  /** `get_access_uref`: hands the caller the access reference stored under
      their own account's name. */
  function GetAccessUref(st: State, ctx: Ctx): (r: Result<nat, Abort>)
    ensures ctx.caller !in st.accessKeys <==> r == Failure(Revert(InvalidContext))
    ensures ctx.caller in st.accessKeys && !st.accessKeys[ctx.caller].URefKey? <==> r == Failure(Trap)
    ensures ctx.caller in st.accessKeys && st.accessKeys[ctx.caller].URefKey? <==> r.Success?
    ensures r.Success? ==> st.accessKeys[ctx.caller] == URefKey(r.value)
  {
    if ctx.caller !in st.accessKeys then Failure(Revert(InvalidContext))
    else
      match st.accessKeys[ctx.caller]
      case URefKey(u) => Success(u)
      case _ => Failure(Trap)
  }

  /** The fee written is the fee every later settlement reads, and the
      wallet written is the one the treasury's share is paid to. */
  lemma SettlementUsesSettings(st: State, fee: U512, wallet: AccountHash, account: AccountHash, amount: U512)
    ensures var s1 := SetTreasuryWallet(SetFee(st, fee), Some(wallet)).value;
            var r := TransferWithFee(s1.escrow, ReadFee(s1), s1.treasuryWallet, account, amount);
            && ReadFee(s1) == fee
            && (r.Success? ==> r.value.payouts[|r.value.payouts| - 1] == Payment(wallet, TreasuryShare(amount, fee)))
  {
  }

  /** A rate above the denominator, once set, makes settlement abort for
      every account and amount. */
  lemma FeeAboveDenominatorBlocksSettlement(st: State, fee: U512, account: AccountHash, amount: U512)
    requires fee > FEE_DENOMINATOR
    ensures var s1 := SetFee(st, fee);
            TransferWithFee(s1.escrow, ReadFee(s1), s1.treasuryWallet, account, amount) == Failure(HostError(ApiNone))
  {
  }
}
