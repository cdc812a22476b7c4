/** The external token registry, one per collection, seen only through the
    four calls the marketplace makes: `owner_of`, `get_approved`,
    `transfer` and `transfer_from`. Its internals are not part of this
    model; this is an abstraction of them. A registry may be one that
    reports success but ignores transfers, which is what the marketplace's
    post-transfer ownership check defends against. */
module Registry {
  import opened Base
  import opened Errors
  import opened Detail

  /** One collection's registry: token owners, approved spenders keyed by
      (owner, token), and whether it silently ignores transfers. */
  datatype Cep47 = Cep47(owners: map<TokenId, Address>, approvals: map<(Address, TokenId), Address>, ignoresTransfers: bool)

  /** The registries of all collections; calling a collection that is not
      here fails. */
  type Registries = map<Collection, Cep47>

  /** `owner_of`. */
  function OwnerOf(reg: Registries, c: Collection, t: TokenId): (r: Result<Option<Address>, Abort>)
    ensures c !in reg <==> r == Failure(RegistryFailure)
    ensures c in reg <==> r.Success?
    ensures r.Success? ==> (r.value.Some? <==> t in reg[c].owners)
    ensures r.Success? && r.value.Some? ==> reg[c].owners[t] == r.value.value
  {
    if c !in reg then Failure(RegistryFailure)
    else if t in reg[c].owners then Success(Some(reg[c].owners[t]))
    else Success(None)
  }

  /** `get_approved(owner, token)`. */
  function GetApproved(reg: Registries, c: Collection, owner: Address, t: TokenId): (r: Result<Option<Address>, Abort>)
    ensures c !in reg <==> r == Failure(RegistryFailure)
    ensures c in reg <==> r.Success?
    ensures r.Success? ==> (r.value.Some? <==> (owner, t) in reg[c].approvals)
    ensures r.Success? && r.value.Some? ==> reg[c].approvals[(owner, t)] == r.value.value
  {
    if c !in reg then Failure(RegistryFailure)
    else if (owner, t) in reg[c].approvals then Success(Some(reg[c].approvals[(owner, t)]))
    else Success(None)
  }

  /** The effect of a transfer the registry accepted: the token changes
      hands and any approval the old owner gave for it lapses; a registry
      that ignores transfers stays as it was. */
  function Move(reg: Registries, c: Collection, from: Address, to: Address, t: TokenId): (r: Registries)
    requires c in reg
    ensures r.Keys == reg.Keys
    ensures forall c' :: c' in reg && c' != c ==> r[c'] == reg[c']
    ensures !reg[c].ignoresTransfers ==> r[c].owners == reg[c].owners[t := to]
    ensures reg[c].ignoresTransfers ==> r == reg
  {
    if reg[c].ignoresTransfers then reg
    else
      var cep := reg[c];
      reg[c := cep.(owners := cep.owners[t := to], approvals := cep.approvals - {(from, t)})]
  }

  /** `transfer_from(from, to, [t])` called by `spender`: the registry
      reverts unless `from` owns the token and `spender` is `from` or is
      approved by `from` for it. */
  function TransferFrom(reg: Registries, c: Collection, spender: Address, from: Address, to: Address, t: TokenId): (r: Result<Registries, Abort>)
    ensures r.Success? <==>
              && c in reg && t in reg[c].owners && reg[c].owners[t] == from
              && (spender == from || ((from, t) in reg[c].approvals && reg[c].approvals[(from, t)] == spender))
    ensures r.Failure? ==> r.error == RegistryFailure
    ensures r.Success? ==> r.value == Move(reg, c, from, to, t)
  {
    if c !in reg || t !in reg[c].owners || reg[c].owners[t] != from then Failure(RegistryFailure)
    else if spender != from && ((from, t) !in reg[c].approvals || reg[c].approvals[(from, t)] != spender) then Failure(RegistryFailure)
    else Success(Move(reg, c, from, to, t))
  }

  /** `transfer(to, [t])` called by `sender`: the registry reverts unless
      `sender` owns the token. */
  function Transfer(reg: Registries, c: Collection, sender: Address, to: Address, t: TokenId): (r: Result<Registries, Abort>)
    ensures r.Success? <==> c in reg && t in reg[c].owners && reg[c].owners[t] == sender
    ensures r.Failure? ==> r.error == RegistryFailure
    ensures r.Success? ==> r.value == Move(reg, c, sender, to, t)
  {
    if c !in reg || t !in reg[c].owners || reg[c].owners[t] != sender then Failure(RegistryFailure)
    else Success(Move(reg, c, sender, to, t))
  }
}
