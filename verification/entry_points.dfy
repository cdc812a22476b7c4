/** The contract's entry-point table: each entry point's name and who may
    call it. The host refuses a group-gated call from a caller that holds
    none of the named groups' access keys. */
module EntryPoints {
  import opened Base

  /** The twelve entry points the contract registers. */
  datatype Name =
    | Constructor | SetTreasuryWallet | SetFee | GetPurse | CreateOrder | CancelOrder
    | CreateOffer | CancelOffer | AcceptOffer | CreateAuction | BuyOrder | GetAccessUref

  /** The name under which each entry point is registered and called. */
  function Text(n: Name): string {
    match n
    case Constructor => "constructor"
    case SetTreasuryWallet => "set_treasury_wallet"
    case SetFee => "set_fee"
    case GetPurse => "get_purse"
    case CreateOrder => "create_order"
    case CancelOrder => "cancel_order"
    case CreateOffer => "create_offer"
    case CancelOffer => "cancel_offer"
    case AcceptOffer => "accept_offer"
    case CreateAuction => "create_auction"
    case BuyOrder => "buy_order"
    case GetAccessUref => "get_access_uref"
  }

  /** The group whose keys may change the fee and the treasury wallet. */
  const ADMINS_GROUP: string := "admins"

  datatype Access = Public | Groups(groups: seq<string>)

  datatype EntryPoint = EntryPoint(name: Name, access: Access)

  /** `default`: the twelve entry points in registration order. */
  function Default(): (eps: seq<EntryPoint>)
    ensures |eps| == 12
    ensures forall i, j :: 0 <= i < j < |eps| ==> eps[i].name != eps[j].name
    ensures forall n: Name :: IndexOf(n) < |eps| && eps[IndexOf(n)].name == n
    ensures forall i :: 0 <= i < |eps| ==>
              (eps[i].access.Groups? <==> eps[i].name in {Constructor, SetTreasuryWallet, SetFee})
    ensures forall i :: 0 <= i < |eps| && eps[i].name == Constructor ==> eps[i].access == Groups([Text(Constructor)])
    ensures forall i :: 0 <= i < |eps| && eps[i].name in {SetTreasuryWallet, SetFee} ==>
              eps[i].access == Groups([ADMINS_GROUP])
  {
    var eps := [ EntryPoint(Constructor, Groups([Text(Constructor)])),
      EntryPoint(SetTreasuryWallet, Groups([ADMINS_GROUP])),
      EntryPoint(SetFee, Groups([ADMINS_GROUP])),
      EntryPoint(GetPurse, Public),
      EntryPoint(CreateOrder, Public),
      EntryPoint(CancelOrder, Public),
      EntryPoint(CreateOffer, Public),
      EntryPoint(CancelOffer, Public),
      EntryPoint(AcceptOffer, Public),
      EntryPoint(CreateAuction, Public),
      EntryPoint(BuyOrder, Public),
      EntryPoint(GetAccessUref, Public) ];
    eps
  }

  /** Where each name sits in the registration order. */
  function IndexOf(n: Name): (i: nat)
    ensures i < 12
  {
    match n
    case Constructor => 0
    case SetTreasuryWallet => 1
    case SetFee => 2
    case GetPurse => 3
    case CreateOrder => 4
    case CancelOrder => 5
    case CreateOffer => 6
    case CancelOffer => 7
    case AcceptOffer => 8
    case CreateAuction => 9
    case BuyOrder => 10
    case GetAccessUref => 11
  }

  /** The entry point registered under `name`, if any. */
  function Lookup(eps: seq<EntryPoint>, name: Name): (r: Option<EntryPoint>)
    ensures r.Some? ==> r.value in eps && r.value.name == name
    ensures r.None? <==> forall i :: 0 <= i < |eps| ==> eps[i].name != name
  {
    if eps == [] then None
    else if eps[0].name == name then Some(eps[0])
    else Lookup(eps[1..], name)
  }

  /** The host's gate: a public entry point admits anyone; a group-gated one
      admits a caller holding the key of at least one of its groups. */
  predicate MayInvoke(access: Access, held: set<string>) {
    match access
    case Public => true
    case Groups(groups) => exists i :: 0 <= i < |groups| && groups[i] in held
  }

  /** Whether the default table admits a caller holding the keys of the
      groups `held` to the entry point `name`. */
  predicate Admits(name: Name, held: set<string>) {
    var ep := Lookup(Default(), name);
    ep.Some? && MayInvoke(ep.value.access, held)
  }

  /** Looking a name up in the default table finds its own entry. */
  lemma LookupDefault(name: Name)
    ensures Lookup(Default(), name) == Some(Default()[IndexOf(name)])
  {
    var eps := Default();
    var ep := Lookup(eps, name);
    assert eps[IndexOf(name)].name == name;
    var k :| 0 <= k < |eps| && eps[k] == ep.value;
    assert k == IndexOf(name);
  }

  /** The order and offer entry points admit everyone, the fee and treasury
      setters admit exactly the holders of an admins key, and the
      constructor only holders of its own group's key. */
  lemma AdmittedByDefault(name: Name, held: set<string>)
    ensures name !in {Constructor, SetTreasuryWallet, SetFee} ==> Admits(name, held)
    ensures name in {SetTreasuryWallet, SetFee} ==> (Admits(name, held) <==> ADMINS_GROUP in held)
    ensures name == Constructor ==> (Admits(name, held) <==> Text(Constructor) in held)
  {
    LookupDefault(name);
    var access := Default()[IndexOf(name)].access;
    if access.Groups? {
      assert access.groups[0] in held <==> MayInvoke(access, held);
    }
  }
}
