/** Caller identity and named-key plumbing: resolving the host's call stack
    to an address, looking up a named key, and the single "result" slot. */
module Detail {
  import opened Base
  import opened Errors
  import Seqs

  /** One frame of the host's call stack. */
  datatype CallStackElement =
    | Session(accountHash: AccountHash)
    | StoredSession(accountHash: AccountHash, packageHash: PackageHash, contractHash: ContractHash)
    | StoredContract(packageHash: PackageHash, contractHash: ContractHash)

  /** An account or a contract package; also the registry's notion of a key. */
  datatype Address = AccountAddr(account: AccountHash) | PackageAddr(package: PackageHash) {
    function AsAccountHash(): Option<AccountHash> {
      if AccountAddr? then Some(account) else None
    }

    function AsPackageHash(): Option<PackageHash> {
      if PackageAddr? then Some(package) else None
    }
  }

  /** Session code, stored or not, acts for its account; a stored contract
      acts as its package. */
  function ElementToAddress(e: CallStackElement): (a: Address)
    ensures a.AccountAddr? <==> !e.StoredContract?
    ensures a.AccountAddr? ==> a.account == e.accountHash
    ensures a.PackageAddr? ==> a.package == e.packageHash
  {
    match e
    case Session(account) => AccountAddr(account)
    case StoredSession(account, _, _) => AccountAddr(account)
    case StoredContract(package, _) => PackageAddr(package)
  }

  /** `get_immediate_caller_address`: the frame second from the top, read as
      the second element of the reversed stack. */
  function ImmediateCallerAddress(stack: seq<CallStackElement>): (r: Result<Address, Error>)
    ensures r.Failure? <==> |stack| < 2
    ensures r.Failure? ==> r.error == InvalidContext
    ensures r.Success? ==> r.value == ElementToAddress(stack[|stack| - 2])
  {
    var reversed := Seqs.Reverse(stack);
    if |reversed| < 2 then Failure(InvalidContext) else Success(ElementToAddress(reversed[1]))
  }

  /** `get_caller_address`: the frame on top of the stack, read as the first
      element of the reversed stack. */
  function CallerAddress(stack: seq<CallStackElement>): (r: Result<Address, Error>)
    ensures r.Failure? <==> |stack| == 0
    ensures r.Failure? ==> r.error == InvalidContext
    ensures r.Success? ==> r.value == ElementToAddress(stack[|stack| - 1])
  {
    var reversed := Seqs.Reverse(stack);
    if |reversed| == 0 then Failure(InvalidContext) else Success(ElementToAddress(reversed[0]))
  }

  /** A value stored under a name in the contract's named keys. */
  datatype Key = URefKey(uref: nat) | AccountKey(account: AccountHash) | HashKey(hash: nat)

  /** `get_uref`: the unforgeable reference stored under `name`. */
  function GetURef(namedKeys: map<string, Key>, name: string): (r: Result<nat, Abort>)
    ensures name !in namedKeys <==> r == Failure(HostError(MissingKey))
    ensures name in namedKeys && !namedKeys[name].URefKey? <==> r == Failure(HostError(UnexpectedKeyVariant))
    ensures name in namedKeys && namedKeys[name].URefKey? <==> r.Success?
    ensures r.Success? ==> name in namedKeys && namedKeys[name] == URefKey(r.value)
  {
    if name !in namedKeys then Failure(HostError(MissingKey))
    else
      match namedKeys[name]
      case URefKey(u) => Success(u)
      case _ => Failure(HostError(UnexpectedKeyVariant))
  }

  /** `store_result`: the result slot is created on first use and
      overwritten afterwards; either way it then holds `v`. */
  function StoreResult<T>(slot: Option<T>, v: T): (r: Option<T>)
    ensures r.Some? && r.value == v
  {
    match slot
    case None => Some(v)
    case Some(_) => Some(v)
  }
}
