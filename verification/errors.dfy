/** The contract's error enumeration, its numeric discriminants and the
    conversion to the host's `ApiError`; plus the ways an entry point can
    stop, each of which discards every effect of the call. */
module Errors {

  datatype Error =
    | InsufficientBalance
    | InsufficientAllowance
    | PermissionDenied
    | NotApproved
    | NotOwner
    | NotOrderMaker
    | NotValidAmount
    | BidExist
    | OrderExist
    | OrderNotExist
    | InvalidContext
    | KeyAlreadyExists
    | KeyMismatch
    | Overflow
      /** Raised by cancel_offer, but absent from the declared enumeration,
          so it has no discriminant and no conversion to an `ApiError`. */
    | OfferNotExist
  {
    /** True of every variant the enumeration declares. */
    predicate Declared() {
      !OfferNotExist?
    }
  }

  /** The `#[repr(u16)]` discriminant of a declared variant. */
  function Discriminant(e: Error): (code: nat)
    requires e.Declared()
    ensures code <= 1 || 41 <= code <= 48 || 90 <= code <= 93
    ensures code <= 1 <==> e.InsufficientBalance? || e.InsufficientAllowance?
    ensures 90 <= code <==> e.InvalidContext? || e.KeyAlreadyExists? || e.KeyMismatch? || e.Overflow?
  {
    match e
    case InsufficientBalance => 0
    case InsufficientAllowance => 1
    case PermissionDenied => 41
    case NotApproved => 42
    case NotOwner => 43
    case NotOrderMaker => 44
    case NotValidAmount => 45
    case BidExist => 46
    case OrderExist => 47
    case OrderNotExist => 48
    case InvalidContext => 90
    case KeyAlreadyExists => 91
    case KeyMismatch => 92
    case Overflow => 93
  }

  /** Distinct declared variants have distinct discriminants. */
  lemma DiscriminantInjective(a: Error, b: Error)
    requires a.Declared() && b.Declared()
    requires Discriminant(a) == Discriminant(b)
    ensures a == b
  {
  }

  /** The subset of the host's error codes this model produces. */
  datatype ApiError =
    | ApiNone                 // `unwrap_or_revert` on an absent value
    | MissingKey              // a named key that does not exist
    | UnexpectedKeyVariant    // a named key of the wrong kind
    | ApiDeserialize          // stored bytes that do not decode as the requested type
    | Transfer                // a native-currency transfer the host refused
    | ApiPermissionDenied     // the host's own permission error
    | User(code: nat)         // a contract-defined code

  /** `From<Error> for ApiError`: PermissionDenied becomes the host's own
      permission error, every other declared variant its user code. */
  function ToApiError(e: Error): (r: ApiError)
    requires e.Declared()
    ensures r == ApiPermissionDenied <==> e == PermissionDenied
    ensures e != PermissionDenied ==> r.User? && r.code == Discriminant(e)
  {
    if e == PermissionDenied then ApiPermissionDenied else User(Discriminant(e))
  }

  /** The conversion loses no information: distinct declared variants reach
      the caller as distinct host errors. */
  lemma ToApiErrorInjective(a: Error, b: Error)
    requires a.Declared() && b.Declared()
    requires ToApiError(a) == ToApiError(b)
    ensures a == b
  {
    if a != PermissionDenied && b != PermissionDenied {
      DiscriminantInjective(a, b);
    }
  }

  /** Why an entry point stopped. */
  datatype Abort =
    | Revert(error: Error)        // `runtime::revert` with a contract error
    | HostError(api: ApiError)    // a host or storage failure passed on by `unwrap_or_revert`
    | Trap                        // a Rust panic: `unwrap` on None or Err, `panic!`
    | RegistryFailure             // the external token registry reverted
    | Forbidden                   // the host refused the call: caller not in the entry point's group
}
