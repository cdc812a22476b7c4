/** Shared vocabulary of the marketplace model: optional values, the
    all-or-nothing outcome of an entry point, the ledger's fixed-width
    integer types and the identities that appear in the contract's records. */
module Base {

  /** Rust's `Option`. */
  datatype Option<+T> = None | Some(value: T) {
    /** `unwrap_or_default` / `unwrap_or` */
    function GetOr(default: T): T {
      match this
      case Some(v) => v
      case None => default
    }
  }

  /** Rust's `Result`; failure-compatible so that `:-` plays the role of `?`
      and of `unwrap_or_revert`. */
  datatype Result<+T, +E> = Success(value: T) | Failure(error: E) {
    predicate IsFailure() {
      Failure?
    }

    function PropagateFailure<U>(): Result<U, E>
      requires Failure?
    {
      Failure(error)
    }

    function Extract(): T
      requires Success?
    {
      value
    }
  }

  /** 2^512, one past the largest `U512`. */
  const U512_MODULUS: int := 0x1_0000_0000_0000_0000_0000_0000_0000_0000_0000_0000_0000_0000_0000_0000_0000_0000_0000_0000_0000_0000_0000_0000_0000_0000_0000_0000_0000_0000_0000_0000_0000_0000
  /** 2^256, one past the largest `U256`. */
  const U256_MODULUS: int := 0x1_0000_0000_0000_0000_0000_0000_0000_0000_0000_0000_0000_0000_0000_0000_0000_0000
  /** 2^64, one past the largest `u64`. */
  const U64_MODULUS: int := 0x1_0000_0000_0000_0000

  type U512 = x: int | 0 <= x < U512_MODULUS
  type U256 = x: int | 0 <= x < U256_MODULUS
  type U64 = x: int | 0 <= x < U64_MODULUS
  type U8 = x: int | 0 <= x < 256

  /** Identities are compared for equality only; their byte form is the
      ledger's business. */
  type AccountHash = nat
  type PackageHash = nat
  type ContractHash = nat
  /** A token collection is named by the hash of its registry contract. */
  type Collection = ContractHash
  type TokenId = U256
}
