/** The serialized form of the contract's records, one level above bytes.
    The ledger's codecs for hashes, wide integers and `u64` are external, so
    a serialized record is modelled as the sequence of primitive fields it
    is written as; the order of those fields is what the contract decides. */
module Bytesrepr {
  import opened Base

  /** One primitive value as the ledger's codec writes it. */
  datatype Field =
    | AccountField(account: AccountHash)
    | ContractHashField(hash: ContractHash)
    | U512Field(wide: U512)
    | U256Field(mid: U256)
    | U64Field(long: U64)
    | U8Field(byte: U8)
    | LengthField(count: nat)   // the `u32` element count in front of a `Vec`

  /** How a decoder can fail: a codec error passed on with `?`, or a panic. */
  datatype DecodeError = Malformed | Panicked

  /** Bytes needed for the significant part of a wide integer. */
  function ByteCount(x: nat): nat {
    if x == 0 then 0 else 1 + ByteCount(x / 256)
  }

  /** The ledger's serialized length of one field: hashes are 32 bytes, wide
      integers a length byte plus their significant bytes, `u64` 8 bytes,
      `u8` one byte and a `Vec` length prefix 4 bytes. */
  function FieldLength(f: Field): nat {
    match f
    case AccountField(_) => 32
    case ContractHashField(_) => 32
    case U512Field(x) => 1 + ByteCount(x)
    case U256Field(x) => 1 + ByteCount(x)
    case U64Field(_) => 8
    case U8Field(_) => 1
    case LengthField(_) => 4
  }

  function FieldsLength(fs: seq<Field>): nat {
    if |fs| == 0 then 0 else FieldLength(fs[0]) + FieldsLength(fs[1..])
  }

  lemma {:induction false} FieldsLengthAppend(a: seq<Field>, b: seq<Field>)
    ensures FieldsLength(a + b) == FieldsLength(a) + FieldsLength(b)
  {
    if |a| == 0 {
      assert a + b == b;
    } else {
      assert (a + b)[1..] == a[1..] + b;
      FieldsLengthAppend(a[1..], b);
    }
  }
}
