/** A bid on a token: who offered, how much, when, and its status, with
    the status's one-byte code and the bid's serialized field order. */
module Bids {
  import opened Base
  import opened Bytesrepr

  datatype BidStatus = Pending | Accepted | NotAccepted | Canceled

  datatype Bid = Bid(offerer: AccountHash, price: U512, bidTime: U64, status: BidStatus)

  /** `BidStatus::from`: codes 0 to 3 name the four statuses in declaration
      order; any other byte panics, modelled as None. */
  function StatusFromByte(b: U8): (r: Option<BidStatus>)
    ensures r.Some? <==> b <= 3
    ensures b <= 3 ==> r == Some([Pending, Accepted, NotAccepted, Canceled][b])
  {
    match b
    case 0 => Some(Pending)
    case 1 => Some(Accepted)
    case 2 => Some(NotAccepted)
    case 3 => Some(Canceled)
    case _ => None
  }

  /** `status as u8`: the declaration index; decoding it gives the status back. */
  function StatusToByte(s: BidStatus): (b: U8)
    ensures b <= 3
    ensures [Pending, Accepted, NotAccepted, Canceled][b] == s
    ensures StatusFromByte(b) == Some(s)
  {
    match s
    case Pending => 0
    case Accepted => 1
    case NotAccepted => 2
    case Canceled => 3
  }

  /** Every decodable byte is the code of the status it decodes to. */
  lemma StatusByteRoundTrip(b: U8)
    requires b <= 3
    ensures StatusFromByte(b).Some? && StatusToByte(StatusFromByte(b).value) == b
  {
  }

  /** `Bid::to_bytes`: offerer, price, bid time, status code. */
  function EncodeBid(b: Bid): (fs: seq<Field>)
    ensures |fs| == 4
    ensures fs[0] == AccountField(b.offerer) && fs[3] == U8Field(StatusToByte(b.status))
  {
    [AccountField(b.offerer), U512Field(b.price), U64Field(b.bidTime), U8Field(StatusToByte(b.status))]
  }

  /** `Bid::from_bytes`, reading the fields in the order they are written.
      A missing or non-`u8` status field panics (the status decoder unwraps
      instead of propagating), and so does an unknown status code. */
  function DecodeBid(fs: seq<Field>): (r: Result<(Bid, seq<Field>), DecodeError>)
    ensures r.Success? ==> |fs| >= 4 && r.value.1 == fs[4..]
    ensures r.Success? ==> fs[0] == AccountField(r.value.0.offerer) && fs[1] == U512Field(r.value.0.price)
    ensures r.Success? ==> fs[2] == U64Field(r.value.0.bidTime) && fs[3] == U8Field(StatusToByte(r.value.0.status))
  {
    if |fs| < 1 || !fs[0].AccountField? then Failure(Malformed)
    else if |fs| < 2 || !fs[1].U512Field? then Failure(Malformed)
    else if |fs| < 3 || !fs[2].U64Field? then Failure(Malformed)
    else if |fs| < 4 || !fs[3].U8Field? then Failure(Panicked)
    else
      match StatusFromByte(fs[3].byte)
      case None => Failure(Panicked)
      case Some(status) => Success((Bid(fs[0].account, fs[1].wide, fs[2].long, status), fs[4..]))
  }

  /** Decoding reads back exactly what encoding wrote, leaving the rest. */
  lemma BidRoundTrip(b: Bid, rest: seq<Field>)
    ensures DecodeBid(EncodeBid(b) + rest) == Success((b, rest))
  {
  }

  /** Whatever decodes was written by the encoder: the two agree on the
      field order. */
  lemma DecodedBidWasEncoded(fs: seq<Field>)
    requires DecodeBid(fs).Success?
    ensures fs == EncodeBid(DecodeBid(fs).value.0) + fs[4..]
  {
  }

  /** `Bid::serialized_length`: the length of the four fields it writes. */
  function SerializedLength(b: Bid): (n: nat)
    ensures n == FieldsLength(EncodeBid(b))
  {
    var fs := EncodeBid(b);
    assert FieldsLength(fs[3..]) == 1 by {
      assert fs[3..][1..] == [];
    }
    assert FieldsLength(fs[1..]) == (1 + ByteCount(b.price)) + 8 + 1 by {
      assert fs[1..][1..] == fs[2..] && fs[2..][1..] == fs[3..];
    }
    32 + (1 + ByteCount(b.price)) + 8 + 1
  }
}
