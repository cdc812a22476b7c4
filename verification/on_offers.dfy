/** The enumerable index of (token, bidder) pairs, kept beside the offers. */
module OnOffers {
  import opened Base
  import opened Errors
  import Seqs

  type OnOffer = (Collection, TokenId, AccountHash)

  /** `read_on_offers`: a missing value reads as the empty list. */
  function Read(cell: Option<seq<OnOffer>>): (r: seq<OnOffer>)
    ensures cell.None? ==> r == []
    ensures cell.Some? ==> r == cell.value
  {
    cell.GetOr([])
  }

  /** `write_on_offers`: what is written is what is read back. */
  function Write(v: seq<OnOffer>): (cell: Option<seq<OnOffer>>)
    ensures Read(cell) == v
  {
    Some(v)
  }

  /** The position of the first entry matching all three of collection,
      token id and bidder. */
  function Position(s: seq<OnOffer>, collection: Collection, tokenId: TokenId, offerer: AccountHash): (r: Option<nat>)
    ensures r.Some? ==> r.value < |s| && s[r.value] == (collection, tokenId, offerer)
    ensures r.Some? ==> forall j :: 0 <= j < r.value ==> s[j] != (collection, tokenId, offerer)
    ensures r.None? <==> (collection, tokenId, offerer) !in s
  {
    Seqs.Position(s, (e: OnOffer) => e.0 == collection && e.1 == tokenId && e.2 == offerer)
  }

  /** `find`: reads the index (never failing), then locates the triple. */
  function Find(cell: Option<seq<OnOffer>>, collection: Collection, tokenId: TokenId, offerer: AccountHash): (r: Option<nat>)
    ensures r.Some? ==> r.value < |Read(cell)| && Read(cell)[r.value] == (collection, tokenId, offerer)
    ensures r.None? <==> (collection, tokenId, offerer) !in Read(cell)
  {
    Position(Read(cell), collection, tokenId, offerer)
  }
}
