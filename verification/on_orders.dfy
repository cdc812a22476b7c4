/** The enumerable index of listed tokens, kept beside the dictionary. */
module OnOrders {
  import opened Base
  import opened Errors
  import Seqs

  type OnOrder = (Collection, TokenId)

  /** `read_on_orders`: the stored list; there is no default, so a missing
      value aborts. */
  function Read(cell: Option<seq<OnOrder>>): (r: Result<seq<OnOrder>, Abort>)
    ensures r.Failure? <==> cell.None?
    ensures r.Failure? ==> r.error == HostError(ApiNone)
    ensures r.Success? ==> r.value == cell.value
  {
    match cell
    case None => Failure(HostError(ApiNone))
    case Some(v) => Success(v)
  }

  /** `write_on_orders`: what is written is what is read back. */
  function Write(v: seq<OnOrder>): (cell: Option<seq<OnOrder>>)
    ensures Read(cell) == Success(v)
  {
    Some(v)
  }

  /** The position of the first entry for the token. */
  function Position(s: seq<OnOrder>, collection: Collection, tokenId: TokenId): (r: Option<nat>)
    ensures r.Some? ==> r.value < |s| && s[r.value] == (collection, tokenId)
    ensures r.Some? ==> forall j :: 0 <= j < r.value ==> s[j] != (collection, tokenId)
    ensures r.None? <==> (collection, tokenId) !in s
  {
    Seqs.Position(s, (e: OnOrder) => e.0 == collection && e.1 == tokenId)
  }

  /** `find`: reads the index, then locates the token in it. */
  function Find(cell: Option<seq<OnOrder>>, collection: Collection, tokenId: TokenId): (r: Result<Option<nat>, Abort>)
    ensures cell.None? ==> r == Failure(HostError(ApiNone))
    ensures cell.Some? ==> r == Success(Position(cell.value, collection, tokenId))
  {
    var s :- Read(cell);
    Success(Position(s, collection, tokenId))
  }
}
