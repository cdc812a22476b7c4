# casper NFT marketplace: a Dafny model

This project models the core of a marketplace contract for a Casper
network. Token holders list NFTs for a fixed price (orders). Bidders place
bids paid into an escrow purse (offers). An owner accepts one bid, and the
contract settles it through a fee split to a treasury wallet. An admin
group sets the fee and the treasury wallet.

Every entry point is modelled as a pure function
`Op(state, ctx, args): Result<State, Abort>`. A `Failure` stands for the
host reverting the whole call, so the stored state is left as it was.
`Abort` separates five causes:
- a contract error (`Revert`);
- a host or storage error passed on by `unwrap_or_revert` (`HostError`);
- a Rust panic (`Trap`);
- a failure inside the external token registry (`RegistryFailure`);
- the host refusing a caller outside an entry point's group (`Forbidden`).

The state record (`MarketState.State`) holds these items:
- the fee and the treasury wallet;
- the escrow purse: the contract's cached balance, the ledger's live balance, and a log of payments out;
- the single `orders` dictionary, which holds both orders and offers;
- the two enumerable indexes `on_orders` and `on_offers`;
- the `result` slot and the event log;
- one abstract CEP-47 registry per collection;
- the named keys `get_access_uref` reads.

`MarketState.Ctx` carries the caller that `runtime::get_caller` reports,
the host call stack, the block time, and the marketplace package. The
registry sees that package as its caller.

Modules follow the contract's files:
- `Errors`: error.rs.
- `Detail`: detail.rs.
- `Bids`: structs/bid.rs.
- `OfferStruct`: structs/offer.rs.
- `Store`: orders.rs and offers.rs.
- `OnOrders` and `OnOffers`: on_orders.rs and on_offers.rs.
- `Purse`: purse.rs.
- `EntryPoints`: entry_points.rs.
- `Events`: event.rs.
- `OrderBook`, `OfferBook` and `Admin`: the entry points of main.rs.
- `Funding`: pre_create_offer.rs and pre_buy_order.rs.
- `Dispatch`: the host's group check in front of the entry points.

Four modules hold properties that span several calls:
- `Invariants`: what every entry point preserves.
- `Scenarios` and `OfferScenarios`: multi-call behaviour, including the places where the bookkeeping does not add up.
- `Registry`: the abstraction of the external token contract.

## Decisions where the code is silent or surprising

- **`read_offer` returns an `Option<Offer>`.** The entry points use the result as an `Offer`. An empty slot is read as a fresh offer with no bids (`OfferBook.CurrentOffer`). This is the only reading under which two first bids on a token give two bids, as the integration test expects.
- **`cancel_offer` reverts with `OfferNotExist`, which `Error` does not declare.** The model adds the variant. `Errors.Error.Declared()` excludes it, so it has no discriminant and no `ApiError` conversion.
- **The field name.** Events in main.rs fill a field `offerer` that event.rs declares as `maker`. The model has one field, `maker`, for the account that raised the event.
- **Orders and offers share one dictionary under the same key.** The code does not say what happens when a slot holding one kind of record is read as the other kind. The model takes that read to fail with a deserialisation error. This is an assumption.
- **The call context is not constrained.** `Ctx.self`, the package the registry sees as the caller, and the package on top of the call stack are separate fields. Only `MarketState.DirectCall` relates them, so every entry-point contract holds for every context, including ones the host would not produce.
- **The registry is abstract.** `owner_of`, `get_approved`, `transfer` and `transfer_from` are modelled as maps: owners, and approvals keyed by (owner, token).
  - A transfer succeeds exactly when the sender owns the token and, for `transfer_from`, the spender is the owner or is approved by it.
  - A registry may report success while ignoring transfers. That is the only way `create_order`'s `NotOwner` check can fire.
- **Only the lister can buy.** `buy_order` reverts unless the caller is the account that listed the token, which defeats the purpose of a sale. The model keeps this check (`Scenarios.BuyerIsLister`).
- **Overflow does not raise `Error::Overflow`.** The code's `checked_*` calls end in `unwrap_or_revert`, so a fee above 1000 or an overflowing product reverts with the host's `None` error, although `Error` declares an `Overflow` variant.
- **The purse does not hold exactly the outstanding bids.** Currency can stay in the purse with no bid to account for it:
  - a re-bid drops the old bid without a refund (`OfferScenarios.RebidLeaksEscrow`);
  - the fee split keeps the truncation remainder (`Purse.SharesSum`);
  - listing a token that has bids overwrites its offer, so those bids can no longer be refunded (`OfferScenarios.ListingHidesOffer`).
- **`accept_offer` leaves the bidder index alone.** The winner's entry stays behind with no bid (`OfferScenarios.AcceptLeavesStaleEntry`). The winner can then neither cancel nor bid again on that token (`OfferScenarios.WinnerIsStuck`). The model keeps this behaviour.

## Model

| member | source | states |
|---|---|---|
| Errors.Discriminant | contract/src/error.rs:16-34 | The two balance errors have codes 0 and 1. The authorisation and validation errors have codes 41-48. The context and integrity errors have codes 90-93. |
| Errors.DiscriminantInjective | contract/src/error.rs:16-34 | Distinct declared variants have distinct discriminants. |
| Errors.ToApiError | contract/src/error.rs:36-55 | `PermissionDenied` becomes the host's own permission error, and only it does. Every other declared variant becomes `User(discriminant)`. |
| Errors.ToApiErrorInjective | contract/src/error.rs:36-55 | Distinct declared errors reach the caller as distinct host errors. |
| Detail.ElementToAddress | contract/src/detail.rs:30-43 | Session and stored-session frames resolve to their account hash. A stored-contract frame resolves to its package hash. |
| Detail.ImmediateCallerAddress | contract/src/detail.rs:49-53 | Fails with `InvalidContext` exactly when the stack has fewer than two frames. Otherwise it resolves the frame second from the top. |
| Detail.CallerAddress | contract/src/detail.rs:58-67 | Fails with `InvalidContext` exactly on an empty stack. Otherwise it resolves the top frame. |
| Detail.GetURef | contract/src/detail.rs:13-18 | A missing name fails with `MissingKey`. A key of another kind fails with `UnexpectedKeyVariant`. It succeeds exactly when the name holds a reference, and then returns that reference. |
| Detail.StoreResult | contract/src/detail.rs:69-78 | Whether or not the slot existed, it afterwards holds exactly the stored value. |
| Bids.StatusFromByte | contract/src/structs/bid.rs:49-58 | Decodes exactly the bytes 0-3, to `Pending`, `Accepted`, `NotAccepted` and `Canceled` in that order. Any other byte panics. |
| Bids.StatusToByte | contract/src/structs/bid.rs:23-28 | The code is the status's declaration index (0 to 3), and decoding it gives the status back. |
| Bids.StatusByteRoundTrip | contract/src/structs/bid.rs:42-58 | Every decodable byte is the code of the status it decodes to. |
| Bids.EncodeBid | contract/src/structs/bid.rs:91-100 | Four fields, with the offerer first and the status code last. |
| Bids.DecodeBid | contract/src/structs/bid.rs:75-89 | A successful decode consumed four fields holding the offerer, price, bid time and status code of the result, in that order. |
| Bids.BidRoundTrip | contract/src/structs/bid.rs:75-100 | Decoding an encoded bid gives it back and leaves what follows untouched. |
| Bids.DecodedBidWasEncoded | contract/src/structs/bid.rs:75-100 | Whatever decodes is the encoding of the decoded bid followed by the rest. |
| Bids.SerializedLength | contract/src/structs/bid.rs:102-107 | Equals the sum of the serialized lengths of the four fields `to_bytes` writes. |
| OfferStruct.BidIndexByAccount | contract/src/structs/offer.rs:74-83 | Returns the first in-range position holding a bid by the account. Returns None exactly when no bid is by that account. |
| OfferStruct.MatchingPairsFullIffPrefix | contract/src/structs/offer.rs:56-70 | Every zipped pair matches exactly when the left bids are a prefix of the right bids. |
| OfferStruct.OfferEqMeansPrefix | contract/src/structs/offer.rs:56-70 | `eq` holds exactly when both offers are for the same token and the left bids are a prefix of the right bids. |
| OfferStruct.OfferEqAsymmetric | contract/src/structs/offer.rs:56-70 | An offer without bids equals the same offer with one bid, but not the other way round. |
| OfferStruct.BidSeqRoundTrip | contract/src/structs/offer.rs:24-54 | Decoding `n` bids from their encoding gives them back, followed by the untouched rest. |
| OfferStruct.OfferRoundTrip | contract/src/structs/offer.rs:24-54 | Decoding an encoded offer gives it back (collection, token id, bids), whatever follows it. |
| Store.SharedSlot | contract/src/orders.rs:18-25 | An order and an offer share a dictionary slot exactly when they are for the same collection and token. |
| Store.ReadOrder | contract/src/orders.rs:35-41 | Fails with `None` exactly when the slot is empty. Succeeds exactly when the slot holds an order, and returns that order. |
| Store.ReadOffer | contract/src/offers.rs:35-39 | Returns `None` exactly when the slot is empty. Returns `Some` exactly when the slot holds an offer, and returns that offer. A slot holding an order fails. |
| Store.WriteOrder | contract/src/orders.rs:28-32 | Reading the order back gives it. The slot is added if it was absent, and every other slot is untouched. |
| Store.WriteOffer | contract/src/offers.rs:28-32 | Reading the offer back gives it. The slot no longer reads as an order, and every other slot is untouched. |
| OnOrders.Read | contract/src/on_orders.rs:16-19 | Fails exactly when no list is stored. Otherwise it returns the stored list. |
| OnOrders.Write | contract/src/on_orders.rs:21-24 | Reading after writing returns the written list. |
| OnOrders.Position | contract/src/on_orders.rs:26-32 | Returns the first in-range position of the pair. Returns None exactly when the pair is absent. |
| OnOrders.Find | contract/src/on_orders.rs:26-32 | A missing list aborts. Otherwise it returns the first position of the pair in the stored list. |
| OnOffers.Read | contract/src/on_offers.rs:16-19 | An absent list reads as empty. A stored list reads as itself. |
| OnOffers.Write | contract/src/on_offers.rs:21-24 | Reading after writing returns the written list. |
| OnOffers.Position | contract/src/on_offers.rs:26-36 | Returns the first in-range position matching all three of collection, token and bidder. Returns None exactly when no entry matches. |
| OnOffers.Find | contract/src/on_offers.rs:26-36 | The position of the triple in the stored list, or in the empty list when none is stored. Returns None exactly when the triple is absent. |
| Purse.UpdatePurseBalance | contract/src/purse.rs:81-85 | Afterwards the cached balance equals the live balance, and nothing else changes. |
| Purse.AddOrZero | contract/src/purse.rs:44-47 | The sum when it fits in a U512. 0 when it overflows. |
| Purse.CheckedBalance | contract/src/purse.rs:38-54 | Succeeds exactly when the live balance equals the cached balance plus the claimed amount. An overflowing sum is compared as 0. Any other case fails with `PermissionDenied`. On success it returns the live balance and leaves the purse synced. |
| Purse.Transfer | contract/src/purse.rs:56-60 | Succeeds exactly when the purse exists and covers the amount. On success the live balance drops by the amount, the payment is logged, and the purse is synced. |
| Purse.SharesSum | contract/src/purse.rs:62-79 | The seller's and the treasury's shares add up to the amount when `amount*fee` is a multiple of 1000. Otherwise they add up to one unit less. |
| Purse.FeeSplitExamples | contract/src/main.rs:420-424 | At the installed rate of 25 parts per thousand, 1000 splits as 975 + 25 and 7 splits as 6 + 0. |
| Purse.TransferWithFee | contract/src/purse.rs:62-79 | A fee above 1000 or an overflowing product fails before anything is paid. On success it pays the seller's share and then the treasury's share, in that order. The live balance drops by both shares. |
| Purse.TransferWithFeeSucceeds | contract/src/purse.rs:62-79 | With a fee of at most 1000, a treasury wallet, no overflow and a purse holding the amount, the split always goes through. |
| Registry.OwnerOf | contract/src/main.rs:340 | Fails exactly for an unknown collection and succeeds for every known one. It returns the token's recorded owner, if any. |
| Registry.GetApproved | contract/src/main.rs:130 | Fails exactly for an unknown collection and succeeds for every known one. It returns the spender the owner approved for the token, if any. |
| Registry.Move | contract/src/main.rs:136-140 | Only the named collection changes. The token gets the new owner unless the registry ignores transfers. |
| Registry.TransferFrom | contract/src/main.rs:136-140 | Succeeds exactly when `from` owns the token and the spender is `from` or is approved by `from`. On success the token moves. |
| Registry.Transfer | contract/src/main.rs:186 | Succeeds exactly when the sender owns the token. On success the token moves. |
| EntryPoints.Default | contract/src/entry_points.rs:181-196 | Twelve entries with distinct names, and every name is registered. Exactly the constructor, `set_treasury_wallet` and `set_fee` are group-gated: the constructor by its own group, the two setters by `admins`. |
| EntryPoints.Lookup | contract/src/entry_points.rs:181-196 | Finds an entry of the table with that name. Returns None exactly when no entry has the name. |
| EntryPoints.LookupDefault | contract/src/entry_points.rs:181-196 | Looking up any name in the default table finds its own entry. |
| EntryPoints.AdmittedByDefault | contract/src/entry_points.rs:18-180 | The market, purse, access and auction entry points admit everyone. The setters admit exactly holders of an `admins` key. The constructor admits exactly holders of a `constructor` key. |
| Events.Params | contract/src/event.rs:56-160 | Every map is tagged with its entry point's name. A price is recorded exactly for the created, bought and accepted events. The market events record exactly maker, collection, token id and (where relevant) price. `FeeChanged` records only the tag and the fee, and `TreasuryWalletChanged` only the tag and the wallet. |
| Events.Emit | contract/src/event.rs:157-159 | The log grows by one map and earlier maps are unchanged. |
| Events.EventTypeIsEntryPoint | contract/src/event.rs:56-155 | Each event's tag is the name of a registered entry point other than the constructor. |
| Events.TagIdentifiesVariant | contract/src/event.rs:56-155 | Events with equal tags come from the same entry point. |
| Events.TextInjective | contract/src/constants.rs:28-39 | The registered entry-point names are pairwise distinct. |
| MarketState.ReadFee | contract/src/fee.rs:14-17 | An unset fee reads as 0. A set fee reads as itself. |
| MarketState.Marketplace | contract/src/main.rs:118-122 | Succeeds exactly when the top frame is a stored contract, and returns its package. Any other case panics. |
| MarketState.Seller | contract/src/main.rs:124-128 | Succeeds exactly when there is a frame below the top and it is not a stored contract, and returns its account. Any other case panics. |
| MarketState.DirectCallResolves | contract/src/detail.rs:49-67 | On a session calling the marketplace directly, the two stack readings give the marketplace package and the calling account. |
| OrderBook.Delisted | contract/src/main.rs:190-192 | The index loses exactly one copy of the token's pair and nothing else. |
| OrderBook.CreateOrder | contract/src/main.rs:98-163 | The checks run in this order: a missing index aborts, then an already-listed token fails `OrderExist`, then a bad call stack panics, then an unknown collection fails in the registry, then a missing approval fails `NotApproved`, then a refused `transfer_from` fails in the registry, then a marketplace that does not own the token afterwards fails `NotOwner`. When every check passes it succeeds. `NotOwner` only arises from a registry that ignores transfers. On success the pair is appended last, the token is moved to the marketplace and owned by it, an active order by the caller at the price is stored, and one event is emitted. Nothing else changes. |
| OrderBook.CancelOrder | contract/src/main.rs:169-200 | Fails `OrderNotExist` when the token is unlisted. A slot that does not hold an order fails to read. Fails `NotOrderMaker` when the caller is not the lister. After those checks it succeeds exactly when the registry accepts the token's return. Given the assumption about reading an offer slot as an order, it never panics. On success the token goes back to the lister, the record is kept but inactive and becomes the result, and exactly the token's index entry is removed. Nothing else changes. |
| OrderBook.BuyOrder | contract/src/main.rs:203-244 | The checks run in this order: `OrderNotExist`, then the deposit check (`PermissionDenied`), then the order read, then `NotValidAmount`, then `NotOrderMaker`. After those checks it succeeds exactly when the registry moves the token and the fee split goes through. A fee above 1000 always fails. On success the token goes to the caller, the price is settled to the lister through the fee split, and the order is closed and delisted. |
| OfferBook.CurrentOffer | contract/src/main.rs:265 | An empty slot gives a fresh offer with no bids. An offer slot gives its offer. An order slot fails to decode. |
| OfferBook.NewBid | contract/src/main.rs:254-263 | The bid is by the caller, at the price, stamped with the block time, and pending. |
| OfferBook.CreateOffer | contract/src/main.rs:247-288 | The deposit check comes first, then the offer read. It succeeds exactly when both pass and an indexed bidder has a bid. For an indexed bidder, the old bid is removed (a missing one panics) and the index is unchanged. For a new bidder, one index entry is appended. Either way the new bid goes last, becomes the result and is stored. The escrow is the one the deposit check leaves. |
| OfferBook.CancelOffer | contract/src/main.rs:291-326 | Fails `OfferNotExist` when the caller is not indexed on the token. Fails `PermissionDenied` when the caller has no bid. After those checks it succeeds exactly when the purse covers the refund. On success it refunds exactly that bid's price to the caller and removes only that bid and the caller's index entry. |
| OfferBook.AcceptOffer | contract/src/main.rs:329-363 | An unknown token panics. A caller who is not the owner fails `PermissionDenied`. A bid number out of range panics. After those checks it succeeds exactly when the fee split goes through and the registry moves the token to the bidder. On success it pays the owner the bid price through the fee split, moves the token to the bidder and removes only that bid. The bidder index is unchanged. |
| Admin.SetFee | contract/src/main.rs:91-95 | The fee read afterwards is the given one, whatever its size. One event is emitted, and nothing else changes. |
| Admin.SetTreasuryWallet | contract/src/main.rs:79-88 | An unparsable wallet panics, and a parsable one always succeeds. The wallet is then stored and one event is emitted, and nothing else changes. |
| Admin.GetAccessUref | contract/src/main.rs:66-76 | A caller without a key fails `InvalidContext`. A key that is not a reference panics. It succeeds exactly when the caller's key is a reference, and then returns it. |
| Admin.SettlementUsesSettings | contract/src/purse.rs:62-79 | After setting fee and wallet, settlement reads that fee and pays the treasury share to that wallet. |
| Admin.FeeAboveDenominatorBlocksSettlement | contract/src/main.rs:91-95 | Once a fee above 1000 is set, every settlement aborts. |
| Invariants.InitialValid | contract/src/main.rs:426-441 | The installed state (empty dictionary, both indexes empty) is valid. |
| Invariants.RemoveBid | contract/src/main.rs:272 | Removing one bid keeps the rest distinct and pending, and removes that bidder. |
| Invariants.CurrentOfferValid | contract/src/main.rs:265 | In a valid state the offer an entry point reads is for the token, and its bids are distinct, pending and indexed. |
| Invariants.CreateOrderPreserves | contract/src/main.rs:106-156 | A successful `create_order` keeps the state valid. |
| Invariants.CloseOrderValid | contract/src/main.rs:187-192 | Closing the token's order and removing its index entry keeps the state valid. |
| Invariants.CancelOrderPreserves | contract/src/main.rs:169-200 | A successful `cancel_order` keeps the state valid. |
| Invariants.BuyOrderPreserves | contract/src/main.rs:203-244 | A successful `buy_order` keeps the state valid. |
| Invariants.CreateOfferPreserves | contract/src/main.rs:258-281 | A successful `create_offer` keeps no duplicate bidder, every bid pending, and every bidder indexed. |
| Invariants.CancelOfferPreserves | contract/src/main.rs:305-317 | A successful `cancel_offer` keeps the state valid, although it removes an index entry. |
| Invariants.AcceptOfferPreserves | contract/src/main.rs:344-356 | A successful `accept_offer` keeps the state valid. |
| Invariants.SetFeePreserves | contract/src/main.rs:91-95 | `set_fee` keeps the state valid. |
| Invariants.SetTreasuryWalletPreserves | contract/src/main.rs:79-88 | A successful `set_treasury_wallet` keeps the state valid. |
| Scenarios.ListThenCancel | tests/src/integration_tests.rs:591-605 | On a direct call, listing and then cancelling by the same account succeeds. It restores the order index, gives the token back to the account, and leaves the order stored but inactive. |
| Scenarios.RelistAfterCancel | contract/src/main.rs:106-112 | After a cancel in a valid state the token is listable again and relisting does not fail `OrderExist`. |
| Scenarios.BuyerIsLister | contract/src/main.rs:222-225 | A successful purchase is always made by the account that listed the token. |
| Scenarios.PurchaseSettlement | contract/src/main.rs:228-237 | A purchase pays exactly the two fee shares of the price, to the lister and then the treasury. The live balance drops by both shares, the order is closed, and the token is no longer listed. |
| OfferScenarios.TwoBidders | tests/src/integration_tests.rs:461-482 | Two different first bidders on an unbid token leave exactly their two bids, in order. |
| OfferScenarios.CancelFirstOfTwo | tests/src/integration_tests.rs:484-508 | Cancelling one of two bids leaves exactly the other bid and refunds the canceller's price. |
| OfferScenarios.AcceptLeavesStaleEntry | contract/src/main.rs:344-356 | After an accept, the winning bidder is still indexed on the token, the offer still reads, and it holds no bid by the winner. |
| OfferScenarios.WinnerIsStuck | contract/src/main.rs:299-319 | The winner's later `cancel_offer` fails `PermissionDenied`, and their later `create_offer` fails. |
| OfferScenarios.RebidLeaksEscrow | contract/src/main.rs:266-276 | A re-bid pays nothing out and keeps the purse balance, while the old bid disappears and only the new one remains for that bidder. |
| OfferScenarios.ListingHidesOffer | contract/src/offers.rs:28-32 | Listing a token that has bids overwrites its offer, so every bidder's `cancel_offer` then fails. |
| OfferScenarios.NoBidsAfterListing | contract/src/offers.rs:35-39 | Once the token's slot holds an order, every bid that passes the deposit check aborts. |
| OfferScenarios.EscrowSyncedAfter | contract/src/purse.rs:52-60 | After every entry point that moves currency, the cached purse balance equals the live one. |
| Funding.Deposit | contract/src/pre_create_offer.rs:34-41 | The transfer fails exactly when the ledger knows no balance for the marketplace purse or the amount exceeds the caller's funds. Otherwise the purse grows by exactly the amount and the caller keeps the rest. |
| Funding.FundedCreateOffer | contract/src/pre_create_offer.rs:34-50 | A failed deposit aborts before `create_offer` runs. Otherwise the outcome is `create_offer` with the same token and amount on the funded purse. |
| Funding.FundedBuyOrder | contract/src/pre_buy_order.rs:34-50 | A failed deposit aborts before `buy_order` runs. Otherwise the outcome is `buy_order` with the same token and amount on the funded purse. |
| Funding.DepositPassesCheck | contract/src/purse.rs:38-54 | After depositing into a synced purse, the deposit check passes for exactly the deposited amount. |
| Funding.UnfundedCallRefused | contract/src/purse.rs:44-51 | With a synced purse and no deposit, any positive claimed amount fails `PermissionDenied`. |
| Funding.FundedBidPassesDepositCheck | contract/src/pre_create_offer.rs:40-50 | A funded bid on a synced purse is never refused by the deposit check. |
| Funding.FundedBuyPassesDepositCheck | contract/src/pre_buy_order.rs:40-50 | A funded purchase on a synced purse is never refused by the deposit check. |
| Dispatch.Invoke | contract/src/entry_points.rs:181-196 | A caller outside the entry point's groups is refused. Any other call runs the entry point. |
| Dispatch.SettersAreAdminOnly | contract/src/entry_points.rs:29-51 | The fee and treasury setters are refused exactly to callers without an `admins` key. |
| Dispatch.MarketCallsArePublic | contract/src/entry_points.rs:54-180 | Every order and offer call runs, whatever keys the caller holds. |
| Dispatch.InvokePreserves | contract/src/main.rs:79-363 | Every successful call, by anyone, keeps the stored state valid. |

## Left out

- `constructor`, `call` and the installer (contract/src/main.rs:366-491): installation creates the named keys, the purse and the dictionary. The model starts from a state in which they exist (`Invariants.InitialValid`), except where an entry point's own handling of a missing item is modelled.
- `get_purse`: it only hands out the purse reference, which is taken to exist. `Funding.Deposit` starts from it.
- `create_auction` (contract/src/main.rs:381-407): it stores a record that nothing else reads.
- `change_order_price` (contract/src/main.rs:166): its body is empty.
- contract/src/authorize_account.rs is not part of this model: it grants group keys, which the model takes as the `held` set given to `Dispatch.Invoke`.
- Argument decoding (`get_named_arg`, `Key::into_hash().unwrap()`): arguments are typed parameters, and a wrongly typed argument's panic is not modelled. The one exception is the treasury wallet string, whose parse result is the parameter of `Admin.SetTreasuryWallet`.
- Named-key lookups for the purse, the purse balance, the fee and the wallet (`get_uref`): these keys are taken to exist. `Detail.GetURef` models the lookup itself.
- Dictionary key hashing (blake2b and hex) is taken to be injective, so the key is the (collection, token) pair.
- The ledger's byte codecs for hashes and wide integers are external. Records are encoded to a sequence of typed fields, so the round trips are about field order, not bytes.
- The string form of event values (`to_string` on hashes and numbers): event values stay typed.
- Stored events are a log. Each event's fresh storage reference is not modelled.
- The registry's internals: `Registry` is an abstraction. A registry that reverts on a known collection for other reasons is not modelled.
- Native-currency transfers are modelled only as arithmetic on the live balance. The only host failures modelled are a missing purse and an amount above the balance.
- Balances are unbounded naturals. Only the U512 bounds the code checks (`checked_add`, `checked_mul`, `checked_sub`) are modelled.
- The stale files contract/src/offer.rs, contract/src/bid.rs and contract/src/order.rs: main.rs does not compile them.
- `Vec` lengths are unbounded; the `u32` length prefix of an encoded bid list is not bounded.
- Purse.CheckedBalance: the purse's named key is taken to exist, so the `MissingKey` revert of `get_main_purse` is not modelled. A live balance of `None` stands for a purse the ledger reports no balance for; `checked_balance` reads it as 0, and both transfers refuse it.
- Store.ReadOrder, Store.ReadOffer: reading a slot that holds the other kind of record is assumed to fail with a deserialisation error (`ApiDeserialize`) rather than panic. The order decoder `main.rs` compiles is not part of this model, and the stale contract/src/order.rs decoder unwraps every field, so a panic is possible there. The no-panic clauses of `OrderBook.CancelOrder` and the scenarios that go through such a read rest on this assumption.
- OfferScenarios.EscrowSyncedAfter: this is stated for the four currency-moving entry points only. `create_order` and `cancel_order` do not touch the purse.
