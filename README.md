# ERTC smart contracts: a verified model

This project models the core of the ERTC EOSIO contracts. It has four parts:

- **`prange`**: a library of *interval sets*. An interval set is a sorted vector of closed ranges of token ids. The library has four operations:
  - `points_range_length` counts the grid cells of a rectangle;
  - `merge_sets` unites two interval sets;
  - `insert_interval` adds one range;
  - `substract_amount` takes a number of ids off the top of a set.
- **`ertc.nft`**: the non-fungible token ledger. It has three tables:
  - currencies (`stat`);
  - per-owner balances (`accounts`);
  - tokens, each tied to a unique coordinate pair (`token`).

  Its actions are `create`, `issue`, `transferid` and `transfer`. They use the helpers `mint`, `add_balance`, `sub_balance`, `add_supply` and `sub_supply`. The key helpers of the `token` row are also modelled: `to_coords_id`, `get_global_id` and `get_unique_name`.
- **`ertc`**: the validation workflow in front of the ledger:
  1. a creator files a validation (at least three coordinates and an emission amount);
  2. the contract approves it;
  3. the contract issues it, splitting the points between a fund and the creator by the fund share.

Files and modules:

| file | module | contents |
|---|---|---|
| `prange.dfy` | `Prange` | ranges, interval sets, their ids and total length, `points_range_length` |
| `merge_sets.dfy` | `PrangeMerge` | `merge_sets` and its loop, proved against the union of the inputs |
| `insert_interval.dfy` | `PrangeInsert` | `insert_interval` as written and as intended, and the splice it performs |
| `substract_amount.dfy` | `PrangeSubtract` | `substract_amount`: a specification on values, and the loop proved to compute it |
| `nft_keys.dfy` | `NftKeys` | the row types, primary keys, 128-bit key packing and unique names |
| `nft_tables.dfy` | `NftTables` | the tables as values, the effect of each helper, and the consistency invariant |
| `nft_actions.dfy` | `NftActions` | the outcome of each action, and the proofs that each action keeps the tables consistent |
| `nft.dfy` | `NftLedger` | class `Nft`: the contract as an object whose methods update its tables |
| `ertc.dfy` | `Ertc` | class `Ertc`: the validation table, the `params` singleton and the fund split |

The prange operations update their set argument in place; the model takes the old set and returns the new one. `merge_sets` and `substract_amount` run their loops on sequences.

The ledger is a class with three fields:

- `currencies`: a map from symbol code to `Stats`;
- `accounts`: a map from (owner, code) to `Account`;
- `tokens`: a sequence of rows in primary-key order.

Each action or helper method updates these fields and states its whole new state. Each action fails with the source's message when a check fails. A failed action restores every table it had written, which is how the host treats an aborted transaction.

The ledger's consistency invariant `NftTables.Consistent` says:

- ids are dense, so the id of a token is its position;
- coordinates are distinct;
- every token is worth 1 of an existing currency;
- rows sit under their own keys;
- every supply equals the number of tokens of its currency;
- every balance equals the number of tokens its owner holds of that code.

From this invariant, `SupplyIsSumOfBalances` proves that a supply is the sum of its holders' balances.

## Model

| member | source | states |
|---|---|---|
| Prange.PointsRangeLength | prange/prange.cpp:3-13 | the count is below 2^64, because the `size_t` product wraps |
| Prange.PointsRangeLengthCountsCells | prange/prange.cpp:3-13 | when the product fits, the count equals the number of grid cells of the rectangle (at least 1), for either order of the corners |
| Prange.PointsRangeLengthSymmetric | prange/prange.cpp:3-13 | The count and the set of grid cells are the same when the two corner points are swapped. |
| PrangeMerge.MergeSets | prange/prange.cpp:15-58 | returns false exactly when `set1` or the second range is empty, and then `set1` is unchanged; for two disjoint sorted sets, the result is sorted, holds exactly the union of ids and has the sum of the total lengths; adjacency-free inputs give an adjacency-free output |
| PrangeMerge.Interleave | prange/prange.cpp:24-45 | the main loop keeps the merge state: the output is sorted, holds exactly the consumed ids, and its last range ends before every unconsumed range |
| PrangeMerge.AppendRest | prange/prange.cpp:46-56 | a tail block folds the next range into the last output range when exactly adjacent, then appends the rest |
| PrangeMerge.Advance | prange/prange.cpp:24-45 | one turn emits whichever range starts first and keeps the merge state and the absence of adjacent ranges |
| PrangeMerge.EmitKeeps | prange/prange.cpp:33-44 | folding or appending a later range keeps the output sorted, adds exactly its ids and adds its size to the total length |
| PrangeMerge.FinishKeeps | prange/prange.cpp:46-57 | the tail blocks turn the loop's state into the union of both inputs, with the summed total length |
| PrangeInsert.UpperBoundSorted | prange/prange.cpp:65-70 | in a sorted set, every range from the upper_bound position on begins after the key |
| PrangeInsert.Place | prange/prange.cpp:69-84 | for a range with `first <= second`, the body replaces exactly the overlapped run by one range from the least first to the greatest second; the result is sorted, holds old ids plus the range's, and the returned position's range contains the new range; on an empty set any range, reversed or not, is inserted as the only entry |
| PrangeInsert.PlaceRun | prange/prange.cpp:69-74 | the two searches and the step back find exactly the entries that overlap the range; merely adjacent entries are not in the run |
| PrangeInsert.InsertIntervalAsWritten | prange/prange.cpp:61-85 | as written, every range with `first <= second` returns the end position and leaves the set unchanged, while a reversed range given an empty set is stored, so the result is no longer an interval set |
| PrangeInsert.InsertIntoEmptyAsWritten | prange/prange.cpp:61-63 | inserting [1,1] into an empty set as written loses id 1 |
| PrangeInsert.InsertInterval | prange/prange.cpp:61-85 | with the intended guard: a reversed range returns the end position and leaves the set as it was; a well-formed range is spliced in, giving a sorted set of old ids plus the range's |
| PrangeInsert.SplicedIds | prange/prange.cpp:76-82 | the splice adds exactly the range's ids |
| PrangeInsert.SplicedSorted | prange/prange.cpp:76-82 | when the entries before the run end before the range and those after begin after it, the splice keeps the set sorted and pairwise non-overlapping |
| PrangeInsert.SplicedContained | prange/prange.cpp:72-81 | a range inside one stored range leaves the set unchanged |
| PrangeInsert.SplicedIdempotent | prange/prange.cpp:61-85 | inserting the same range twice equals inserting it once |
| PrangeSubtract.SubstractAmount | prange/prange.cpp:87-120 | the returned vector and the remaining set are exactly `SubtractAmount` of the input |
| PrangeSubtract.TakeFromTop | prange/prange.cpp:93-102 | the loop takes whole ranges from the top down, skipping those that would overshoot; the kept ranges stay in order below the rotated taken ones |
| PrangeSubtract.Examine | prange/prange.cpp:94-101 | one turn takes and rotates the range when it fits, else skips it, and keeps the loop state |
| PrangeSubtract.UpperBoundDesc | prange/prange.cpp:113-115 | the position is the first whose range begins below the key in the descending vector |
| PrangeSubtract.SubtractRefuses | prange/prange.cpp:87-109 | an amount of zero or less, or more than the set holds, returns nothing and leaves the set unchanged |
| PrangeSubtract.SubtractSplits | prange/prange.cpp:93-119 | for `0 < amount <= total`, the result and the remainder are sorted and disjoint, together hold the original ids, and the result has exactly `amount` ids |
| PrangeSubtract.SelectShape | prange/prange.cpp:93-102 | on a sorted set, the taken ranges are descending, the kept ones stay sorted, every range comes from the set, and no taken range meets a kept one |
| PrangeSubtract.CutFacts | prange/prange.cpp:108-117 | splitting the highest kept range moves exactly the remainder, keeps a non-empty lower part, and keeps both sides sorted and disjoint |
| PrangeSubtract.SubtractExampleTop | prange/prange.cpp:105-118 | taking 2 from {[1,5]} returns [4,5] and leaves [1,3] |
| PrangeSubtract.SubtractExampleSkip | prange/prange.cpp:93-102 | taking 2 from {[1,2],[10,20]} skips the larger top range and takes [1,2] whole |
| NftKeys.TokenKey | ertc.nft/ertc.nft.hpp:72 | a token row is keyed by its id; `DenseIds`, part of the invariant every action keeps, says each row's key is its position |
| NftKeys.AccountKey | ertc.nft/ertc.nft.hpp:52 | a balance row is keyed by its symbol code |
| NftKeys.StatsKey | ertc.nft/ertc.nft.hpp:60 | a currency row is keyed by its supply's symbol code |
| NftKeys.TokenSymbolKey | ertc.nft/ertc.nft.hpp:76 | the `bysymbol` index key is the code of the token's value; `BySymbolBefore` orders the index by it, then by `TokenKey` |
| NftTables.ChosenInIndexOrder | ertc.nft/ertc.nft.cpp:126-137 | with dense ids, every row `transfer` may pick has the requested code as its `bysymbol` key, and among such rows the index order is position order; so the picked rows come in index order, and every matching row not picked comes after all of them in the index |
| NftKeys.Pack | ertc.nft/ertc.nft.hpp:82-99 | shifting `high` left by 64 and OR-ing in `low` puts `high` in the upper half and `low` in the lower half |
| NftKeys.PackInjective | ertc.nft/ertc.nft.hpp:82-99 | two packed keys are equal exactly when both halves are |
| NftKeys.ToCoordsId | ertc.nft/ertc.nft.hpp:94-99 | the coords id has the latitude in its upper half and the longitude in its lower half |
| NftKeys.CoordsOfId | ertc.nft/ertc.nft.hpp:94-99 | every 128-bit key is the coords id of some point |
| NftKeys.CoordsIdRoundTrip | ertc.nft/ertc.nft.hpp:94-99 | unpacking a coords id gives back the point |
| NftKeys.CoordsIdInjective | ertc.nft/ertc.nft.hpp:94-99 | two points share a coords id exactly when they are equal |
| NftKeys.GetGlobalId | ertc.nft/ertc.nft.hpp:82-87 | the global id has the contract account in its upper half and the token id in its lower half |
| NftKeys.GlobalIdInjective | ertc.nft/ertc.nft.hpp:82-87 | global ids are equal exactly when the account and the token id are |
| NftKeys.DecimalString | ertc.nft/ertc.nft.hpp:90 | `to_string` gives digits without a leading zero, one digit exactly for numbers below 10 |
| NftKeys.DecimalValueOfString | ertc.nft/ertc.nft.hpp:90 | reading the digits back gives the number |
| NftKeys.DecimalStringOfValue | ertc.nft/ertc.nft.hpp:90 | every decimal-form string is the one written for its value |
| NftKeys.DecimalStringInjective | ertc.nft/ertc.nft.hpp:90 | different numbers are written differently |
| NftKeys.GetUniqueName | ertc.nft/ertc.nft.hpp:89-92 | the unique name is the token name, then `#`, then the decimal id |
| NftKeys.UniqueNameRoundTrip | ertc.nft/ertc.nft.hpp:89-92 | splitting at the last `#` recovers the token name and the id, even when the name contains `#` |
| NftKeys.UniqueNameInjective | ertc.nft/ertc.nft.hpp:89-92 | two tokens have the same unique name exactly when their names and ids agree |
| NftTables.CreditedRows | ertc.nft/ertc.nft.cpp:187-200 | `add_balance` creates a row equal to the value when there is none, else adds the amount, and leaves every other row as it was |
| NftTables.CreditedBalance | ertc.nft/ertc.nft.cpp:187-200 | `add_balance` raises exactly one balance by the amount |
| NftTables.DebitedRows | ertc.nft/ertc.nft.cpp:172-185 | `sub_balance` succeeds exactly when the row exists and covers the amount; it erases the row when its amount equals the value's, else decrements it; other rows are untouched |
| NftTables.DebitedBalance | ertc.nft/ertc.nft.cpp:172-185 | `sub_balance` lowers exactly one balance by the amount |
| NftTables.LoweredUndoesRaised | ertc.nft/ertc.nft.cpp:202-222 | `sub_supply` undoes `add_supply` |
| NftTables.CoordsTakenAt | ertc.nft/ertc.nft.cpp:160-161 | the `bycoords` lookup finds a row exactly when some token has those coordinates |
| NftTables.NextKeyIsCount | ertc.nft/ertc.nft.cpp:164 | with dense ids, `available_primary_key` is the number of tokens |
| NftTables.MintAllAppends | ertc.nft/ertc.nft.cpp:155-170 | the mint loop succeeds exactly when the points are pairwise distinct, not yet used, and fit under the key limit; it then appends one row per point with consecutive ids, in order |
| NftTables.MintAllFailureSticks | ertc.nft/ertc.nft.cpp:64-66 | once a mint fails, the rest of the loop cannot undo the failure |
| NftTables.FindDense | ertc.nft/ertc.nft.cpp:88-89 | with dense ids, `find(id)` finds the row at position `id` exactly when `id` is below the number of tokens |
| NftTables.MatchingExtends | ertc.nft/ertc.nft.cpp:126-137 | scanning further extends the earlier scan's picks |
| NftTables.MatchingCounted | ertc.nft/ertc.nft.cpp:126-137 | the scan finds no more matching rows than `from` holds tokens of the symbol's code |
| NftTables.ChosenFirst | ertc.nft/ertc.nft.cpp:126-137 | `transfer` picks only matching rows, ascending and never twice, at most `amount` of them; it passes over a matching row only after picking `amount` earlier ones |
| NftTables.ReassignedRows | ertc.nft/ertc.nft.cpp:145-149 | exactly the picked rows change owner, and nothing else changes |
| NftTables.ReassignedCount | ertc.nft/ertc.nft.cpp:145-149 | reassigning k distinct matching rows moves k from `from`'s holdings to `to`'s |
| NftTables.EmptyConsistent | ertc.nft/ertc.nft.hpp:102-110 | empty tables are consistent |
| NftTables.SupplyIsSumOfBalances | ertc.nft/ertc.nft.cpp:32-153 | on consistent tables, a currency's supply is the sum of its holders' balances |
| NftActions.CreatePreserves | ertc.nft/ertc.nft.cpp:14-29 | adding a currency with supply 0 for a new code keeps the tables consistent |
| NftActions.IssuePreserves | ertc.nft/ertc.nft.cpp:32-70 | on consistent tables, `issue` succeeds exactly when: precision 0, memo at most 256, name at most 32, currency exists, symbol matches, amount equals the number of points (positive), points fresh, room for the keys. It then appends one token of value 1 per point for `to`, and the raised supply and credited balance are consistent with them |
| NftActions.TransferIdPreserves | ertc.nft/ertc.nft.cpp:73-108 | on consistent tables, `transferid` succeeds exactly when `from != to`, the memo fits, and the token exists and is `from`'s. Its balance check cannot then fail, and the new tables are consistent |
| NftActions.TransferPreserves | ertc.nft/ertc.nft.cpp:110-153 | on consistent tables, `transfer` succeeds exactly when `from != to`, the memo fits, and `0 <= amount <=` the number of `from`'s tokens of the symbol (a zero amount also needs a balance row). The new tables are consistent |
| NftActions.ZeroTransferOpensRow | ertc.nft/ertc.nft.cpp:130-152 | a zero transfer moves no token, and opens a zero row for a `to` that had none |
| NftLedger.Nft.constructor | ertc.nft/ertc.nft.hpp:24-25 | a new contract has empty, consistent tables |
| NftLedger.Nft.AddSupply | ertc.nft/ertc.nft.cpp:213-222 | raises the currency's supply; fails with the end-iterator error when the currency is missing |
| NftLedger.Nft.SubSupply | ertc.nft/ertc.nft.cpp:202-211 | lowers the currency's supply; fails with the end-iterator error when the currency is missing |
| NftLedger.Nft.AddBalance | ertc.nft/ertc.nft.cpp:187-200 | the balance table becomes `Credited` of the old one |
| NftLedger.Nft.SubBalance | ertc.nft/ertc.nft.cpp:172-185 | fails as `SubBalanceCheck` says, else the balance table becomes `Debited`; nothing changes on failure |
| NftLedger.Nft.Mint | ertc.nft/ertc.nft.cpp:155-170 | refuses used coordinates and a full key space, else appends the row at `available_primary_key` |
| NftLedger.Nft.MintEach | ertc.nft/ertc.nft.cpp:64-66 | the loop's outcome and tokens are those of `MintAll`; on failure the tokens are restored |
| NftLedger.Nft.Collect | ertc.nft/ertc.nft.cpp:126-137 | the scan returns exactly `Chosen` and counts it in `found` |
| NftLedger.Nft.Reassign | ertc.nft/ertc.nft.cpp:145-149 | the tokens become `Reassigned` of the old ones |
| NftLedger.Nft.Create | ertc.nft/ertc.nft.cpp:6-30 | fails on an existing code, else adds a currency with supply 0 at precision 0 and the given issuer; the tables stay consistent |
| NftLedger.Nft.Issue | ertc.nft/ertc.nft.cpp:32-70 | outcome as `IssueOutcome`; on success raises the supply, credits `to` and appends the new tokens; on failure, including one after `add_supply`, every table is restored; consistency is kept |
| NftLedger.Nft.TransferId | ertc.nft/ertc.nft.cpp:73-108 | outcome as `TransferIdOutcome`; on success one token changes owner and its value moves between the balances; consistency is kept |
| NftLedger.Nft.Transfer | ertc.nft/ertc.nft.cpp:110-153 | outcome as `TransferOutcome`; on success the chosen tokens change owner and the quantity moves between the balances; consistency is kept |
| Ertc.DefaultParams | ertc/ertc.hpp:73 | the default fund share is 40 |
| Ertc.ParamsOrDefault | ertc/ertc.cpp:75 | `get_or_create` reads the stored parameters, else the defaults |
| Ertc.FundCut | ertc/ertc.cpp:77 | the fund cut is `amount * share / 100` rounded down, at most the amount when the share is at most 100 |
| Ertc.IssueCalls | ertc/ertc.cpp:77-98 | the fund call is present exactly when its cut is positive; the creator call is always last; the calls' coordinates concatenate to the points in order; each amount equals its number of points, the fund's being the cut and the creator's the rest; every call uses the fund symbol's contract, the validation id as name, and an empty memo |
| Ertc.DefaultSplitExample | ertc/ertc.cpp:77-82 | under the defaults, 10 points split 4 to the fund, 6 to the creator |
| Ertc.ShareAboveHundredOverruns | ertc/ertc.cpp:77-80 | for a positive amount and a share above 100, the fund cut is at least the amount, and exceeds it exactly when `amount * (share - 100) >= 100` |
| Ertc.AdvancesAlongTrace | ertc/ertc.cpp:23-103 | over any run of actions other than `change`, rows of the first table are kept and only move forward up to `issued`, rows added along the way end at most `issued`, and no row that was not canceled at the start is canceled at the end |
| Ertc.NeverCanceledFromDeployment | ertc/ertc.cpp:23-103 | starting from the empty table, after any run of actions other than `change` every row is at most `issued`, so none is canceled |
| Ertc.Ertc.constructor | ertc/ertc.cpp:17-21 | empty validation table, no stored parameters |
| Ertc.Ertc.Create | ertc/ertc.cpp:13-40 | fails on an existing id, fewer than three coordinates, or a non-positive amount; else inserts the row with the given fields and state `waiting` |
| Ertc.Ertc.Change | ertc/ertc.cpp:42-52 | fails on a missing id; the id comparison always holds; a replacement with another id is refused by the table; otherwise the whole row, state included, is replaced by the given one |
| Ertc.Ertc.Approve | ertc/ertc.cpp:54-64 | fails on a missing id or any state but `waiting`; else the state becomes `validated` |
| Ertc.Ertc.GetOrCreateParams | ertc/ertc.cpp:75 | returns the stored parameters, storing the defaults first when there are none |
| Ertc.Ertc.Issue | ertc/ertc.cpp:66-103 | fails on a missing id, a state other than `validated`, or an amount unequal to the number of points, changing nothing; else it stores the parameters and, when the split is defined (no `int64` overflow and a cut within the points), sends `IssueCalls` and marks the row `issued` |
| Ertc.Ertc.NewShare | ertc/ertc.cpp:105-112 | stores any `uint8` as the fund share, keeping the other parameters (the defaults when unset) |

## Left out

- Authorization is not modelled: `require_auth`, `is_account` and `require_recipient` are EOSIO host calls. Authorization and account existence are taken as given.
- The `multi_index` and `singleton` storage engines are modelled by their visible effect only, as maps and a sequence.
  - Table scopes are folded into the keys: accounts are keyed by (owner, code), and currencies by code.
  - The secondary indices `byowner` and `byissuer` are not modelled, since no action reads them.
- The inline `issue` actions that `ertc::issue` sends are returned as a list of `IssueCall` records. Dispatching them is not modelled.
- The timestamp of a new validation is an input (`now`), not the block clock.
- `points_range_length`: the `< 0` tests on `size_t` are dead and are not modelled. The product wraps modulo 2^64; `PointsRangeLengthCountsCells` assumes it fits.
- PrangeMerge.MergeSets: the first tail block tests `it1` against the end of the second range, so it reads past `set1` once `set1` is used up. The model tests against the end of `set1`.
  - The `out` iterator relies on `reserve` not reallocating. The model uses an index instead.
- PrangeInsert.Place: the returned iterator is a position. `vector::insert` may invalidate the source's iterator.
  - When `first > second` and the two searches cross, the body erases a reversed iterator range, which is undefined. The model only reports that case as undefined (`defined` is false).
- prange operations update `id_set` and `set1` in place. The model takes the old set and returns the new one, so aliasing between arguments is not modelled.
- `upper_bound` is a linear search in the model, not a binary one. Its result is the same on sorted input.
- Identifiers are unbounded `nat`. `interval_size` near 2^64 and the `id_type` arithmetic in the split do not wrap in the model.
- `substract_amount` decrements `begin()` when everything has been taken. Nothing is dereferenced afterwards, so the final state is unaffected.
- Symbol and asset validation are library behaviour and are not modelled:
  - `symbol.is_valid`, `quantity.is_valid`, the parsing of the symbol string in `nft::create`, and the symbol and overflow checks inside `asset +=` and `-=`.

  A symbol is a code and a precision; amounts are unbounded integers.
- NftActions.IssuePreserves: memo and token-name lengths are counted in characters of a `string`, where the source counts bytes.
- NftLedger.Nft.Collect: rows are scanned in primary-key order, where the source uses the `bysymbol` index from `lower_bound`. `ChosenInIndexOrder` shows both scans pick the same rows in the same order; the index itself is not modelled.
- The limit on ids is the `multi_index` auto-increment limit (2^64 - 2). Its message is not part of the source shown.
- `change` and the primary key: `multi_index::modify` refuses a row whose id differs from the one it replaces. That check belongs to the storage engine.
- Ertc.Ertc.Issue: after the three checks the split can be undefined: `amount * fund_share` can overflow `int64`, and a share above 100 can put `points.begin() + fund_cut` past the points (`ShareAboveHundredOverruns` says exactly when). The model then reports `defined` false, changes no row and sends nothing; what the contract would do there is not modelled.
- The `creators cut mismatch` check of `ertc::issue` cannot fail once the split is defined. It is an assertion in `Ertc.Ertc.Issue`, not an error path.
- The ABI mismatches between the two contracts are kept as they are in the source:
  - `ertc::issue` passes the validation id where the token contract expects a token-name string;
  - `ertc`'s points are `int64` while the token contract's are `uint64`.
- `sub_supply` is modelled, but no action calls it.
- `POINT_DIGITS` and the constructor plumbing of `ertc` have no behaviour and are not modelled.

## Findings

| source | as written | input that shows it | evidently intended | confidence | as-written member | corrected member |
|---|---|---|---|---|---|---|
| prange/prange.cpp:62-63 | `insert_interval` returns `end()` at once when `range.first <= range.second`, i.e. for every well-formed range, and runs its body only for reversed ranges | inserting [1,1] into an empty set leaves it empty | return early only for a reversed range (`range.first > range.second`) and splice every well-formed one in | not executed | PrangeInsert.InsertIntervalAsWritten, PrangeInsert.InsertIntoEmptyAsWritten | PrangeInsert.InsertInterval |
