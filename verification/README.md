# A model of the CrowdWiz chain

CrowdWiz is a delegated-proof-of-stake chain of the Graphene family.  A node keeps an object database, applies
blocks to it, undoes them when it switches forks, and runs an exchange with market-issued assets, a referral
programme, peer credits and a person-to-person escrow on top.  This project states what that machinery keeps and
proves it, for every input and over every run.

| file | models |
|---|---|
| `Amounts`, `Sums`, `Options` | integer prices and rounding, percentages, sums over all objects |
| `Matching` | which orders cross and what one match exchanges |
| `Ledger` | balances, orders, positions, fees and supply; everything held minus the supply |
| `LimitMarket`, `MarginMarket`, `OrderEntry` | filling, culling and cancelling orders, the matching loops, placing an order |
| `Settlement`, `Bids`, `ForceSettlement` | global settlement and redemption, reviving by collateral bids, forced settlement |
| `Blocks`, `Forks`, `BlockStore`, `Chains` | chains of blocks, the fork database, the block store, pushing and undoing blocks |
| `Undo` | undo sessions: recording, undoing, merging |
| `Schedule` | slots, the shuffled schedule, missed slots, the last irreversible block |
| `Sync` | the synopsis a node sends and the answer to one |
| `Referral`, `Credits`, `Escrow` | fee sharing and leader bonus, credits repaid from cashback, the person-to-person exchange |
| `Indexes` | the membership index and the two-level balance table |

## Findings

Five promises hold only under a condition, which is proved in both directions.  Paths are below `libraries/`.

* `chain/db_block.cpp:164-191`.  After a refused branch, head, state and undo stack always come back (`GiveUp`).  The
  fork database's own head comes back only if it was the chain's head and the branch does not lead through that
  block, or was the block before it and the branch does.  `ForkHeadComesBackWhen` gives the condition for every way a
  push can fail, `GivingUpMovesForkHead` and `GivingUpDropsSibling` the two families that break it, and
  `ForkHeadIsNotAlwaysRestored` is a run through both.
* `app/application.cpp:589-632`.  A block that was undone keeps its store entry until its number is used again.  Such an
  id is taken for one of the own chain, and a synopsis ending in it is answered with nothing (`RecognisedIsShared`,
  `StaleIsRecognised`).
* `chain/account_object.cpp:882-961`.  The membership index remembers the members of one account at a time, so nested
  modifications of two accounts leave it wrong (`ObjectModified`, `NestedModificationIsLost`).  Modifications nest at
  `chain/account_evaluator.cpp:572-575`, where changing a referrer pays out fees from within; the accounts modified
  there keep their members, and `ObjectModified` shows that this case is harmless.
* `chain/account_object.cpp:60-74`.  The counter of skipped accounts is a byte; with 255 levels configured a circle of
  skipped accounts above the root is searched forever (`SearchEndsWhen`, `CompressionEnds`, `EndlessSearch`).
* `chain/account_object.cpp:242-247`.  So is the level counter of the leader bonus; with 255 levels configured it
  climbs a circle of accounts forever (`ClimbEndsWhen`, `LeaderBonusEnds`, `EndlessClimb`).

## Reading the model

* Fields that the source updates in place are fields of classes, and loops are loops.  Exceptions are a `thrown`
  result, an outcome or an `Option`.  Where the source's exception undoes the whole transaction, nothing is said
  about the state after it.
* Amounts are unbounded integers.  `MatchNeverOverflows` shows that the range assertions in limit matches hold.
* A block id is treated as a digest without collisions: it determines its block.
* Hard forks are taken as passed up to and including the last one, except that the referral payout has all three eras.
* Prices that come from feeds, the call price of a position, the pseudo-random numbers of the shuffle, the evaluation
  of a block's transactions, and admission rules (white lists, limits per account) are parameters.

## Model

| member | source | states |
|---|---|---|
| `Amounts.DownThenUp` | `libraries/chain/protocol/asset.cpp:56-93` | converting down and back up gives the least amount worth the same: it never exceeds the original and what is left over is worth nothing |
| `Amounts.DownAdjoint` | `libraries/chain/protocol/asset.cpp:56-73` | `asset * price` is the largest amount whose worth does not exceed the asset's (both directions) |
| `Amounts.UpAdjoint` | `libraries/chain/protocol/asset.cpp:75-93` | the rounded-up product is the least amount whose worth covers the asset's (both directions) |
| `Amounts.CutsAddUp` | `libraries/chain/account_object.cpp:37-48` | cutting two percentages separately never yields more than cutting their sum |
| `Matching.MatchNeverOverflows` | `libraries/chain/db_market.cpp:529-577` | for orders whose amounts are within the maximum share supply, no conversion in a match exceeds it, so the range assertions hold |
| `Matching.TradeIsProper` | `libraries/chain/db_market.cpp:515-577` | a match moves a positive amount on both sides, and a taker that is not exhausted keeps something for sale |
| `Matching.MatchIsFair` | `libraries/chain/db_market.cpp:529-577` | the exhausted order pays the least integer amount worth what it receives at the match price, the other order gets no worse than the match price |
| `Matching.ExhaustedRemainderIsDust` | `libraries/chain/db_market.cpp:801-816` | what is left of the exhausted order is worth 0 at its own price |
| `Matching.NothingMeansDust` | `libraries/chain/db_market.cpp:529-577` | a taker that would pay something for nothing is dust at its own price, so matching may stop |
| `Matching.BehindFrontDoesNotCross` | `libraries/chain/db_market.cpp:384-392` | an order behind the front of its side crosses nothing that the front does not cross |
| `Matching.FirstExists` | `libraries/chain/db_market.cpp:384-392` | every non-empty set of priced objects has a first one in price-time order |
| `LimitMarket.MarketFee` | `libraries/chain/db_market.cpp:1103-1121` | a market fee is the percentage rounded down, is exactly the maximum when that exceeds it, and never exceeds the trade |
| `LimitMarket.ChargeOnCancel` | `libraries/chain/db_market.cpp:216-240` | the CORE charge of a cancellation is the scheduled fee or the deferred one, whichever is less, and nothing where none is taken |
| `LimitMarket.CancelChargeIsProportional` | `libraries/chain/db_market.cpp:216-261` | the rounded-up part of a fee paid in another asset is proportional to the CORE charge and never exceeds what was deferred |
| `LimitMarket.CancelLimitOrder` | `libraries/chain/db_market.cpp:205-299` | cancelling returns the sale and the deferred fee less the charge, exactly; holdings minus supply and the CORE-in-orders record are kept |
| `LimitMarket.MaybeCullSmallOrder` | `libraries/chain/db_market.cpp:301-325` | an order is cancelled exactly when it asks for nothing |
| `LimitMarket.FillLimitOrder` | `libraries/chain/db_market.cpp:767-818` | the exact new state of a fill: balances, fees, deferred fees, CORE in orders, remaining order |
| `LimitMarket.SettledMeans` | `libraries/chain/db_market.cpp:767-818` | a fill changes only the seller's two balances: by what is received, and by what is left of a sale that is over |
| `LimitMarket.MatchLimits` | `libraries/chain/db_market.cpp:515-580` | a match settles on the specified trade, its result code says which orders are gone and is never 0, and value is conserved |
| `LimitMarket.MatchKeepsBookQuiet` | `libraries/chain/db_market.cpp:486-493` | one match against the front of the other side keeps the rest of the book uncrossed and free of dust |
| `LimitMarket.MatchAgainstBook` | `libraries/chain/db_market.cpp:394-397` | matching a new order against the book ends, follows price-time priority, touches only crossing orders, and only those above a given price, and conserves value |
| `MarginMarket.FillCallOrder` | `libraries/chain/db_market.cpp:820-873` | the exact new state when a margin position pays collateral for debt; supply and debt fall together; it throws exactly when more than the collateral is paid, or all of it with debt left over, for which there is no call price |
| `MarginMarket.MarginTradeIsFair` | `libraries/chain/db_market.cpp:582-659` | rounding of a match with a margin position: the exhausted side pays the least amount worth what it gets, an exhausted order's remainder is dust, and an order that would get nothing is dust |
| `MarginMarket.MatchLimitWithCall` | `libraries/chain/db_market.cpp:582-659` | the exact effect of a match with a position, and exactly when it throws |
| `MarginMarket.MatchAgainstCalls` | `libraries/chain/db_market.cpp:460-484` | matching against called positions ends with the order used up or no position called; only called positions are touched, in the order of their call prices; it throws only at a match with a called position that cannot pay, with orders and positions as they are before that match |
| `MarginMarket.MatchWithCalls` | `libraries/chain/db_market.cpp:448-484` | better limit orders first, then called positions: unless the order is used up no position is left called; positions are touched only once no better limit order is left |
| `MarginMarket.NotAtFrontIsSound` | `libraries/chain/db_market.cpp:384-392` | the early return for an order not at the front of its side leaves an uncrossed book |
| `MarginMarket.ApplyOrder` | `libraries/chain/db_market.cpp:378-503` | from an uncrossed, dust-free book, applying a new order ends in such a book, by price-time priority, and conserves value, CORE in orders and backing.  An order behind the front changes nothing.  One at the front that accepts the squeeze price and is not used up leaves no position called; a limit order that offers no more than that is touched only if none is left called, a position only if no better limit order is left.  It throws only at a match with a called position that cannot pay |
| `OrderEntry.NewOrderIsNotDust` | `libraries/chain/market_evaluator.cpp:108-115` | a newly placed order never asks for nothing |
| `OrderEntry.LockOrder` | `libraries/chain/market_evaluator.cpp:68-115` | exactly what is locked, which order is created and how the fee pool advances the fee |
| `OrderEntry.LockAndCancel` | `libraries/chain/db_market.cpp:205-299` | cancelling a locked order without a charge restores every balance, fee pool and record, and gives the fee back in the asset it was paid in |
| `OrderEntry.PlaceLimitOrder` | `libraries/chain/market_evaluator.cpp:40-126` | placing an order takes an uncrossed, dust-free book to such a book, serves margin calls as `ApplyOrder` says, and conserves value, so every run of placements does; when it is refused, and that it throws otherwise only at a match with a called position that cannot pay |
| `Ledger.Database.AdjustBalance` | `libraries/chain/db_balance.cpp:54-83` | moves one balance and the holdings of its asset by the same amount |
| `Ledger.Database.SetLimit` | `libraries/chain/market_evaluator.cpp:108-115` | storing an order moves holdings by what it locks and defers |
| `Sums.TotalPick` | `libraries/chain/db_market.cpp:43-100` | sums over all objects do not depend on the order in which they are visited |
| `Settlement.CloseAllPositions` | `libraries/chain/db_market.cpp:59-84` | closing every position gathers exactly the sum of the least amounts that settle them, frees the rest to the borrowers and leaves other positions alone |
| `Settlement.PaysInSettles` | `libraries/chain/db_market.cpp:73-79` | what a position pays into the fund is at most k exactly when k covers the whole collateral or is worth the debt at the price; it is the only such amount |
| `Settlement.SoleBorrowerIsFreed` | `libraries/chain/db_market.cpp:73-84` | a borrower gets back all of the collateral beyond that amount |
| `Settlement.GloballySettle` | `libraries/chain/db_market.cpp:43-100` | the fund, the settlement price and every balance after a global settlement: each position pays the least amount worth its debt, or all it has, and its borrower gets the rest back; supply and value are unchanged, and the fund covers an outstanding supply at the fixed ratio |
| `Settlement.SettlingFillsTheFund` | `libraries/chain/db_market.cpp:59-90` | a settlement at a positive price of outstanding positions leaves a positive fund |
| `Settlement.FreshFundIsSound` | `libraries/chain/db_market.cpp:86-98` | right after settlement the fund covers the supply at the fixed ratio |
| `Settlement.RedemptionKeepsFundSound` | `libraries/chain/asset_evaluator.cpp:855-902` | a redemption never exceeds the fund, keeps fund to supply at or above the fixed ratio, and exhausts both together |
| `Settlement.RedemptionIsFair` | `libraries/chain/asset_evaluator.cpp:855-902` | a redemption pays the most that is worth no more than the units at the fixed ratio, for the fewest units worth that; the last holder gets the whole fund |
| `Settlement.HistoryKeepsFundSound` | `libraries/chain/asset_evaluator.cpp:855-902` | the same after every sequence of redemptions |
| `Settlement.Redeem` | `libraries/chain/asset_evaluator.cpp:855-902` | the exact new state of a redemption, when it is refused, and that the assertion on the fund cannot fail |
| `Bids.SelectBids` | `libraries/chain/db_maint.cpp:1948-1966` | the chosen bids are the first in price order, stand at the feed, and stop only at a covered supply or a bid that does not stand |
| `Bids.SelectionIsBestFirst` | `libraries/chain/db_maint.cpp:1945-1966` | in amounts: the chosen bids offer the most collateral per debt, older ones first among equals |
| `Bids.FundShare` | `libraries/chain/db_maint.cpp:1973-1975` | a share of the fund is the most that is worth no more than the debt at the ratio fixed at settlement |
| `Bids.StandsMeans` | `libraries/chain/db_maint.cpp:1951-1960` | a bid stands exactly when its debt, at most the supply, with its own collateral and its proportion of the fund is acceptable at the feed |
| `Bids.SelectionsAgree` | `libraries/chain/db_maint.cpp:1945-1966` | the choice is determined: two selections agree as far as both go |
| `Bids.BlockedMeansUncoverable` | `libraries/chain/db_maint.cpp:1948-1966` | if the greedy choice stops short, no run of standing bids covers the supply |
| `Bids.ShareKeepsFundSufficient` | `libraries/chain/db_maint.cpp:1969-1984` | a rounded-down share never overdraws a fund that covers what is still to be taken over |
| `Bids.SharingGoesOn` | `libraries/chain/db_maint.cpp:1969-1984` | each bid's debt and share, and that the remaining fund stays non-negative and sufficient |
| `Bids.ExecuteBids` | `libraries/chain/db_maint.cpp:1967-1986` | both final assertions hold: nothing of the fund and nothing of the supply is left over; each position opened but the last has its own debt, its own collateral and its proportion of the fund, and the debts add up to the supply |
| `Bids.ExecuteBid` | `libraries/chain/db_market.cpp:166-188` | a bid becomes a position; CORE in orders and value move exactly |
| `Bids.CancelBids` | `libraries/chain/db_market.cpp:132-142` | every remaining bid is given back in full to its bidder |
| `Bids.CancelBidsAndRevive` | `libraries/chain/db_market.cpp:126-149` | the settlement is lifted and the remaining bids are given back |
| `Bids.ProcessBids` | `libraries/chain/db_maint.cpp:1935-1989` | a settled asset is revived exactly when it has a feed and standing bids cover its supply; nothing changes otherwise; the best bids become the positions `ExecuteBids` says, the others are given back, value is conserved and the supply is backed by debt again |
| `ForceSettlement.Cap` | `libraries/chain/asset_object.cpp:33-44` | the cap is the percentage of supply plus volume already settled, rounded down |
| `ForceSettlement.ExchangeIsFair` | `libraries/chain/db_market.cpp:672-733` | rounding of a settlement match: the re-rounded units never exceed those first on offer, are the least worth what is paid, and what is left is worth nothing |
| `ForceSettlement.MatchSettle` | `libraries/chain/db_market.cpp:661-765` | the exact effect of a settlement match on positions, orders, supply and balances, and exactly when it throws |
| `ForceSettlement.PaidOutMeans` | `libraries/chain/db_market.cpp:736-765` | who is paid what in a settlement match: the owner the payment less the fee and any worthless rest, the borrower what a closed position frees, nobody else anything |
| `ForceSettlement.FillSettleOrder` | `libraries/chain/db_market.cpp:875-900` | the exact effect of filling a settlement order, with the market fee |
| `ForceSettlement.CancelSettleOrder` | `libraries/chain/db_market.cpp:190-203` | a cancelled order's units go back to its owner |
| `ForceSettlement.DebtExists` | `libraries/chain/db_update.cpp:1190-1193` | if the units handed in are owed, there is a position to settle against |
| `ForceSettlement.OwedByConservation` | `libraries/chain/db_update.cpp:1191-1194` | what the market operations conserve implies that: with nothing negative, no value out of nothing and a supply equal to the debts, the units handed in for settlement are owed |
| `ForceSettlement.CollateralSuffices` | `libraries/chain/db_market.cpp:736-756` | a position that covers its debt at the price can pay for any match and still covers what is left |
| `ForceSettlement.LeastCollateralized` | `libraries/chain/db_update.cpp:1189-1193` | the position matched has the least collateral per unit of debt, in amounts, and the oldest id among equals, of those that have collateral; one without lies below the start of the search |
| `ForceSettlement.ChoosePosition` | `libraries/chain/db_update.cpp:1189-1193` | the source's assertion that there is a position fails exactly when none has collateral, and never while every position covers its debt |
| `ForceSettlement.SettleOnce` | `libraries/chain/db_update.cpp:1188-1210` | one match keeps the book, touches only the position with the least collateral per debt and takes the same units off it, off the order and off the supply; no progress means the order is gone or the rest of the cap buys nothing |
| `ForceSettlement.SettleRepeatedly` | `libraries/chain/db_update.cpp:1186-1228` | the inner loop ends, never passes the cap, and an order that stays finds the cap used up |
| `ForceSettlement.ServedGoesOn` | `libraries/chain/db_update.cpp:1185-1228` | a turn keeps, for the whole pass: positions are used in the order of their collateral per debt, orders in their turn, and every unit missing from an order left the supply or bought nothing |
| `ForceSettlement.ProcessOrder` | `libraries/chain/db_update.cpp:1185-1234` | processing an order moves the settled volume by exactly what leaves the supply |
| `ForceSettlement.PassStep` | `libraries/chain/db_update.cpp:1098-1235` | each outer step removes an order, or moves to a later asset, or is blocked and moves on next |
| `ForceSettlement.ClearExpiredSettlements` | `libraries/chain/db_update.cpp:1065-1237` | the pass ends, never lifts a volume over the cap, conserves value, throws only if a position cannot cover its debt, and leaves only orders that are not due or whose cap is used up.  Exactly the units settled of each order leave the supply; only worthless rests, or orders in an asset without price or settled globally, are given back; orders and positions are served in their turn |
| `Blocks.StateAt` | `libraries/chain/db_block.cpp:512-611` | the state reached by a chain of blocks has its last block as head |
| `Forks.ForkDatabase.PushBlock` | `libraries/chain/fork_database.cpp:56-98` | which blocks link, that every known item stays and a block known already changes none, and that the head moves only to a strictly higher block |
| `Forks.JoinedStays` | `libraries/chain/fork_database.cpp:71-98` | as long as items are kept, blocks joined by references stay joined |
| `Forks.ForkDatabase.PopBlock` | `libraries/chain/fork_database.cpp:37-43` | the head moves to its predecessor if that item is still indexed, and fails otherwise |
| `Forks.ForkDatabase.Remove` | `libraries/chain/fork_database.cpp:197-212` | a block is forgotten, and a removed head falls back to its predecessor or to none |
| `Forks.ForkDatabase.FetchBranchFrom` | `libraries/chain/fork_database.cpp:148-190` | the two branches down to the most recent common predecessor; it fails exactly when a block is unknown or there is none |
| `BlockStore.Store.PutBlock` | `libraries/chain/block_database.cpp:77-94` | storing a block keeps every block of lower number and makes the new one readable; the index has no gaps |
| `BlockStore.Store.Remove` | `libraries/chain/block_database.cpp:96-113` | removing marks only the entry of that very block |
| `BlockStore.Store.LastIndexEntry` | `libraries/chain/block_database.cpp:208-257` | finds the highest entry that reads back and cuts the index above it |
| `BlockStore.Store.ChainReadsBack` | `libraries/chain/block_database.cpp:115-206` | despite stale entries above, every number of a held chain yields its id and its block, by number and by id |
| `Chains.ChainDatabase.constructor` | `libraries/chain/db_block.cpp:128-211` | the empty chain is consistent |
| `Chains.ChainDatabase.ApplyBlock` | `libraries/chain/db_block.cpp:198-203` | a block applies exactly when it builds on the head and is valid; otherwise nothing changes |
| `Chains.ChainDatabase.PopBlock` | `libraries/chain/db_block.cpp:461-475` | exactly when undoing a block fails, and that it restores the saved state |
| `Chains.ChainDatabase.PopTo` | `libraries/chain/db_block.cpp:146-150` | undoing down to a block; it can fail only at the fork database's own head |
| `Chains.ChainDatabase.GiveUp` | `libraries/chain/db_block.cpp:164-191` | after a refused branch the old head and state are restored in every case; which item is the fork database's head, exactly |
| `Chains.ChainDatabase.SwitchFork` | `libraries/chain/db_block.cpp:136-193` | a switch succeeds exactly when the branch is joined and valid at every position; otherwise head, state and undo stack are as before |
| `Chains.ChainDatabase.PushBlock` | `libraries/chain/db_block.cpp:128-211` | over every outcome the state stays the fold of the chain and the store holds it; the outcome, the known blocks and the fork database's head item are determined by what was known and what is valid.  The chain's head moves only to a higher block; unless the push throws, nothing known is higher than it, and every known item stays; on any throw head and state are unchanged |
| `Chains.ChainDatabase.ChainIsStored` | `libraries/chain/block_database.cpp:131-206` | for every number up to the head's, the store yields that block of the chain |
| `Chains.InvalidOnBranch` | `libraries/chain/db_block.cpp:164-172` | the blocks forgotten after a refused branch are exactly the invalid ones on it |
| `Chains.ForkHeadComesBackWhen` | `libraries/chain/db_block.cpp:128-211` | after a push that throws, the fork database's head is the block it was exactly under a condition on the heads and the pushed block, given for every way of failing |
| `Chains.GivingUpMovesForkHead` | `libraries/chain/db_block.cpp:164-191` | a family for which the fork database's head does not come back: an invalid block on a known but undone child of the head leaves it at the block before the head |
| `Chains.GivingUpDropsSibling` | `libraries/chain/db_block.cpp:164-191` | a second such family: the fork database's head is a sibling of the chain's head, and an invalid block on it makes the chain's head take its place |
| `Chains.ForkHeadIsNotAlwaysRestored` | `libraries/chain/db_block.cpp:164-191` | a run from the empty database that goes through both families: blocks 1, 2, 3, undo, invalid block 4, a sibling of block 2, an invalid block on it |
| `Chains.ReceivedAgain` | `libraries/chain/db_block.cpp:128-193` | a run from the empty database: a block received a second time extends the chain again, and a later block on its known descendants is still switched to |
| `Undo.UndoRestores` | `libraries/db/undo_database.cpp:108-136` | undoing a record restores objects and next ids exactly |
| `Undo.CreateTracks` | `libraries/db/undo_database.cpp:60-72` | recording a creation keeps the record exact |
| `Undo.ModifyTracks` | `libraries/db/undo_database.cpp:73-85` | recording a modification keeps the record exact |
| `Undo.RemoveTracks` | `libraries/db/undo_database.cpp:86-106` | recording a removal keeps the record exact |
| `Undo.SessionsCompose` | `libraries/db/undo_database.cpp:150-186` | the combinations ruled out by the merge table cannot occur, because ids are not reused |
| `Undo.MergeTracks` | `libraries/db/undo_database.cpp:138-257` | a merged record undoes both sessions at once |
| `Undo.MergeRecords` | `libraries/db/undo_database.cpp:189-254` | the merge loops compute the table of cases, object by object |
| `Undo.UndoDatabase.Undo` | `libraries/db/undo_database.cpp:108-136` | undoing a session goes back exactly to its start |
| `Undo.UndoDatabase.Merge` | `libraries/db/undo_database.cpp:138-257` | after a merge, undoing goes back to the start of the outer session |
| `Undo.UndoDatabase.PopCommit` | `libraries/db/undo_database.cpp:264-300` | undoing a committed session goes back exactly to its start |
| `Schedule.SlotsAreAdjoint` | `libraries/chain/db_witness_schedule.cpp:42-78` | slot `n` has begun at `t` exactly when `n` is at most the slot at `t` |
| `Schedule.SlotTimeIsRegular` | `libraries/chain/db_witness_schedule.cpp:42-70` | slot times are multiples of the interval, the n-th of them after the head, not counting those passed over after maintenance |
| `Schedule.EachOncePerRound` | `libraries/chain/db_witness_schedule.cpp:34-40` | any |W| consecutive slots under one schedule name each witness exactly once |
| `Schedule.ScheduleIsCyclic` | `libraries/chain/db_witness_schedule.cpp:34-40` | a schedule is gone through in its order, over and over |
| `Schedule.ShuffleIsPermutation` | `libraries/chain/db_witness_schedule.cpp:102-135` | the shuffle is a permutation of the active witnesses, whatever numbers are drawn |
| `Schedule.ShuffleReachesEvery` | `libraries/chain/db_witness_schedule.cpp:115-131` | every order of the active witnesses comes out for some numbers drawn |
| `Schedule.ShuffleInPlace` | `libraries/chain/db_witness_schedule.cpp:115-131` | the in-place swaps compute the shuffle |
| `Schedule.RenewedOncePerRound` | `libraries/chain/db_witness_schedule.cpp:102-135` | the schedule is renewed exactly after blocks whose number the active witnesses divide |
| `Schedule.MissedOnce` | `libraries/chain/db_witness_schedule.cpp:80-94` | each skipped witness is counted once, and the signer is not counted |
| `Schedule.MissedAfterCounts` | `libraries/chain/db_witness_schedule.cpp:80-94` | each witness of a skipped slot is counted once, and none when a whole round was skipped |
| `Schedule.NthIsLargestReached` | `libraries/chain/db_update.cpp:143-160` | the selected entry is the largest number confirmed by all but the tolerated number of witnesses (both directions) |
| `Schedule.Tolerated` | `libraries/chain/db_update.cpp:145-152` | what must confirm is the least number of witnesses that is at least 70% |
| `Schedule.Producers.UpdateLastIrreversible` | `libraries/chain/db_update.cpp:134-169` | the last irreversible block never falls, never exceeds the head, and when raised is the largest number confirmed by enough witnesses |
| `Schedule.Producers.UpdateMissed` | `libraries/chain/db_witness_schedule.cpp:80-94` | exactly whose missed-slot counts grow |
| `Schedule.InSlotMeans` | `libraries/chain/db_witness_schedule.cpp:34-78` | a block is in a slot of its signer exactly when its time lies in a slot the signer is scheduled for |
| `Schedule.Producers.ApplyBlock` | `libraries/chain/db_block.cpp:532-603` | a block is accepted exactly in its signer's slot; the signer is the one scheduled at the new absolute slot, which is its last slot and strictly later than every earlier one |
| `Sync.StepsIncrease` | `libraries/app/application.cpp:838-850` | the heights of a synopsis increase strictly and stay in bounds |
| `Sync.StepsAreFew` | `libraries/app/application.cpp:838-850` | it has at most floor(log2(D + 1)) + 1 entries, exactly that many when nothing follows, and then ends at the high block |
| `Sync.FindFork` | `libraries/app/application.cpp:771-817` | where a fork leaves the chain, and the ids of its blocks; it throws exactly when the fork is not joined to the chain or their most recent common block is below the last one that cannot be undone |
| `Sync.FindSpan` | `libraries/app/application.cpp:745-833` | which part of a chain a synopsis covers; it throws exactly when nothing is recorded for the reference's number, or another block is and the fork is out of reach |
| `Sync.IdIsAncestor` | `libraries/app/application.cpp:840-847` | every number of a synopsis has an id, that id has the number and is an ancestor of the reference block; accesses are in bounds |
| `Sync.Synopsis` | `libraries/app/application.cpp:735-853` | the synopsis lists exactly the ancestors at those heights, unless the reference is only a stale store entry; exactly when it throws |
| `Sync.RecognisedIsShared` | `libraries/app/application.cpp:589-594` | the blocks of the chain are exactly the recognised ids that are not above the head (both directions) |
| `Sync.StaleIsRecognised` | `libraries/app/application.cpp:589-632` | an undone block whose number was not reused is still recognised although it is not on the chain |
| `Sync.LastRecognised` | `libraries/app/application.cpp:624-637` | the last recognised id of a synopsis is found, and it fails exactly when there is none or a known id without an entry comes first |
| `Sync.GetBlockIds` | `libraries/app/application.cpp:605-651` | the answer is a gap-free run of the chain from the last recognised block, and the remaining count is exact whenever an id is returned; exactly when it throws |
| `Sync.AnswersFromHighestShared` | `libraries/app/application.cpp:605-651` | for ids of increasing number none of which is stale, recognised means shared, and the answer fails exactly when none is shared or a known one has no entry |
| `Sync.SyncRound` | `libraries/app/application.cpp:605-853` | one node's synopsis answered by another node: a run from the highest block of the synopsis that both chains have, and the chains part before the next height of the synopsis; it fails exactly when they differ at the asking node's last block that cannot be undone, or a known id has no entry |
| `Referral.SplitLosesAtMostOne` | `libraries/chain/account_object.cpp:330-351` | a cut is paid out whole, or four fifths of it with one burnt, or three fifths with two reserved; a split loses one unit exactly when the cut is not divisible by five |
| `Referral.LevelShareIsExact` | `libraries/chain/account_object.cpp:313-326` | with denominators a referrer keeps that percentage and the rest is carried on, one with the bonus status gets all that was carried; at most a unit is lost |
| `Referral.LevelsAreSound` | `libraries/chain/account_object.cpp:308-773` | however the levels go, network part and cuts add up to the fee, recipients are distinct once cuts are split, and the network part is not negative if percentages add up to at most 100% |
| `Referral.LevelsShareOut` | `libraries/chain/account_object.cpp:308-773` | who is paid at which level: each level gone to whose referrer qualifies, in order, out of what is left, and no other |
| `Referral.SplitsLose` | `libraries/chain/account_object.cpp:330-351` | the units lost over all levels are the number of indivisible cuts |
| `Referral.PayOutFees` | `libraries/chain/account_object.cpp:263-776` | the loop over eight levels computes the specified payout: each level gone to whose referrer qualifies is paid its percentage, shared by denominators, until nothing is left or the chain repeats |
| `Referral.OverdrawnByPercentages` | `libraries/chain/account_object.cpp:308-461` | with percentages above 100% the network part can become negative |
| `Referral.NextRewardable` | `libraries/chain/account_object.cpp:50-90` | after any number of steps, whether the search up the chain still goes on, and otherwise its result: the first account that is not skipped, within the allowed number of skips, never below the root |
| `Referral.TopAfter` | `libraries/chain/account_object.cpp:160-227` | a leader raises the reward paid out to that of the highest level whose threshold is reached, if it is higher |
| `Referral.Leaders.UpdateNv` | `libraries/chain/account_object.cpp:142-248` | after any number of steps: every account on the way is paid exactly the share between the reward paid below and the one its own volume earns, volumes grow by one purchase per visit, there are at most eight payments, and their total telescopes to at most the share of the highest reward reached; exactly when it has come to an end |
| `Referral.SearchEndsWhen` | `libraries/chain/account_object.cpp:60-74` | the search for the next account ends exactly when fewer than 255 levels are configured, or the chain has a root or an account that is not skipped |
| `Referral.EndlessSearch` | `libraries/chain/account_object.cpp:60-74` | with 255 levels and two skipped accounts referring to each other it goes on after every number of steps |
| `Referral.CompressionEnds` | `libraries/chain/account_object.cpp:60-74` | it ends for every chain exactly when fewer than 255 levels are configured |
| `Referral.ClimbEndsWhen` | `libraries/chain/account_object.cpp:242-247` | the leader bonus comes to an end exactly when fewer than 255 levels are configured, or the chain reaches the root |
| `Referral.EndlessClimb` | `libraries/chain/account_object.cpp:242-247` | with 255 levels and two accounts referring to each other it climbs on after every number of steps |
| `Referral.LeaderBonusEnds` | `libraries/chain/account_object.cpp:242-247` | it comes to an end on every chain exactly when fewer than 255 levels are configured |
| `Credits.CreditBook.DepositCashback` | `libraries/chain/db_balance.cpp:133-223` | in every case holdings minus supply grow by exactly the amount; exact new state of withholding, full repayment and deposit |
| `Credits.CreditBook.GetSystemCredit` | `libraries/chain/financial_evaluator.cpp:31-76` | when a system credit is given and its exact effect |
| `Credits.CreditBook.CreateOffer` | `libraries/chain/financial_evaluator.cpp:117-144` | an offer repays at least what it lends |
| `Credits.CreditBook.CancelOffer` | `libraries/chain/financial_evaluator.cpp:146-169` | only the creditor can withdraw an offer |
| `Credits.CreditBook.FillOffer` | `libraries/chain/financial_evaluator.cpp:171-222` | when an offer can be taken and its exact effect; value is conserved |
| `Credits.CreditBook.Repay` | `libraries/chain/financial_evaluator.cpp:79-115` | at most what was withheld can be repaid, and it goes to the creditor |
| `Escrow.Exchange.Create` | `libraries/chain/exchange_evaluator.cpp:134-251` | a selling client deposits at once, a selling gateway does not |
| `Escrow.Exchange.Call` | `libraries/chain/exchange_evaluator.cpp:298-332` | the gateway deposits when it takes a trade up |
| `Escrow.Exchange.ReportPayment` | `libraries/chain/exchange_evaluator.cpp:335-365` | only the buyer reports a payment; the escrow stays |
| `Escrow.Exchange.Release` | `libraries/chain/exchange_evaluator.cpp:368-413` | the escrow goes to the buyer, once |
| `Escrow.Exchange.Cancel` | `libraries/chain/exchange_evaluator.cpp:253-295` | a cancelled trade refunds the account that deposited, if any did |
| `Escrow.Exchange.OpenDispute` | `libraries/chain/exchange_evaluator.cpp:415-441` | a party disputes a reported payment |
| `Escrow.Exchange.ReplyDispute` | `libraries/chain/exchange_evaluator.cpp:444-471` | only the other party replies |
| `Escrow.Exchange.Resolve` | `libraries/chain/exchange_evaluator.cpp:474-528` | commission and winner's part add up to the escrow |
| `Escrow.Exchange.AutoCancel` | `libraries/chain/db_update.cpp:313-408` | exactly the trades nobody approved or paid in time are removed and each deposit goes back to its depositor; balances plus escrow are constant |
| `Indexes.PatchIsExact` | `libraries/chain/account_object.cpp:891-911` | working in only the differences is exact just when the remembered members fit the account (both directions) |
| `Indexes.MemberIndex.ObjectInserted` | `libraries/chain/account_object.cpp:846-862` | after an insertion the index is what recomputing it would give |
| `Indexes.MemberIndex.ObjectRemoved` | `libraries/chain/account_object.cpp:864-880` | after a removal the index is what recomputing it would give |
| `Indexes.MemberIndex.ObjectModified` | `libraries/chain/account_object.cpp:882-961` | after a modification the index is right exactly when the single slot still describes the account or the members did not change, which paired callbacks ensure |
| `Indexes.NestedModificationIsLost` | `libraries/chain/account_object.cpp:882-961` | two nested modifications leave the index wrong |
| `Indexes.BalanceIndex.ObjectInserted` | `libraries/chain/account_object.cpp:980-990` | the two-level table keeps agreeing with the flat index of objects |
| `Indexes.BalanceIndex.ObjectRemoved` | `libraries/chain/account_object.cpp:992-998` | a removal keeps the two-level table in agreement with the flat index |
| `Indexes.BalanceIndex.RemoveObject` | `libraries/chain/account_object.cpp:992-998` | removing an object takes exactly its balance away |
| `Indexes.BalanceIndex.ObjectModified` | `libraries/chain/account_object.cpp:1005-1009` | the assertion fails exactly when another object was announced last |
| `Indexes.BalanceIndex.Nested` | `libraries/chain/account_object.cpp:1000-1009` | properly nested modifications never trip that assertion, and leave the stack as it was |
| `Indexes.BalanceIndex.AdjustBalance` | `libraries/chain/db_balance.cpp:54-83` | only the one balance changes, it never becomes negative, and it fails exactly when it would |

## Left out

- LimitMarket: the market code before hard forks 445, 555, 604 and 625 is not modelled.
- MarginMarket: `check_call_orders`, the black-swan check and updating a margin position are not modelled; a match that
  would throw ends the operation.
- MarginMarket.ApplyOrder: states the book and what is conserved, not each balance, which the fills state; says nothing
  about the state after a throw, because the whole transaction is then undone.
- OrderEntry.PlaceLimitOrder: the same.
- LimitMarket.MatchAgainstBook: states the book and what is conserved, not each balance, which `MatchLimits` states.
- ForceSettlement.ClearExpiredSettlements: says nothing about the state after a throw, because the block is then refused.
- Bids: `revive_bitasset` for a single pseudo-bid is not modelled; it executes one bid the same way.
- Blocks: the evaluation of transactions inside a block is a parameter; checkpoints and skip flags are fixed.
- Forks.ForkDatabase.PushBlock: a block is not refused for being too old, and no item is dropped from the index when the
  head rises, because the window covers the blocks that can still be undone.
- Forks.ForkDatabase.Remove: an item erased from the index counts as gone at once.  In the source it can still be reached
  while a branch under removal holds it; the fork database's head is then set explicitly, so the outcome is the same.
- Forks: the cache limits that drop old items, and the corresponding trimming of the undo stack, are not modelled;
  everything stays available.
- Chains: pending and popped transactions are not modelled, and neither is reopening a node from its files.
- BlockStore: files are sequences; partial entries and disk errors are not modelled.
- Undo: disabling undo and the limit on the number of kept sessions are not modelled.
- Schedule.ShuffleIsPermutation: the numbers drawn are arbitrary instead of those of the xorshift generator, so that it
  holds for any generator.
- Schedule: participation rate, witness pay and the recently-missed counter are not modelled; times do not wrap at 32 bits.
- Sync.Synopsis: takes the last block that cannot be undone as a parameter not above the head.
- Sync.SyncRound: two nodes are compared at one moment; the network between them is not modelled.
- Sync.GetBlockIds: with a limit of 0, or a stale last id, it returns no id and a remaining count of 0.
- Schedule.Tolerated: the number of witnesses is not bounded; the product with the threshold does not wrap.
- Referral.PayOutFees: game-round volumes recorded beside the payout are not modelled; they only add counters.
- Referral.NextRewardable: takes the number of steps after which to look, because the source's loop need not end; whether
  a circle of referrers can arise (`chain/account_evaluator.cpp:546-563` looks for short ones) is not modelled.
- Referral.Leaders.UpdateNv: takes a number of steps for the same reason; volumes are those already decayed to the
  current time.
- Credits: pledges and the monthly income counters are not modelled; a vesting balance is one number per account.
- Escrow: advertisements, ratings and bans are not modelled; they do not move value.
- ForceSettlement.OwedByConservation: relates what is handed in to the debts at one moment; that value and backing are
  conserved is stated operation by operation.
- Indexes: the three membership maps are one generic class; the referrer index does nothing in the source.
- Voting, budgets, proposals, vesting withdrawals, lotteries, bets, the API layers and the network protocol are not
  part of this model.
