# Verification of the prediction-market backend

This project models the parts of the backend where a mistake costs money or breaks a claim, and proves what they
promise. `dafny verify dfyconfig.toml` checks everything.

## What is modelled

**The ledger and its collateral guarantee.** Trades, full cash-outs, settlements, claims and treasury transfers change
the stored trades and one project wallet. `collateral.dfy` recomputes the required collateral from all trades, keeps it
up to date incrementally, and proves the two agree. `ledger.dfy` is the state machine: every handler section that runs
under the collateral lock is one guarded step, amounts are whole cents, and a transfer moves everything or nothing. The
shares of a trade, the proceeds of a cash-out, and how a transfer ends are parameters of a step, so the results hold
whatever the market maker quotes and whatever the network answers. `ledger_safety.dfy` and `ledger_solvency.dfy` prove
what holds after every run from an empty ledger, `ledger_outcomes.dfy` what each step achieves (how an ended transfer
is recorded and counted, what a settlement opens to claims and to whom, when a market trades), and `claim_payment.dfy`
when a claim that is owed can be paid;
`settlement.dfy` covers the preview of a verdict and the payouts it writes. `ledger_store.dfy` is a class with the
stored rows as fields whose methods are the handlers and store methods; each is proved to take exactly the corresponding
step. Two things are observed that the store does not keep: how many transfers of a trade's payout are out, and which
claim handlers are between their reservation and their completion.

**The market maker.** `budget_search.dfy` is the doubling-and-halving search for the shares a budget buys, on any cost
function, with the loops refining a recursive form. `market_maker.dfy` has the two quotes over a cost function that is a
parameter with three hypotheses (never below either coordinate, nondecreasing, rising by at most the shares added), the
rounding to hundredths, and the runs of buys and cash-outs with their loss bound. `market_path.dfy` proves that the
money kept follows the cost, so that the order of trades does not matter, and where a market starts.

**The claim tree and field arithmetic.** `field.dfy` has the reduction into the scalar field and the extended Euclidean
inverse; `merkle.dfy` the layer-by-layer tree and the separate path verifier over an uninterpreted hash. What binds a
root to its leaves is stated as evidence: either the leaf is the entry at the index, or the inputs that these very
computations hashed contain a collision or an input that hashes to 0. `claim_tree.dfy` says what both make of the
permutation: the root as one recursive tree, and the path step by step. `leaf_numbering.dfy` has the indexes that trade
creation and tree requests give to leaves, and `bytes32.dfy` the text forms of field elements.

**Claims and shielded payouts.** `splitting.dfy` is the greedy split over denominations, `matching.dfy` the first-fit
matching, `payout_split.dfy` puts both together with the configured pools and the submitted notes, and
`payout_selection.dfy` proves which pools and notes are used. `withdrawal_queue.dfy` is the retrying withdrawal queue
with its worker, and `withdrawal_timing.dfy` says when each row runs. The two claim paths are part of the ledger.

**Base units.** `text.dfy` and `positional.dfy` read and print numerals, and `units.dfy` has the parser and the printer
of token amounts.

`sums.dfy`, `money.dfy`, `arithmetic.dfy`, `lists.dfy` and `wrappers.dfy` are shared.

## What the proofs found

- The attempt limit of a withdrawal can be exceeded without a manual retry. Retrying a failed execution matches the row
  by id alone and checks no status (internal/store/private_claim.go:820-858), so an execution that reports after its
  lock was recovered as stale puts the row back into the queue although a second execution holds it. It takes two
  workers, of which every server instance starts one (internal/httpapi/shielded_payout.go:944-968), and an execution
  longer than the timeout. `LateReportBreaksTheLimit` is such a run. From any state that a run reaches, the limit holds
  in every continuation without manual retries and late reports exactly when the attempts (counted from one below the
  limit), the waiting row, and the running executions that can still send it back do not add up to more than it
  (`LimitHoldsExactlyWithinPotential`), and a step raises this sum exactly when it is a manual retry or a failing late
  report of a row that is not waiting (`StepPotential`).
- Greedy splitting accepts every payout that the denominations can represent exactly when the smallest denomination
  divides all others (`AcceptsAllIffLeastDivides`); otherwise a representable payout is refused.
- A round trip through the market maker returns the amount paid, or one cent more, if the doubling reached the budget.
  If it was cut off at the cap the order can still be accepted, and the trader gets back what the last guess is worth;
  the round trip is off by at most a cent exactly when that guess costs enough (`BuyThenCashOut`). The cap matters only
  when the outstanding shares come near it: in a market of liquidity 500 with 1,638,400,000 no shares and no yes shares
  a stake of 500 on yes is accepted, at an even price, and loses more than a cent (`SomeBudgetIsCutOff`, for every cost
  and price that agree with the market maker's at that one point). In every run in which the market holds less than half
  the cap it does not happen (`RoundTripInEveryRun`).
- The guard of a claim counts a cash-out whose transfer has left the wallet until it is marked as sent. Such a transfer
  can hold up a claim that the wallet covers. Without a buffer a claim can be sent exactly when the wallet covers what
  is owed and what is in transit (`SendNeedsTheTransit`). It happens at figures that the market maker quotes: when one
  of two stakes is cashed out for what its market returns and the other wins, the wallet covers the winner and the claim
  is refused, until the cash-out is marked as sent, exactly when the stake cashed out held less than two shares per unit
  returned (`QuotedClaimIsRefused`), as stakes do in every market above fifty cents (`AboveHalfIsRefused`). With two
  stakes of 10.00 for 14.00 shares each and 10.00 returned, the wallet holds 18.00, owes 14.00, and is asked for 24.00.
- A private claim whose transfer was sent and reverted cannot be made again with its nullifier, because only a claim
  without transactions is retried (`SentClaimSpendsItsNullifier`); its payout is open in public, and in private only
  with a nullifier that was not used (`RevertedClaimIsOpenAgain`).
- A value compares equal to its own 32-byte encoding exactly when it was reduced already
  (`OnlyReducedValuesEqualTheirEncoding`).

## Model

| member | source | states |
|---|---|---|
| Collateral.RequirementIsLeast | internal/store/trading.go:720-723 | a market's requirement is the least amount that pays the fixed payouts on top of any one of yes, no and refund |
| Collateral.ComputeRequirement | internal/store/trading.go:583-650 | the report has the required total, lists no market twice, gives the right figures for every poll listed or left out, and lists only markets that require something |
| Collateral.ProjectRequirement | internal/store/trading.go:652-685 | works on a fresh copy, and returns the report with the quoted trade added |
| Collateral.ProjectionIsRecompute | internal/store/trading.go:652-685 | for every truthful report and every new trade the projected report is a truthful report of the ledger with that trade, also for a market that had been left out |
| Collateral.ProjectAfterCashout | internal/store/trading.go:687-714 | works on a fresh copy, and returns the report with the quoted position taken out |
| Collateral.CashoutProjectionIsRecompute | internal/store/trading.go:687-718 | for every truthful report the projection is a truthful report after the full cash-out whose payout is sent, and the release is exactly the drop of the requirement |
| Money.BufferCovers | internal/httpapi/collateral.go:165-170 | the reserve with its buffer is never below the liability, and grows with it |
| Money.ReserveForTheRest | internal/httpapi/collateral.go:172-175 | an outflow that releases part of the requirement is covered exactly when the wallet afterwards holds the reserve of the rest |
| Money.FeeIsTheShare | internal/httpapi/api.go:1310-1316 | the fee is the amount times the basis points over 10000, to the nearest cent |
| Money.BufferIsTheShare | internal/httpapi/collateral.go:165-170 | the reserve is the liability times one plus the basis points over 10000, to the nearest cent |
| LedgerStore.Store.CollateralReport | internal/store/trading.go:583-650 | the report agrees with the stored trades, and never reports less than is owed |
| LedgerStore.Store.EnsureOutflow | internal/httpapi/collateral.go:117-137 | allows an outflow exactly when the guarantee is off, or the amount is positive and what stays covers the requirement less the release |
| LedgerStore.Store.ReceiveDeposit | internal/httpapi/api.go:1440-1470 | an escrow transfer into the project wallet, which trades are checked against, leaves exactly the state of that step |
| LedgerStore.Store.CollateralizeQuote | internal/httpapi/collateral.go:97-115 | decides from the projection what a recomputation with the trade in it would decide |
| LedgerStore.Store.CashoutCovered | internal/httpapi/api.go:1371-1434 | decides from the projected release what a recomputation with the position paid would decide |
| LedgerStore.Store.CreateTrade | internal/httpapi/api.go:816-891 | accepts a trade exactly when the step is allowed, and leaves exactly the state of that step |
| LedgerStore.Store.CashOutPosition | internal/httpapi/api.go:1371-1434 | pays and records a full cash-out exactly when the step is allowed, and leaves exactly the state of that step, also when the transfer reverts |
| LedgerStore.Store.RecordCashOut | internal/store/trading.go:755-863 | marks exactly the open trades of the position, with their parts of the proceeds |
| LedgerStore.ProRataPartsAreAccepted | internal/store/trading.go:788-799 | parts in proportion to the shares of the position add up to the proceeds, so they are parts that the step accepts |
| LedgerStore.EveryRunIsUsable | internal/httpapi/collateral.go:97-175 | every state that a run reaches meets what the store's methods rely on |
| LedgerStore.Store.SettlePoll | internal/store/trading.go:1987-2106 | settles exactly when the step is allowed, leaves exactly its state, and returns a preview whose required payout is the sum written; an unknown poll has no preview |
| LedgerStore.Store.WriteSettlement | internal/store/trading.go:2031-2106 | gives every open trade of the poll its verdict and payout, and changes nothing else |
| LedgerStore.Store.ReserveDirectPayout | internal/store/trading.go:1380-1444 | reserves a public payout exactly when the step is allowed, and leaves exactly its state |
| LedgerStore.Store.ReserveClaim | internal/store/private_claim.go:229-304 | reserves a private claim, new or retried, exactly when the step is allowed, and leaves exactly its state |
| LedgerStore.Store.SendClaimPayout | internal/httpapi/api.go:2955-3007 | sends a reserved payout exactly when the collateral guard allows it, and leaves exactly the state of that step |
| LedgerStore.Store.CompletePayout | internal/store/trading.go:1446-1518 | records how a claim ended on either path, and leaves exactly the state of that step |
| LedgerStore.Store.SpendTreasury | internal/httpapi/api.go:2955-3007 | a treasury transfer leaves only with the reserve intact, and leaves exactly the state of that step |
| LedgerSolvency.EveryRunIsSolvent | internal/httpapi/collateral.go:97-175 | after every run with the guarantee on, the wallet covers what is owed, the reported requirement is never below it, and no cent is lost between received, spent, paid and held |
| LedgerSolvency.SendGuardIsRecompute | internal/httpapi/api.go:2955-3007 | the claim guard asks for exactly the reserve of the ledger in which this payout is already marked as sent |
| LedgerSolvency.RevertedClaimRestoresBothSides | internal/httpapi/private_claim.go:201-239 | a claim transfer that is sent and reverts restores the wallet and what is owed, and the trade can be claimed again |
| LedgerSolvency.EveryRunPaysAtMostOnce | internal/store/trading.go:1380-1518 | after every run, guarantee on or off, a trade has at most one payout in flight or recorded, in flight exactly while it is pending, at most one transfer out, and no two private claims share a nullifier |
| LedgerSolvency.RunKeepsClosedTrades | internal/store/private_claim.go:229-437 | in every run a recorded payout is never reserved again, and a trade that is no longer open keeps its status and payout |
| ClaimPayment.RequiredIsOwedAndInTransit | internal/store/trading.go:583-650 | the reported requirement is what is owed plus the payouts whose transfer is out without being marked as sent |
| ClaimPayment.SendGuardCountsTheTransit | internal/httpapi/api.go:2955-3007 | with the guarantee on and any buffer a waiting claim can be sent exactly when the wallet afterwards holds the reserve of what else is owed and of what is in transit |
| ClaimPayment.SendNeedsTheTransit | internal/httpapi/api.go:2955-3007 | with the guarantee on and no buffer a waiting claim can be sent exactly when the wallet covers what is owed and what is in transit |
| ClaimPayment.OwedClaimsCanBeSent | internal/httpapi/api.go:2955-3007 | so after every guaranteed run without buffer a waiting claim can be sent if nothing is in transit |
| ClaimPayment.CoveredClaimIsRefused | internal/httpapi/api.go:2955-3007 | for all stakes and proceeds, after the run in which one stake is cashed out and the other wins, the wallet covers everything owed, and the claim guard allows the claim if and only if the position cashed out held two shares or more per unit returned |
| ClaimPayment.QuotedClaimIsRefused | internal/store/trading.go:917-1059 | the same when both stakes and the proceeds are what the market maker quotes, in any markets; the proceeds are then the stake or one cent more |
| ClaimPayment.AboveHalfIsRefused | internal/store/trading.go:917-1059 | the claim is refused in every market where one hundredth less than two shares per unit already costs the stake |
| LedgerSolvency.VerdictPaysOneLiability | internal/store/trading.go:2467-2490 | a verdict pays exactly the yes liability, the no liability or the refunds |
| LedgerSolvency.SettleNeverRaises | internal/store/trading.go:1987-2106 | a settlement never raises the total required collateral |
| LedgerOutcomes.EndedClaimIsRecorded | internal/httpapi/api.go:3158-3192 | a sent claim is recorded as sent when confirmed, submitted while unknown, and failed when reverted, on the trade and on its private claim |
| LedgerOutcomes.OnlyConfirmedPayoutsAreReleased | internal/store/trading.go:583-650 | a confirmed payout leaves the requirement by exactly its amount, a pending or reverted one leaves it as it was; what is owed falls unless it was reverted |
| LedgerOutcomes.PendingPayoutCanComeBack | internal/httpapi/api.go:3158-3192 | a payout recorded as submitted can still come back, and wallet, requirement and what is owed are then what they were before it was sent |
| LedgerOutcomes.OnlyConfirmedCashoutsAreReleased | internal/store/trading.go:755-863 | after a confirmed cash-out the requirement is that without the position; a pending or reverted one leaves the proceeds on top of it |
| LedgerOutcomes.CashoutClosesThePosition | internal/store/trading.go:755-863 | a cash-out closes exactly the open trades of the user on the side of the market, each with its part and the status of the transfer, and the wallet pays unless it was reverted |
| LedgerOutcomes.CashedOutOnce | internal/store/trading.go:964-1023 | after a cash-out the position is empty, and no cash-out of it is allowed |
| LedgerOutcomes.SettledTradeSaysTheVerdict | internal/store/trading.go:2031-2106 | a settled trade is won exactly when the verdict is for its side, refunded when it is cancelled, and claimable exactly when it is paid |
| LedgerOutcomes.SettledExactlyOnce | internal/store/trading.go:1987-2106 | a market is settled by the first settlement of it and by nothing else, and its verdict stays |
| LedgerOutcomes.SettlementOpensTheClaims | internal/store/private_claim.go:229-304 | after a settlement every trade it pays can be claimed by its owner, in public, and in private with its leaf and any unused nullifier |
| LedgerOutcomes.LosersCannotClaim | internal/store/private_claim.go:229-304 | a trade that the verdict does not pay cannot be claimed by anybody, on either path |
| LedgerOutcomes.OnlyTheOwnerClaims | internal/store/private_claim.go:229-304 | in every run a payout is reserved only by the owner of its trade, in private only with the trade's leaf, and only for a closed trade with a payout |
| LedgerOutcomes.CashedOutIsNeverPrivate | internal/store/private_claim.go:229-304 | in every run a trade that was cashed out cannot be claimed in private |
| LedgerOutcomes.ReservationIsWaiting | internal/store/trading.go:1380-1444 | a reservation starts one handler that has sent nothing, for the trade and, in private, for the claim with the nullifier |
| LedgerOutcomes.NullifierIsSpent | internal/store/private_claim.go:229-304 | a reserved nullifier is stored with its claim, and is not reserved again while the claim is reserved or once it is paid |
| LedgerOutcomes.UnsentClaimIsOpenAgain | internal/store/private_claim.go:229-274 | a private claim whose transfer was never sent is open again to its owner, with the same nullifier, and in public |
| LedgerOutcomes.SentClaimSpendsItsNullifier | internal/store/private_claim.go:229-274 | once a transfer of a private claim was sent its nullifier is not reserved again, by anybody, however the transfer ends |
| LedgerOutcomes.RevertedClaimIsOpenAgain | internal/store/private_claim.go:275-304 | a payout whose transfer was reverted is open to the owner in public, and in private with an unused nullifier |
| LedgerOutcomes.RevertedCashoutIsPublic | internal/store/trading.go:1380-1444 | every part of a reverted cash-out can be claimed by its owner in public |
| LedgerOutcomes.PlacedStakeIsBacked | internal/httpapi/api.go:816-891 | an accepted stake is one of the six, its escrow holds the stake and its fee to the nearest cent and backs no other trade, and it is added to what its market owes |
| LedgerOutcomes.StakeIsAccepted | internal/httpapi/api.go:816-891 | such a stake on a market that trades is accepted while the reserve of the ledger with it is held |
| LedgerOutcomes.PositionCanBeCashedOut | internal/store/trading.go:964-1023 | who holds a position on a market that trades can cash it out while the reserve of the ledger without it is held |
| LedgerOutcomes.ClosedMarketsDoNotTrade | internal/store/trading.go:445-450 | on a market that is not published or is frozen nothing is bought or cashed out |
| LedgerOutcomes.MarketIsSwitched | internal/httpapi/api.go:2280-2345 | a market takes the status and the freeze it is given, except that a settled one keeps the status of its verdict |
| LedgerOutcomes.SpendGuardIsReserve | internal/httpapi/api.go:2955-3007 | the treasury spends exactly what leaves the reserve of the whole ledger in the wallet |
| Settlement.PreviewBuilder.constructor | internal/store/trading.go:1948-1985 | an empty preview is valid: nothing counted, nothing owed |
| Settlement.PreviewBuilder.AddRow | internal/store/trading.go:2467-2508 | one more row keeps winning plus losing equal to all, the required payout equal to the rows' payouts, and each wallet's amount equal to its rows' payouts |
| Settlement.PreviewBuilder.CreditRow | internal/store/trading.go:2492-2508 | crediting a row keeps the wallets' totals plus the payouts of users without wallet equal to the required payout |
| Settlement.PreviewSettlement | internal/store/trading.go:1948-1985 | fails exactly for an unknown poll; otherwise the counts are those of the open trades, each wallet is listed exactly if it has winning trades, with their payouts, shares and number, and the wallets' totals plus the payouts of users without wallet make up the required payout |
| Settlement.PaidUserIsListed | internal/store/trading.go:1948-1985 | whoever holds a winning trade and has a wallet is listed with it, for at least that trade's payout and shares |
| Settlement.WrittenPayoutsSumToPreview | internal/store/trading.go:2031-2106 | the payouts a settlement writes on the trades of the market sum to the verdict's payout |
| BudgetSearch.SharesForBudget | internal/store/trading.go:1080-1099 | both loops end, and leave the interval of the recursive search |
| BudgetSearch.DoubleUp | internal/store/trading.go:1084-1089 | the doubling loop ends, at the first doubled guess that reaches the budget or beyond the cap |
| BudgetSearch.FoundBracketsTheBudget | internal/store/trading.go:1080-1099 | the lower end costs less than the budget, the result at least the budget if the doubling reached it, as it does below the cap, and they are the starting width halved 80 times apart |
| BudgetSearch.HalvedIsQuotient | internal/store/trading.go:1090-1097 | a width halved n times is the width divided by 2 to the power of n |
| BudgetSearch.NothingSmallerSuffices | internal/store/trading.go:1080-1099 | for a nondecreasing cost no number of shares up to the lower end reaches the budget |
| BudgetSearch.WidthIsSmall | internal/store/trading.go:1080-1099 | if the first guess is below the cap the final width is below half a cent |
| BudgetSearch.UnreachedIsTheLastGuess | internal/store/trading.go:1080-1099 | if the doubling did not reach the budget, the halving returns its last guess unchanged |
| BudgetSearch.CapIsNotReached | internal/store/trading.go:1084-1089 | a cost that lags behind the shares by a bounded gap is reached before the cap |
| BudgetSearch.FirstGuessSuffices | internal/store/trading.go:1084-1089 | for a cost of a cent or more a share, or one that lags behind by no more than the liquidity, the search starts at a hundred shares per unit of the amount or at amount and liquidity together, whichever is more, without doubling |
| MarketMaker.OrdersAreRefusedForTheirPrice | internal/store/trading.go:917-944 | an order is accepted exactly when its amount is positive and the yes price, with the shares on their side, is between 1c and 99c; the other refusals fire for no positive amount |
| MarketMaker.BuyMovesTheCost | internal/store/trading.go:917-962 | an accepted order is quoted for its amount, promises one unit for each share found, adds exactly those to its side, and raises the cost by at most the amount, half a cent and the search width |
| MarketMaker.CashoutMovesTheCost | internal/store/trading.go:1019-1059 | while the side holds the shares nothing is clamped, and the cost falls by the proceeds but for half a cent |
| MarketMaker.BuyThenCashOut | internal/store/trading.go:917-1059 | with a width below half a cent, buying and cashing out those shares restores the shares outstanding exactly, and returns the amount paid but for one cent if and only if the last guess of the doubling costs enough; if the doubling reached the budget, the proceeds are the amount or one cent more |
| MarketMaker.ProceedsAreCovered | internal/store/trading.go:917-1059 | a round trip never returns more than the shares it gives back |
| MarketMaker.CutOffRoundTrip | internal/store/trading.go:1084-1089 | if the doubling was cut off, the round trip never returns more than was paid, and at most one cent less if and only if the last guess costs enough |
| MarketMaker.CutOffBudgetIsLost | internal/store/trading.go:1084-1089 | if the doubling was cut off more than two cents short, buying and cashing out loses more than one cent |
| MarketMaker.SomeBudgetIsCutOff | internal/store/trading.go:1084-1089 | in every market that costs and prices its balanced state as stated, with liquidity 500 and 1,638,400,000 shares on one side only, an allowed stake of 500 on the other is accepted and loses more than a cent |
| MarketMaker.CutOffIsRefusedForItsPrice | internal/store/trading.go:917-931 | an order whose doubling was cut off is accepted exactly when the price at the last guess is in range |
| MarketMaker.OrdinaryBudgetsAreSearchedFully | internal/store/trading.go:1080-1106 | budgets below half the cap end below it, with a width below half a cent |
| MarketMaker.RoundTripInEveryRun | internal/store/trading.go:917-1106 | in every run in which the money held, the starting cost and the stake stay below half the cap, an accepted order can be cashed out for its amount or one cent more |
| MarketMaker.RunStaysBalanced | internal/store/trading.go:917-1059 | in every run the shares outstanding are the initial ones plus those of the open trades on each side, and the cost has risen by at most the money kept, half a cent per order and the widths |
| MarketMaker.LossIsBounded | internal/store/trading.go:917-1059 | after every run the loss, were a side to win and its quoted payouts paid, is at most the starting cost less that side's initial shares, half a cent per order, and the widths |
| MarketMaker.LossIsACentPerOrder | internal/store/trading.go:917-1106 | with first guesses below the cap that loss is at most the starting cost less that side's initial shares, and one cent per order |
| MarketMaker.ClampNeverFires | internal/store/trading.go:1027-1034 | in every run a user's position is covered by the shares outstanding above the initial ones |
| MarketMaker.InitialShares | internal/store/admin.go:1306-1313 | a market starts with non-negative shares, on one side only |
| MarketMaker.InitialSharesAreMirrored | internal/store/admin.go:1306-1313 | opposite percentages start with the same shares on opposite sides, and from 50 on they are on the yes side, for every percentage, clamped or not |
| MarketPath.StartsAtTheOdds | internal/store/admin.go:1306-1313 | a market starts as far towards yes as liquidity times the logarithm of its odds, to half a hundredth of a share; a percentage outside 1 to 99 starts like the nearest in it |
| MarketPath.KeptIsTheCost | internal/store/trading.go:917-1059 | after every run of orders whose doubling reached the budget the money kept is what the cost has risen by, to a cent per order |
| MarketPath.PathDoesNotMatter | internal/store/trading.go:917-1059 | two such runs that leave the same shares outstanding have kept the same money, to a cent per order, whatever was bought and given back on the way |
| MarketPath.PositionIsBoughtBack | internal/store/trading.go:917-1059 | buying and cashing out at once leaves the shares and the positions of the book as they were; it has collected the amount and paid it, or one cent more |
| FieldArithmetic.NormalizeField | scripts/private-claim-note.ts:53-56 | the result is the residue between 0 and the modulus, for negative values too |
| FieldArithmetic.ModInverse | scripts/private-claim-note.ts:72-84 | the loop ends; the product with the value is congruent to their greatest common divisor, and is 1 for every value coprime to the modulus; only zero fails |
| FieldArithmetic.GcdIsGreatest | scripts/private-claim-note.ts:72-84 | the number the loop works out is a common divisor that every common divisor divides |
| MerkleTree.HashLayer | scripts/private-claim-note.ts:143-151 | the loop builds the layer above |
| MerkleTree.ComputeMarketRoot | scripts/private-claim-note.ts:134-158 | accepts at most 2 to the power of the levels leaves, returns them normalised, and the root of their tree |
| MerkleTree.LastLayerIsSingle | scripts/private-claim-note.ts:143-156 | the layer loop always ends with one element |
| MerkleTree.RootIsLastLayer | scripts/private-claim-note.ts:143-156 | the element it ends with is the root of the zero-padded tree |
| MerkleTree.ComputeRoot | scripts/private-claim-note.ts:121-132 | refuses a path with a bad direction, and otherwise returns the root that the path leads to |
| MerkleTree.NormalizeArray | scripts/private-claim-note.ts:112-119 | reduces every value and pads with zeros up to the levels, and refuses more |
| MerkleTree.AcceptedIsEntry | scripts/private-claim-note.ts:121-158 | an accepted leaf is the entry at the index the directions spell, or zero beyond the end, or the hashes computed expose a collision or an input that hashes to 0 |
| MerkleTree.EveryLeafIsAccepted | scripts/private-claim-note.ts:121-158 | for every index the siblings read off the layers and the binary digits of the index lead exactly to the root |
| MerkleTree.OneRootOneList | scripts/private-claim-note.ts:134-158 | two different lists of nonzero leaves with one root expose a collision or an input that hashes to 0 |
| ClaimTree.RootIsTheTreeRoot | scripts/private-claim-note.ts:134-158 | for every permutation the root hashed layer by layer is that of one recursive tree, left half before right half, a half without leaves counting as zero |
| ClaimTree.SmallestRoots | scripts/private-claim-note.ts:68-70 | two leaves are reduced and hashed in their order and the result is reduced; a lone leaf is hashed with a zero on its right |
| ClaimTree.PathGoesUp | scripts/private-claim-note.ts:121-132 | for every permutation one more path element is hashed on the right of what is below for direction 0 and on its left for direction 1 |
| ClaimTree.OwnPathIsAccepted | scripts/private-claim-note.ts:121-158 | for every permutation and every list the path of a leaf, with the binary digits of its position as directions, leads to the root |
| LeafNumbering.LeafStore.CreateTrade | internal/store/trading.go:487-491 | a new trade with a leaf gets the next number of its market, one without gets none |
| LeafNumbering.LeafStore.PrivateClaimTree | internal/store/private_claim.go:13-115 | numbers the leaves that miss a number, and lists every leaf at the position of its stored number |
| LeafNumbering.RunKeepsNumbers | internal/store/private_claim.go:13-115 | in every run the numbers of a market are distinct and exactly 0 to k-1 |
| LeafNumbering.EveryRunNumbersExactly | internal/store/private_claim.go:13-115 | so in every run from rows without numbers, legacy rows or none |
| LeafNumbering.LaterListsExtendEarlierOnes | internal/store/private_claim.go:13-115 | every later list of leaves extends every earlier one |
| LeafNumbering.LegacyOrderIsKept | internal/store/private_claim.go:28-60 | leaves without a number are numbered in order of creation, and by id when created at once |
| LeafNumbering.CreatedLeafIsListed | internal/store/trading.go:487-491 | a new leaf stands at the end of its market's list at once; a trade without a leaf or on another market leaves the list as it is |
| Bytes32.FieldToBytes32 | internal/httpapi/private_claim_registry.go:214-222 | succeeds exactly on field values, with the encoding of the value reduced modulo the field |
| Bytes32.BigIntToBytes32 | internal/httpapi/private_claim_registry.go:232-240 | the copy into the buffer and the hexadecimal encoding give the 66 characters of the word |
| Bytes32.HexIsRead | internal/httpapi/private_claim.go:721-733 | hexadecimal digits behind 0x, in either case, are read as their value |
| Bytes32.SpacesAndQuotesAreIgnored | internal/httpapi/private_claim.go:721-733 | quotes around a value, and spaces around those, change nothing |
| Text.BlanksAreTrimmed | internal/httpapi/private_claim.go:721-722 | trimming finds the text between blanks, tabs and line ends |
| Bytes32.WordIsReadBack | internal/httpapi/private_claim_registry.go:232-240 | the text is 0x and 64 hexadecimal digits, and is read back as the number modulo 256 to the power of 32 |
| Bytes32.EncodedIsReduced | internal/httpapi/private_claim.go:721-733 | decoding the encoding of any accepted value gives the value reduced modulo the field |
| Bytes32.EncodingSeparates | internal/httpapi/private_claim_registry.go:214-222 | two values have one encoding exactly when they are the same modulo the field |
| Bytes32.OnlyReducedValuesEqualTheirEncoding | internal/httpapi/private_claim.go:715-719 | a value compares equal to its encoding exactly when it is a field element already |
| Bytes32.AcceptedIsRewritten | internal/httpapi/shielded_payout.go:1042-1054 | every text accepted as 32 bytes is read, and written again as the same text in lower case |
| Bytes32.DecimalFormIsSame | internal/httpapi/shielded_payout.go:1070-1076 | the decimal form of a value is the same field element |
| Splitting.TakeGreedily | internal/httpapi/shielded_payout.go:705-718 | the loops take the greedy parts, each from the list, and leave the greedy rest |
| Splitting.GreedyConserves | internal/httpapi/shielded_payout.go:705-720 | parts and rest make up the amount, and every part is a denomination |
| Splitting.RestIsSmall | internal/httpapi/shielded_payout.go:705-720 | the rest is less than every denomination |
| Splitting.AcceptsAllIffLeastDivides | internal/httpapi/shielded_payout.go:667-720 | all representable amounts are accepted exactly when the smallest denomination divides all of them |
| Splitting.ChainSplitsMinimally | internal/httpapi/shielded_payout.go:667-720 | when of any two denominations the smaller divides the larger, an amount is accepted exactly when it is representable, and no representation has fewer parts |
| Splitting.LeastDividesIsNotMinimal | internal/httpapi/shielded_payout.go:667-720 | without the chain greedy splitting can take more parts than needed |
| PayoutSplit.ListPools | internal/httpapi/shielded_payout.go:676-696 | the loop keeps the complete entries without repetition, or the single configured pool |
| PayoutSplit.ConfiguredPoolsAreTheListedOnes | internal/httpapi/shielded_payout.go:676-696 | every complete entry is there under its key, no key twice, and nothing incomplete |
| PayoutSplit.PlanForAmount | internal/httpapi/shielded_payout.go:667-720 | fails exactly when the amount does, and otherwise returns the greedy plan over the sorted pools |
| PayoutSplit.PlanIsExact | internal/httpapi/shielded_payout.go:667-720 | a plan is accepted exactly when its parts total the payout; what is missing otherwise is below every denomination; acceptance and minimality follow from the conditions on the denominations |
| Matching.MatchFirstFit | internal/httpapi/shielded_payout.go:748-768 | succeeds exactly when the wanted keys are contained in the offered ones with multiplicity, uses no position twice, and otherwise names the first key that is not there often enough |
| PayoutSplit.SelectCommitments | internal/httpapi/shielded_payout.go:722-769 | succeeds exactly when the plan is not empty, all candidates are valid and the plan's pools are contained in theirs, each part with a note of its pool; otherwise reports the first faulty candidate, or the denomination of the first part that finds no note |
| PayoutSplit.NotesForPayout | internal/httpapi/shielded_payout.go:566-581 | succeeds exactly when the amount is accepted, its greedy plan is exact and notes can be selected for it; the notes come from distinct candidates and total exactly the payout |
| PayoutSelection.SinglePoolIsFallback | internal/httpapi/shielded_payout.go:676-699 | the pools are cleaned entries of the list that are written in full, or the single pool exactly when there is none |
| PayoutSelection.EveryEntryIsUsed | internal/httpapi/shielded_payout.go:676-692 | while no denomination contains a colon every entry written in full is a pool, also one of the same denomination at another address |
| PayoutSelection.PrintedDenomination | internal/httpapi/shielded_payout.go:712-716 | a denomination is worth the number it prints |
| PayoutSelection.OnePoolPlan | internal/httpapi/shielded_payout.go:711-720 | a single pool is taken as often as it fits, and the plan is exact when nothing is left over |
| PayoutSelection.ExactPlanIsPaid | internal/httpapi/shielded_payout.go:722-769 | an exact plan is paid when every part has a note with a valid commitment that names the part's pool |
| PayoutSelection.SelectedAreValid | internal/httpapi/shielded_payout.go:722-769 | a selection names a commitment of 32 bytes for every part in the part's pool, and every candidate has such a commitment |
| PayoutSelection.LoneCommitment | internal/httpapi/shielded_payout.go:731-742 | a commitment without a pool is enough for a plan of one part, and is refused for a longer one |
| WithdrawalQueue.AttemptBound | internal/store/private_claim.go:530-1022 | over every interleaving attempts are at most the limit plus manual retries plus late reports, executions at once are bounded likewise, and nullifiers are distinct |
| WithdrawalQueue.AttemptBoundWhenReportsAreOnTime | internal/httpapi/shielded_payout.go:1008-1040 | if each execution ends once, attempts are at most the limit plus the manual retries |
| WithdrawalQueue.StepPotential | internal/store/private_claim.go:745-1022 | what a row can come to is raised exactly by a manual retry or a failing late report of a row that is not waiting, and then by one |
| WithdrawalQueue.AttemptsWithinPotential | internal/store/private_claim.go:530-1022 | from every reachable state attempts stay within what the row can come to and one more for each such step |
| WithdrawalQueue.LimitHoldsExactlyWithinPotential | internal/store/private_claim.go:530-1022 | from every reachable state every continuation without manual retries and late reports keeps the limit if and only if the row cannot come to more |
| WithdrawalQueue.LateReportBreaksTheLimit | internal/store/private_claim.go:820-858 | a run without manual retry, with the stale timeout of ten minutes, in which a late report leads to one attempt more than the limit |
| WithdrawalQueue.LateReportOfAWaitingRowIsHarmless | internal/store/private_claim.go:820-858 | a run with a late report after which the limit still holds |
| WithdrawalQueue.ConfirmedIsFinal | internal/store/private_claim.go:778-939 | a withdrawal that was confirmed without manual retries stays confirmed and is not attempted again, in every run in which reports are on time |
| WithdrawalQueue.RetryDelay | internal/httpapi/shielded_payout.go:895-907 | the base delay doubled for every attempt after the first, at most an hour |
| WithdrawalQueue.Queue.CreateWithdrawal | internal/store/private_claim.go:530-568 | creates a row exactly when its nullifier is new, and leaves exactly the state of the step |
| WithdrawalQueue.Queue.MarkProcessing | internal/store/private_claim.go:745-776 | locks a row exactly when it waits, and leaves exactly the state of the step |
| WithdrawalQueue.Queue.CompleteExecution | internal/httpapi/shielded_payout.go:1008-1040 | records the end of an execution, and leaves exactly the state of the step |
| WithdrawalQueue.Queue.RecoverStale | internal/store/private_claim.go:979-1022 | releases exactly the stale rows, and leaves exactly the state of the step |
| WithdrawalQueue.Queue.ListDue | internal/store/private_claim.go:678-713 | lists due rows without repetition, by due time and then by creation time, and leaves one out only when the limit is reached by rows that come first; a limit that is not from 1 to 50 is taken as 5 |
| WithdrawalQueue.Queue.ProcessBatch | internal/httpapi/shielded_payout.go:970-1040 | a turn of the worker releases the stale rows and attempts exactly the listed rows once more, each rescheduled with the backoff of its attempt, given up at the limit or confirmed; it is a run of the queue's steps in which every execution reports on time, and does nothing while paused |
| WithdrawalTiming.NewRowWaits | internal/store/private_claim.go:530-603 | a new row waits, is due from its execution time on and never before, and has had no attempt |
| WithdrawalTiming.LockedRowIsHeld | internal/store/private_claim.go:745-776 | a locked row has had one attempt more, is not due, and cannot be locked or retried by hand |
| WithdrawalTiming.LockIsReleasedWhenStale | internal/store/private_claim.go:979-1022 | a recovery releases a lock exactly when it is old enough, to be due from the retry time on, or failed at the limit |
| WithdrawalTiming.FailureIsRetriedUntilTheLimit | internal/store/private_claim.go:820-858 | an execution that fails below the limit makes its row due from the retry time on; at the limit the row has failed |
| WithdrawalTiming.SuccessConfirms | internal/store/private_claim.go:778-818 | an execution that succeeds confirms its row; it is not due, and nobody brings it back |
| WithdrawalTiming.UserRetriesOwnFailures | internal/store/private_claim.go:900-939 | a user brings back exactly his own failed rows, due from the time asked for on |
| WithdrawalTiming.AdminRetriesUnlessHeld | internal/store/private_claim.go:860-898 | an admin brings back exactly the rows that are neither locked nor confirmed, due from the time asked for on |
| WithdrawalTiming.SuspiciousRowIsHeldBack | internal/store/private_claim.go:941-977 | a row marked suspicious is not due and only an admin brings it back; a confirmed one is not marked |
| WithdrawalTiming.ListedByDueTime | internal/store/private_claim.go:678-713 | a list goes by due time and then by creation time |
| WithdrawalTiming.ListedIsDue | internal/store/private_claim.go:678-713 | every listed row waits and is due, and a due row is left out only for the limit, by entries that are due no later |
| WithdrawalTiming.BackoffDoubles | internal/httpapi/shielded_payout.go:895-907 | the first delay is the base delay, every further one is twice the one before, and none is above an hour |
| Units.AcceptedMeansDenoted | internal/walletops/client.go:217-252 | an amount is accepted exactly when it is a decimal numeral of a positive value that the decimals can express, and the quantity is that value |
| Units.NumeralIsTooFine | internal/walletops/client.go:217-252 | a numeral with more places than the token has is refused for them, and any for negative decimals |
| Units.FormattedReadsBack | internal/evm/erc20.go:915-928 | reading a formatted quantity gives the quantity back, and only zero is refused |
| Units.DistinctQuantitiesPrintDifferently | internal/evm/erc20.go:915-928 | different quantities never print the same |
| Units.CanonicalIsReprinted | internal/evm/erc20.go:915-928 | every canonical text is printed again from the quantity it denotes |
| Units.ParsedIsReformatted | internal/walletops/client.go:217-252 | formatting a parsed amount keeps the quantity and gives its one canonical text |

## Left out

- HTTP routing, sessions, notifications, news, comments, configuration: plumbing without money or claims.
- The database driver and the mapping of records: the guards and updates of the queries are modelled, not the driver.
- RPC and engine calls: their results are parameters; partially credited shielded payouts and gateway errors after a broadcast are not modelled.
- Admin overrides that write payout status without a reservation (adminRetrySettlementPayout, adminRetryPrivateClaimPayout and the two reconciliations): outside the solvency and at-most-once results.
- The switch to another token contract, which only reads the report (internal/httpapi/collateral.go:139-163).
- Partial cash-outs: their rounding makes projection and recomputation differ slightly; all cash-outs are of full positions.
- LedgerStore.Store.RecordCashOut: the source stores pro-rata parts of the proceeds that may be fractions of a cent; the model takes any whole-cent parts that sum to the proceeds, as pro-rata parts do (ProRataPartsAreAccepted).
- A settlement between a cash-out's transfer and its record: adminResolvePoll does not hold the collateral lock; handler sections are atomic here.
- ApplyMarketAutomation's share reconciliation and changes of a market's liquidity while it trades: they reset the cost function or the share vector.
- Withdrawal completion with engine status "queued" outside the required mode: success is "confirmed" here.
- Floating point: cents and reals take its place, without the 1e-7 comparison slack; exp and log are parameters, or inside the cost and price parameters.
- WithdrawalQueue.Queue.ProcessBatch: one reading of the clock serves recovery and listing; each execution has its own times.
- Visibility and start and end times of a poll: folded into whether it is published and not frozen.
- Sorting of leaves by value (the script's `sortLeaves`): the server never asks for it.
- Poseidon, Groth16, signatures and the primality of the modulus: parameters or absent.
- Display fields: titles, slugs, percentages, orders of reports and of recipient lists.
- Splitting.ChainSplitsMinimally: minimality is proved for chains of divisors only, one way; which other denominations make greedy splitting minimal is not characterised.
- PayoutSplit.SelectCommitments: lower-casing and case folding of addresses cover ASCII letters only.
- Units.AcceptedMeansDenoted: lengths count characters, which are bytes in every amount that is accepted.
- Units.FormattedReadsBack: quantities below zero are printed by the model as by the code, but the results are about quantities a balance can have.
