# SWEEP contracts: a verified model

A model in Dafny of the parts of the SWEEP stablecoin repository that compute and move value, with proofs
of what they keep. `dafny verify dfyconfig.toml` checks all of it.

The contracts are modelled twice. Every operation is a function on a value (a `Coin`, a `Queue`, a `Desk`, a
`Sale`, ...) that returns the next value or a revert; lemmas prove what these functions keep, over single
calls and over whole runs. Contracts that update storage are classes as well: their methods follow the
statements of the source, loops included, and are proved to do exactly what the function says, and to leave
everything as it was when they revert. A product, sum or difference reverts where the source's would, unless
another check or the supply of ETH bounds it already.

- **SWEEPR on many chains** (`Erc20`, `Sweepr`, `SweeprNetwork`): one ledger per chain, messages in flight in
  any order, and the count of minted tokens that bridging does not touch.
- **Destination chains and rate broadcast** (`ChainRegistry`, `RateBroadcast`, `SweepRates`,
  `RatePropagation`): the swap-remove array and its mapping, the all-or-nothing loop that pays for messages,
  and the first-in-first-out channels to the remote chains.
- **Action queue** (`ActionQueue`): slots, amounts, and the loop that deletes as it executes.
- **Search for an amount** (`BinarySearch`): one loop for rising and falling curves.
- **Market maker** (`MarketMaker`, `BalancerAMM`): two contracts, two tokens, a vault and newly minted SWEEP.
- **Token sale** (`TokenDistributor`).
- **Assets and arithmetic** (`ERC20Asset`, `DsrAsset`, `Chainlink`, `OvnMath`, `RMath`, over `Arithmetic` and
  `Evm`): the conversions made there and back are instances of one lemma that gives their exact loss.

## Where the code does less than one might expect

Each of these is a lemma with the exact condition.

- `MAX_SUPPLY` is checked by `mint` alone and bounds neither one chain nor all together (`MaximumExceeded`).
  A chain goes above it exactly by a receipt for which there was no room (`ReceiptExceedsMaximum`); all
  together stay within it after a mint exactly when the count of minted tokens does
  (`MintKeepsGlobalMaximum`), and then so does every chain (`CountBoundsEveryChain`).
- Handing the governance flag to another chain can block burns there (`MovedFlagBlocksBurn`): one goes through
  exactly when the count of minted tokens covers it too (`BurnDomain`, `BurnFromDomain`). While one chain
  governs, the count always does (`BurnNeverUnderflows`).
- A chain listed twice and removed once stays listed without a balancer, and stops every broadcast;
  a removal is harmless exactly when the id is listed once, unless the zero address is trusted on that chain
  (`RemovalKeepsReach`, `LostChainStopsBroadcast`, `RemovalStopsBroadcast`).
- Nothing keeps a chain from being listed twice, and then it is sent an update twice (`ListedTwiceIsSentTwice`);
  listed k times throughout, it is sent every update k times (`SentIsRepeatedLog`). What it is sent is a
  subsequence of different updates applied at home exactly when no broadcast lists it twice
  (`SubsequenceIsListedOnce`), which adding only fresh chains ensures (`FreshListsOnce`).
- Fifteen rounds find a single in-band amount exactly up to a bound of 2^15 (`FifteenRounds`).
- The search passes a minimum of 0 (scripts/sweep/binary_search.js:80). Where swaps are subject to the rate
  check, as in contracts/AMM/UniswapAMM.sol:239-246, it ends at the first probe (`ZeroMinimumStopsSales`,
  `ZeroMinimumStopsPurchases`). In general it ends on a revert exactly when a probe reverts and all before
  it go through and miss (`FailsOnRevert`).
- A purchase through the market maker costs the maker the fee accrued on its debt, and fails when it does not
  hold that fee (`ThroughMakerDomain`); its balance is unchanged exactly when no fee is due (`MakerPaysTheFee`,
  `FeePaidAndMinimumMissed`).
- `DsrAsset._divest` reads the units of the requested USDX as units of DAI
  (contracts/Assets/DsrAsset.sol:150) and then redeems the larger of that and the balance (line 151). So a
  divestment empties the position or reverts (`WithdrawalBurnsEverything`): with USDC, requests for less and for
  more than the position is worth both empty it (`OneAndSixRequested`). It burns the smaller of what the request
  is worth and the balance exactly when the request is worth the balance or more (`WithdrawalMeetsRequest`).
- Its final check passes for every balance exactly when the slippage covers the fee (`SlippageCoversFee`); when
  it does not, 1001 DAI may be refused (`FeeIsRefused`).
- A negative oracle answer is accepted, and read as at least 2^255 (`PriceDomain`). Only the overflow checks
  keep a positive amount of a token with decimals from being converted at it (`NegativeNeverConverts`).
- A rate refreshed for a period that starts at once is accepted, and can move the target price
  (`RefreshAtOnceMovesPrice`): it stays exactly when the interest for the seconds since the last whole day
  falls within the fraction cut off (`RefreshAtOnceKeepsPrice`). For any later start it stays (`RefreshKeepsPrice`).
- On the market maker's route the buyer's minimum is not checked; it is met exactly when it costs, at the buy
  price, no more than what was paid (`MinimumMet`, `FeePaidAndMinimumMissed`).

## Assumptions about code outside the repository

- The bridge (OFT) burns at the source through `_burn`, with an allowance when the sender is not the holder,
  and mints at the destination through `_mint`; a receipt that reverts can be tried again.
- The endpoint keeps each channel in order, charges the fee it quotes, and refunds nothing of it; a receipt the
  remote coin refuses is consumed.
- The Balancer vault pulls exactly the amounts of a join request within the allowances, takes exactly the USDX
  approved in a swap, and pays the SWEEP it reports. The stablecoin has an AMM set. The AMM's base token is the
  maker's USDX.
- A share of the DAI vault is worth `chi` / RAY of a DAI, rounded down for the holder and up on withdrawal; the
  PSM charges the scaled USDX plus `tout` of it rounded down.

## Model

| member | source | states |
|---|---|---|
| `SweeprNetwork.RunAccounted` | contracts/Governance/Sweepr.sol:63-71 | in every run of mints, burns, transfers, bridge sends and receipts and flag changes on any number of chains, minted-and-not-burnt over all chains equals all supplies plus what is in flight, and on each chain the balances add up to the supply |
| `SweeprNetwork.StepKeeps` | contracts/Governance/Sweepr.sol:118-134 | every action changes one coin at most, and keeps its count of minted tokens in line with its supply, but for what leaves for or arrives from another chain |
| `SweeprNetwork.DeployedAccounted` | contracts/Governance/Sweepr.sol:42-47 | freshly deployed chains satisfy the accounting invariant |
| `SweeprNetwork.CountIsGlobalSupply` | contracts/Governance/Sweepr.sol:63-71 | when only one chain ever has the governance flag, its count of minted tokens is the global supply, in flight included, and every other count is zero, in every run |
| `SweeprNetwork.RunGovernedBy` | contracts/Governance/Sweepr.sol:73-77 | a run that raises the flag only on one chain never lets another chain mint or burn |
| `SweeprNetwork.BurnDomain` | contracts/Governance/Sweepr.sol:118-125 | a burn goes through exactly when flag, approver, balance and count of minted tokens allow it |
| `SweeprNetwork.BurnFromDomain` | contracts/Governance/Sweepr.sol:127-134 | the same on behalf of a holder, with the allowance |
| `SweeprNetwork.BurnNeverUnderflows` | contracts/Governance/Sweepr.sol:118-125 | with one governance chain the count always covers the balance: a burn goes through exactly when flag, approver and balance allow it, so subtracting from the count never underflows |
| `SweeprNetwork.BurnFromNeverUnderflows` | contracts/Governance/Sweepr.sol:127-134 | the same for burning on behalf of a holder, with the allowance |
| `SweeprNetwork.BalanceWithinCirculation` | contracts/Governance/Sweepr.sol:160-172 | no holder has more than the chain's supply, and no chain more than circulates |
| `SweeprNetwork.MintKeepsGlobalMaximum` | contracts/Governance/Sweepr.sol:63-71 | after a mint on the sole governance chain, all chains together respect MAX_SUPPLY exactly when the count of minted tokens does |
| `SweeprNetwork.MaximumExceeded` | contracts/Governance/Sweepr.sol:65 | the cap bounds neither all chains together nor any one: mint, bridge away, and both again leave twice the maximum on the destination |
| `SweeprNetwork.ReceiptExceedsMaximum` | contracts/Governance/Sweepr.sol:160-165 | a chain within the maximum is above it after a step exactly when the step is a receipt there of more than there was room for |
| `SweeprNetwork.CountBoundsEveryChain` | contracts/Governance/Sweepr.sol:63-71 | in every run with one governance chain, no chain is above the maximum while the count of minted tokens is not |
| `SweeprNetwork.MovedFlagBlocksBurn` | contracts/Governance/Sweepr.sol:73-77 | if the flag is moved, a burn covered by the balance can revert on the count |
| `SweeprNetwork.StepMoves` | contracts/Governance/Sweepr.sol:160-172 | the exact effect of every action on every account and on the supply of every chain |
| `SweeprNetwork.StepLeaves` | contracts/Governance/Sweepr.sol:73-77 | the exact effect of every action on every allowance and every governance flag, and that one chain at most changes |
| `SweeprNetwork.StepMessages` | contracts/Governance/Sweepr.sol:160-172 | a send adds one message, a receipt takes out the one it delivers, and nothing else touches them |
| `SweeprNetwork.BridgeMoves` | contracts/Governance/Sweepr.sol:160-172 | a transfer sent and received moves the amount from one account to one other, and nothing else on any chain |
| `SweeprNetwork.MintDomain` | contracts/Governance/Sweepr.sol:63-71 | exactly when a mint goes through |
| `SweeprNetwork.TransferDomains` | contracts/Governance/Sweepr.sol:141-158 | exactly when a transfer, one against an allowance, and an approval go through |
| `SweeprNetwork.SendDomain` | contracts/Governance/Sweepr.sol:167-172 | exactly when a transfer out goes through: the balance is enough, the supply always covers it |
| `SweeprNetwork.ReceiptDomain` | contracts/Governance/Sweepr.sol:160-165 | exactly when a delivery goes through, whatever MAX_SUPPLY is |
| `Sweepr.SweeprCoin.Mint` | contracts/Governance/Sweepr.sol:63-71 | mints under the flag and the local cap, and counts; a revert changes nothing |
| `Sweepr.SweeprCoin.Burn` | contracts/Governance/Sweepr.sol:118-125 | burns the caller's tokens under the flag, and uncounts them; a revert changes nothing |
| `Sweepr.SweeprCoin.BurnFrom` | contracts/Governance/Sweepr.sol:127-134 | burns a holder's tokens against an allowance, and uncounts them |
| `Sweepr.SweeprCoin.Transfer` | contracts/Governance/Sweepr.sol:141-151 | moves tokens unless the approver refuses |
| `Sweepr.SweeprCoin.TransferFrom` | contracts/Governance/Sweepr.sol:141-151 | moves tokens against an allowance unless the approver refuses |
| `Sweepr.SweeprCoin.DebitFrom` | contracts/Governance/Sweepr.sol:167-172 | burns on the way out without touching the count |
| `Sweepr.SweeprCoin.CreditTo` | contracts/Governance/Sweepr.sol:160-165 | mints on the way in without touching the count |
| `Sweepr.SweeprCoin.RemoveChain` | contracts/Governance/Sweepr.sol:108-116 | deletes the balancer and swap-removes the id; an index out of range reverts |
| `Erc20.BurnDomain` | contracts/Governance/Sweepr.sol:167-172 | in a balanced ledger a burn needs only the holder's balance |
| `Erc20.Domains` | contracts/Governance/Sweepr.sol:153-158 | exactly when each ledger operation goes through |
| `Erc20.AllowanceMoves` | contracts/Governance/Sweepr.sol:153-158 | what each operation leaves of every allowance: an unlimited one stays, and no other is touched |
| `ChainRegistry.AddExact` | contracts/Governance/Sweepr.sol:97-102 | an added id goes last, also when it is listed already, and takes the new balancer; nothing else changes |
| `ChainRegistry.RemoveExact` | contracts/Governance/Sweepr.sol:108-116 | the last id moves into the gap, all others keep their places, and only the removed chain loses its balancer |
| `ChainRegistry.AddRefinesMap` | contracts/Governance/Sweepr.sol:97-102 | adding a fresh chain is writing an entry of a finite map |
| `ChainRegistry.RemoveRefinesMap` | contracts/Governance/Sweepr.sol:108-116 | removing by swap and pop is deleting an entry of that map, for every index in range |
| `ChainRegistry.SwapRemove` | contracts/Governance/Sweepr.sol:112-113 | swap-remove takes out exactly one occurrence |
| `ChainRegistry.FreshStaysProper` | contracts/Governance/Sweepr.sol:97-116 | under any run with fresh ids and nonzero addresses the array lists each stored chain exactly once |
| `ChainRegistry.ReachesEachOnce` | contracts/Balancer/Balancer.sol:151-158 | a broadcast over such a registry reaches each registered chain exactly once, and nothing else |
| `ChainRegistry.StoredStaysListed` | contracts/Governance/Sweepr.sol:97-116 | under any calls at all, repeated ids included, a stored balancer belongs to a listed id |
| `ChainRegistry.RemovalKeepsReach` | contracts/Governance/Sweepr.sol:108-116 | a removal leaves an unreachable chain listed exactly when the removed id was listed more than once |
| `ChainRegistry.RepeatedChainIsLost` | contracts/Governance/Sweepr.sol:97-116 | an id added twice and removed once stays listed without a balancer |
| `ActionQueue.ModeDomain` | contracts/Balancer/Balancer.sol:70-80 | exactly when the mode can be computed, and which prices give which mode; a spread of at most 100% never underflows |
| `ActionQueue.QueueReflectsHistory` | contracts/Balancer/Balancer.sol:273-292 | in every run the slots are the additions since the queue was last emptied and every amount is the one last written |
| `ActionQueue.AddActionsOfHistory` | contracts/Balancer/Balancer.sol:253-265 | adding many after any history is that history followed by the additions one by one, in order; it reverts exactly when the lengths differ |
| `ActionQueue.PendingOfHistory` | contracts/Balancer/Balancer.sol:314-331 | with duplicates, overwritten amounts and stale slots, what is pending is each address added, once, in first-addition order, with its last written amount, skipping zeros |
| `ActionQueue.PendingExact` | contracts/Balancer/Balancer.sol:314-331 | a pending list names no address twice and pairs exactly the queued addresses that have an amount with that amount |
| `ActionQueue.FirstOccurrencesInOrder` | contracts/Balancer/Balancer.sol:314-331 | pending addresses come in the order of their first slots |
| `ActionQueue.ExecutionOfHistory` | contracts/Balancer/Balancer.sol:300-334 | after any history, an idle execution does nothing; any other goes through exactly when the mode fits or is forced and every call is accepted in its turn, makes exactly the calls asked for, and leaves the queue empty |
| `ActionQueue.EmptyingClearsEverything` | contracts/Balancer/Balancer.sol:340-350 | in every run a positive amount belongs to a slot below index, and emptying clears every slot and amount |
| `ActionQueue.Actions.AddActions` | contracts/Balancer/Balancer.sol:253-265 | adds pair by pair, or reverts when the lengths differ |
| `ActionQueue.Actions.Execute` | contracts/Balancer/Balancer.sol:300-334 | the deleting loop makes exactly the specified calls, and undoes everything when one is refused |
| `ActionQueue.Actions.Reset` | contracts/Balancer/Balancer.sol:340-350 | the deleting loop empties the queue |
| `RateBroadcast.Balancer.SendInterestRate` | contracts/Balancer/Balancer.sol:151-186 | the loop succeeds exactly when every listed chain is trusted and the fees of all messages fit in the ETH; then it sends one identical payload per entry in order and spends the fees, else nothing |
| `RateBroadcast.Balancer.SendNewInterestRate` | contracts/Balancer/Balancer.sol:140-149 | on success ETH in equals fees plus refund and the contract ends with none; on failure rate, ETH and messages are as before |
| `RateBroadcast.ProperBroadcast` | contracts/Balancer/Balancer.sol:151-186 | over a proper registry a broadcast goes through exactly when every chain of the finite map is trusted at its balancer and the ETH covers one fee for each, whatever the order |
| `RateBroadcast.LostChainStopsBroadcast` | contracts/Balancer/Balancer.sol:156-159 | a chain listed without a balancer stops every broadcast, unless the zero address is trusted on it |
| `RateBroadcast.RemovalKeepsTrust` | contracts/Governance/Sweepr.sol:108-116 | when all listed chains are trusted, they are after a removal exactly when the removed chain was listed once, or the zero address is trusted on it |
| `RateBroadcast.RemovalStopsBroadcast` | contracts/Governance/Sweepr.sol:108-116 | from such a registry, a broadcast after a removal goes through exactly when that holds and the ETH covers the fees |
| `RatePropagation.PacketsAreCopies` | contracts/Balancer/Balancer.sol:151-186 | the packets of a broadcast addressed to a chain carry one copy of the update for each time it is listed |
| `RatePropagation.DeliverApplies` | contracts/Balancer/Balancer.sol:188-206 | a remote takes the first message of its channel and applies it just as its coin would, or drops it when refused; nothing else changes |
| `RatePropagation.RefreshApplies` | contracts/Balancer/Balancer.sol:140-186 | a refresh at home is applied just as the coin would and puts into every channel what the packets to that chain carry |
| `RatePropagation.WriteApplies` | contracts/Balancer/Balancer.sol:103-138 | a direct write changes the coin it is made on as the coin would, and no other; changing the registry changes nothing else |
| `RatePropagation.RunInOrder` | contracts/Balancer/Balancer.sol:188-206 | in every run, direct writes to any coin included, what was sent to a remote is what it received followed by its channel, and every chain announces the update it applied last unless a direct write has replaced it since |
| `RatePropagation.AppliedIsPrefixOfSent` | contracts/Balancer/Balancer.sol:188-206 | with no refused receipt, the updates applied on a remote are a prefix of those sent to it |
| `RatePropagation.AppliedIsSubsequenceOfSent` | contracts/Balancer/Balancer.sol:188-206 | in every run, whatever was refused, the updates applied on a remote are a subsequence of those sent to it |
| `RatePropagation.SentIsSubsequence` | contracts/Balancer/Balancer.sol:151-186 | a chain never listed twice is sent a subsequence of the updates applied at home |
| `RatePropagation.SubsequenceIsListedOnce` | contracts/Balancer/Balancer.sol:151-186 | for broadcasts that all differ, what is sent to a chain is a subsequence of the home log if and only if no broadcast lists the chain twice |
| `RatePropagation.SentIsRepeatedLog` | contracts/Balancer/Balancer.sol:151-158 | a chain listed k times in every broadcast is sent every update k times over |
| `RatePropagation.FreshListsOnce` | contracts/Governance/Sweepr.sol:97-116 | in every run that adds only fresh chains to a proper registry, no broadcast lists a chain twice |
| `RatePropagation.RemoteFollowsHome` | contracts/Balancer/Balancer.sol:140-206 | in every such run a remote is sent, and applies, a subsequence of the updates applied at home |
| `RatePropagation.ListedTwiceIsSentTwice` | contracts/Balancer/Balancer.sol:151-186 | a run that lists a chain twice and broadcasts: the chain is sent two copies, no subsequence of the one update applied at home |
| `RatePropagation.DrainedRemoteAgrees` | contracts/Balancer/Balancer.sol:188-206 | a remote listed once throughout, with an empty channel and no refusal, has applied exactly the home log |
| `RatePropagation.LastUpdateWins` | contracts/Balancer/Balancer.sol:103-206 | from the last direct write to either coin on, a remote that has caught up with a later broadcast announces the same rate and period as home, whatever happened before |
| `SweepRates.RefreshExact` | contracts/Sweep/Sweep.sol:245-272 | exactly when a refresh goes through, the rate limits of -0.01% and 0.1% included, and that it makes what is in force current and announces the update |
| `SweepRates.SetExact` | contracts/Sweep/Sweep.sol:279-322 | exactly when a direct write of rates, starts or prices goes through, and what it writes |
| `SweepRates.PresentPrice` | contracts/Sweep/Sweep.sol:137-153 | the present price: that in force with simple interest for whole days |
| `SweepRates.RefreshKeepsPrice` | contracts/Sweep/Sweep.sol:245-272 | a refresh for a later period does not move the present target price or rate |
| `SweepRates.AnnouncedPrice` | contracts/Sweep/Sweep.sol:260-269 | a period starts at the present price with simple interest to the second |
| `SweepRates.RefreshAtOnceKeepsPrice` | contracts/Sweep/Sweep.sol:247-269 | for a period that starts at once, exactly when the target price stays: when the interest for the seconds since the last whole day falls within the fraction cut off |
| `SweepRates.RefreshAtOnceMovesPrice` | contracts/Sweep/Sweep.sol:247 | an input on which it moves |
| `SweepRates.RolloverContinues` | contracts/Sweep/Sweep.sol:260-269 | after a whole number of days the next period starts at the old price with simple interest |
| `BinarySearch.BandIsSpread` | scripts/sweep/binary_search.js:39-44 | the band is everything within the spread of the target price on either side, a tenth of a percent when none is set |
| `BinarySearch.BandIsMode` | contracts/Balancer/Balancer.sol:70-80 | for a spread that is set, above, below and in the band are the modes that invest, call and are idle |
| `BinarySearch.SearchStep` | scripts/sweep/binary_search.js:76-92 | each round probes the middle, rounded down, and ends there or goes on in the right half |
| `BinarySearch.FoundIsInBand` | scripts/sweep/binary_search.js:75-96 | whatever the curve, and wherever swaps revert, an amount returned is in the band and between the ends |
| `BinarySearch.FailsOnRevert` | scripts/sweep/binary_search.js:80 | the search ends on a revert exactly when one of its probes reverts and every probe before it goes through and misses |
| `BinarySearch.ZeroMinimumStopsSales` | contracts/AMM/UniswapAMM.sol:190-199 | with a minimum of 0 every sale is refused by the rate check, so the search ends at its first probe |
| `BinarySearch.ZeroMinimumStopsPurchases` | contracts/AMM/UniswapAMM.sol:168-182 | the same for purchases that no market maker serves |
| `BinarySearch.BracketInvariant` | scripts/sweep/binary_search.js:84-89 | in both orientations, after k probes without a hit the width is at most width / 2^k rounded up, every in-band amount inside is still inside, and while there is one no probe reverted |
| `BinarySearch.FailureLeavesFewCandidates` | scripts/sweep/binary_search.js:75-96 | a search that finds nothing had fewer in-band amounts than that, and none when it ended on a revert |
| `BinarySearch.GuaranteeIsExact` | scripts/sweep/binary_search.js:75-96 | n in-band amounts suffice for every monotone curve if and only if n is at least width / 2^rounds rounded up |
| `BinarySearch.FifteenRounds` | scripts/sweep/binary_search.js:14 | with 15 rounds one in-band amount suffices exactly up to a bound of 2^15, in both orientations |
| `BinarySearch.SteepEscapes` | scripts/sweep/binary_search.js:75-96 | a curve for each smaller number of in-band amounts on which the search fails |
| `BinarySearch.SolvableIsFound` | scripts/sweep/binary_search.js:53-68 | a monotone curve with enough in-band amounts is solved, by an amount in the band |
| `BinarySearch.Simulate` | scripts/sweep/binary_search.js:75-96 | the loop computes the search |
| `BinarySearch.Advise` | scripts/sweep/binary_search.js:53-70 | the script sells, buys or does nothing as the price is beyond the spread above, below, or within it; an amount it names brings the price into the band, and it names one for every curve that is monotone where swaps go through and has enough in-band amounts |
| `MarketMaker.SweepForIsFair` | contracts/MarketMaker/BalancerMarketMaker.sol:88 | s * buyPrice <= usd * 10^18 < (s + 1) * buyPrice, and s is no less than the pool's price would give |
| `MarketMaker.MintingAllowedExactly` | contracts/Sweep/Sweep.sol:168-173 | the coin may be minted exactly while its price is not below the target price less the spread, and when asking reverts |
| `MarketMaker.UserDataDropsPoolToken` | contracts/MarketMaker/BalancerMarketMaker.sol:122-128 | in every arrangement of the three assets the user data is the join request without the pool token |
| `MarketMaker.BorrowMoves` | contracts/Stabilizer/Stabilizer.sol:744-764 | a loan mints to the maker, charges the accrued fee to it for the treasury, and raises debt and supply by the amount, within both limits |
| `MarketMaker.BorrowDomain` | contracts/Stabilizer/Stabilizer.sol:744-764 | exactly when a loan is granted |
| `MarketMaker.FeeAccruesDaily` | contracts/Stabilizer/Stabilizer.sol:194-203 | no fee within a day of the last loan, and never less later |
| `MarketMaker.FeeExactly` | contracts/Stabilizer/Stabilizer.sol:194-203 | the fee is the yearly rate on the debt for the whole days since the last loan, rounded down |
| `MarketMaker.LeastSharesWithinWorth` | contracts/MarketMaker/BalancerMarketMaker.sol:130-132 | the worth is that of the USDX plus that of the SWEEP, each at its rate and rounded down; the least shares are that less the slippage, rounded down, and never more |
| `MarketMaker.AddLiquidityHandsOver` | contracts/MarketMaker/BalancerMarketMaker.sol:116-138 | a join goes through exactly when the maker holds both amounts and the vault takes the request, the user data and the least shares that lines 122-135 make |
| `MarketMaker.BuySweepMoves` | contracts/MarketMaker/BalancerMarketMaker.sol:87-97 | the exact effect of a purchase from the maker on every account, whichever parties coincide |
| `MarketMaker.BuySweepDomain` | contracts/MarketMaker/BalancerMarketMaker.sol:87-97 | a sale goes through exactly when the payer allows and holds the USDX, twice the SWEEP sold may be borrowed, the maker holds the accrued fee beforehand, and pool and equity check consent |
| `MarketMaker.BalancerMarketMaker.Borrow` | contracts/Stabilizer/Stabilizer.sol:744-764 | the loan as specified, or no change |
| `MarketMaker.BalancerMarketMaker.FillRequest` | contracts/MarketMaker/BalancerMarketMaker.sol:122-128 | the writes into the two arrays give the specified request and user data |
| `MarketMaker.BalancerMarketMaker.AddLiquidity` | contracts/MarketMaker/BalancerMarketMaker.sol:116-138 | hands the vault the specified request, user data and least shares, and joins; or no change |
| `MarketMaker.BalancerMarketMaker.BuySweep` | contracts/MarketMaker/BalancerMarketMaker.sol:87-97 | the purchase as specified, or no change |
| `MarketMaker.BalancerMarketMaker.FindAssetIndex` | contracts/MarketMaker/BalancerMarketMaker.sol:178-183 | the first position that holds the asset, or a revert exactly when there is none in range |
| `MarketMaker.BalancerMarketMaker.UpdatePool` | contracts/MarketMaker/BalancerMarketMaker.sol:185-193 | three different assets of a pool of three get three different positions |
| `BalancerAMM.RouteIsInvestMode` | contracts/AMM/BalancerAMM.sol:141 | the maker's price is the upper band, so the maker's route is taken exactly in INVEST mode |
| `BalancerAMM.RouteAllowsMinting` | contracts/AMM/BalancerAMM.sol:141 | on that route the coin's minting guard is always satisfied |
| `BalancerAMM.MintingUnlessCalling` | contracts/Sweep/Sweep.sol:168-173 | outside the mode that calls the coin may be minted |
| `BalancerAMM.ThroughMakerMoves` | contracts/AMM/BalancerAMM.sol:141-145 | buyer -usdx +s, vault +usdx +s, maker -fee, treasury +fee, supply and debt +2 s, for every account whichever parties coincide |
| `BalancerAMM.ThroughMakerAllows` | contracts/AMM/BalancerAMM.sol:141-145 | a purchase spends the buyer's approval and leaves none behind from AMM to maker or from maker to vault, but for an unlimited one; no other approval changes |
| `BalancerAMM.MakerPaysTheFee` | contracts/AMM/BalancerAMM.sol:141-145 | AMM and maker end with the USDX, and the AMM with the SWEEP, they had; the maker must hold the accrued fee and keeps its SWEEP exactly when no fee is due |
| `BalancerAMM.ThroughMakerDomain` | contracts/AMM/BalancerAMM.sol:141-145 | a purchase on this route goes through exactly when the buyer allows the AMM to take the USDX and the maker may sell |
| `BalancerAMM.MinimumMet` | contracts/AMM/BalancerAMM.sol:141-145 | the minimum is not checked on this route: it is met exactly when it costs, at the buy price, no more than what was paid |
| `BalancerAMM.FeePaidAndMinimumMissed` | contracts/AMM/BalancerAMM.sol:141-145 | a purchase on this route for which a fee is due, and which goes through below the buyer's minimum |
| `BalancerAMM.ThroughPoolMoves` | contracts/AMM/BalancerAMM.sol:147-148 | the effect of a swap in the pool on every account |
| `BalancerAMM.ThroughPoolDomain` | contracts/AMM/BalancerAMM.sol:147-148 | exactly when a swap in the pool goes through |
| `BalancerAMM.PurchaseDomain` | contracts/AMM/BalancerAMM.sol:136-150 | exactly when a purchase goes through on either route, and which route it takes |
| `BalancerAMM.OrderServed` | contracts/AMM/BalancerAMM.sol:141-145 | in a run, an order that buyer and maker allow counts with what it bought; any other changes nothing |
| `BalancerAMM.CheckRateDomain` | contracts/AMM/BalancerAMM.sol:200-206 | exactly when a rate is accepted: neither amount is zero, nothing overflows, and it is between 0.6 and 1.6 |
| `BalancerAMM.PurchaseIsPassedOn` | contracts/AMM/BalancerAMM.sol:136-150 | on either route the AMM keeps nothing, and the buyer pays the price and gets the amount returned, no less than the pool's price gives or than the minimum |
| `BalancerAMM.NewDebtIsCovered` | contracts/MarketMaker/BalancerMarketMaker.sol:87-97 | over any run of purchases at one buy price the new debt is twice what was sold, and the USD taken and SWEEP added cover it |
| `BalancerAMM.BalancerAMM.BuySweep` | contracts/AMM/BalancerAMM.sol:136-150 | takes the route and does the purchase as specified, or no change |
| `TokenDistributor.BuyMoves` | contracts/Governance/TokenDistributor.sol:57-77 | the exact effect of a purchase on every account and token, whichever coincide (the payment token may be SWEEPR) |
| `TokenDistributor.BuyDomain` | contracts/Governance/TokenDistributor.sol:57-77 | exactly when a purchase goes through, paid in SWEEPR or in another token |
| `TokenDistributor.AllowSaleExact` | contracts/Governance/TokenDistributor.sol:87-102 | a sale is allowed exactly when no address and no number is zero, and then has just the terms given |
| `TokenDistributor.BuySpendsApproval` | contracts/Governance/TokenDistributor.sol:57-77 | a payment lowers the buyer's approval by what was paid, and touches no other |
| `TokenDistributor.BurnTakesTheStock` | contracts/Governance/TokenDistributor.sol:114-120 | the stock can be burnt exactly on a governance chain whose count covers it, and then leaves supply and count whole, from no other account |
| `TokenDistributor.SplittingNeverGains` | contracts/Governance/TokenDistributor.sol:59-60 | paying in two parts yields no more, and at most one unit less |
| `TokenDistributor.ManyPaymentsNeverGain` | contracts/Governance/TokenDistributor.sol:59-60 | any number of payments yields no more than one payment, and less than one unit a payment below it |
| `TokenDistributor.RunHonoured` | contracts/Governance/TokenDistributor.sol:57-109 | in every run sold + saleAmount is what is authorised, sold * price <= paid * 10^18 < (sold + n) * price |
| `TokenDistributor.NeverOversold` | contracts/Governance/TokenDistributor.sol:57-109 | from deployment on, never more is sold than authorised or paid for |
| `TokenDistributor.Distributor.Buy` | contracts/Governance/TokenDistributor.sol:57-77 | the purchase as specified, or no change |
| `TokenDistributor.Distributor.Burn` | contracts/Governance/TokenDistributor.sol:114-120 | burns the stock through the coin, or no change |
| `DsrAsset.ScalingExact` | contracts/Assets/DsrAsset.sol:211-220 | each scaling gives the largest amount within the scaled one, and exactly when it goes through |
| `DsrAsset.GemCostExact` | contracts/Assets/DsrAsset.sol:164-168 | the price of the PSM is the worth in DAI plus the fee on it, rounded down |
| `DsrAsset.ExchangeYields` | contracts/Assets/DsrAsset.sol:160-173 | an exchange credits the USDX the DAI pays for less the fee, at just its price; a unit more would cost all the DAI or more |
| `DsrAsset.DivestYields` | contracts/Assets/DsrAsset.sol:141-176 | exactly what a divestment adds to the USDX and leaves in DAI |
| `DsrAsset.FiveSharesYieldFive` | contracts/Assets/DsrAsset.sol:141-176 | five shares yield five USDC and leave no DAI |
| `DsrAsset.NeverOverspends` | contracts/Assets/DsrAsset.sol:164-168 | for any balance and fee the purchase plus its fee fits in the DAI |
| `DsrAsset.OneMoreCostsEverything` | contracts/Assets/DsrAsset.sol:164-168 | one more unit of USDX would cost all the DAI or more |
| `DsrAsset.UsdxThereAndBack` | contracts/Assets/DsrAsset.sol:211-220 | USDX to DAI and back is the identity if and only if DAI has at least as many decimals |
| `DsrAsset.ScaleThereAndBack` | contracts/Assets/DsrAsset.sol:211-220 | DAI to USDX and back never gains and never reverts |
| `DsrAsset.SlippageCoversFee` | contracts/Assets/DsrAsset.sol:160-173 | the final check passes for every balance when the slippage covers the fee, and otherwise refuses every balance short by a unit of USDX, and a balance without rounding |
| `DsrAsset.FeeIsRefused` | contracts/Assets/DsrAsset.sol:160-173 | at a fee of 0.1% and no slippage, 1001 DAI are refused |
| `DsrAsset.ExchangeDecidedBySlippage` | contracts/Assets/DsrAsset.sol:160-173 | the exchange goes through exactly when there is DAI and the final check holds |
| `DsrAsset.WithdrawalBurnsEverything` | contracts/Assets/DsrAsset.sol:148-154 | with shares worth a DAI or more, a withdrawal goes through exactly when the request, its USDX units read as DAI units, is within the balance and nothing overflows, and then burns every share |
| `DsrAsset.WithdrawalMeetsRequest` | contracts/Assets/DsrAsset.sol:148-154 | a withdrawal that goes through burns the smaller of what the request is worth and the balance if and only if it is worth the balance or more |
| `DsrAsset.RequestReadAsDai` | contracts/Assets/DsrAsset.sol:150 | as read, a request counts for no more shares than it is worth |
| `DsrAsset.OneAndSixRequested` | contracts/Assets/DsrAsset.sol:150-151 | with USDC of 6 decimals and five shares, a request for one and one for six burn all five |
| `DsrAsset.DivestEmptiesThePosition` | contracts/Assets/DsrAsset.sol:141-176 | a divestment leaves no share, and never touches the DAI held before |
| `DsrAsset.Asset.Divest` | contracts/Assets/DsrAsset.sol:141-176 | the divestment as specified, or no change |
| `DsrAsset.Asset.BuyUsdx` | contracts/Assets/DsrAsset.sol:160-173 | the exchange as specified, or no change |
| `ERC20Asset.DivestOrdersExactly` | contracts/Assets/ERC20Asset.sol:126-144 | a divestment sells the largest amount within the balance that is worth no more than the request at the oracles, and insists on the value of just that less the slippage |
| `ERC20Asset.DivestProtectsSale` | contracts/Assets/ERC20Asset.sol:126-144 | clamped or not, the minimum is within the slippage of the worth of what is sold, but for a unit |
| `ERC20Asset.HundredRequested` | contracts/Assets/ERC20Asset.sol:126-144 | a request for 100 USDX of a token at 2000 sells a twentieth of one |
| `ERC20Asset.InvestOrdersExactly` | contracts/Assets/ERC20Asset.sol:106-124 | an investment spends the smaller of request and balance and insists on the value of just that less the slippage |
| `ERC20Asset.DivestNeverDemandsMore` | contracts/Assets/ERC20Asset.sol:126-144 | for any clamp and slippage the minimum never exceeds the requested USDX, and no more is sold than held |
| `ERC20Asset.DivestProtectsRequest` | contracts/Assets/ERC20Asset.sol:126-144 | while the balance covers the request the minimum is within the slippage of the request less the reciprocal rate |
| `ERC20Asset.DivestDomain` | contracts/Assets/ERC20Asset.sol:126-144 | a convertible request whose millionths fit in 256 bits is refused exactly when nothing is held, the slippage exceeds 100%, or the USDX price is zero or does not fit once scaled |
| `ERC20Asset.InvestNeverDemandsMore` | contracts/Assets/ERC20Asset.sol:106-124 | an investment spends the smaller of request and balance and insists on no more than the request is worth |
| `ERC20Asset.Asset.Invest` | contracts/Assets/ERC20Asset.sol:106-124 | the investment as specified, or no change |
| `ERC20Asset.Asset.Divest` | contracts/Assets/ERC20Asset.sol:126-144 | the divestment as specified, or no change |
| `Chainlink.PriceDomain` | contracts/Libraries/Chainlink.sol:53-65 | a price is read exactly when its round is answered and complete; a negative answer, and no other, is read as 2^255 or more |
| `Chainlink.NegativeNeverConverts` | contracts/Libraries/Chainlink.sol:92-130 | at a negative answer no positive amount of a token with decimals is converted, and no dollars: every conversion overflows |
| `Chainlink.TokenToTokenDomain` | contracts/Libraries/Chainlink.sol:92-104 | exactly when a token amount is converted |
| `Chainlink.TokenWorth` | contracts/Libraries/Chainlink.sol:92-104 | a token amount converts to the largest amount of the other token that is worth no more |
| `Chainlink.TokenThereAndBack` | contracts/Libraries/Chainlink.sol:92-104 | there and back goes through, and loses exactly the cut fraction, never more than the reciprocal rate rounded up |
| `Chainlink.TokenNeverGains` | contracts/Libraries/Chainlink.sol:92-104 | there and back never gains |
| `Chainlink.TokenMonotone` | contracts/Libraries/Chainlink.sol:92-104 | a larger amount never converts to less |
| `Chainlink.UsdDomain` | contracts/Libraries/Chainlink.sol:106-130 | exactly when tokens are converted to dollars, and dollars to tokens |
| `Chainlink.UsdWorth` | contracts/Libraries/Chainlink.sol:106-130 | each converts to the most that it is worth |
| `Chainlink.UsdThereAndBack` | contracts/Libraries/Chainlink.sol:106-130 | token to dollars and back loses exactly the cut fraction |
| `Chainlink.UsdNeverGains` | contracts/Libraries/Chainlink.sol:106-130 | dollars to token and back never gains and loses at most the reciprocal rate rounded up |
| `RMath.RdivupAdjoint` | contracts/Libraries/RMath.sol:19-32 | rdivup(x, y) <= z if and only if x <= rmul(z, y) |
| `RMath.RdivGreatest` | contracts/Libraries/RMath.sol:24-27 | z <= rdiv(x, y) if and only if z * y <= x * RAY |
| `RMath.RdivupExceedsRdiv` | contracts/Libraries/RMath.sol:24-32 | rounding up exceeds rounding down by one, or by nothing exactly when y divides x * RAY |
| `RMath.DivideThenMultiply` | contracts/Libraries/RMath.sol:19-32 | rmul(rdiv(x, y), y) <= x <= rmul(rdivup(x, y), y), with the exact loss, and neither reverts |
| `RMath.MultiplyThenDivideUp` | contracts/Libraries/RMath.sol:19-32 | rdivup(rmul(z, y), y) <= z, with equality for rates of at least one |
| `OvnMath.AddExact` | contracts/Libraries/OvnMath.sol:11-23 | addition and its reverse give the largest result within the scaled amount, and exactly when they go through |
| `OvnMath.SubExact` | contracts/Libraries/OvnMath.sol:25-37 | the same for subtraction, at and above 100% included |
| `OvnMath.ReverseAddUndoesAdd` | contracts/Libraries/OvnMath.sol:11-23 | the reverse gives x back, or x - 1 exactly when 10^6 does not divide x * b |
| `OvnMath.ReverseSubUndoesSub` | contracts/Libraries/OvnMath.sol:25-37 | the reverse never gains, loses at most 10^6 / (10^6 - b) rounded up, and nothing exactly when 10^6 divides x * b |
| `OvnMath.AddMonotone` | contracts/Libraries/OvnMath.sol:11-23 | monotone in the amount |
| `OvnMath.SubMonotone` | contracts/Libraries/OvnMath.sol:25-37 | monotone in the amount |

## Left out

- BalancerAMM.ThroughPoolMoves: takes the amount the pool pays as given; pool pricing (StableMath, ticks, bins) is not modelled.
- Retrying a refused rate update out of order: the base contract that stores it is not part of this model.
- Adapter parameters, gas and ABI encoding of messages; the packet type has one value.
- Voting checkpoints, permit, the governor and the timelock, which only forward to their library.
- The vesting approver: its verdict is a parameter of every movement, so the results hold for any approver; the moves of one purchase through the market maker share a verdict.
- Access control, reentrancy guards, pausing of stabilizers, events.
- `refreshInterestRate` of the balancer, `resetCalls`, `cancelCall`, `setLoanLimit`: forwarding calls.
- `DsrAsset._invest`, the other asset wrappers, the other AMMs and market makers: clamp-and-forward calls to outside protocols.
- MarketMaker.BalancerMarketMaker.BuySweep: takes the verdict of the equity check as given, because it rests on what the pool says its shares are worth.
- ERC20Asset.Asset.Invest: takes what the router pays as given, once it meets the minimum.
- ERC20Asset.Asset.Divest: takes what the router pays as given, once it meets the minimum.
- Computing the search bound and the impersonated network of the script.
