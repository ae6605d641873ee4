# gap-wallet core, modelled in Dafny

This project models the staking and list logic of the AirGap wallet: the two
delegation extensions and several small routines from the wallet's pages and
services.

- **Nomination-model delegation extension** (`SubstrateDelegation`, substrate.dfy):
  - which staking actions a nominator is offered: the delegate action by a fixed priority, gated by the existential deposit; the undelegate action; the withdraw action;
  - the bonded, locked and withdraw-ready display items;
  - the reward list, cut to five entries;
  - the expected-reward projection for a validator, and the validator's usage ratio;
  - the election alert;
  - the singleton `create`.
- **Single-delegate extension** (`TezosDelegation`, tezos.dfy):
  - one baker at most;
  - usage against 70% of the baker's capacity, and the status derived from it;
  - delegate and undelegate availability;
  - the payout delay `68 * 7 + cycles || 0` hours;
  - the next payout moment and the average return per cycle;
  - the two payout widgets installed in the delegator's display list.
- **Coin info page** (`CoinInfo`, coin_info.dfy):
  - the merge of cached and fetched transactions by hash, the fetched record winning, newest first;
  - paging ten at a time and the end-of-list flag;
  - the loader: a refresh that ends within three seconds of its start leaves the loader to a timer for the rest of that time (a timer left over from an earlier refresh still hides the loader when it fires);
  - the three mutually exclusive migration and empty-list screens.
- **Historical balances** (`MarketData`, market_data.dfy): a wallet's balance at each price timestamp, reconstructed backwards from the current balance.
- **Operations provider** (`Operations`, operations.dfy):
  - the actions offered per coin;
  - the per-address delegation-status cache, with its refresh-or-hit rule.
- **Beacon service** (`Beacon`, beacon.dfy): the list of requests forwarded to the vault, and how a signed message returning from the vault answers and removes them.
- **Transaction QR page** (`TransactionQr`, transaction_qr.dfy): the QR size flag, and the summary of several same-protocol transactions (total amount skipping NaN amounts, total fees).

`Common` (common.dfy) holds the shared types:
- `Option` and `Result`;
- `Quotient`, an exact value or the NaN/Infinity a BigNumber division by zero gives;
- abstract display items: an id, an icon, a text, and a label key.

**How the environment is modelled**
- Network queries, the chain's answers, the settings cache and the widget replacement of the base class are function parameters.
- "Now" is a parameter, in milliseconds.
- Amounts are integers in base units, or reals where the original divides; quotients are exact (see "## Left out" for the rounding this drops).
- A JavaScript `TypeError` that rejects a promise is an `Err`.

Where the original mutates state, the model is a class:
- `OperationsProvider`, `BeaconService`, `CoinInfoPage`, `TransactionQrPage`, `TezosDelegationExtensions`, and the delegator details it updates in place;
- the static instance of the substrate extension;
- the price-timestamp array that `walletBalancesAtTimestamps` reverses in place.

Each method is proved against a specification function, and the properties are lemmas about those functions.

Two quirks of the source are modelled exactly as written:
- **Signature cut.** The signature is cut with `substr(length - 128)`. A signed message shorter than 128 characters is therefore cut from its end a second time (`Beacon.ShortSignedMessageIsCutTwice`).
- **Operation payload test.** An operation payload first goes through `startsWith(payload)`, which compares against the string `"[object Object]"`, and only then through the check on its `binaryTransaction`.

## Model

| member | source | states |
|---|---|---|
| SubstrateDelegation.SubstrateDelegationExtensions.constructor | src/app/extensions/delegation/SubstrateDelegationExtensions.ts:83-85 | the delegatee labels are the two substrate translation keys, and multiple delegations are supported |
| SubstrateDelegation.ExtensionInstance.Create | src/app/extensions/delegation/SubstrateDelegationExtensions.ts:57-77 | the first call builds a fresh extension and stores it; every later call returns that same stored object |
| SubstrateDelegation.PriorityOf | src/app/extensions/delegation/SubstrateDelegationExtensions.ts:295-299 | the rank is the kind's first position in the priority list, and it equals the list length exactly when the kind is not listed |
| SubstrateDelegation.SelectByPriority | src/app/extensions/delegation/SubstrateDelegationExtensions.ts:295-299 | nothing is chosen iff no available action has a listed kind; otherwise the chosen action is available, listed, and ranked no lower than any other listed available action |
| SubstrateDelegation.SelectionIsFirstBest | src/app/extensions/delegation/SubstrateDelegationExtensions.ts:295-299 | among equally ranked actions the first in list order is chosen: every listed action before the chosen one ranks strictly lower |
| SubstrateDelegation.NominateOutranksBondExtra | src/app/extensions/delegation/SubstrateDelegationExtensions.ts:36-42 | with BOND_EXTRA and NOMINATE available, NOMINATE is the delegate action |
| SubstrateDelegation.ExtraActionsAreWithdrawals | src/app/extensions/delegation/SubstrateDelegationExtensions.ts:429-436 | among the supported actions, the extra (neither delegate nor undelegate) ones are exactly the WITHDRAW_UNBONDED actions, in source order |
| SubstrateDelegation.DelegateDescription | src/app/extensions/delegation/SubstrateDelegationExtensions.ts:354-388 | a description exists exactly for the four delegate kinds |
| SubstrateDelegation.CreateDelegateAction | src/app/extensions/delegation/SubstrateDelegationExtensions.ts:288-352 | an action is built iff a delegate kind is available and the maximum strictly exceeds the existential deposit; it has the top-priority kind, the delegate label, and a form value of the maximum when the action takes a value and the active bond otherwise; reading the active bond without staking details fails |
| SubstrateDelegation.DepositEqualToMaximumBlocksDelegation | src/app/extensions/delegation/SubstrateDelegationExtensions.ts:301-311 | a maximum equal to the existential deposit gives no delegate action |
| SubstrateDelegation.UndelegateLabel | src/app/extensions/delegation/SubstrateDelegationExtensions.ts:418-427 | a label exists exactly for CANCEL_NOMINATION and UNBOND |
| SubstrateDelegation.CreateUndelegateAction | src/app/extensions/delegation/SubstrateDelegationExtensions.ts:390-416 | an action exists iff staking details exist and an undelegate kind is available; it is UNBOND exactly when no CANCEL_NOMINATION is available, carries its kind's label, and its form value is the active bond |
| SubstrateDelegation.CreateExtraAction | src/app/extensions/delegation/SubstrateDelegationExtensions.ts:437-469 | the action keeps its kind and has no form; only WITHDRAW_UNBONDED gets a label |
| SubstrateDelegation.CreateDelegatorExtraActions | src/app/extensions/delegation/SubstrateDelegationExtensions.ts:429-472 | one built action per extra available action, in order |
| SubstrateDelegation.NextUnlocking | src/app/extensions/delegation/SubstrateDelegationExtensions.ts:549 | the lock shown is a lock of the list with the earliest unlock, and the first such lock in list order (what a stable ascending sort puts first) |
| SubstrateDelegation.CreateBondedDetails | src/app/extensions/delegation/SubstrateDelegationExtensions.ts:528-580 | a fully active bond gives one bonded or delegated item; otherwise a non-empty lock list gives exactly two items without ids: the amount of `NextUnlocking` with the people icon and the locked label, then its unlock date from now with the alarm icon and the withdraw-ready label; otherwise an unlocked amount gives one withdraw-ready item; otherwise nothing |
| SubstrateDelegation.BondedDetailsExclusive | src/app/extensions/delegation/SubstrateDelegationExtensions.ts:535-579 | at most two items; a bonded or delegated item stands alone; a locked item appears only when total and active differ, and then with exactly one other |
| SubstrateDelegation.CreateNominationDetails | src/app/extensions/delegation/SubstrateDelegationExtensions.ts:582-599 | one item at the next era, labelled "becomes active" for an inactive nomination and "next payout" otherwise |
| SubstrateDelegation.CreateDelegatorDisplayDetails | src/app/extensions/delegation/SubstrateDelegationExtensions.ts:474-486 | nothing without staking details; otherwise the bonded items, followed by the nomination item when there are delegatees |
| SubstrateDelegation.GetExtraNominatorDetails | src/app/extensions/delegation/SubstrateDelegationExtensions.ts:257-286 | over the supported actions only, it succeeds iff the delegate action can be built; the result carries the nominator record it was given; the main actions are the delegate action followed by the extra actions, and the secondary actions are the undelegate action or nothing |
| SubstrateDelegation.ExtraActionKinds | src/app/extensions/delegation/SubstrateDelegationExtensions.ts:262-283 | the extra actions built from the supported actions carry exactly the raw list's WITHDRAW_UNBONDED kinds, in source order |
| SubstrateDelegation.MainActionKinds | src/app/extensions/delegation/SubstrateDelegationExtensions.ts:282-283 | the main actions' kinds are the delegate kind, when one is built, followed by the raw WITHDRAW_UNBONDED kinds in source order |
| SubstrateDelegation.SecondaryActionsShape | src/app/extensions/delegation/SubstrateDelegationExtensions.ts:283 | at most one secondary action, and it is of an undelegate kind |
| SubstrateDelegation.CreateDelegatorDisplayRewards | src/app/extensions/delegation/SubstrateDelegationExtensions.ts:504-526 | no list without delegatees; with delegatees, it fails exactly when staking details are absent and gives no list exactly when there are no rewards; otherwise the first min(5, n) rewards, in order |
| SubstrateDelegation.ExpectedReward | src/app/extensions/delegation/SubstrateDelegationExtensions.ts:220-229 | the value times (total stake + stake) equals (1 - commission) * last era reward * stake; it is NaN or Infinity when the total stake is absent or the denominator is zero |
| SubstrateDelegation.ExpectedRewardExample | src/app/extensions/delegation/SubstrateDelegationExtensions.ts:220-229 | 10% commission, a reward of 1000, and 1000 staked beside 9000 expect 90 |
| SubstrateDelegation.ExpectedRewardBounded | src/app/extensions/delegation/SubstrateDelegationExtensions.ts:220-229 | with a positive stake and a commission in [0, 1], the expectation is finite and between 0 and the reward net of commission |
| SubstrateDelegation.FindDelegateAction | src/app/extensions/delegation/SubstrateDelegationExtensions.ts:212-214 | found iff some main action has a delegate kind; what is found is the first main action with a delegate kind |
| SubstrateDelegation.CreateDelegateeDisplayDetails | src/app/extensions/delegation/SubstrateDelegationExtensions.ts:193-240 | the commission item always comes first ("-" when it is unknown); the expected-reward item is added exactly when the four-part gate holds, with the value of the reward formula at the nominator's total bond |
| SubstrateDelegation.ValidatorUsage | src/app/extensions/delegation/SubstrateDelegationExtensions.ts:156-169 | usage times total stake equals own stash (absent values read as 0); it is not finite exactly when the total is zero |
| SubstrateDelegation.ValidatorResult | src/app/extensions/delegation/SubstrateDelegationExtensions.ts:156-171 | the validator's record spread into its result; an absent name reads as "", an absent or empty status as the unknown-status key; usage from `ValidatorUsage` and display details from `CreateDelegateeDisplayDetails` |
| SubstrateDelegation.GetExtraValidatorsDetails | src/app/extensions/delegation/SubstrateDelegationExtensions.ts:146-174 | succeeds iff every validator's fetch succeeds, giving one result per requested validator, in order |
| SubstrateDelegation.FetchAll | src/app/extensions/delegation/SubstrateDelegationExtensions.ts:146-174 | the `Promise.all` over the validators: succeeds iff every fetch succeeds, and then the i-th result is built from the i-th requested validator's record |
| SubstrateDelegation.GetAlerts | src/app/extensions/delegation/SubstrateDelegationExtensions.ts:176-191 | exactly one alert while the election is open, none while it is closed |
| SubstrateDelegation.GetExtraDelegationDetailsFromAddress | src/app/extensions/delegation/SubstrateDelegationExtensions.ts:97-116 | succeeds exactly when the nominator, maximum-delegation, existential-deposit, nominator-detail, every validator and election fetch succeed; then one entry whose delegator is the nominator's details, whose i-th delegatee is the result for the i-th requested validator with the nominator's staking details and the delegator's main actions, and whose alerts are those of the election status |
| SubstrateDelegation.GetRewardDisplayDetails | src/app/extensions/delegation/SubstrateDelegationExtensions.ts:118-126 | a failed nominator fetch fails; otherwise the nominator's reward list |
| TezosDelegation.BakerUsage | src/app/extensions/delegation/TezosDelegationExtensions.ts:57-59 | the total is 70% of the capacity; usage times total equals the staking balance; the usage is finite exactly when the capacity is positive |
| TezosDelegation.BakerStatus | src/app/extensions/delegation/TezosDelegationExtensions.ts:61-68 | the three statuses partition the cases: accepts iff active with usage below 1, full iff active otherwise, deactivated iff inactive |
| TezosDelegation.AcceptsIffBelowCap | src/app/extensions/delegation/TezosDelegationExtensions.ts:57-68 | a baker accepts delegations iff it is active and its staking balance is below 70% of its capacity |
| TezosDelegation.OverCapacityExample | src/app/extensions/delegation/TezosDelegationExtensions.ts:57-68 | capacity 10000 and staking balance 8000 give a total of 7000, usage 8/7, and "Reached Full Capacity" |
| TezosDelegation.CreateDelegateeDisplayDetails | src/app/extensions/delegation/TezosDelegationExtensions.ts:150-167 | fee and payout-schedule items, "Unknown" for a baker that is not configured; for a configured baker the fee as a percentage and the payout schedule's text; a configured baker without a payout schedule fails |
| TezosDelegation.BakerDetails | src/app/extensions/delegation/TezosDelegationExtensions.ts:53-82 | the record of one baker: fails exactly when its display details cannot be built; name from the configuration only for the configured baker, else "unknown"; status and usage from the baker's info; the display details of `CreateDelegateeDisplayDetails`; the configuration as extra details only for the configured baker |
| TezosDelegation.GetExtraDelegateesDetails | src/app/extensions/delegation/TezosDelegationExtensions.ts:44-86 | more than one baker is rejected; none (or an empty address) gives nothing; a failed info fetch fails; otherwise it succeeds exactly when the display details can be built (a configured baker without a payout schedule fails), giving one entry whose usage and status come from the baker's info, with the configuration's name, display details and configuration only for the configured baker |
| TezosDelegation.FindKind | src/app/extensions/delegation/TezosDelegationExtensions.ts:118 | found iff an available action has the kind, and what is found is such an action |
| TezosDelegation.CreateDelegateAction | src/app/extensions/delegation/TezosDelegationExtensions.ts:117-132 | available iff a delegate action is offered; then it takes a "delegate" parameter, otherwise it reads "Can't delegate" |
| TezosDelegation.CreateUndelegateAction | src/app/extensions/delegation/TezosDelegationExtensions.ts:134-148 | available iff an undelegate action is offered; otherwise it reads "Can't undelegate" |
| TezosDelegation.GetExtraDelegatorDetailsFromAddress | src/app/extensions/delegation/TezosDelegationExtensions.ts:88-102 | succeeds iff both fetches succeed, combining the two actions with the delegation info |
| TezosDelegation.PayoutDelayHours | src/app/extensions/delegation/TezosDelegationExtensions.ts:217-219 | 68 * 7 + cycles hours when the baker publishes payout cycles, and 0 when it does not (the NaN sum falls back to 0) |
| TezosDelegation.AddPayoutDelayToMoment | src/app/extensions/delegation/TezosDelegationExtensions.ts:217-219 | the moment moves by exactly the payout delay in milliseconds |
| TezosDelegation.FirstDelegatedCycle | src/app/extensions/delegation/TezosDelegationExtensions.ts:201-205 | none iff no cycle has a delegated balance; otherwise the first cycle, in list order, with one |
| TezosDelegation.GetNextPayoutMoment | src/app/extensions/delegation/TezosDelegationExtensions.ts:195-215 | not delegating: now plus the delay; delegating: the later of the first delegated cycle's payout (or now plus the delay) and the delegation date plus the delay |
| TezosDelegation.NoDelegatedCycleWaitsFullDelay | src/app/extensions/delegation/TezosDelegationExtensions.ts:201-212 | with no delegated cycle yet, the payout is one delay after the later of now and the delegation date |
| TezosDelegation.CycleReturn | src/app/extensions/delegation/TezosDelegationExtensions.ts:183 | a cycle's return is finite exactly when its staking balance is non-zero |
| TezosDelegation.CycleReturnIsRate | src/app/extensions/delegation/TezosDelegationExtensions.ts:183 | a finite cycle return is the cycle's rewards plus fees over its staking balance |
| TezosDelegation.CycleReturnTimesStake | src/app/extensions/delegation/TezosDelegationExtensions.ts:183 | a finite cycle return times the staking balance is the cycle's rewards plus fees |
| TezosDelegation.SumReturns | src/app/extensions/delegation/TezosDelegationExtensions.ts:182-184 | the sum of the returns is finite exactly when every staking balance is non-zero |
| TezosDelegation.SumReturnsIsRateSum | src/app/extensions/delegation/TezosDelegationExtensions.ts:182-184 | a finite sum of the returns equals the sum, from first to last cycle, of each cycle's rewards plus fees over its staking balance |
| TezosDelegation.AverageReturnPerCycle | src/app/extensions/delegation/TezosDelegationExtensions.ts:182-187 | no estimate iff the history is empty (the `reduce` throws); otherwise finite exactly when every staking balance is non-zero, and then it is the mean of the per-cycle rates (rewards plus fees over staking balance) times the delegator's balance |
| TezosDelegation.AverageTimesCycles | src/app/extensions/delegation/TezosDelegationExtensions.ts:182-187 | a finite estimate times the number of cycles is the sum of the cycle rates times the delegator's balance |
| TezosDelegation.MeanReturn | src/app/extensions/delegation/TezosDelegationExtensions.ts:182-185 | the mean times the number of cycles equals the sum of the returns |
| TezosDelegation.SumOfEqualReturns | src/app/extensions/delegation/TezosDelegationExtensions.ts:182-184 | n equal returns q sum to n * q |
| TezosDelegation.AverageOfEqualReturns | src/app/extensions/delegation/TezosDelegationExtensions.ts:182-187 | when every cycle returned q, the estimate is q times the balance |
| TezosDelegation.MeanOfEqualReturns | src/app/extensions/delegation/TezosDelegationExtensions.ts:185 | a sum of n * q over n cycles has mean q |
| TezosDelegation.ProjectPayouts | src/app/extensions/delegation/TezosDelegationExtensions.ts:169-193 | a failed reward fetch or a missing baker configuration leaves both values null; otherwise the next payout is `GetNextPayoutMoment` with the configuration's payout cycles, and the estimate is `AverageReturnPerCycle` of the history and the balance (null exactly for an empty history) |
| TezosDelegation.NextPayoutWidget | src/app/extensions/delegation/TezosDelegationExtensions.ts:229-238 | a widget iff there is a next payout, with the next-payout id and its relative time, described as "Next Payout" when delegating and "First Payout" otherwise |
| TezosDelegation.EstimatedReturnWidget | src/app/extensions/delegation/TezosDelegationExtensions.ts:240-250 | a widget iff there is an estimate, with the estimated-return id and description; its text is the amount, or NaN for a non-finite estimate |
| TezosDelegation.TezosDelegationExtensions.constructor | src/app/extensions/delegation/TezosDelegationExtensions.ts:31-32 | the delegatee is the configured baker's address, and its label is "Baker" |
| TezosDelegation.TezosDelegationExtensions.Create | src/app/extensions/delegation/TezosDelegationExtensions.ts:22-29 | fails iff no baker is configured; otherwise a fresh extension for the first configured baker |
| TezosDelegation.TezosDelegationExtensions.AddPayoutWidgets | src/app/extensions/delegation/TezosDelegationExtensions.ts:221-254 | the display list (created when absent) has the estimated-return widget and then the next-payout widget replaced by id |
| TezosDelegation.TezosDelegationExtensions.ShowFuturePayoutDetails | src/app/extensions/delegation/TezosDelegationExtensions.ts:169-193 | the display list is updated with the widgets of the payout projection |
| TezosDelegation.TezosDelegationExtensions.OnDetailsChange | src/app/extensions/delegation/TezosDelegationExtensions.ts:104-115 | the projection runs iff exactly one baker is shown; otherwise the display list is unchanged |
| CoinInfo.Put | src/pages/coin-info/coin-info.ts:217-219 | `Map.set` by hash: an existing hash keeps its place and takes the new record, a new hash goes last, and hashes stay distinct |
| CoinInfo.EntriesSnoc | src/pages/coin-info/coin-info.ts:213-219 | the map of a list extended by one record is the previous map with that record set |
| CoinInfo.Latest | src/pages/coin-info/coin-info.ts:213-219 | the reference definition: the last record with a given hash, absent iff no record has it |
| CoinInfo.EntriesHashes | src/pages/coin-info/coin-info.ts:213-219 | the map's keys are exactly the hashes of the records set into it |
| CoinInfo.EntriesAreLatest | src/pages/coin-info/coin-info.ts:213-219 | each value in the map is the last record set with its hash |
| CoinInfo.Insert | src/pages/coin-info/coin-info.ts:221 | inserting adds exactly the one record |
| CoinInfo.InsertSorted | src/pages/coin-info/coin-info.ts:221 | inserting into a newest-first list keeps it newest first |
| CoinInfo.SortNewestFirst | src/pages/coin-info/coin-info.ts:221 | the result is a permutation of the input, newest first |
| CoinInfo.SortKeepsSortedList | src/pages/coin-info/coin-info.ts:221 | a list already newest first is left exactly as it is |
| CoinInfo.MergedIsLatestPerHash | src/pages/coin-info/coin-info.ts:209-222 | the merged list is newest first, holds exactly the hashes of either list, and shows for each the last record with that hash |
| CoinInfo.LatestPrefersLaterPart | src/pages/coin-info/coin-info.ts:217-219 | a hash present in the later list takes its record from there |
| CoinInfo.FetchedRecordWins | src/pages/coin-info/coin-info.ts:217-219 | a hash present in the fetched list is shown with the fetched record, whatever was cached |
| CoinInfo.MergedHasDistinctHashes | src/pages/coin-info/coin-info.ts:213-221 | no two merged records share a hash |
| CoinInfo.PutAll | src/pages/coin-info/coin-info.ts:213-219 | setting each record in turn on a map that holds the entries of the earlier records gives the entries of all of them, in the map's insertion order |
| CoinInfo.MergeTransactions | src/pages/coin-info/coin-info.ts:209-222 | the map filled record by record and then sorted is the merge; without a previous list, the fetched list is returned as it is |
| CoinInfo.NextOffset | src/pages/coin-info/coin-info.ts:171 | the next offset is the next multiple of ten strictly above the current offset |
| CoinInfo.CoinInfoPage.constructor | src/pages/coin-info/coin-info.ts:40-49 | no transactions, offset 0, infinite scrolling off, no loader and no migrated tokens |
| CoinInfo.CoinInfoPage.ScreensAreExclusive | src/pages/coin-info/coin-info.ts:87-105 | the migration banner and the migration screen never show together, nor the migration screen and the empty-list screen; off the `ae` chain the empty-list screen shows iff there are no transactions |
| CoinInfo.CoinInfoPage.SetRefreshing | src/pages/coin-info/coin-info.ts:23-38 | a starting refresh records its start, shows the loader and leaves any pending timer as it was; an ending one hides the loader at once only when more than 3 s have passed since its start, otherwise it sets a timer for the rest of the 3 s |
| CoinInfo.CoinInfoPage.HideLoaderTimeout | src/pages/coin-info/coin-info.ts:32-34 | a pending timer hides the loader and clears itself, and changes nothing else; the loader it hides may belong to a later refresh |
| CoinInfo.CoinInfoPage.LoadInitialTransactions | src/pages/coin-info/coin-info.ts:186-202 | the first page is merged into the page's list (or into the cached list when the page's list is empty); the offset becomes the list length, and infinite scrolling is on; the refresh ends: with no refresh running the loader is untouched, after three seconds the loader is hidden, within three seconds a timer is left for the rest; the migrated-token balance and the refresh start are unchanged |
| CoinInfo.CoinInfoPage.DoInfinite | src/pages/coin-info/coin-info.ts:165-184 | when enabled, the page at the next offset is merged in and the offset becomes the list length; scrolling stays on iff the page was full; the refresh start, the loader timer and the migrated-token balance are unchanged; when disabled, nothing changes |
| CoinInfo.CoinInfoPage.DoRefresh | src/pages/coin-info/coin-info.ts:141-163 | on `ae` with the list disabled, the list is cleared and infinite scrolling is untouched; otherwise the initial load runs; the refresh ends with the migrated-token balance unchanged; its start is kept from a running refresh or set now; after three seconds from that start the loader is hidden; otherwise it stays as it was, or is shown when this call started the refresh, and a timer is left for the rest |
| MarketData.Contribution | src/app/services/market-data/market-data.service.ts:96-104 | a transaction to its own sender contributes 0, a received one +amount, a sent one -(amount + fee) |
| MarketData.Windows | src/app/services/market-data/market-data.service.ts:81-85 | one window per newest-first timestamp: the relevant transactions strictly between it and the next older non-zero timestamp |
| MarketData.BalancesAsWritten | src/app/services/market-data/market-data.service.ts:60-117 | the walk as written gives one balance per timestamp |
| MarketData.WalkAsWrittenClosedForm | src/app/services/market-data/market-data.service.ts:87-113 | as written, position k of a walk started at i reports the balance less the windows i to i + k inclusive |
| MarketData.AsWrittenUndoesOneWindowTooMany | src/app/services/market-data/market-data.service.ts:94-113 | as written, the k-th newest timestamp reports the current balance less windows 0 to k, one window more than happened after it |
| MarketData.AsWrittenMisreportsNewest | src/app/services/market-data/market-data.service.ts:77-116 | concrete input on which the code as written reports 90 at the newest timestamp, after a payment of 10 had raised the balance to 100 |
| MarketData.BalancesCorrected | src/app/services/market-data/market-data.service.ts:60-117 | one record per timestamp, in the caller's order, with that timestamp in seconds and the wallet's market symbol |
| MarketData.WalkCorrectedClosedForm | src/app/services/market-data/market-data.service.ts:77-116 | corrected, position k of a walk started at i reports the balance less windows i to i + k - 1 |
| MarketData.CorrectedUndoesLaterWindows | src/app/services/market-data/market-data.service.ts:77-116 | corrected, the k-th newest timestamp reports the current balance less exactly the windows newer than it, and the newest reports the current balance |
| MarketData.CorrectedBalanceAtTimestamp | src/app/services/market-data/market-data.service.ts:77-116 | corrected, the record for the j-th timestamp (oldest first) carries the current balance, less the windows of every later timestamp, shifted by the wallet's decimals |
| MarketData.CorrectedReportsNewest | src/app/services/market-data/market-data.service.ts:77-116 | on the same input, the corrected walk reports 100 at the newest timestamp and 90 at the older one |
| MarketData.WalletBalancesAtTimestamps | src/app/services/market-data/market-data.service.ts:60-117 | the service returns the corrected balances and leaves the caller's timestamp array reversed |
| MarketData.MapNewestFirst | src/app/services/market-data/market-data.service.ts:79-115 | the loop carrying the running balance reports, at each position, the corrected walk's balance |
| MarketData.ReverseInPlace | src/app/services/market-data/market-data.service.ts:78 | the array afterwards holds its old contents reversed |
| Operations.GetActionsForCoin | src/providers/operations/operations.ts:187-197 | delegate iff "xtz" or "xtz-kt", add-token iff "eth", import-account iff "xtz", import-account before delegate, no action for any other coin, no action twice |
| Operations.AfterQuery | src/providers/operations/operations.ts:38-47 | a successful answer is cached for the address; a failed one changes nothing; other addresses are untouched |
| Operations.QueryFillsCache | src/providers/operations/operations.ts:38-47 | after a successful query, a plain lookup of that address is a cache hit returning the queried value |
| Operations.Refreshed | src/providers/operations/operations.ts:54-58 | the same addresses stay cached; each takes its check's answer where the check succeeds, and keeps its old value where the check fails |
| Operations.RefreshIsIdempotent | src/providers/operations/operations.ts:54-58 | refreshing twice against the same answers equals refreshing once |
| Operations.OperationsProvider.constructor | src/providers/operations/operations.ts:30 | the cache starts empty |
| Operations.OperationsProvider.SetDelegationStatusOfAddress | src/providers/operations/operations.ts:34-36 | the cache maps the address to the new status, and nothing else changes |
| Operations.OperationsProvider.GetDelegationStatusOfAddress | src/providers/operations/operations.ts:38-47 | a cached address without refresh answers from the cache without a query; otherwise the chain is queried once, and the cache is updated as `AfterQuery` says |
| Operations.OperationsProvider.RefreshAllDelegationStatuses | src/providers/operations/operations.ts:54-58 | the cache becomes `Refreshed` of the old cache; the query log keeps its earlier entries and gains exactly as many queries as there were cached addresses, and these are exactly the cached addresses, each queried once |
| Beacon.AsString | src/app/services/beacon/beacon.service.ts:71 | a string payload is compared as itself, a record as "[object Object]" |
| Beacon.BinaryTransactionString | src/app/services/beacon/beacon.service.ts:80 | the operation's bytes when present; "undefined" for a string payload or missing bytes |
| Beacon.Substr | src/app/services/beacon/beacon.service.ts:75 | JavaScript `substr(start)`: a suffix from start, a negative start counting from the end and clamped at 0, empty past the end |
| Beacon.SignatureIsLastCharacters | src/app/services/beacon/beacon.service.ts:75 | a signed message of at least 128 characters ends with its signature, which is its last 128 characters |
| Beacon.ShortSignedMessageIsCutTwice | src/app/services/beacon/beacon.service.ts:75 | a message of n characters, 64 <= n < 128, yields only its last 128 - n characters, those from index 2n - 128 on |
| Beacon.Answer | src/app/services/beacon/beacon.service.ts:62-93 | a response always carries the request's id |
| Beacon.AnswerCases | src/app/services/beacon/beacon.service.ts:62-93 | an equal payload is a broadcast response with the hash; otherwise a payload whose string form starts the message is a sign-payload response with the message's signature; otherwise a payload whose transaction bytes start the message is an operation response with the hash; a sign-payload response means the message starts with the payload; the other responses carry the hash; no response iff none of the three tests matches |
| Beacon.OperationMatchesByBinaryTransaction | src/app/services/beacon/beacon.service.ts:80-88 | an operation whose bytes begin the message gets an operation response with the hash, unless the message begins with "[object Object]" |
| Beacon.UnmatchedAreUnanswered | src/app/services/beacon/beacon.service.ts:61-94 | every kept request is one of the requests, and no test matched it |
| Beacon.EachRequestAnsweredOnceOrKept | src/app/services/beacon/beacon.service.ts:61-94 | kept requests and responses together number exactly the requests |
| Beacon.UnansweredRequestIsKept | src/app/services/beacon/beacon.service.ts:89-93 | a request no test matches stays pending |
| Beacon.ResponsesAnswerRequests | src/app/services/beacon/beacon.service.ts:62-88 | every response is the answer to some pending request |
| Beacon.SecondDeliveryAnswersNothing | src/app/services/beacon/beacon.service.ts:61-94 | the same signed message delivered again answers nothing more |
| Beacon.UnmatchedDistributes | src/app/services/beacon/beacon.service.ts:55-61 | requests added later are kept or answered independently of earlier ones (kept part) |
| Beacon.ResponsesDistribute | src/app/services/beacon/beacon.service.ts:55-61 | requests added later are kept or answered independently of earlier ones (responses part) |
| Beacon.BeaconService.constructor | src/app/services/beacon/beacon.service.ts:21-22 | no pending requests and nothing sent |
| Beacon.BeaconService.AddVaultRequest | src/app/services/beacon/beacon.service.ts:55-57 | the request is appended, and nothing else changes |
| Beacon.BeaconService.Respond | src/app/services/beacon/beacon.service.ts:97-103 | without a client it fails with "Client not ready" and sends nothing; otherwise it sends the message |
| Beacon.BeaconService.GetVaultRequest | src/app/services/beacon/beacon.service.ts:59-95 | the pending list becomes the unmatched requests; with a client the responses are sent in request order; without one, each response becomes a reported "Client not ready" |
| TransactionQr.Plus | src/app/pages/transaction-qr/transaction-qr.ts:55-56 | NaN iff an operand is NaN; otherwise the sum |
| TransactionQr.WithoutNaN | src/app/pages/transaction-qr/transaction-qr.ts:54 | only finite amounts of the list remain |
| TransactionQr.SumIsNaNIffSomeTermIs | src/app/pages/transaction-qr/transaction-qr.ts:55-56 | a sum is NaN iff a term is; otherwise it equals the reference sum of the finite terms |
| TransactionQr.WithoutNaNKeepsFiniteSum | src/app/pages/transaction-qr/transaction-qr.ts:53-55 | dropping NaN terms keeps the reference sum |
| TransactionQr.TotalAmountSkipsNaN | src/app/pages/transaction-qr/transaction-qr.ts:52-55 | the total amount is never NaN, and it is the sum of the finite amounts |
| TransactionQr.TotalFeesNaNIffSomeFeeIs | src/app/pages/transaction-qr/transaction-qr.ts:56 | the total fee is NaN iff some fee is; otherwise it is the sum of the fees |
| TransactionQr.SumAppend | src/app/pages/transaction-qr/transaction-qr.ts:55-56 | summing two batches is adding their sums |
| TransactionQr.Aggregate | src/app/pages/transaction-qr/transaction-qr.ts:45-57 | a summary iff there are more than one transactions all of the first's protocol; it counts them, totals the finite amounts, and totals the fees (NaN iff some fee is) |
| TransactionQr.TransactionQrPage.constructor | src/app/pages/transaction-qr/transaction-qr.ts:31-61 | the QR data is too big iff it exceeds 2800 characters; the summary is `Aggregate` of the route's transactions; raw data is hidden; browser iff not a native app |
| TransactionQr.TransactionQrPage.ToggleDisplayRawData | src/app/pages/transaction-qr/transaction-qr.ts:71-73 | only the raw-data flag flips |

## Left out

- The reactive form subscription that recomputes the expected reward as the amount changes (SubstrateDelegationExtensions.ts:241-250), and all `Promise.all` parallelism: this is concurrency. The fetches are parameters, read as if in sequence.
- `createDelegateesSummary` and the rest of the substrate extension's summary table: UI composition over the same fetches.
- Formatting is modelled as `Text` constructors, not as strings. This covers the amount converter, the decimal pipe, translation, and moment's `fromNow` and `format('LLL')`.
- Form builders and validators are not modelled.
- `updateWidget` of the unmodelled base class is a parameter. The model does not fix how it replaces an item by id.
- `SubstrateDelegation.NextUnlocking`: the original sorts the caller's `locked` array in place. The model selects the lock that sort puts first and leaves the list unchanged.
- `CoinInfo.SortNewestFirst`: the sort is a stable insertion sort. The original's `Array.prototype.sort` is stable since ES2019, so equal timestamps agree with engines that follow it.
- Coin info network and storage side effects:
  - the AE migration-balance request, so `aeMigratedTokens` is never set after construction;
  - the AE status request, whose answer is the `aeTxListEnabled` parameter;
  - `wallet.synchronize`, `triggerWalletChanged`, the cache writes, and the refresher and infinite-scroll completions.
- `CoinInfo.CoinInfoPage.LoadInitialTransactions`: the model assumes the transaction fetch succeeds. A rejected fetch in the original leaves the refresh running.
- `CoinInfo.CoinInfoPage.SetRefreshing`: only the most recent pending loader timer is kept. Earlier timers that would also fire are not modelled. The model does not promise a minimum loader time per refresh. A timer set by an earlier refresh stays pending when the next refresh starts, and `HideLoaderTimeout` then hides the new refresh's loader. For example, a refresh from 0 to 1 s sets a timer for 3 s, and that timer hides the loader of a refresh started at 2.5 s.
- Calls the original starts and does not await are modelled as running in sequence and completing before the caller returns: each `getDelegationStatusOfAddress` started by `refreshAllDelegationStatuses` (operations.ts:54-58), `showFuturePayoutDetails` started by the single-baker extension's `onDetailsChange` (TezosDelegationExtensions.ts:104-115), and `loadInitialTransactions` started by the coin info page's `doRefresh` (coin-info.ts:154, :161), which `CoinInfo.CoinInfoPage.DoRefresh` completes before it returns. Interleavings with other calls are not modelled.
- `Common.Divide`: quotients are exact. BigNumber's `dividedBy`/`div` round a quotient to 20 decimal places (ROUND_HALF_UP), so `TezosDelegation.BakerUsage`, `TezosDelegation.AcceptsIffBelowCap`, `TezosDelegation.CycleReturn`, `TezosDelegation.MeanReturn`, `SubstrateDelegation.ValidatorUsage` and `SubstrateDelegation.ExpectedReward` hold only up to that rounding. The below-1 test of the baker status is affected too: a baker with capacity 10^23 and staking balance 7·10^22 − 1 has a usage that rounds to exactly 1 in the original, which reports it at full capacity, while the model has it accept delegations.
- Market data:
  - `fetchAllValues` and its floating-point `balance * price` products are not modelled;
  - `toNumber()` conversions are modelled as exact reals;
  - a failed transaction fetch counts as no transactions, and the error log is dropped.
- Operations provider: the subject's emissions and `getDelegationStatusObservableOfAddress` are not modelled; the cache is the subject's current value. The transaction-preparation code, loaders and toasts of operations.ts are network and UI.
- `Operations.OperationsProvider.RefreshAllDelegationStatuses`: states that each cached address is queried exactly once, after the earlier queries. It does not state the order of these queries, because the model walks the set of keys rather than the map's insertion order.
- Beacon service:
  - client initialisation, connection, modals, and the peer operations (`addPeer`, `getPeers`, `removePeer`, `removeAllPeers`);
  - a null or undefined payload, which makes the original throw inside the filter;
  - failures of the client's own `respond`;
  - console logging.
- Transaction QR page:
  - the wallet and interaction-data pass-through, `done` and `sameDeviceSign` (navigation and deep links);
  - amounts arrive as parsed numbers (finite or NaN). Infinity is not modelled.
- Other files of the repository are not part of this model:
  - web-extension, routing and ledger onboarding configuration;
  - the Ledger transport, the TipUs and AddToken actions, the account-address page, and the Cosmos delegation page.

## Findings

| source | as written | input that shows it | evidently intended | confidence | as-written member | corrected member |
|---|---|---|---|---|---|---|
| src/app/services/market-data/market-data.service.ts:94-113 | each timestamp's window is subtracted from the running balance before that timestamp's balance is reported, so every timestamp reports the balance of the next older one | price timestamps [1000, 3000] ms, current balance 100, one payment of 10 received at 2 s: 90 is reported at 3 s | report the running balance first, then undo the window before moving to the older timestamp (100 at 3 s, 90 at 1 s) | not executed | MarketData.AsWrittenMisreportsNewest | MarketData.CorrectedUndoesLaterWindows |
