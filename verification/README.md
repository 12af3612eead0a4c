# Verified model of the IPFS pinning service

The service pins files for storage agreements made on a blockchain. It keeps a table of
agreements, bills them by time, pins and unpins hashes on an IPFS node, announces what it does,
and on every new block collects agreements that ran out of funds. This project models that
agreement lifecycle in Dafny and proves properties of single calls, of whole runs and of
interleavings.

`dafny verify dfyconfig.toml` checks everything.

| file | models |
|---|---|
| `FloorArithmetic.dfy`, `BigNumbers.dfy` | floors of quotients; bignumber.js values, exact or rounded half up to D decimals (20 by default), with NaN and the infinities |
| `Billing.dfy`, `RemainingTime.dfy` | elapsed and prepaid periods, capped payout, sufficient funds; expiresIn |
| `Outcomes.dfy`, `PinJobs.dfy`, `Jobs.dfy`, `Pinning.dfy` | one attempt at pinning on the IPFS node, the retry protocol around it, and what both amount to |
| `Agreements.dfy`, `AgreementEvents.dfy` | the table and the blockchain handlers; the ledger of an agreement; payouts |
| `BlockchainStream.dfy`, `MarketplaceEvents.dfy` | the two event strategies: filters, live processing, precaching, and their agreement |
| `Gc.dfy` | the two-pass expiry collector, with every point at which it can abort |
| `Lifecycle.dfy` | whole runs of serial steps: events live or replayed, blocks, pin jobs |
| `Interleaving.dfy`, `InterleavedPins.dfy` | handlers and any number of collector runs interleaved at their awaits: the rows, and the pins |
| `MessageLog.dfy` | the capped message log under concurrent broadcasts, and the resend query |
| `PeerIdCodec.dfy` | the bytes32 encoding of a published peer id and its decoding |

## Reading the model

- Money, sizes, seconds and milliseconds are integers; quotients are reals, or reals rounded to
  decimals. `Agreement.Funded` is `hasSufficientFunds` at the default precision.
- An agreement reference is any string: the hash that computes it is not modelled, so nothing
  is assumed about collisions between agreements or providers.
- Blockchain handlers run one at a time (`config/default.json5:36-37`). A save writes only the
  columns changed on the loaded instance, and the blockchain upsert does not list `isActive`, so
  on an existing row that column keeps its value.
- The IPFS node is a set of pinned hashes. Its replies, failing unpins, failing broadcasts, the
  clock and the event stream are parameters, quantified over in the theorems. A call that adds
  or removes a pin, and every call of the collector, may also throw after it took effect.
- A handler's query for the block's date and its write of the row may fail. The error wrapper
  swallows that, so the event is lost; `BlockchainStream.Written` are the events that were not.
- The ledger is what the events make of an agreement; it is the contract's when the events are
  those of our offer (`BlockchainStream.OwnEventsAreOurs` says when).
- A row query has no order, so `FindAll` returns its rows in any order.
- `Gc.GcStep` is what one collector run, whole or cut short anywhere, may leave; the loops are
  proved to stay within it, and the run theorems are about it.

## What turned out about the code

- `expiresIn` is documented as the time until the agreement expires. With exact quotients it
  never reports less than the whole seconds left, but up to one period less a second more
  (`RemainingTime.OverreportsByAPeriod`, as rounded `RemainingTime.OverreportsRounded`); it is exact if and only if a stated excess of balance
  and rounding stays below a thousand times the price (`RemainingTime.ExpiresInExactly`). With
  the quotients rounded as in the code it can also fall a second short
  (`RemainingTime.UnderreportsByASecond`), if and only if that excess with the rounding errors
  counted in is negative (`RemainingTime.RoundedExpiresInExactly`). It is no number at all for a
  funded agreement with zero price or zero period.
- Rounded division makes `hasSufficientFunds` turn false half of 10^-20 of a period early. That
  changes its answer for some balance and clock exactly when the period is at least 2 * 10^20
  milliseconds, which the contract's 64-bit period allows (`Billing.RoundedFundsAgree`); then a
  payout can even move the run-out instant earlier (`AgreementEvents.RunOutNeverEarlier`).
- The comment at the blockchain upsert speaks of resetting a row that is not new; the expiry mark
  is reset but `isActive` is not, so a stopped agreement that is created again stays inactive,
  while a marketplace payload can make it active (`MarketplaceEvents.RecreatedAgreementsDiffer`).
  The strategies agree on `isActive` if and only if the last status in the payloads, when a
  creation carries it, knows of the stops (`MarketplaceEvents.StatusAgreesExactly`).
- Interleaved with a deposit, the collector can deactivate an agreement that has funds again,
  because it decides on a loaded snapshot: for every agreement without funds and any number of
  confirmations there is such a deposit and such a run
  (`Interleaving.StaleSnapshotDeactivatesFunded`). It happens exactly when
  the agreement had run out by the ledger of the query but not by that of the save
  (`Interleaving.DeactivatesFundedExactly`); run serially it cannot happen
  (`Lifecycle.DeactivationIsConfirmed`). Balances are never lost either way.
- A pin job that fails can leave its hash pinned (`Pinning.FailedPinMayStay`); a job can throw
  although its record says finished, exactly when its last attempt worked and could not be
  announced (`Jobs.FinishedMeansReturned`); with no try configured a pin job returns normally
  without pinning (`Lifecycle.NoRetriesNoPin`).
- Two agreements about the same data unpin each other's hash (`Lifecycle.SharedDataLosesPin`),
  exactly when one is closed, or its pin job takes the pin away, while the other is active with
  a finished job (`Lifecycle.StopBreaksExactly`, `Lifecycle.CollectionBreaksExactly`,
  `Lifecycle.PinJobBreaksExactly`).
- When the collector's unpin takes effect and its reply is lost, the agreement stays active
  without its pin: without shared data exactly when its latest pin job had worked
  (`Lifecycle.LostUnpinUnshared`); a complete run at the same block makes up for it
  (`Gc.CrashRecovery`).
- The reference of an agreement does not depend on the offer, and the events about an agreement
  do not name it. So events about another offer's agreement with the reference of one of ours
  change our row (`BlockchainStream.SharedReferenceMisleads`); what the service takes for its
  own is what happened to its offer if and only if there is no such event
  (`BlockchainStream.OwnEventsAreOurs`).
- A general error broadcast with the empty reference is stored under a reference that no later
  query asks for, so such messages are never trimmed (`MessageLog.KeptCount`).
- Trailing whitespace of a peer id survives the codec, because the padding shields it from the
  trim; only NULs and leading whitespace are lost (`PeerIdCodec.PeerIdRoundTrip`).

## Model

| member | source | states |
|---|---|---|
| BigNumbers.FloorOfRoundedQuotient | src/utils.ts:39-41 | for one dividend, flooring a quotient rounded to d decimals is integer division exactly when the gap to the next integer survives the rounding |
| BigNumbers.RoundingHarmless | src/utils.ts:39-41 | for all dividends together this holds exactly when the divisor is below 2 * 10^d |
| BigNumbers.DivIsNearest | src/utils.ts:39-47 | a division rounded to d decimals gives the multiple of 10^-d nearest to the exact quotient, of two as near the one farther from zero |
| Billing.FundsInColumns | src/models/agreement.model.ts:54-99 | from the columns: the funds suffice exactly when size * price is zero or now is before last payout + (balance / (size * price)) periods, with exact quotients and, for periods below 2 * 10^20 ms, at the default precision |
| Billing.RoundedFundsInColumns | src/models/agreement.model.ts:54-99 | from the columns, for every period and number of decimals |
| Billing.PayoutInColumns | src/models/agreement.model.ts:54-73 | the payout is the whole periods elapsed times size * price, capped at the balance, exact and at the default precision |
| Billing.PeriodsInColumns | src/models/agreement.model.ts:54-85 | elapsed and prepaid periods from the columns, exact and at the default precision |
| Billing.SufficientForPeriods | src/models/agreement.model.ts:68-99 | with m whole periods elapsed the payout is m periods' price, capped at the balance, and the funds suffice exactly when m + 1 periods are prepaid (or nothing is charged) |
| Billing.SufficientUntilRunOut | src/models/agreement.model.ts:54-99 | hasSufficientFunds is "now is before last payout plus prepaid periods", for every balance, clock and period, also a zero one |
| Billing.SufficientByPeriods | src/models/agreement.model.ts:58-99 | hasSufficientFunds compares the two period counts: elapsed + 1 <= prepaid |
| Billing.LostFundsStayLost | src/models/agreement.model.ts:96-99 | lost funds stay lost while the row is unchanged, at every precision |
| Billing.RoundedFundsAgree | src/models/agreement.model.ts:58-99 | rounded and exact hasSufficientFunds agree at all balances and clocks exactly when the period in ms is below 2 * 10^d or the price is zero |
| Billing.RoundedPrepaidAgree | src/models/agreement.model.ts:75-80 | rounded and exact prepaid periods agree at all balances exactly when the period price is below 2 * 10^d |
| Billing.RoundedFundedUntil | src/models/agreement.model.ts:96-99 | hasSufficientFunds with quotients rounded to d decimals, in closed form for every account: the funds are gone half of 10^-d of a period before the prepaid periods are over |
| RemainingTime.ExpiresInColumns | src/models/agreement.model.ts:101-110 | expiresIn from the columns, with exact quotients: 0 once the funds are gone, before that the seconds the balance less the payout so far buys |
| RemainingTime.ExpiresInBounds | src/models/agreement.model.ts:104-110 | with positive price, positive period and exact quotients, expiresIn is 0 without funds, and otherwise at least the whole seconds R left and below R plus one period |
| RemainingTime.ExpiresInExactly | src/models/agreement.model.ts:101-110 | expiresIn is R plus the quotient of an excess, and so exactly R if and only if the excess is below a thousand times the price |
| RemainingTime.OverreportsByAPeriod | src/models/agreement.model.ts:101-110 | the bound is reached: with one period left, two periods less a second are reported |
| RemainingTime.OverreportsRounded | src/models/agreement.model.ts:101-110 | the same with quotients rounded to d decimals, for twice the period up to the price and the price up to 10^d |
| RemainingTime.RoundedExpiresInBounds | src/models/agreement.model.ts:104-110 | the bounds with quotients rounded to d decimals, for every period; up to 10^d ms, at most a second short and at most a period over |
| RemainingTime.RoundedExpiresInExactly | src/models/agreement.model.ts:101-110 | with quotients rounded to d decimals, expiresIn is R plus the quotient of a rounded excess: exact if and only if that excess is not negative and below its unit, and short of R if and only if it is negative |
| RemainingTime.UnderreportsByASecond | src/models/agreement.model.ts:101-110 | at the default precision an agreement with one second left reports 0 |
| RemainingTime.ExpiresInIsNumber | src/models/agreement.model.ts:104-110 | at every precision, expiresIn is finite exactly when unfunded or both price and period are positive |
| Jobs.Job.Run | src/jobs-manager.ts:40-61 | one run makes the next attempt on the node, unless its first save fails, and ends FINISHED, or ERRORED with its error recorded, with its start and finish times |
| Jobs.JobsManager.HandleError | src/jobs-manager.ts:83-99 | a size error is announced with its sizes and agreement, any other error as a general one; what is thrown is that error, or that of the broadcast |
| Jobs.LastAttempt | src/jobs-manager.ts:105-134 | the attempt that ends a job is the first that works, fails for good, is the last allowed or cannot announce its retry |
| Jobs.TryInReplies | src/jobs-manager.ts:105-117 | an attempt works exactly when the file fits and no save or broadcast is lost, and ends in a size error exactly when the job ran and the file is too big; without its start it asks nothing of the node |
| Jobs.LastAttemptInReplies | src/jobs-manager.ts:105-134 | the last attempt in the replies: the first that works, finds the file too big, cannot announce its failure, or is the last allowed |
| Jobs.TooBigIsLast | src/jobs-manager.ts:115-118 | a file found too big is not tried again, and the job throws the size error |
| Jobs.RoundInReplies | src/jobs-manager.ts:107-134 | which notices one attempt sends, whatever is lost |
| Jobs.RecordInReplies | src/jobs-manager.ts:40-67 | the state and the last retry in the record when the job ends, whatever is lost |
| Jobs.SleepInNumbers | src/jobs-manager.ts:136-144 | the total sleep is the backoff k times, or doubles and adds one backoff with each retry |
| Jobs.JobsManager.Run | src/jobs-manager.ts:101-147 | whatever the node replies and whichever broadcasts and saves fail: result, notices, pins, record and total sleep (backoff * (2^k - 1) or backoff * k) after k retries; with no try configured nothing happens |
| Jobs.TraceShape | src/jobs-manager.ts:105-134 | with no broadcast lost the notices are k pairs START RETRY numbered 1..k, then START, then PINNED or one error, and the record ends as the job returned |
| Jobs.FinishedMeansReturned | src/jobs-manager.ts:101-147 | the record says FINISHED exactly when the job returned normally or its last allowed attempt worked and could not be announced |
| PinJobs.TooBigExactly | src/utils.ts:43-47 | at twenty decimals the megabyte quotient is never rounded: the size check compares bytes with paid megabytes exactly |
| PinJobs.AttemptInReplies | src/providers/ipfs.ts:134-166 | one attempt in its replies: when it works, when it ends in a size error and with which sizes, and whether the hash is pinned afterwards, if and only if |
| PinJobs.IpfsNode.RunPinJob | src/providers/ipfs.ts:134-166 | the attempt step by step does that, comparing megabytes, with calls that throw before or after taking effect |
| Pinning.PinGuarantee | src/providers/ipfs.ts:134-166 | across all retries: the hash is pinned exactly when an attempt added it and none took it away since, or it was pinned before and none took it away; so a normal return means pinned and within the paid size, and an actual-size error unpinned; only plain failures were retried; other pins untouched |
| Pinning.ReturnsExactly | src/providers/ipfs.ts:134-166 | a pin job returns normally, and leaves the hash pinned, exactly when an allowed attempt works before one gave up |
| Pinning.FailedPinMayStay | src/providers/ipfs.ts:153-157 | when a pin job leaves a new hash pinned, and a job that fails at every attempt and does |
| AgreementEvents.Service.NewAgreement | src/processor/blockchain-events/agreement.ts:29-68 | date query and upsert, announce, pin, in this order, each failure ending the handler there |
| AgreementEvents.Service.AgreementStopped | src/processor/blockchain-events/agreement.ts:70-94 | deactivates and saves, then unpins (not-pinned is no error), then announces, each failure ending the handler there |
| AgreementEvents.Service.FundsChanged | src/processor/blockchain-events/agreement.ts:96-137 | deposit, withdrawal and payout change balance and payout date of the row, or throw without one or when the date query or the save fails |
| AgreementEvents.Service.PinAgreement | src/providers/ipfs.ts:225-228 | runs the row's pin job under the retry protocol and records how it ended |
| AgreementEvents.Service.Unpin | src/providers/ipfs.ts:230-244 | removes the pin, or answers not-pinned, or fails with or without effect |
| AgreementEvents.LedgerMeaning | src/processor/blockchain-events/agreement.ts:47-137 | the ledger's balance is the latest creation's plus deposits minus withdrawals and payouts since; its payout date is that of the latest creation or payout |
| AgreementEvents.PayoutMovesRunOut | src/processor/blockchain-events/agreement.ts:132-134 | at any precision, a payout of toBePayedOut while funded pays for the whole periods counted, leaves the agreement funded at that date and moves the run-out instant by the time elapsed beyond them |
| AgreementEvents.PayoutStep | src/processor/blockchain-events/agreement.ts:132-134 | with harmless rounding (periods below 2 * 10^d ms) a payout of toBePayedOut while funded leaves the agreement funded at that date and moves the run-out instant by the age of the started period |
| AgreementEvents.PayoutsKeepRunOut | src/processor/blockchain-events/agreement.ts:124-137 | over m such payouts the run-out instant never moves earlier, and later by less than m periods, at any precision with harmless rounding |
| AgreementEvents.RunOutNeverEarlier | src/processor/blockchain-events/agreement.ts:124-137 | payouts at d decimals never move the run-out instant earlier, whatever the balance and date, if and only if the period is below 2 * 10^d ms |
| BlockchainStream.KeysAreOwnReferences | src/processor/blockchain-events/index.ts:44-59 | the table's keys are exactly the references of our NewAgreements so far, so the filter admits exactly our own events |
| BlockchainStream.ForeignEventsDoNotMatter | src/processor/blockchain-events/index.ts:44-59 | deleting all events that are not ours changes nothing, and no admitted event misses its row |
| BlockchainStream.HandlersFollowLedger | src/processor/blockchain-events/agreement.ts:47-137 | the rows are the ledger's agreements with the ledger's accounts |
| BlockchainStream.OwnEventsAreOurs | src/processor/blockchain-events/index.ts:44-59 | on the contract's stream, what passes for our own is what happened to our offer if and only if no event about another offer's agreement carries the reference of one of ours |
| BlockchainStream.TableMirrorsOurOffer | src/processor/blockchain-events/index.ts:44-59 | and then the table mirrors what the contract holds for our offer |
| BlockchainStream.SharedReferenceMisleads | src/processor/blockchain-events/agreement.ts:44 | a deposit to another offer's agreement with the same reference lands on ours |
| BlockchainStream.ReplayEqualsLive | src/processor/blockchain-events/index.ts:169-180 | from any stored state, replay without a manager and live processing with one leave the table of the events whose writes did not fail, whatever pins, unpins and broadcasts do |
| BlockchainStream.CreationHandled | src/processor/blockchain-events/agreement.ts:29-68 | a live creation of ours whose write and broadcast work: the row's columns, the one notice, and its pin job for that data and size, done exactly when an attempt works before one gives up |
| BlockchainStream.CreationUnannounced | src/processor/blockchain-events/agreement.ts:58-67 | a replayed creation, or one whose broadcast fails, only writes the row |
| BlockchainStream.StopHandled | src/processor/blockchain-events/agreement.ts:70-94 | a stop of ours, live and replayed: row, pins and notice |
| BlockchainStream.FundsHandled | src/processor/blockchain-events/agreement.ts:96-137 | deposit, withdrawal and payout change the balance, a payout the date, and nothing else |
| BlockchainStream.NothingHandled | src/processor/blockchain-events/index.ts:44-59 | what names another offer, is about an unknown agreement or cannot be written does nothing |
| BlockchainStream.ProcessEvent | src/processor/blockchain-events/index.ts:44-59 | one event through filter, handler and error wrapper |
| BlockchainStream.PinFundedAgreements | src/processor/blockchain-events/index.ts:184-190 | a normal return leaves every row with sufficient funds pinned by a job that worked, each tried once; only funded rows are tried; a throw is the last job tried, which failed |
| BlockchainStream.Precache | src/processor/blockchain-events/index.ts:161-191 | over any stored table, precaching leaves that of the replayed events and, on it, the pin jobs of what has funds, up to the first that fails |
| MarketplaceEvents.OnNewAgreement | src/processor/marketplace-events/agreement.ts:18-28 | upserts the columns in the payload, announces and pins |
| MarketplaceEvents.OnAgreementEvent | src/processor/marketplace-events/agreement.ts:30-97 | writes the absolute values, or throws without a row; a stop also unpins and announces |
| MarketplaceEvents.ProcessEvent | src/processor/marketplace-events/index.ts:29-34 | one payload through filter, handler and error wrapper |
| MarketplaceEvents.OwnEventsSplit | src/processor/marketplace-events/index.ts:29-34 | the filter goes payload by payload |
| MarketplaceEvents.OwnEventAlone | src/processor/marketplace-events/index.ts:29-34 | and keeps exactly those that name our offer |
| MarketplaceEvents.TruthfulReportsMirror | src/processor/marketplace-events/agreement.ts:56-97 | payloads with the contract's running balance and payout date, in order for each agreement and between offer events and other agreements anyhow, keep the table a mirror of the contract, from any start that mirrors it |
| MarketplaceEvents.StrategiesAgree | src/processor/marketplace-events/agreement.ts:18-97 | behind their filters both strategies have the same agreements with the same balance, payout date, terms and hasSufficientFunds |
| MarketplaceEvents.StatusAgreesExactly | src/processor/marketplace-events/agreement.ts:18-40 | they agree on isActive of an agreement if and only if the last status in its payloads, when a creation carries it, is inactive exactly after a stop; always when creations leave it out |
| MarketplaceEvents.RecreatedAgreementsDiffer | src/processor/marketplace-events/agreement.ts:21 | the strategies can differ on isActive: stop and re-create |
| MarketplaceEvents.PrecacheCatchesUp | src/processor/marketplace-events/index.ts:86-129 | a start over any stored table of known agreements ends as a mirror of the contract, and following the later events keeps it one |
| MarketplaceEvents.StoredInColumns | src/processor/marketplace-events/index.ts:126-128 | what a start stores of a fetched agreement: its columns, active unless it says otherwise, with the stored mark if it carries none |
| MarketplaceEvents.Precache | src/processor/marketplace-events/index.ts:125-134 | the fetched agreements are stored in order, up to a failing write or job; a normal return leaves all stored, and each that does not say it is inactive and has sufficient funds pinned by a job that worked; no job is run and no pin added for any other |
| Gc.MarkExpired | src/gc.ts:35-42 | a complete first pass marks exactly the active, unmarked, unfunded rows; an aborted one some of them |
| Gc.DropExpired | src/gc.ts:55-69 | unpin, announce, deactivate one row, stopping where something throws, with or without effect |
| Gc.CollectExpired | src/gc.ts:44-70 | rows, pins and notices of the second pass move together, whole or cut short |
| Gc.CollectPins | src/gc.ts:31-72 | one run, with the clock of each look at a row, stays within GcStep, and completes unless a query, save, unpin or broadcast throws |
| Gc.AbortKeepsResult | src/gc.ts:35-70 | however a run ends, a complete run on its result gives what it would have given on the start, with shared hashes too |
| Gc.CrashRecovery | src/gc.ts:35-70 | any number of aborted runs and then a complete one, at the same block and times, equal one uninterrupted run in table and pins |
| Gc.RowInColumns | src/gc.ts:35-69 | what a complete run makes of a row, by its activity, mark and funds at the two looks at it |
| Gc.CompleteRunInColumns | src/gc.ts:35-70 | a complete run: every row as that; a hash goes exactly when an agreement about it is deactivated; exactly the deactivated ones are announced as expired, once each |
| Gc.CompleteRunSettles | src/gc.ts:35-70 | after a complete run active rows are funded or freshly marked, balances and inactive rows are unchanged, and a second run does nothing |
| Lifecycle.MarksHaveOrigins | src/gc.ts:35-42 | every mark in a reachable table was set by a collector run that found the row unfunded, with no creation since |
| Lifecycle.DeactivationIsConfirmed | src/gc.ts:35-69 | a deactivated agreement was marked at least `confirmations` blocks before, was unfunded both times, and was not created again in between |
| Lifecycle.PrecacheIsRun | src/processor/blockchain-events/index.ts:161-191 | what precaching leaves of any stored state is reached by replayed events and then pin jobs |
| Lifecycle.Start | src/processor/blockchain-events/index.ts:135-191 | a start that precaches, also a forced one, is such a sequence of steps; a first start is undisturbed, also when it throws, and if it does not, its active agreements with a finished job are pinned, even with shared data |
| Lifecycle.ActiveStayPinned | src/gc.ts:52-69 | from the empty state or from what a start left, without shared data, failing broadcasts, failing saves of the collector and lost replies to its unpins, an active agreement whose latest pin job worked is pinned in every later state, also with refused unpins and failing queries, event writes and pin jobs |
| Lifecycle.ClosedStayUnpinned | src/processor/blockchain-events/agreement.ts:78-89 | a stopped or collected agreement's hash stays unpinned until it is created again or re-pinned, without shared data |
| Lifecycle.SharedDataLosesPin | src/processor/blockchain-events/agreement.ts:81-89 | with shared data, stopping one agreement unpins the other's hash |
| Lifecycle.StopBreaksExactly | src/processor/blockchain-events/agreement.ts:78-89 | with shared data, a stop takes another's pin exactly when that one is active with a finished job and the unpin takes effect |
| Lifecycle.CollectionBreaksExactly | src/gc.ts:52-69 | likewise a complete collector run, for the agreements it collects and those that stay |
| Lifecycle.LostUnpinBreaksExactly | src/gc.ts:57-65 | a collector's unpin that takes effect and throws leaves an active agreement without its pin exactly when one that stays, with a finished job, is about the data of that row or of one collected before |
| Lifecycle.LostUnpinUnshared | src/gc.ts:57-65 | without shared data: exactly when the row itself has a finished job |
| Lifecycle.PinJobBreaksExactly | src/providers/ipfs.ts:157-164 | likewise a pin job, exactly when an attempt took the pin away and none added it after that |
| Lifecycle.NoRetriesNoPin | src/jobs-manager.ts:105 | with no try configured the job counts as done and nothing is pinned |
| Interleaving.SaveIsWrite | src/processor/blockchain-events/agreement.ts:104-105 | saving a changed snapshot equals the plain write of the event while the loaded account is still the stored one |
| Interleaving.NoUpdateIsLost | src/gc.ts:39-69 | under every interleaving each row's account is the ledger's, and a stopped agreement stays inactive |
| Interleaving.SnapshotIsLedger | src/gc.ts:44-53 | under every interleaving, the account a collector run holds is the one the ledger had at its own query |
| Interleaving.UninterleavedIsGc | src/gc.ts:36-69 | on a row unchanged since it was loaded, the interleaved collector does what the collector does |
| Interleaving.MarkHasOrigin | src/gc.ts:36-42 | under every interleaving a mark was set by a run at that block that found the agreement without funds, and no creation of it was saved since |
| Interleaving.CollectionIsConfirmed | src/gc.ts:44-53 | under every interleaving, what is collected was marked by a run at least `confirmations` blocks before and not created again until it was queried |
| Interleaving.DeactivatesFundedExactly | src/gc.ts:52-69 | under every interleaving, a deactivated agreement is funded exactly when it had run out by the ledger of the query and not by that of the save; and then an event between them changed its account |
| Interleaving.StaleSnapshotDeactivatesFunded | src/gc.ts:52-69 | for every agreement without funds and every number of confirmations, a deposit and an interleaving after which it is funded and deactivated |
| Interleaving.PennilessIsUnfunded | src/models/agreement.model.ts:96-99 | there are such agreements: any that charges, from its last payout on, with a zero balance |
| InterleavedPins.BackedWhenQuiet | src/gc.ts:52-69 | under every interleaving of handlers, pin jobs and collector runs, whenever no handler is at a pin or unpin and no run is between unpinning and deactivating a row, every active agreement whose latest pin job worked is pinned |
| InterleavedPins.CollectedInSteps | src/gc.ts:57-68 | a row collected without interruption is unpinned and deactivated, and nothing else changes |
| InterleavedPins.PinnedInSteps | src/processor/blockchain-events/agreement.ts:66 | a pin job that adds the pin and works pins the row's data and is recorded |
| InterleavedPins.StoppedInSteps | src/processor/blockchain-events/agreement.ts:81-89 | a stop whose unpin takes effect unpins the row's data |
| MessageLog.LogIsNewestSuffix | src/communication/index.ts:67-90 | under every interleaving of broadcasts each bucket holds its newest messages up to the limit, and exactly those when none is under way |
| MessageLog.KeptCount | src/communication/index.ts:74-90 | what is kept of a bucket with n messages is min(limit, n), but all of the empty reference's |
| MessageLog.NewestAtRest | src/communication/index.ts:74-90 | with no broadcast under way a bucket holds min(limit, n) of its n messages, and with a message every later one |
| MessageLog.ResendAtRest | src/communication/transport/libp2p/handler.ts:28-44 | a resend always answers at least the filter of the newest messages, and exactly that with no broadcast under way: a message is answered if and only if it is kept and has the requested reference and code, as far as given and not empty |
| MessageLog.MessageStore.Broadcast | src/communication/index.ts:49-93 | rejects without transport, and without reference or with the empty one unless it is a general error; otherwise the store again holds exactly the newest messages of the longer history |
| MessageLog.MessageStore.ResendLatest | src/communication/transport/libp2p/handler.ts:28-44 | answers the kept messages that match both filters, once each, in any order |
| PeerIdCodec.ShiftedJoin | test/utils.ts:97-109 | shifting the prefix in keeps the concatenation |
| PeerIdCodec.PrefixArray | test/utils.ts:88-112 | the in-place loop leaves the shifted chunks, and throws exactly on a too long prefix or chunk |
| PeerIdCodec.PublishedInDigits | test/utils.ts:74-112 | the published message digit by digit: the flag 01, two hex digits for each character, zeros, in chunks of 64 |
| PeerIdCodec.TextOfHex | src/utils.ts:83-89 | decoding takes two digits to one character |
| PeerIdCodec.TrimInCharacters | src/utils.ts:83-89 | trimming takes all whitespace from both ends and nothing else |
| PeerIdCodec.NulsInCharacters | src/utils.ts:83-89 | removing NULs goes character by character |
| PeerIdCodec.OneCharacter | src/utils.ts:83-89 | and removes exactly the NULs |
| PeerIdCodec.FlagInDigits | src/processor/blockchain-events/offer.ts:30-42 | only a message that begins with the digits 0 and 1 is a peer id |
| PeerIdCodec.PublishedArrives | src/processor/blockchain-events/offer.ts:35-39 | for every ASCII id, what arrives under flag 01 is the id without leading whitespace and NULs |
| PeerIdCodec.PeerIdRoundTrip | src/processor/blockchain-events/offer.ts:35-39 | the id comes back unchanged exactly when it has no NUL and no leading whitespace |

## Left out

- RemainingTime.ExpiresInBounds: for exact quotients; RemainingTime.RoundedExpiresInBounds has the bounds as rounded.
- RemainingTime.ExpiresInExactly: for exact quotients; RemainingTime.RoundedExpiresInExactly has the condition as rounded.
- RemainingTime.OverreportsByAPeriod: for exact quotients; RemainingTime.OverreportsRounded has the input as rounded.
- Jobs.JobsManager.Run: the save that records a failure succeeds; in the source a job waits forever when it does not.
- Jobs.Job.Run: likewise the save that records a failure succeeds.
- PinJobs.IpfsNode.RunPinJob: IPFS replies are given; swarm connect and peer lookup, whose errors are swallowed, timeouts and HTTP are not modelled.
- AgreementEvents.Service.NewAgreement: the columns consumer and token are not modelled; this logic never reads them.
- Lifecycle.ActiveStayPinned: steps are serial; InterleavedPins.BackedWhenQuiet is about interleaved ones.
- InterleavedPins.BackedWhenQuiet: creations of one reference carry the same data and those of others different data, as a hash without collisions would have it; after an unpin that took effect, the collector's unpin, broadcast and save do not fail.
- Interleaving.NoUpdateIsLost: unpins and broadcasts touch no row and are not separate steps here; a query may return any of the matching rows.
- MessageLog.MessageStore.Broadcast: message ids are positions in the history; JSON, timestamps and the transport's own delivery, whose errors are swallowed, are not modelled.
- PeerIdCodec.PeerIdRoundTrip: ids are ASCII; characters with longer codes are outside what the encoder supports.
- MarketplaceEvents.Precache: begins where the offer was found; the lookup of the offer and the comparison of its peer id only log.
- Offer capacity, event-name dispatch and hash-prefix routing are one-branch members.
- Fetching events, confirmation tracking and reorg detection belong to a library that is not part of this model; the event stream is arbitrary.
- The direct-address sweep, migrations, command line, configuration and logging are not modelled.
