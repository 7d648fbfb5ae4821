# Payment gateway: a Dafny model of the money path

The gateway quotes a fiat price in a token, watches the chain for transfers,
decides what each transfer proves, settles payment attempts, tells merchants
through webhooks, and lets operators resolve what the automatic path will not.
This project models the parts of it that protect money and proves what they
promise, over all inputs and all interleavings.

| files | what they model |
|---|---|
| `Common`, `Clock`, `Positional` | shared types, calendar instants, positional notation |
| `Money` | 256-bit raw amounts: checked arithmetic, rounding up, printing and parsing |
| `Settlement` | matching a transfer to an attempt and deciding the split |
| `Ledger`, `LedgerInvariant`, `LedgerRuns`, `LedgerMeaning`, `LedgerBounds`, `LedgerTotals`, `LedgerFinality`, `LedgerCancellation`, `LedgerStore` | the money tables, every transaction on them as an atomic step, what every run keeps, what an attempt may hold and ends up holding, and the same transactions as in-place updates |
| `Lease` | component leases with fence tokens, observation batches and cursors |
| `Ratios`, `Price`, `Aggregation`, `Quote` | exact rates, aggregation of price readings, quotes |
| `Evidence`, `Verification`, `VerdictMeaning`, `VerdictOrder` | what a group of chain readings proves, under growth and reordering |
| `OutboxRows`, `OutboxRuns`, `OutboxDelivery`, `OutboxInterleaving`, `OutboxOutcome`, `OutboxService`, `BoundedJoin` | the webhook outbox: claims, delivery workers, one pass, its interleavings, the bounded executor |
| `RateLimit` | token buckets per key |
| `Base58`, `Base58Alphabet` | the Base58 codec and checksummed addresses |
| `Accounting`, `Csv`, `CsvExport` | settlement export, control sum, CSV file |
| `HonorApproval`, `HonorMeaning`, `HonorPayments`, `HonorDesk` | manual decisions, two-operator honors, idempotent replays |
| `Framing` | the byte streams behind the two request digests |

`dafny verify dfyconfig.toml` checks the whole project.

## How it is modelled

- A database transaction is one atomic step on maps of rows. A settlement is
  two steps, because its decision is computed from a snapshot read before its
  transaction begins; any other step may come between.
- Clocks, chain sources, webhook endpoints, identifiers and digests are
  parameters. Nothing relates two clock readings unless a statement says so.
- Machine integers are written out where they matter: 256-bit amounts, 64-bit
  counts, saturating 32-bit counters and prefixes, 128-bit bucket arithmetic,
  the calendar's first and last instant.
- Loops of the source are loops here, proved equal to a specification function;
  the promises are lemmas about that function.

## Where the code and its promises part

Each of these is a statement in the project, with the input that shows it and
the exact condition under which the promise holds.

- A settlement decided on a snapshot can commit after a manual honor moved the
  attempt's total. It then allocates beyond the expected amount, or leaves an
  attempt that holds all it expects and is never settled
  (`LedgerBounds.StaleRunOverallocates`, `LedgerBounds.StaleRunStrands`; exactly
  when: `LedgerBounds.BoundedExactly`, `LedgerTotals.CappedExactly`).
- Overlapping slot windows make the match depend on whether the expiry sweep
  ran (`Settlement.UnstableSweep`, `Settlement.SweepIndependence`).
- Rates whose cross products exceed 256 bits compare as equal, so an outlier can
  become the price (`Aggregation.OutlierBecomesPrice`; exactly when the
  comparison is right: `Price.CompareExactly`; exactly when every listing is
  sorted right: `Price.SortOrdersExactly`; then the rate can be trusted:
  `Price.RateIsTrustworthy`).
- The uncompared fields of a canonical transfer depend on reading order
  (`VerdictOrder.BlockTimeFollowsOrder`, `VerdictOrder.OrderDecidesUncompared`).
- A refused look at a rate budget may name one second too many
  (`RateLimit.PeekWaitMayBeLong`; exactly when: `RateLimit.PeekWaitExactly`).
- A delivery that outlives its claim window is handed to a second worker
  (`OutboxRuns.LateTaskIsSharedOut`; exactly when:
  `OutboxRuns.ClaimIsSafeExactly`).
- The six-hour cap on delivery backoff is documented but never reached
  (`OutboxRuns.BackoffDoubles`).
- Formula defusing is not injective, and a negative fiat sum is exported behind
  an apostrophe (`Csv.DefuseCollides`, `CsvExport.NumbersAreInert`).
- An empty memo, block hash or reference hashes like an absent one
  (`Framing.ClaimStreams`, `Framing.ManualStreams`).

## Model

| member | source | states |
|---|---|---|
| Money.MulDivCeilIsLeast | crates/gateway-domain/src/money.rs:213-240 | the least whole amount whose value is at least multiplier × numerator ÷ denominator, and exactly which inputs are refused and how; the rounding step itself never overflows |
| Money.MulDivCeilMonotone | crates/gateway-domain/src/money.rs:213-240 | a rate that is no larger never converts to a larger amount |
| Money.TextRoundTrip | crates/gateway-domain/src/money.rs:243-258 | printing then parsing a positive 256-bit amount is the identity |
| Money.ParsePrint | crates/gateway-domain/src/money.rs:243-258 | parsing then printing only drops leading zeros |
| Money.FromTextExactly | crates/gateway-domain/src/money.rs:243-258 | exactly which texts are amounts and how the others are refused |
| Money.DecimalExact | crates/gateway-domain/src/money.rs:165-179 | the decimal text denotes exactly amount ÷ 10^decimals and never ends its fraction in a zero |
| Money.DecimalInjective | crates/gateway-domain/src/money.rs:165-179 | for fixed decimals no two amounts print alike |
| Settlement.MatchIsStaged | crates/gateway-domain/src/settlement.rs:170-250 | the matcher is: the first stage with any hit decides (memo, live slot, historical slot), one hit matches, several are ambiguous |
| Settlement.MatchSays | crates/gateway-domain/src/settlement.rs:170-250 | every answer on the candidates’ own fields: one deciding hit is matched under its ids, by reference, live slot or past slot, and is late exactly when it was cancelled or settled or the block is not before the end of the quote; several are reported with exactly their ids in ascending order; none exactly when nothing refers or covers |
| Settlement.MatchIgnoresOrder | crates/gateway-domain/src/settlement.rs:170-250 | the answer, reported ids included, does not depend on the order of the candidates |
| Settlement.MatchIgnoresIrrelevant | crates/gateway-domain/src/settlement.rs:170-250 | attempts that held the slot at another time or name another reference never change the answer |
| Settlement.SweepIndependence | crates/gateway-domain/src/settlement.rs:170-250 | the chosen attempt, its lateness and all reported ids survive every expiry sweep if and only if the slot is stable: a memo decides, at most one candidate covers the block, or no covering one is still awaiting |
| Settlement.DisjointSlotsAreStable | crates/gateway-domain/src/settlement.rs:170-222 | disjoint slot windows are always stable |
| Settlement.UnstableSweep | crates/gateway-domain/src/settlement.rs:170-222 | outside that condition some sweep does change the choice |
| Settlement.TierFor | crates/gateway-domain/src/settlement.rs:314-320 | the first listed of the smallest bands that cover the amount, and none exactly when no band does |
| Settlement.DecideSettlement | crates/gateway-domain/src/settlement.rs:421-510 | never fails; money moves exactly when every gate passes and something is owed; the allocation is the lesser of what is owed and what arrived, allocation and remainder split the arrival exactly, and the outcome completes exactly when the total reaches the expected amount |
| Settlement.DecisionReasons | crates/gateway-domain/src/settlement.rs:421-510 | every hold and every manual reason exactly when, in order |
| Settlement.SettlementIgnoresSweep | crates/gateway-domain/src/settlement.rs:170-510 | with disjoint windows match and decision together are the same whether or not the sweep ran first |
| Settlement.TotalIsCapped | crates/gateway-domain/src/settlement.rs:477-509 | the decision alone: deciding any sequence of accepted arrivals one after the other, those after the last unit owed included, brings the total to min(expected, already + sum of arrivals) |
| Settlement.TotalIgnoresOrder | crates/gateway-domain/src/settlement.rs:477-509 | so for the decision alone the order of the arrivals does not matter |
| LedgerInvariant.HonorExactly | crates/gateway-storage/src/operations.rs:509-707 | on consistent tables an honor goes through exactly when the transfer is final and parked, collector, rail, time and statuses allow it and the request is the lesser of owed and carried; it is not found exactly when its rows are missing or belong apart; everything else is a conflict, and an allocation that was planned never fails |
| LedgerInvariant.AllocationOutcomes | crates/gateway-storage/src/settlement.rs:677-788 | on consistent tables an allocation for an undecided transfer succeeds exactly when collector and statuses allow it; the foreign-claim, replay and over-spend answers cannot occur |
| LedgerInvariant.SettleKeepsInv | crates/gateway-storage/src/settlement.rs:371-415 | the settlement transaction keeps the money tables consistent whatever it answers |
| LedgerInvariant.FinishKeepsInv | crates/gateway-storage/src/settlement.rs:623-673 | so does parking a transfer without money |
| LedgerInvariant.HonorKeepsInv | crates/gateway-storage/src/operations.rs:626-707 | so does a manual honor, done or refused |
| LedgerInvariant.HonorSplitsLikeSettlement | crates/gateway-storage/src/operations.rs:568-616 | on the same rows the manual path decides exactly what the automatic one would |
| LedgerInvariant.DisposeKeepsInv | crates/gateway-storage/src/operations.rs:761-844 | recording what became of a remainder keeps the tables consistent |
| LedgerInvariant.AddTransferKeepsInv | crates/gateway-storage/src/settlement.rs:153-188 | a new transfer keeps them consistent |
| LedgerInvariant.SweepIsWorld | crates/gateway-storage/src/postgres/quotes.rs:408-615 | the expiry sweep touches statuses only: it never settles an attempt or pays an intent |
| LedgerInvariant.AddAttemptIsWorld | crates/gateway-storage/src/postgres/quotes.rs:618-707 | neither does issuing a quote |
| LedgerMeaning.SettleSays | crates/gateway-storage/src/settlement.rs:371-788 | every answer of the settlement transaction: a transfer that is not pending is left alone, a hold or manual outcome parks it under that name, money lands exactly when collector and statuses admit it and is parked as manual otherwise; landed money is one row, one claim, and a decision, processing state, attempt and intent that say whether the attempt is complete and what is left over |
| LedgerMeaning.AllocateSays | crates/gateway-storage/src/settlement.rs:677-788 | the guards of an allocation on any tables, in order: wrong collector, another intent’s transfer, more than the transfer carries, a row already there, an empty amount, closed rows |
| LedgerMeaning.PlanSays | crates/gateway-storage/src/operations.rs:509-624 | exactly when an honor can be planned on any tables, and the outcome by what is owed and what is left over |
| LedgerMeaning.HonorSays | crates/gateway-storage/src/operations.rs:626-707 | a planned honor is refused only by what the allocation finds, and then changes nothing |
| LedgerMeaning.CancelSays | crates/gateway-storage/src/postgres/intents.rs:190-247 | exactly when a cancellation goes through, and that it closes exactly the intent’s own awaiting attempts |
| LedgerMeaning.DisposeSays | crates/gateway-storage/src/operations.rs:761-844 | exactly when a remainder can be disposed of: a recorded overpayment still matched, once, for its exact remainder |
| LedgerMeaning.RejectSays | crates/gateway-storage/src/operations.rs:726-759 | exactly when a transfer can be rejected: final and parked |
| LedgerMeaning.RejectOnConsistentTables | crates/gateway-storage/src/operations.rs:726-758 | on consistent tables the parked state of a final transfer alone decides; the count of its allocations never does |
| LedgerMeaning.UnresolvedSays | crates/gateway-storage/src/settlement.rs:417-491 | only a pending transfer is handed to a person, and only its state changes |
| LedgerMeaning.SweepSays | crates/gateway-storage/src/postgres/quotes.rs:408-615 | the sweep expires exactly an awaiting attempt, and its intent when that was awaiting |
| LedgerMeaning.AddAttemptSays | crates/gateway-storage/src/postgres/quotes.rs:618-707 | exactly when an attempt is opened, and that its intent awaits again |
| LedgerMeaning.AddTransferSays | crates/gateway-storage/src/verification.rs:444-600 | a verified transfer enters once, canonical, pending and unspent, and a repeat changes nothing |
| LedgerRuns.EveryRunIsSafe | crates/gateway-application/src/settlement.rs:97-143 | conservation over every run from empty tables: every money decision splits its transfer exactly and equals its allocation, a transfer is allocated at most once and never beyond its amount, an intent is paid at most once and announced exactly once |
| LedgerRuns.RunKeepsInv | crates/gateway-application/src/settlement.rs:230-308 | the same from any consistent tables, with decisions in flight that were taken from older snapshots |
| LedgerRuns.SettleRow | crates/gateway-storage/src/settlement.rs:560-621 | a settlement answers with a money record exactly when it allocated its command’s one row, and completes the attempt exactly when the outcome does |
| LedgerRuns.HonorRow | crates/gateway-storage/src/operations.rs:626-707 | an honor changes nothing or allocates the lesser of what is owed and what the transfer carries |
| LedgerRuns.StepRow | crates/gateway-application/src/settlement.rs:97-143 | every step allocates at most one row, only to an open attempt and from an undecided transfer |
| LedgerRuns.SettledIsFinal | crates/gateway-storage/src/settlement.rs:986-1079 | in every run a settled attempt stays settled and its total never changes: it completes at most once |
| LedgerFinality.DecidedOnce | crates/gateway-storage/src/operations.rs:726-759 | over every run a settled or resolved transfer stays exactly so, and once anything is decided about a transfer its allocations never change; a rejected transfer never pays anyone |
| LedgerCancellation.CancelledForGood | crates/gateway-storage/src/postgres/intents.rs:190-247 | a cancellation goes through exactly when the status allows it and nothing was claimed or decided; then after any run, decisions in flight included, the intent stays cancelled and unpaid and none of its attempts, expired ones included, holds anything |
| LedgerBounds.BoundedExactly | crates/gateway-application/src/settlement.rs:230-308 | after any run of settlements on older snapshots, honors, rejections, dispositions and sweeps: no attempt holds more than it expects and each is settled exactly when it holds all of it, if and only if every commit that landed was fresh when it completed its attempt and left something owed when it did not |
| LedgerBounds.EveryRunBoundedExactly | crates/gateway-application/src/settlement.rs:230-308 | the same for every run from empty tables |
| LedgerBounds.BrokenStays | crates/gateway-storage/src/settlement.rs:371-415 | no step ever repairs an attempt that holds too much or has the wrong status |
| LedgerBounds.FreshRunKeepsBounded | crates/gateway-application/src/settlement.rs:230-308 | in particular runs whose commits find the total their snapshot saw, with any honors between, keep every attempt bounded |
| LedgerBounds.CommitBoundedExactly | crates/gateway-storage/src/settlement.rs:371-407 | one commit keeps every attempt bounded if and only if it does not land, completes on a current snapshot, or is partial and still leaves something owed |
| LedgerBounds.StaleRunOverallocates | crates/gateway-application/src/settlement.rs:260-290 | from consistent tables three ordinary steps allocate 160 to an attempt that expects 100 |
| LedgerBounds.StaleRunStrands | crates/gateway-storage/src/settlement.rs:371-407 | three others leave an attempt with all it expects, not settled, its intent partially paid |
| LedgerTotals.CappedExactly | crates/gateway-application/src/settlement.rs:230-308 | after any run every attempt holds min(expected, sum of the amounts of the transfers in its rows) if and only if every commit that landed allocated what was still owed |
| LedgerTotals.FreshRunKeepsCapped | crates/gateway-application/src/settlement.rs:230-308 | in particular after every run of fresh commits and any honors |
| LedgerTotals.OrderDoesNotMatter | crates/gateway-application/src/settlement.rs:185-228 | two such runs that bring an attempt the same amounts, settled or honored and in whatever order, leave the same total |
| LedgerStore.PassKeepsBounded | crates/gateway-application/src/settlement.rs:185-228 | an uninterrupted settlement pass over any batch keeps every attempt within what it expects |
| LedgerStore.ItemSays | crates/gateway-application/src/settlement.rs:185-308 | what one transfer of a pass comes to, and that its counter names exactly what the commit did |
| LedgerStore.Store.ClaimTransfer | crates/gateway-storage/src/settlement.rs:883-946 | claims the transfer, or parks it with a rejected decision when another intent owns it |
| LedgerStore.Store.AdvanceStatuses | crates/gateway-storage/src/settlement.rs:986-1152 | moves attempt and intent together or refuses |
| LedgerStore.Store.Allocate | crates/gateway-storage/src/settlement.rs:677-788 | table by table the same as the atomic allocation step |
| LedgerStore.Store.Park | crates/gateway-storage/src/settlement.rs:623-673 | table by table the same as finishing without money |
| LedgerStore.Store.Settle | crates/gateway-storage/src/settlement.rs:371-415 | with its roll-back and parking, the same as the atomic settlement step |
| LedgerStore.Store.RecordUnresolved | crates/gateway-storage/src/settlement.rs:417-491 | marks a pending transfer unmatched and nothing else |
| LedgerStore.Store.HonorTransfer | crates/gateway-storage/src/operations.rs:626-707 | with its roll-back, the same as the atomic honor step |
| LedgerStore.Store.RejectTransfer | crates/gateway-storage/src/operations.rs:726-759 | closes a held or unmatched final transfer that allocated nothing, and changes nothing otherwise |
| LedgerStore.Store.RecordDisposition | crates/gateway-storage/src/operations.rs:761-844 | closes a recorded overpayment for exactly its remainder, once, and rolls back otherwise |
| LedgerStore.Store.SettlePending | crates/gateway-application/src/settlement.rs:185-308 | the loop equals the pass function and counts every examined transfer once |
| Lease.TokenNeverDecreases | crates/gateway-storage/src/observations.rs:127-163 | a component’s fence token never goes down and a change of holder moves it up |
| Lease.AcquireExactly | crates/gateway-storage/src/observations.rs:113-166 | exactly who is let in: a free component, its own holder, or anyone once the lease ran out; the row and the grant carry the asker, the asked term and the first, the same or the next token; otherwise nothing changes |
| Lease.TokenCountsTakeovers | crates/gateway-storage/src/observations.rs:113-166 | over every run the token is the first one plus the number of requests by others that came after the lease ran out; with none of those the holder keeps the component |
| Lease.RunKeepsLog | crates/gateway-storage/src/observations.rs:127-163 | for every interleaving of requests at arbitrary clock readings, granted tokens never go down and no token is granted to two holders |
| Lease.TakeoverFences | crates/gateway-storage/src/observations.rs:127-163 | a takeover supersedes every earlier grant |
| Lease.NoWriteAfterTakeover | crates/gateway-storage/src/observations.rs:302-325 | after a takeover no write under an earlier lease commits, whatever happens between and whatever any clock says |
| Lease.WritersTakeTurns | crates/gateway-storage/src/observations.rs:302-325 | if one grant can write and after any run another can, their tokens are in that order; when the holders differ the first never writes again, after any further run and at any clock reading |
| Lease.CursorTokenNeverDecreases | crates/gateway-storage/src/observations.rs:395-457 | over every run a stored cursor is never removed and its token never goes down |
| Lease.NumericLaneNeverRewinds | crates/gateway-storage/src/observations.rs:395-457 | over every run a lane moved only by numeric positions never goes backward |
| Lease.RecordSays | crates/gateway-storage/src/observations.rs:254-440 | every answer of a guarded batch: nothing is written without the lease as it stands in the table, under an older token than the stored cursor’s or with an unreadable position; otherwise all observations are kept, counted as new or known, and the cursor moves unless that takes a numeric lane backward |
| Lease.Store.AcquireComponentLease | crates/gateway-storage/src/observations.rs:113-163 | the upsert in place equals the lease step |
| Lease.Store.InsertObservations | crates/gateway-storage/src/observations.rs:254-295 | the loop stores exactly the batch’s keys, counting new and repeated ones apart |
| Lease.Store.RecordObservations | crates/gateway-storage/src/observations.rs:254-295 | lease check, inserts and cursor move together equal the batch step |
| Price.CompareExactly | crates/gateway-domain/src/price.rs:168-185 | the comparison gives the true order of two rates if and only if both cross products fit in 256 bits or the rates are equal |
| Price.SortOrders | crates/gateway-domain/src/price.rs:143-185 | when any two readings can be compared that way the sort puts rates in true order |
| Price.SortOrdersExactly | crates/gateway-domain/src/price.rs:143-185 | the sort puts the readings in true order however they are listed if and only if any two of them can be compared; otherwise some listing is sorted with the dearer of two in front |
| Price.DeviationIsLeast | crates/gateway-domain/src/price.rs:191-229 | the deviation is the least number of basis points the spread fits in |
| Price.SpreadRefuses | crates/gateway-domain/src/price.rs:206-229 | exactly when the spread of two cross products cannot be stated: 256 bits while scaling, 32 bits in basis points |
| Price.MeanRefuses | crates/gateway-domain/src/price.rs:259-291 | exactly when the mean of two readings cannot be stated |
| Price.RateRefuses | crates/gateway-domain/src/price.rs:143-262 | why there is no rate, exactly: no readings, a spread that cannot be stated or exceeds the ceiling, a mean that cannot be stated |
| Price.MedianIsBetween | crates/gateway-domain/src/price.rs:236-291 | the median lies between the ends and a mean is in lowest terms |
| Price.RateIsMedian | crates/gateway-domain/src/price.rs:237-262 | the rate is the median: at least half of the used rates at or below it and at least half at or above, one of them for an odd count, the exact mean of the middle two for an even one |
| Price.OrderedIsTrustworthy | crates/gateway-domain/src/price.rs:143-166 | a rate whose readings were sorted into true order has every pair of them within the ceiling, lies between lowest and highest and is reduced when it is a mean |
| Price.RateIsTrustworthy | crates/gateway-domain/src/price.rs:143-166 | so it can be trusted for two readings always, and for more when any two of them can be compared |
| Price.DivergedIsReal | crates/gateway-domain/src/price.rs:149-156 | a refusal for divergence names two readings really beyond the ceiling |
| Ratios.GreatestCommonDivisor | crates/gateway-domain/src/price.rs:295-312 | Euclid’s loop returns the greatest common divisor, one for two zeros |
| Ratios.GcdDivides | crates/gateway-domain/src/price.rs:295-312 | it divides both numbers |
| Ratios.GcdGreatest | crates/gateway-domain/src/price.rs:295-312 | every common divisor divides it |
| Ratios.ReduceExact | crates/gateway-domain/src/price.rs:262-290 | reducing keeps the value and leaves no common divisor |
| Aggregation.AggregateSelects | crates/gateway-domain/src/price.rs:95-166 | on success every submitted index is either used or discarded once and with its true reason; the used ones are exactly the newest usable reading of each group, ties to the first submitted; there are at least as many as the policy demands |
| Aggregation.AggregatePrices | crates/gateway-domain/src/price.rs:143-166 | and with two readings used, or comparable ones, the returned price is trustworthy in the sense above and the median of the used readings |
| Aggregation.AggregateRefuses | crates/gateway-domain/src/price.rs:92-141 | exactly when too few sources are demanded or available, counting winners without the loops |
| Aggregation.AggregateDiverges | crates/gateway-domain/src/price.rs:149-156 | a divergence refusal names two winners really too far apart |
| Aggregation.KeepUsable | crates/gateway-domain/src/price.rs:95-114 | the first loop keeps and discards exactly what the rules on age say |
| Price.UsableExactly | crates/gateway-domain/src/price.rs:97-115 | a reading is usable exactly when it is not from the future and less than one second older than the policy’s whole seconds, and stale otherwise |
| Aggregation.KeepNewest | crates/gateway-domain/src/price.rs:115-133 | the second loop’s slots equal the newest reading per group |
| Aggregation.Aggregate | crates/gateway-domain/src/price.rs:87-166 | the whole operation equals its specification |
| Aggregation.OutlierBecomesPrice | crates/gateway-domain/src/price.rs:87-166 | otherwise the ceiling is not enforced: under every policy that takes three sources the whole operation returns a reading of 2^200 between two of one as the price, with deviation zero |
| Quote.SourcesAreIndependent | crates/gateway-domain/src/quote.rs:314-327 | the counting test accepts exactly at least two entries that each name a group, none twice |
| Quote.BuildIssues | crates/gateway-domain/src/quote.rs:134-206 | a quote is issued exactly on present, valid, fresh, healthy, independent evidence whose amount and deadlines can be represented; it asks for the least sufficient amount until exactly ttl and late window from now |
| Quote.BuildRefuses | crates/gateway-domain/src/quote.rs:134-206 | which refusal, exactly: missing, invalid, stale, unhealthy, unaddressed or dependent evidence in that order |
| Quote.QuoteWithinReadings | crates/gateway-domain/src/quote.rs:167-170 | the base amount lies between those the lowest and highest used rates would give |
| Evidence.ContestedIsDisagreement | crates/gateway-domain/src/verification.rs:433-446 | more than one distinct value is exactly two readings that report the field differently |
| Evidence.ConfirmationsAreDepth | crates/gateway-domain/src/verification.rs:506-514 | confirmations are the deepest head above the block, never negative |
| Verification.ConflictsExactly | crates/gateway-domain/src/verification.rs:389-446 | a field is reported as conflicting exactly when two readings clash on it |
| Verification.VerifiedExactly | crates/gateway-domain/src/verification.rs:243-325 | a fact is created exactly when the readings are of one event and the genuine ones agree, are settleable, include a re-read, come from enough groups, are recent, and one has full block identity |
| VerdictMeaning.VerifySays | crates/gateway-domain/src/verification.rs:240-330 | every answer on the genuine readings’ own fields: mixed events, conflicts, the three refusals and the five insufficiencies each exactly when, in order; a verified fact with its source reading, state, roles, groups, own node, depth and version; and exactly the other principals’ readings discarded |
| VerdictMeaning.StateIsSaid | crates/gateway-domain/src/verification.rs:297-311 | final exactly with a claim at least as strong as required and the required depth, else confirmed exactly on a confirmed or final claim, else canonical |
| VerdictMeaning.FactIsTaken | crates/gateway-domain/src/verification.rs:467-504 | every field of the fact is that of one reading that names its block: of the best lane, re-read before scan before sighting, and of those the last |
| VerdictMeaning.RolesAreSaid | crates/gateway-domain/src/verification.rs:516-530 | each observation attests once, by its last reading: re-reads verify again, other final readings speak for finality, the rest detected |
| Verification.ConflictedStays | crates/gateway-domain/src/verification.rs:243-325 | as evidence grows a conflicted verdict stays conflicted, over at least the same fields |
| Verification.RejectedStays | crates/gateway-domain/src/verification.rs:243-325 | a rejected verdict later is rejected or conflicted, never anything else |
| Verification.VerifiedOnlyAdvances | crates/gateway-domain/src/verification.rs:243-325 | two verified verdicts on growing evidence state the same facts; state, confirmations and groups do not go down |
| Verification.StateGrows | crates/gateway-domain/src/chain.rs:342-356 | and the later state is reached from the earlier by allowed transitions |
| Verification.TransitionsGoForward | crates/gateway-domain/src/chain.rs:348-356 | nothing follows invalidation, invalidation may follow anything else, and every other transition goes exactly one level up |
| Verification.EnsureOneEvent | crates/gateway-domain/src/verification.rs:370-387 | the loop accepts exactly readings of one event |
| Verification.Screen | crates/gateway-domain/src/verification.rs:250-265 | the filter keeps genuine readings in order and lists the others |
| Verification.CollectItems | crates/gateway-domain/src/verification.rs:433-446 | the items of one field, in order |
| Verification.CollectConflicts | crates/gateway-domain/src/verification.rs:433-446 | the loop over the compared fields equals the conflict list |
| Verification.AttestationRoles | crates/gateway-domain/src/verification.rs:516-529 | one role per observation, the last reading deciding |
| Verification.VerifyReadings | crates/gateway-domain/src/verification.rs:243-325 | the whole operation equals its specification |
| VerdictOrder.VerdictIgnoresOrder | crates/gateway-domain/src/verification.rs:243-325 | the same readings in any order and multiplicity give the same verdict, reasons, compared facts, roles, state and confirmations |
| VerdictOrder.ImpersonationIsIgnored | crates/gateway-domain/src/verification.rs:250-265 | readings by a wrong principal change nothing but the discard list |
| VerdictOrder.OrderDecidesUncompared | crates/gateway-domain/src/verification.rs:467-504 | the whole canonical transfer is independent of order if and only if the best complete readings agree on every field |
| VerdictOrder.BlockTimeFollowsOrder | crates/gateway-domain/src/verification.rs:467-504 | two agreeing re-reads by different sources with different block times verify to two different facts, by the order they are listed in |
| OutboxRows.ClaimIsFair | crates/gateway-storage/src/outbox.rs:109-155 | a claim takes only due rows, at most the limit, at most the bound of any merchant, and never a merchant’s later event over an earlier due one |
| OutboxRows.EarlierFirst | crates/gateway-storage/src/outbox.rs:109-155 | by availability and then identity, no earlier due row of a merchant is left behind for a later one, and only live, available rows that are free or past their window are taken |
| OutboxRows.ClaimIsComplete | crates/gateway-storage/src/outbox.rs:109-155 | with room for all, everything due is taken |
| OutboxRuns.BackoffDoubles | crates/gateway-application/src/outbox.rs:563-567 | one minute, doubling per attempt up to 128 minutes; the six-hour cap is never reached |
| OutboxRuns.EnqueueSays | crates/gateway-storage/src/settlement.rs:1244-1277 | an event enters once, live, due at once and with no attempt made |
| OutboxRuns.OneWorkerAtATime | crates/gateway-storage/src/outbox.rs:85-155 | over every run whose claims find no task held beyond its window on a due row, no event is in two workers’ hands |
| OutboxRuns.LateTaskIsSharedOut | crates/gateway-storage/src/outbox.rs:85-155 | and without that the next roomy claim hands the event to a second worker |
| OutboxRuns.ClaimIsSafeExactly | crates/gateway-storage/src/outbox.rs:85-155 | exactly: a claim by anyone and of any size keeps every event in one worker’s hands if and only if nobody holds a task beyond its window on a row that is due |
| OutboxRuns.FinalRowsStay | crates/gateway-storage/src/outbox.rs:213-288 | over every run a delivered or dead-lettered row never changes again |
| OutboxRuns.DeadLetteredOnTheLastAttempt | crates/gateway-application/src/outbox.rs:353-434 | over every such run an event that always fails is dead-lettered on exactly its max-attempts-th completed cycle above the floor |
| OutboxDelivery.GroupedPartitions | crates/gateway-application/src/outbox.rs:320-330 | one queue per merchant holding exactly that merchant’s events in order |
| OutboxDelivery.GroupedKeepsAll | crates/gateway-application/src/outbox.rs:320-330 | no event is lost or queued twice |
| OutboxDelivery.PassBalances | crates/gateway-application/src/outbox.rs:331-350 | a successful pass has claimed = delivered + rescheduled + dead-lettered, without saturation |
| OutboxDelivery.PassCompletes | crates/gateway-application/src/outbox.rs:331-434 | a successful pass completes each claimed row exactly once as its own event fared, whatever order the merchants ran in |
| OutboxDelivery.KeepsFirstError | crates/gateway-application/src/outbox.rs:335-350 | the error returned is the first in merchant order |
| OutboxDelivery.GroupByMerchant | crates/gateway-application/src/outbox.rs:320-330 | the grouping loop equals its specification |
| OutboxDelivery.AbsorbOutcomes | crates/gateway-application/src/outbox.rs:335-350 | the reporting loop equals its specification |
| OutboxDelivery.ListBatch | crates/gateway-storage/src/outbox.rs:133-155 | the returned events are the taken rows, each once, as they stood before the claim |
| OutboxService.Outbox.ClaimDueEvents | crates/gateway-storage/src/outbox.rs:85-155 | claims exactly the chosen rows until the window ends, or fails without touching any |
| OutboxService.Outbox.DeliverMerchant | crates/gateway-application/src/outbox.rs:353-434 | counters and rows equal their specification, stopping at the first failure |
| OutboxService.Outbox.DeliverGroups | crates/gateway-application/src/outbox.rs:331-337 | run one after another, every merchant runs to its end and outcomes keep merchant order |
| OutboxInterleaving.AnyInterleaving | crates/gateway-application/src/outbox.rs:331-337 | every interleaving of the merchants that runs each to its end or its failure leaves the same rows as running them one after another, and a merchant is through exactly when its outcome is a report |
| OutboxService.Outbox.DeliverDue | crates/gateway-application/src/outbox.rs:305-350 | on success the report accounts for exactly the chosen rows, each of which is completed by its own fate while no other row changed |
| OutboxOutcome.PassSays | crates/gateway-application/src/outbox.rs:305-434 | of a pass without error, on the rows themselves: delivered exactly with a listening endpoint that accepted, dead exactly with no merchant, nobody listening or the last attempt failed, otherwise available again after the backoff, with the reason; and the counters are the sizes of those sets |
| OutboxOutcome.ShareSays | crates/gateway-application/src/outbox.rs:353-434 | of one merchant’s share, failing or not: an event is handled exactly when neither its work nor an earlier event’s fails |
| OutboxOutcome.FateFails | crates/gateway-application/src/outbox.rs:353-434 | exactly when an event’s work fails: lookup, send or an unrepresentable retry |
| BoundedJoin.Join | crates/gateway-application/src/outbox.rs:168-202 | every output once and in input order; every future polled in exactly as many sweeps as it needs; and each sweep polls exactly the first min(max(limit, 1), unfinished) of the unfinished futures |
| BoundedJoin.Sweep | crates/gateway-application/src/outbox.rs:185-196 | a sweep with swap-removal polls each running future exactly once |
| BoundedJoin.StartNext | crates/gateway-application/src/outbox.rs:175-181 | fills free places with the next futures and no more |
| RateLimit.NoOverflow | crates/gateway-http/src/rate_limit.rs:115-134 | no product reaches 128 bits for any duration and 32-bit limit, so nothing saturates or wraps |
| RateLimit.EvictionIsUnobservable | crates/gateway-http/src/rate_limit.rs:137-173 | for calls in order of time by any keys, dropping full buckets never changes an answer |
| RateLimit.TakeRemembers | crates/gateway-http/src/rate_limit.rs:137-157 | exactly which buckets a take remembers: all below a hundred thousand keys or for a known key, otherwise those not full again |
| RateLimit.WaitIsLeast | crates/gateway-http/src/rate_limit.rs:128-157 | after a refused take and s seconds in which nobody takes from the key, whatever calls other keys make and whichever buckets are evicted, the next take is granted if and only if s is at least the named wait |
| RateLimit.PeekWaitSuffices | crates/gateway-http/src/rate_limit.rs:159-173 | the wait of a refused look is enough and at most one second too long |
| RateLimit.PeekGrantsExactly | crates/gateway-http/src/rate_limit.rs:159-173 | after a refused look and s quiet seconds there is a token if and only if the fraction of a unit already earned and the gain of s seconds cover what was missing |
| RateLimit.PeekWaitExactly | crates/gateway-http/src/rate_limit.rs:159-173 | so the wait of a look is the least one if and only if that fraction and one second less do not cover it |
| RateLimit.PeekWaitMayBeLong | crates/gateway-http/src/rate_limit.rs:159-173 | a look that says two seconds when one is enough |
| RateLimit.WindowBound | crates/gateway-http/src/rate_limit.rs:119-156 | any window of T ms grants a key at most limit + floor(limit × T ÷ 60000), whatever the buckets held and whoever else calls |
| RateLimit.Budget.PerMinute | crates/gateway-http/src/rate_limit.rs:108-113 | starts with no buckets |
| RateLimit.Budget.TakeToken | crates/gateway-http/src/rate_limit.rs:137-156 | updates the bucket map exactly as the specification says |
| RateLimit.Budget.EvictFull | crates/gateway-http/src/rate_limit.rs:143-145 | keeps exactly the buckets that are not full |
| RateLimit.Budget.HasTokenNow | crates/gateway-http/src/rate_limit.rs:159-173 | answers without changing anything |
| Base58.DecodeEncode | tools/chain-simulator/simulator.py:59-77 | decoding an encoding gives back every byte string, leading zeros included |
| Base58.EncodeDecode | tools/chain-simulator/simulator.py:59-77 | encoding a decoding gives back every text over the alphabet, leading ones included |
| Base58.MinimalBytes | tools/chain-simulator/simulator.py:76 | the byte count taken from the bit length is exactly enough |
| Base58.EncodeBytes | tools/chain-simulator/simulator.py:59-66 | the division loop equals its specification |
| Base58.ReadNumber | tools/chain-simulator/simulator.py:69-74 | the multiplication loop reads the number or finds a foreign character |
| Base58.DecodeText | tools/chain-simulator/simulator.py:69-77 | the whole decoder equals its specification |
| Base58.AcceptedExactly | tools/chain-simulator/simulator.py:84-103 | a text is accepted as an address exactly when, spaces aside, it is what printing that address gives |
| Base58.StripStartSays | tools/chain-simulator/simulator.py:96 | exactly the spaces in front are taken off |
| Base58.StripEndSays | tools/chain-simulator/simulator.py:96 | exactly the spaces at the end are taken off |
| Base58.AddressRefusals | tools/chain-simulator/simulator.py:84-103 | every refusal of a text and of an address exactly when, in order |
| Base58.AddressRoundTrip | tools/chain-simulator/simulator.py:84-103 | printing then parsing is the identity on every 21-byte 0x41 address, for any 4-byte checksum |
| Base58Alphabet.AlphabetIsGlyphs | tools/chain-simulator/simulator.py:49-50 | the alphabet, position by position |
| Base58Alphabet.AlphabetMembers | tools/chain-simulator/simulator.py:49-50 | and nothing else belongs to it |
| Accounting.ExportTotals | crates/gateway-application/src/accounting.rs:188-246 | sorted rows, exactly one per asset and currency that occurs, each the sum of its days in every field |
| Accounting.SumsAreFieldwise | crates/gateway-application/src/accounting.rs:188-246 | each of the six figures of a total is the sum of that figure over its days |
| Accounting.TextLeSays | crates/gateway-application/src/accounting.rs:242-244 | the order of the rows is dictionary order on the currency |
| Accounting.ExportBalances | crates/gateway-application/src/accounting.rs:246-277 | balanced if and only if decisions and control rows name the same assets with the same sums, no asset twice; no assumption on the control rows is needed |
| Accounting.ExportRefused | crates/gateway-application/src/accounting.rs:193-262 | refused exactly when a running sum or an asset’s whole sum cannot be represented |
| Accounting.TotalsConserve | crates/gateway-application/src/accounting.rs:197-241 | totals carry every allocated unit, asset by asset |
| Accounting.AddUp | crates/gateway-application/src/accounting.rs:196-241 | the first loop equals its specification |
| Accounting.SumPerAsset | crates/gateway-application/src/accounting.rs:246-259 | the second loop equals its specification |
| Accounting.Build | crates/gateway-application/src/accounting.rs:188-277 | the whole operation equals its specification |
| Csv.RowsRead | crates/gateway-application/src/accounting.rs:356-393 | reading written rows with the grammar in section 2 of RFC 4180 gives back exactly those rows, each field defused |
| Csv.FieldReads | crates/gateway-application/src/accounting.rs:370-393 | every field, whatever commas, quotes or line breaks it holds, reads back as its defused text |
| Csv.DefusedIsInert | crates/gateway-application/src/accounting.rs:370-379 | no field a reader sees starts a formula |
| Csv.QuotedWhenNeeded | crates/gateway-application/src/accounting.rs:370-393 | a field is quoted exactly when it holds a comma, quote or line break |
| Csv.DefuseCollides | crates/gateway-application/src/accounting.rs:370-379 | two texts are written alike exactly when they are equal or one is the other behind its guarding apostrophe |
| Csv.WriteField | crates/gateway-application/src/accounting.rs:370-393 | the quoting loop equals its specification |
| Csv.PushRow | crates/gateway-application/src/accounting.rs:356-364 | appends the record to the buffer |
| Csv.WriteRows | crates/gateway-application/src/accounting.rs:285-354 | the record loop equals its specification |
| CsvExport.ExportReads | crates/gateway-application/src/accounting.rs:279-354 | the file reads as the header and one thirteen-field record per day, total and control |
| CsvExport.DayColumns | crates/gateway-application/src/accounting.rs:285-354 | every column of a day’s row holds what the header names |
| CsvExport.TotalColumns | crates/gateway-application/src/accounting.rs:285-354 | and of a total’s row, without day and merchant |
| CsvExport.ControlColumns | crates/gateway-application/src/accounting.rs:330-350 | a control’s row names its asset, its rows, its sum and the verdict, and nothing else |
| CsvExport.NumbersAreInert | crates/gateway-application/src/accounting.rs:370-393 | amounts are written as they are; only a negative fiat sum gets an apostrophe |
| CsvExport.ToCsv | crates/gateway-application/src/accounting.rs:285-354 | writes exactly those rows |
| HonorApproval.DualControlHolds | crates/gateway-application/src/operations.rs:473-586 | over every run with a fixed threshold each honor at or above it rests on exactly one approved proposal for that very request whose proposer key is not the executing key |
| HonorApproval.RunExtends | crates/gateway-storage/src/honor_proposals.rs:154-422 | over every run resolution rows never change and a proposal that left pending never changes again |
| HonorApproval.OneRowOnePayment | crates/gateway-storage/src/honor_proposals.rs:270-362 | a call pays nothing and adds no resolution row, or adds exactly one and pays exactly what it says |
| HonorPayments.DeskPaysItsRows | crates/gateway-storage/src/honor_proposals.rs:270-362 | over every run the allocations made by the desk are, in order, the payments of exactly the resolution rows it added, each once |
| HonorPayments.EveryPaymentIsAccounted | crates/gateway-application/src/operations.rs:473-586 | from a desk with no history every row at or above the threshold also rests on one approved proposal by another key, and no proposal carries two rows |
| HonorApproval.ApprovalReplays | crates/gateway-storage/src/honor_proposals.rs:283-308 | however much happens between, repeating an approval returns the first result and changes nothing |
| HonorApproval.ResolutionReplays | crates/gateway-storage/src/operations.rs:366-441 | so does repeating a direct decision |
| HonorApproval.OnePendingPerTransfer | crates/gateway-storage/src/honor_proposals.rs:195-250 | over every run at most one proposal per transfer is pending |
| HonorMeaning.ApproveSays | crates/gateway-storage/src/honor_proposals.rs:270-362 | exactly when an approval goes through (another key, pending, before it runs out, the honor itself possible), which refusal otherwise, and what row and closed proposal it leaves |
| HonorMeaning.ProposeSays | crates/gateway-storage/src/honor_proposals.rs:154-268 | exactly when a proposal is recorded, that it waits one day, and which overdue ones it closes |
| HonorMeaning.ResolveSays | crates/gateway-application/src/operations.rs:473-527 | exactly when a direct decision is refused, replayed or carried out |
| HonorMeaning.RejectSays | crates/gateway-storage/src/honor_proposals.rs:364-422 | exactly when a rejection closes a proposal or repeats one |
| HonorMeaning.DecidedInTime | crates/gateway-storage/src/honor_proposals.rs:270-362 | over every run no proposal is approved once it ran out and none expires before |
| HonorDesk.Store.ResolveManual | crates/gateway-application/src/operations.rs:473-500 | checks and tables in order equal the specification |
| HonorDesk.Store.ProposeHonor | crates/gateway-storage/src/honor_proposals.rs:154-268 | replay, plan, expiry of overdue rows, uniqueness and insert equal the specification |
| HonorDesk.Store.ApproveHonor | crates/gateway-storage/src/honor_proposals.rs:270-362 | replay, checks, honor and closing in one transaction equal the specification |
| HonorDesk.Store.RejectHonor | crates/gateway-storage/src/honor_proposals.rs:364-422 | replay, checks and closing equal the specification |
| Framing.StreamIsRead | crates/gateway-application/src/operations.rs:799-831 | streams of equally many framed fields decode uniquely, whatever follows |
| Framing.ManualStreams | crates/gateway-application/src/operations.rs:799-831 | two manual commands feed the digest the same bytes exactly when they are the same command, an empty reference counting as none |
| Framing.ManualLayout | crates/gateway-application/src/operations.rs:799-834 | the nine texts a command feeds, in order, with the gateway’s words |
| Framing.ValidatedStreams | crates/gateway-application/src/operations.rs:761-830 | distinct commands feed distinct bytes once no reference is empty, which validation sees to |
| Framing.ClaimStreams | crates/gateway-domain/src/chain.rs:288-316 | two observation claims feed the same bytes exactly when they agree up to empty block hashes and memos, a head of minus one, and heads outside re-reads, although one kind has an extra field |
| Framing.ClaimLayout | crates/gateway-domain/src/chain.rs:288-310 | the texts a claim feeds, each at its place, absent ones empty |
| Framing.ClaimWords | crates/gateway-domain/src/chain.rs:299-304 | with the gateway’s words for the kind of read and its finality |
| Framing.RereadStreams | crates/gateway-domain/src/chain.rs:288-316 | without those, distinct re-reads feed distinct bytes |
| Framing.Feed | crates/gateway-domain/src/chain.rs:289-294 | the feeding loop produces exactly the framed stream |

## Left out

- HTTP routing, authentication, error mapping, settings, start-up, telemetry, health and scheduler loops: input and output plumbing whose properties read off one branch.
- SQL text, isolation levels and locks: a transaction is one atomic step; the unique indexes appear as refusals inside the steps.
- Lock skipping in the outbox claim: a claim takes all the rows its ranking chooses, as it would with no other claim at that instant.
- The order in which a claim returns its rows: the source promises none and `ListBatch` gives any.
- SHA-256, HMAC and webhook signing: only the bytes fed to a digest are modelled; a hash in `HonorApproval` is a number supplied by the caller.
- Events on channels other than webhooks: the outbox rows here are webhook rows.
- Webhook redelivery, which resets the attempt floor of a finished event.
- The sort of more than twenty readings, for which the standard library merges runs: `Price.SortByRate` is the stable insertion sort it uses below that. When the readings can be compared every stable sort gives the same order.
- Settlement.TotalIsCapped: the decision alone, without tables, claims, refusals or honors; `LedgerTotals.CappedExactly` states the total over every run on the tables.
- Settlement.TotalIgnoresOrder: the decision alone; `LedgerTotals.OrderDoesNotMatter` states it over runs.
- OutboxService.Outbox.DeliverGroups: runs the merchants one after another; `OutboxInterleaving.AnyInterleaving` states that every interleaving leaves the same rows.
- UTF-8: lengths of texts count characters, and byte strings stand for encoded text in `Framing`.
- Address keys, UUIDs and transaction hashes: opaque values compared for equality.
- Unicode white space around an address: `Base58.Strip` removes the ASCII kinds.
- Validation of idempotency keys, reasons and the fields each manual command carries before an operator call: length, character and presence checks.
- Overflow of 64-bit fence tokens and 32-bit stored attempt counters.
- Casts of cursor text other than plain digits to a number: they fail the statement here.
- Audit rows, delivery attempt rows and the evidence stored with a proposal: written and never read back by these decisions.
- The calendar period of an export, its row ceiling and its file name.
- Allowed transfer-state transitions relate verdicts only; the money tables keep the finality they are given.
- Risk review, which alone puts an intent on risk hold: the status is read here and no modelled step sets it.
