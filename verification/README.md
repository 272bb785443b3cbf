# Carry accounting, backup recovery and reconciliation

A Dafny model of the parts of this repository that keep money, history or recovery state over
unbounded runs, with proofs of what they guarantee.

| file | what it models |
|---|---|
| `Prelude.dfy`, `Text.dfy` | small data types, rounding, Python's string order, decimal digits |
| `FundingSlots.dfy` | funding timestamps against venue slots: gaps, conservation, the Binance validator |
| `FundingColumns.dfy`, `BorrowIntervals.dfy` | funding spread over bars; borrow over observed intervals |
| `CarrySignal.dfy` | calendar smoothing, the decision fold and the one-event lag |
| `CarryLedger.dfy`, `CarryAccounting.dfy`, `CarryCosts.dfy` | the cash ledger, what it guarantees over a run, and what one position costs and accrues |
| `CarryLiquidation.dfy` | the liquidation pass: closed form and safety |
| `CarryBacktest.dfy`, `CarryMargins.dfy`, `CarryCausality.dfy`, `CarryResults.dfy` | the whole backtest: what it accepts and reads, when it liquidates, no look-ahead, scale, what it reports |
| `Resampling.dfy`, `CandleCache.dfy` | complete-window resampling; the candle cache over refreshes |
| `Reconciliation.dfy`, `ReconciliationProofs.dfy`, `ReconciliationStore.dfy` | funding corrections after stops, exactly once under crashes |
| `LateStops.dfy` | a finished reconciliation followed by stops it did not know |
| `Retention.dfy` | retention of backup sets: pruning in stages is pruning once |
| `BackupSets.dfy`, `BackupCreation.dfy` | manifests, verification, and atomic publication under failures |
| `Recovery.dfy`, `Restore.dfy` | the recovery gate, and a restore step by step behind it; the round trip |
| `LocalPruning.dfy` | local archives: which two stay, receipts before removal, the mirror swap |
| `Evidence.dfy` | the encrypt-once evidence backup over interrupted runs, and its restore |
| `Fingerprint.dfy` | the canonical text a table is hashed from |
| `Acquisition.dfy` | the paged funding download and the as-of join |

Money is exact (`real`), time is integer (nanoseconds for carry, microseconds for backups). Loops
and in-place updates of the source are methods and classes proved against specification
functions; the properties are lemmas about those functions. What the central ones stand for is stated
on inputs and results alone: `SignalsWhenSpaced`, `CostsOfHolding`, `LiquidatedWhenShort`,
`EmitsItsWindows`, `ExactPaymentCorrection`, `StopIsFilledIn`, `ChangeIsCaughtExactly`,
`RestoredStateIsGated`, `AcceptedLikeReached`, `KeepOnStamps`. SHA-256 is an injective constructor,
encryption an invertible one, a JSON document the value it prints. Crashes and exceptions are a
parameter of the procedures: a budget of writes, or the point at which the run is struck, so that
what holds at every exit holds at every intermediate state. The clock, free space, the remote
branch, the venue's server and the contents other programs write are parameters too.

## Findings

Where the code does not do what its tests or comments suggest for every input, the exact condition
is proved.

- **Inferred interval.** With `funding_interval=None` the interval is the median over the whole
  series, so a later event can withdraw an earlier decision (`InferredIntervalLooksAhead`). The
  signals of the first k events are kept exactly when no window with a complete history becomes full,
  or stops being full, under the changed expectation (`SignalsAgreeExactly`), and exactly then no
  policy decides differently for the later events (`NoLookAheadExactly`). An explicit interval always
  keeps them.
- **Early payments.** The jitter of an event against its slot is taken in absolute value, so a payment
  up to a second ahead of its slot is priced with the close of the candle that ends at the slot, still
  forming at that time, where the documentation promises the previous completed candle only
  (`EarlyPaymentLooksAhead`). Prices are known in time exactly when no slot of the first k events begins
  after the k-th (`PricesKnownExactly`); then, with the signals kept, nothing looks ahead
  (`CarryIsCausal`). In any case the look-ahead stays within the tolerance of one second
  (`LookAheadWithinTolerance`).
- **Coverage ratio.** `min_coverage_ratio` never changes a signal, because a missing event already
  rejects the window (`MinCoverageIsInert`).
- **Slot conservation** holds exactly when the interval exceeds three tolerances
  (`ConservationThreshold`).
- **Funding at the last close.** The check on late funding lets a payment at the very close of the
  last bar through, and no bar receives it; nor does any bar receive a payment where bars are missing
  (`LostExactly`). The entry filter uses a payment at the close itself, where the comment says before
  it (`LastKnownIsLatest`).
- **Negative activity.** `borrow_cost_for_intervals` refuses a negative notional or rate but not a
  negative `active`, which then accrues a negative borrow (`AccrualsAreCharges`).
- **Opening costs.** Equity stays positive exactly when 2 (fee + slippage) leverage < 1
  (`SafetyThreshold`). At 1 the pass divides by zero once a position shows, above 1 once a second
  position does and the margin asks for something (`DividesByZeroExactly`). Otherwise, above 1, the run
  is reported with a negative equity and no liquidation, or, without haircut and maintenance, as a
  liquidation whose fee is a positive equity after the ledger has reached zero (`RuinIsReported`).
- **Margin notional.** The scan takes the equity an opening left for the entry equity, the ledger the
  equity before it (`ScanSeesNetEntry`).
- **After a liquidation** decisions and amounts are erased, the lists of entry and exit timestamps
  are not (`EntriesOutliveLiquidation`).
- **Recorded corrections.** An inspection compares only the total of a correction it finds recorded.
  When late stops move what several slots owe and the total stays, it plans nothing and the slots stay
  wrong (`TotalHidesSlots`); a correction that is no longer needed is not compared and stands
  (`CorrectedPaymentTotal`). What a slot is left with is exact, per payment (`CorrectedSlotExactly`) and
  over two runs (`LateStopsExactly`).
- **Resampling in two stages** fails when the first stage emits no window (the result has no time
  index) or a single one (the cadence check wants two rows); otherwise it equals one stage
  (`TwoStagesAreOne`). Off-grid rows are refused, not dropped.
- **Backup listing.** ISO strings sort a whole second after the fractions of the same second
  (`ListingFollowsTime`). Pruning in stages equals pruning once whatever the buckets and the order
  of creation, and also after interrupted prunes (`IncrementalEqualsBatch`).
- **Publication** checks neither that sources are distinct nor that the skew limit is non-negative:
  such a set becomes visible and never verifies (`PublishedSetVerifies`, `SameFileTwiceIsPublished`).
- **Restore retry.** A restore that fails after writing a marker into a separate runtime root is
  refused when repeated, because its own marker is in the way (`RetryExactly`).
- **Future restore time.** A marker written with a restore time more than five seconds ahead of the
  clock is invalid until the clock catches up; the gate stays shut (`FutureRestoreWritesAnInvalidMarker`).
- **Marker flags.** A cleared marker file is accepted when exactly one of its two flags is set, also the
  one of the other scope; everything else it says is what a cleared marker says (`AcceptedLikeReached`).
- **Verification record.** Nothing pins it: it may be changed or taken away and the set still verifies;
  any other change to one file is caught (`ChangeIsCaughtExactly`).
- **Evidence.** Two manifests naming the same archive are backed up and then refused by restore
  (`SharedArchiveIsRefused`).
- **Paged download.** A page shorter than 500 rows ends the download, so a server with shorter pages
  yields one page only (`CompleteExactly`).

## Model

| member | source | states |
|---|---|---|
| Rounding.RoundDiv | src/btcquant/carry.py:137 | rounding a quotient to the nearest integer, ties to even: within half a divisor, and even when exactly half |
| Rounding.RoundDivIsUnique | src/btcquant/carry.py:137 | those two clauses leave one candidate, so rint and round() agree |
| FundingSlots.FundingSlotIsNearest | src/btcquant/carry.py:120-143 | a slot is returned exactly when some multiple of the interval lies within the tolerance, and it is then an aligned, closest one |
| FundingSlots.FundingEventGaps | src/btcquant/carry.py:246-303 | the inventory succeeds exactly on strictly increasing series with a positive interval, and lists the events and pairs off cadence and the gaps, in order; nothing is off cadence exactly when every event and every pair is within tolerance; missing events are those of all gaps |
| FundingSlots.EventsListed | src/btcquant/carry.py:264-272 | an event is listed exactly when it is further than the tolerance from its slot |
| FundingSlots.PairsListed | src/btcquant/carry.py:273-287 | a pair of neighbours is listed exactly when its spacing is further than the tolerance from a whole number of intervals |
| FundingSlots.GapsListed | src/btcquant/carry.py:288-297 | a gap is listed exactly between two neighbours with events missing between them, and says how many |
| FundingSlots.CleanExactly | src/btcquant/carry.py:264-288 | no anomaly is listed exactly when the whole series is on cadence |
| FundingSlots.EventAnomalies | src/btcquant/carry.py:264-272 | the per-event loop computes that list, in the order of the events |
| FundingSlots.PairFindings | src/btcquant/carry.py:273-297 | the pair loop computes both lists, in the order of the pairs |
| FundingSlots.CheckOrdered | src/btcquant/carry.py:80-84 | accepts exactly the strictly increasing indexes; a repeated time is reported as a duplicate |
| FundingSlots.PairSpansItsSlots | src/btcquant/carry.py:273-297 | two clean neighbours lie one slot apart plus the events counted as missing between them, when the interval exceeds three tolerances |
| FundingSlots.ConservationThreshold | src/btcquant/carry.py:246-303 | observed plus missing events equal the slots spanned on every clean series if and only if the interval exceeds three tolerances |
| FundingSlots.LostSlot | src/btcquant/carry.py:273-297 | a clean two-event series on which a slot is lost whenever the interval is at most three tolerances |
| FundingSlots.ValidateBinanceUsdmFunding | src/btcquant/carry.py:390-431 | accepts exactly the series of at least two events lying within one second of consecutive eight-hour slots |
| FundingSlots.ChecksMeanConsecutiveSlots | src/btcquant/carry.py:412-427 | the four checks of the validator together say that the events follow consecutive slots |
| FundingSlots.ValidatedMissesNothing | src/btcquant/carry.py:246-303 | a series the validator accepts has no missing events |
| FundingColumns.AddFundingColumns | src/btcquant/carry.py:518-556 | refuses unordered funding and funding later than the close of the last bar; otherwise each bar gets the payments of its bucket, those at its open, those after it, and the last rate known at its close |
| FundingColumns.PartsAddUp | src/btcquant/carry.py:546-553 | the payment at the open and the later ones make up the funding of the bar |
| FundingColumns.ReceivedIsPaidWithin | src/btcquant/carry.py:546-553 | a bar on whole steps gets what is paid from its open on and before its close: the payment at its very open in one column, the later ones in the other |
| FundingColumns.FundingIsConserved | src/btcquant/carry.py:546-551 | over increasing bars, the column plus what falls in no bar is everything paid: nothing is counted twice |
| FundingColumns.LostExactly | src/btcquant/carry.py:544-551 | over whole-step bars, with or without gaps, an accepted payment falls in no bar exactly when it precedes the first bar, comes where bars are missing, or comes at the very close of the last one |
| FundingColumns.LastKnownIsLatest | src/btcquant/carry.py:554-555 | the entry filter of a bar is the latest payment at or before its close |
| FundingColumns.LastKnownExactly | src/btcquant/carry.py:554-555 | the entry filter is the rate of a payment at or before the close, none of those being later, and is missing exactly when all come later |
| FundingColumns.TooLateExactly | src/btcquant/carry.py:544-545 | over increasing bars, ordered funding is refused exactly when some of it comes after the close of every bar |
| BorrowIntervals.IntervalsTelescope | src/btcquant/carry.py:204-243 | fully active at constant notional and rate, the total borrow depends on the first and last timestamps only |
| BorrowIntervals.AccrualSign | src/btcquant/carry.py:204-243 | an accrual is positive, zero or negative as the activity is, on an interval that is charged for at all; the sign of the activity is not checked |
| BorrowIntervals.AccrualsAreCharges | src/btcquant/carry.py:204-243 | accepted inputs accrue no negative borrow exactly when the activity is non-negative wherever notional and rate are positive |
| CarrySignal.SmoothFundingEvents | src/btcquant/carry.py:306-365 | the two loops give, per event, the signal of the specification with its coverage, and the error cases in order; on events one interval apart, m of which make up the smoothing days, nothing at the first m events and from then on the last m rates added up over those days in years |
| CarrySignal.SignalIsMeanOfDays | src/btcquant/carry.py:332-352 | on any ordered events, with event a the first of the smoothing days that end with event i: a signal exactly when the history goes back that far and a to i are as many as expected, and then their rates added up over those days in years of 365.25 days |
| CarrySignal.CoverageSays | src/btcquant/carry.py:332-365 | the coverage reported beside it: the days it spans, the events expected and found in them, the missing ones, and in order exactly when there is a signal |
| CarrySignal.SignalsWhenSpaced | src/btcquant/carry.py:306-352 | on events one interval apart, m of which make up the smoothing days, the signal is missing at the first m events and then the sum of the last m rates over those days in years, the interval given or inferred |
| CarrySignal.MinCoverageIsInert | src/btcquant/carry.py:336-348 | the minimum coverage ratio never changes a signal: a window with nothing missing has ratio one |
| CarrySignal.CarryAppliedPositions | src/btcquant/carry.py:698-723 | the decision fold and the one-event lag, for an arbitrary decision rule |
| CarrySignal.PositionIsHysteresis | src/btcquant/domain/carry_decision.py:53-77 | with the exit threshold at most the entry threshold, the rule in use is in position exactly when some signal rose above the entry threshold and none since fell below the exit threshold |
| CarrySignal.WindowIsCausal | src/btcquant/carry.py:332-352 | a window that ends by the k-th event sees nothing of later events |
| CarrySignal.SignalsAreCausal | src/btcquant/carry.py:306-365 | with an explicit interval, signals and decisions below k depend on the first k events only, for every policy |
| CarrySignal.SignalsAgreeExactly | src/btcquant/carry.py:92-105 | with an explicit or an inferred interval, the signals of the first k events are the first k signals of all exactly when no window with a complete history is full under one interval and not under the other |
| CarrySignal.SameExpectationSuffices | src/btcquant/carry.py:317-345 | in particular when the later events leave the expected number of events per window as it was |
| CarrySignal.PoliciesTellSignalsApart | src/btcquant/carry.py:698-723 | two signal series give the same decisions under every decision rule exactly when they are equal |
| CarrySignal.InferredIntervalLooksAhead | src/btcquant/carry.py:92-105 | an inferred interval can break that: a third event withdraws the signal and the decision of the second |
| CarrySignal.FlatUntilHistory | src/btcquant/domain/carry_decision.py:31-77 | the rule in use takes no position before a full window of history |
| CarryLedger.PostEvent | src/btcquant/carry.py:795-855 | one turn of the ledger loop: what is posted and what is carried on, as specified; what the amounts are is stated by CarryCosts.CostsOfHolding and CarryCosts.AccrualsOfHolding |
| CarryLedger.CarryFixedPositionAmounts | src/btcquant/carry.py:726-868 | the ledger loop computes the postings, switches and equity of the specification whose properties follow, and raises at the first event whose price is needed and missing |
| CarryCosts.PriceableExactly | src/btcquant/carry.py:769-799 | with prices the ledger is computed exactly when every event that is decided on, or comes right after one that was, has a positive price |
| CarryAccounting.CompoundedReturnsAreEquity | src/btcquant/carry.py:842-881 | initial capital times the running product of one plus the return is the equity the loop carries, through ruin |
| CarryAccounting.ConservationThroughRuin | src/btcquant/carry.py:842-849 | while equity stays positive it is the initial capital plus all amounts, up to and including the ruining event; afterwards it is zero |
| CarryAccounting.SwitchesAndExposure | src/btcquant/carry.py:722-799 | opening means not exposed, closing means still exposed, and an idle event posts nothing |
| CarryAccounting.HoldingIsExposed | src/btcquant/carry.py:722 | a position decided at s and withdrawn at e is exposed at exactly the events after s up to e |
| CarryAccounting.ExposureHasAnEntry | src/btcquant/carry.py:722 | every exposed event belongs to a position that was opened and not yet closed |
| CarryAccounting.TermsFixedAtEntry | src/btcquant/carry.py:825-831 | principal, notional and quantity stay at their entry values while the position is held |
| CarryAccounting.EntryQuantity | src/btcquant/carry.py:825-831 | with prices, the quantity bought is leverage times the equity before the opening costs, divided by the price of the entry event |
| CarryAccounting.BorrowTelescopes | src/btcquant/carry.py:811-817 | at a constant rate the borrow of a position, up to any event it is held to, is (leverage - 1) times entry equity times rate times elapsed time, however many events fall between |
| CarryAccounting.FundingOfHolding | src/btcquant/carry.py:803-811 | in fixed-notional mode a position, closed later or not, has received its entry notional times the rates of exactly the events after its decision |
| CarryAccounting.PricedFundingOfHolding | src/btcquant/carry.py:803-811 | with prices it has received its entry quantity times the sum of price times rate of exactly the same events |
| CarryAccounting.EntriesAndExitsAlternate | src/btcquant/carry.py:795-840 | entries and exits strictly alternate, starting with an entry |
| CarryAccounting.LedgerIsScaleFree | src/btcquant/carry.py:795-855 | multiplying the capital multiplies every amount and equity and leaves every return alone, in both notional modes |
| CarryAccounting.LedgerIsCausal | src/btcquant/carry.py:795-855 | postings, state, entries and exits up to n depend on the first n events only |
| CarryCosts.CostsOfHolding | src/btcquant/carry.py:824-840 | a position pays 2 fee_rate and 2 slippage_bps / 10000, each, on leverage times the positive equity before its opening, and again on what it is worth at its closing: the same amount, or with prices that amount over the entry price times the closing price; nothing in between; and the sums of both over the whole position |
| CarryCosts.CostsOnlyAtSwitches | src/btcquant/carry.py:824-840 | an event that neither opens nor closes is charged no fee and no slippage |
| CarryCosts.AccrualsOfHolding | src/btcquant/carry.py:803-817 | at each event a position is held to, after its opening, it accrues what it is worth there times the funding rate, the same times the basis return, and what was borrowed at its opening times the borrow rate times the years since the event before |
| CarryCosts.OpeningTakesAccruals | src/btcquant/carry.py:820-829 | whatever the exposures are, the notional and the principal of an opening are taken from the equity after the amounts of its event |
| CarryCosts.NothingAccrues | src/btcquant/carry.py:803-817 | an event without exposure accrues nothing, the opening one included |
| CarryLiquidation.CumulativeEquity | src/btcquant/carry.py:881 | the running product of the returns |
| CarryLiquidation.ScanForBreach | src/btcquant/carry.py:882-892 | the scan finds the first undermargined exposed event, with the equity at the entry it belongs to |
| CarryLiquidation.OverwriteFrom | src/btcquant/carry.py:898-901 | one value written at the event and a constant after it, in place |
| CarryLiquidation.ApplyCarryLiquidation | src/btcquant/carry.py:871-904 | the in-place pass carries out the specification below on both series, and leaves them alone when it divides by zero |
| CarryLiquidation.LiquidationClosedForm | src/btcquant/carry.py:892-903 | equity is untouched before the liquidation and frozen at its proceeds from then on |
| CarryLiquidation.UnexposedStep | src/btcquant/carry.py:820-849 | an event without exposure changes equity only by the opening costs |
| CarryLiquidation.SafetyThreshold | src/btcquant/carry.py:826-849 | every equity before liquidation is positive if and only if 2 (fee + slippage) leverage < 1 or no position is ever opened |
| CarryLiquidation.SafeRunIsReported | src/btcquant/carry.py:881-904 | such a run divides by no zero and reports no negative equity |
| CarryLiquidation.ScanSeesNetEntry | src/btcquant/carry.py:882-892 | the notional the scan computes the margin on is the entry notional of the ledger less the opening costs: it takes the equity the opening left, the ledger the equity before it |
| CarryLiquidation.EntryCostOfOneDividesByZero | src/btcquant/carry.py:893-898 | when the opening costs are exactly the whole equity, the event after the first opening divides by zero |
| CarryLiquidation.DividesByZeroExactly | src/btcquant/carry.py:882-898 | the pass divides by zero exactly when the opening costs are the whole equity and some event is exposed, or they are more, haircut or maintenance is positive and a second position is exposed |
| CarryLiquidation.RuinIsReported | src/btcquant/carry.py:882-904 | otherwise, when the opening costs take everything or more: equity below zero at the opening and zero from then on, unreported as a liquidation; or, without haircut and maintenance, a liquidation whose fee on the negative notional is left as equity |
| CarryMargins.LiquidatedWhenShort | src/btcquant/carry.py:882-892 | the account is liquidated at the first event at which its equity is down to leverage times the equity the opening of a position held there left, times haircut plus twice the maintenance rate, and otherwise not at all |
| CarryMargins.EquityWhenLiquidated | src/btcquant/carry.py:892-903 | until then the equity is that of the ledger; from then on it is what twice the liquidation fee on that notional leaves of it, or zero |
| CarryMargins.ReportStopsAtLiquidation | src/btcquant/carry.py:1015-1025 | before the liquidation the report is the ledger; at it only the return changes, to what takes the equity before it to the proceeds; after it no amount, decision or exposure is reported |
| CarryBacktest.ResolvePrices | src/btcquant/carry.py:146-188 | each event is priced from the candle completed when its slot began, or the first event off its slot is reported |
| CarryMargins.FlowReadsItsCandle | src/btcquant/carry.py:146-188 | the ledger gets the own time, funding rate and borrow rate of each event, and as its price the close of the candle that opened one hour before the slot the event is near to |
| CarryMargins.BasisIsSpreadGain | src/btcquant/carry.py:694 | when the spot price has risen by a fraction a and the perpetual by b, the basis return is a - b |
| CarryMargins.AcceptedExactly | src/btcquant/carry.py:636-692 | a run gets past its checks exactly on a non-empty, strictly increasing series with leverage at least 1, haircut, maintenance and liquidation fee in their ranges, smoothing terms that fit, no negative borrow rate, positive prices, and with candles each event within a second of a slot |
| CarryBacktest.RunLedger | src/btcquant/carry.py:985-1036 | ledger, liquidation on copies, and the report, with its failures |
| CarryBacktest.BacktestCarry | src/btcquant/carry.py:907-1036 | the whole run: checks in order, signal, prices, ledger, liquidation, report |
| CarryCausality.LiquidationIsCausal | src/btcquant/carry.py:871-904 | the pass on the first k events is the pass on all of them cut at k |
| CarryCausality.BacktestOfPrefix | src/btcquant/carry.py:907-1036 | the backtest of the first k events succeeds and reports the same about them, whenever their signals are kept |
| CarryCausality.PricesKnownExactly | src/btcquant/carry.py:120-188 | the prices of the first k events do not depend on candles that close after the k-th exactly when none of their slots begins after it: the jitter of an event ahead of its slot is accepted like that of a late one |
| CarryCausality.AlwaysInTimeExactly | src/btcquant/carry.py:120-188 | that holds at every event along the way exactly when no event comes ahead of its slot |
| CarryCausality.EarlyPaymentLooksAhead | src/btcquant/carry.py:178-186 | a payment half a second ahead of its slot is reported at the close of a candle still forming: two runs that share every candle closed by then disagree on its funding |
| CarryCausality.CarryIsCausal | src/btcquant/carry.py:907-1036 | two backtests that share k events and the candles closed by the k-th agree on decisions, exposures, amounts, returns, equity, switches and liquidation below k, for every policy, when both keep the signals of those events and no slot of theirs begins after the k-th |
| CarryCausality.CarryIsCausalWithInterval | src/btcquant/carry.py:907-1036 | with an explicit funding interval the signals are always kept, and only the slots remain to be asked of |
| CarryCausality.LookAheadWithinTolerance | src/btcquant/carry.py:907-1036 | early events or not, two backtests that keep the signals and share the candles closed up to one second after the k-th event agree below k |
| CarryCausality.NoLookAheadExactly | src/btcquant/carry.py:92-105 | the signals of the first k events are kept exactly when no policy decides differently about them with the later events in sight |
| CarryResults.LiquidationAdjustment | src/btcquant/carry.py:1015-1036 | the reported residual is 0 without liquidation and max(-equity, -2 notional fee) at the liquidating event |
| CarryResults.LiquidationIsScaleFree | src/btcquant/carry.py:881-904 | the pass liquidates at the same event with the same returns under any capital |
| CarryResults.BacktestIsScaleFree | src/btcquant/carry.py:907-1036 | every amount, equity and adjustment of the report scales with the capital, returns and events stay, failures included |
| CarryResults.EntriesOutliveLiquidation | src/btcquant/carry.py:1015-1025 | an entry contradicts the reported decisions exactly when it came after the liquidation: the lists of entries and exits are not trimmed |
| CarryResults.ContradictoryReportExists | src/btcquant/carry.py:1015-1025 | a backtest of four daily events under the rule in use reports an entry at the fourth and no decision there |
| Resampling.CheckStructure | src/btcquant/data_integrity.py:111-186 | accepts exactly the strictly increasing on-grid indexes; gaps are allowed |
| Resampling.WindowRows | src/btcquant/data.py:176-177 | the rows of one window, in order |
| Resampling.MatchesTicks | src/btcquant/data.py:170-178 | the positional comparison with the expected index of the window |
| Resampling.AggregateGroup | src/btcquant/data.py:181-192 | the loop over one group computes the specified fold of a complete window; what that bar says is stated by Resampling.EmitsItsWindows |
| Resampling.GroupIsComplete | src/btcquant/data.py:170-180 | that comparison recognises exactly the windows whose bars are all present |
| Resampling.ResampleWindows | src/btcquant/data.py:165-193 | the loop emits exactly the complete windows, aggregated and in order, and lists exactly the others between the first and last bar |
| Resampling.EmitsItsWindows | src/btcquant/data.py:165-193 | each emitted bar has the open of the row at its time, the close of the row one source step before its end, the highest high and lowest low of the rows in between, both attained, and the sum of their volumes; a window is emitted exactly when every grid time in it has a row |
| Resampling.Resample | src/btcquant/data.py:129-203 | the call as a whole, error cases in order: each emitted bar opens with the first row of its window, closes with the last, bounds the rows and attains its high and low, and adds up their volume; the windows with nothing missing are emitted, the other ones that overlap the rows are listed; a result without windows has lost its time index |
| Resampling.ResampleSucceedsExactly | src/btcquant/data.py:129-165 | a call succeeds exactly on a frame with a time index that is empty, or has two rows or more, each on the grid and later than the one before, with a window that is a positive multiple of the source step |
| Resampling.ResampleIsDetermined | src/btcquant/data.py:129-203 | that contract leaves one answer |
| Resampling.AggregateSplits | src/btcquant/data.py:181-192 | the aggregate of two adjacent stretches joins their aggregates |
| Resampling.CoarseWindow | src/btcquant/data.py:168-192 | a window of coarse bars is complete exactly when its fine bars are, and aggregates to the same bar |
| Resampling.ResamplingComposes | src/btcquant/data.py:129-203 | resampling to a and then to a multiple b emits the windows and values of resampling to b, whatever gaps there are |
| Resampling.TwoStagesAreOne | src/btcquant/data.py:129-203 | two calls succeed exactly when the input is empty or has at least two complete windows of a, and then equal one call |
| CandleCache.Cache.Load | src/btcquant/data.py:84-126 | what a load stores, returns and refuses |
| CandleCache.MergeKeepsEarlier | src/btcquant/data.py:109-118 | a merge is refused exactly when the new rows reach back before the last cached one; otherwise the cached rows before the first new one stay and the new ones follow |
| CandleCache.RefreshIsDownload | src/btcquant/data.py:109-118 | a refresh turns one snapshot of the exchange into the next: only the forming candle is replaced |
| CandleCache.AnyRefreshesAreOneDownload | src/btcquant/data.py:96-126 | after any number of refreshes the cache is what one download would give, and the rows handed out are final |
| Reconciliation.SortTimelineSorts | scripts/reconcile_trend_stop_funding.py:88-89 | the repaired timeline is sorted and holds the same transitions, each as often |
| Reconciliation.ExposureIsLatest | scripts/reconcile_trend_stop_funding.py:28-34 | on a sorted timeline the exposure is the latest transition at or before the point |
| Reconciliation.ExposureIsInForce | scripts/reconcile_trend_stop_funding.py:28-34 | on any timeline it is the last listed transition not after the point, and there is none exactly when all are later |
| Reconciliation.CloseExactly | scripts/reconcile_trend_stop_funding.py:75-77 | two amounts count as equal exactly when they differ by at most the absolute tolerance or by a billionth of either of them |
| ReconciliationProofs.RepairKeepsOrder | scripts/reconcile_trend_stop_funding.py:60-97 | repair keeps every timeline in order |
| ReconciliationProofs.StopIsFilledIn | scripts/reconcile_trend_stop_funding.py:67-89 | a repaired stop holds from its exit until the next transition, with the remaining quantity in the direction of the exposure it ends, which was not zero and less the fill is the remainder; everywhere else the timeline holds what it held |
| ReconciliationProofs.StopAcceptedExactly | scripts/reconcile_trend_stop_funding.py:60-80 | a stop is accepted exactly when its checkpoint is intact, its slot known and, unless its intent is on the timeline already, the exposure it ends is not zero, less the fill is the remainder, and belongs to the entry of its trade |
| ReconciliationProofs.RepairIsIdempotent | scripts/reconcile_trend_stop_funding.py:67-68 | on rebuilt timelines every stop is already known |
| ReconciliationProofs.CorrectionKeyIsNotAPayment | scripts/reconcile_trend_stop_funding.py:25-113 | the event of a correction is never taken for a payment |
| ReconciliationProofs.AdjustAfter | scripts/reconcile_trend_stop_funding.py:106-168 | with the first k corrections recorded, inspection plans exactly the others |
| ReconciliationProofs.PlanAfterWrites | scripts/reconcile_trend_stop_funding.py:183-232 | inspecting again after m writes plans exactly the remaining ones |
| ReconciliationProofs.WritesCompose | scripts/reconcile_trend_stop_funding.py:183-232 | carrying on from there writes what the interrupted run would have written |
| ReconciliationProofs.CrashesOnlyDelay | scripts/reconcile_trend_stop_funding.py:183-232 | any sequence of interrupted attempts leaves a state the uninterrupted run passes through |
| ReconciliationProofs.ExactlyOnce | scripts/reconcile_trend_stop_funding.py:183-232 | once an attempt gets through, the state is that of one uninterrupted run and the next plan is empty |
| ReconciliationProofs.EveryCorrectionIsRecordedOnce | scripts/reconcile_trend_stop_funding.py:148-168 | each correction key is new, recorded with its total, and unlike every other |
| ReconciliationProofs.FinalCash | scripts/reconcile_trend_stop_funding.py:199-201 | the cash of each slot moves by exactly the planned corrections |
| ReconciliationProofs.ExpectedIsOwed | scripts/reconcile_trend_stop_funding.py:134-142 | the expected amount is the signed quantity the timeline holds at the payment times reference price times rate |
| ReconciliationProofs.LegAcceptedExactly | scripts/reconcile_trend_stop_funding.py:119-142 | a leg is accepted exactly when its slot is known, its charge, if it had a quantity, is that quantity times price times rate, and there is a price unless its timeline holds nothing |
| ReconciliationProofs.PaymentAcceptedExactly | scripts/reconcile_trend_stop_funding.py:102-156 | a payment of the trend engine is accepted exactly when its ledger row is there with its total, all its legs are accepted, and a recorded correction, if one is needed, has the total needed |
| ReconciliationProofs.ExactPaymentCorrection | scripts/reconcile_trend_stop_funding.py:114-168 | for a payment whose slots were each charged their own quantity exactly, the plan pays a slot the difference between that quantity and the one its timeline holds, times price times rate, unless it is at most 1e-12: nothing to a slot that held what it was charged for, the whole charge to one that was flat |
| ReconciliationProofs.FundingResidual | scripts/reconcile_trend_stop_funding.py:106-148 | over the payments without a recorded correction, charged minus planned minus due stays within 1e-12 per payment leg |
| ReconciliationProofs.ReconciledFundingIsDue | scripts/reconcile_trend_stop_funding.py:106-232 | on every database, over the payments that had no correction recorded: what a slot was charged less what the run gives back is the sum of the quantity its repaired timeline holds times price times rate, to 1e-12 per leg |
| ReconciliationProofs.CorrectedPaymentTotal | scripts/reconcile_trend_stop_funding.py:144-156 | for a payment corrected before, an accepted inspection means that over all its slots charged minus recorded is due, or that its legs are exact as they stand |
| LateStops.TotalHidesSlots | scripts/reconcile_trend_stop_funding.py:150-156 | only the total of a recorded correction is compared: a correction recorded for one slot passes after late stops although another slot should have 1.0 back and a third should pay it |
| LateStops.LateStopsExactly | scripts/reconcile_trend_stop_funding.py:40-232 | a run, then one with other stops known: over the payments uncorrected at first, what a slot was charged less all it was given is what it now owes, plus what it has come to owe less on the payments the first run corrected, to 1e-12 per leg |
| ReconciliationProofs.CorrectedSlotExactly | scripts/reconcile_trend_stop_funding.py:144-156 | a slot of a payment corrected earlier is off by a remainder of at most 1e-12 plus what it owed then less what it owes now; so a corrected one is settled exactly when what it owes has not moved |
| ReconciliationProofs.SameExposureStaysSettled | scripts/reconcile_trend_stop_funding.py:134-148 | so a slot stays settled while its timeline holds the same quantity at the payment |
| ReconciliationStore.TrendStore.Inspect | scripts/reconcile_trend_stop_funding.py:40-180 | the inspection computes the plan specified above and changes nothing; what that plan gives is stated by ReconciliationProofs.StopIsFilledIn, ExactPaymentCorrection and ReconciledFundingIsDue |
| ReconciliationStore.TrendStore.RepairTimelines | scripts/reconcile_trend_stop_funding.py:52-97 | the stop loop computes the specified repair |
| ReconciliationStore.TrendStore.FindAdjustments | scripts/reconcile_trend_stop_funding.py:98-168 | the payment loop computes the specified adjustments |
| ReconciliationStore.TrendStore.AdjustPayment | scripts/reconcile_trend_stop_funding.py:102-168 | the leg loop computes the specified adjustment of one payment, with its error cases; what it is for exact charges is stated by ReconciliationProofs.ExactPaymentCorrection |
| ReconciliationStore.TrendStore.ApplyEventAndCheckpoint | src/btcquant/execution/state_store.py:2076-2185 | ledger row, checkpoint and event together, or nothing when the key is known |
| ReconciliationStore.TrendStore.ApplyAdjustment | scripts/reconcile_trend_stop_funding.py:199-231 | one adjustment is the next write of the plan, or is refused because its key is recorded |
| ReconciliationStore.TrendStore.ApplyPlan | scripts/reconcile_trend_stop_funding.py:183-232 | a plan carried out up to any number of writes leaves exactly the state after those writes; it refuses a changed checkpoint |
| ReconciliationStore.PayCorrections | scripts/reconcile_trend_stop_funding.py:200-201 | the cash loop applies the specified corrections |
| ReconciliationStore.Reconcile | scripts/reconcile_trend_stop_funding.py:183-232 | inspect, apply, inspect again: wherever it stops, the store is at a point of the uninterrupted run, and a completed run leaves nothing to do |
| Retention.SortKeyIsIsoOrder | src/btcquant/backup.py:1027 | the listing order of ISO strings as a number: a whole second sorts after the fractions of that second |
| Retention.ListingFollowsTime | src/btcquant/backup.py:1027 | the listing puts the later stamp first unless a whole second meets a later fraction of itself |
| Retention.KeepOnStamps | src/btcquant/backup.py:1037-1070 | the set to keep in terms of creation stamps: by place in the listing, or as the first listed of one of the latest days, weeks or months; the detour of a whole second in the listing moves no bucket |
| Retention.KeepIsStable | src/btcquant/backup.py:1046-1080 | deleting nothing that would be kept leaves the set to keep unchanged |
| Retention.NothingKeptIsLost | src/btcquant/backup.py:1046-1080 | along every history of creations and prunes, whatever each prune saw of the sets and wherever it stopped, nothing that one prune over everything would keep is missing |
| Retention.WholePrune | src/btcquant/backup.py:1046-1080 | a prune that sees every set and is not interrupted leaves exactly the set to keep |
| Retention.IncrementalEqualsBatch | src/btcquant/backup.py:1046-1080 | such a prune at the end of any history leaves what one over every set ever created would leave |
| Retention.PruneIsIdempotent | src/btcquant/backup.py:1046-1080 | pruning twice is pruning once |
| Retention.KeepBound | src/btcquant/backup.py:1057-1070 | at most max(1, recent) + daily + weekly + monthly sets are kept |
| Retention.NewestSurvives | src/btcquant/backup.py:1057 | the first of the listing always survives |
| BackupPruning.SortDescending | src/btcquant/backup.py:1027 | newest first |
| BackupPruning.RankInListing | src/btcquant/backup.py:1058 | a position in the listing is the number of newer sets |
| BackupPruning.GroupByBucket | src/btcquant/backup.py:1065-1068 | each bucket holds its members in listing order |
| BackupPruning.BucketHeads | src/btcquant/backup.py:1065-1070 | the bucket loop keeps exactly the newest set of each of the latest buckets |
| BackupPruning.KeepSet | src/btcquant/backup.py:1057-1070 | the loops build exactly the set to keep |
| BackupPruning.BackupRoot.PruneBackupSets | src/btcquant/backup.py:1046-1080 | exactly the trusted sets outside that set are removed, newest first; untrusted ones stay |
| Recovery.ValidateRecoveryMarker | src/btcquant/backup.py:1109-1171 | the checks accept exactly the markers whose lifecycle, flags, evidence and time are consistent |
| Recovery.RecoveryRoot.LoadRecoveryMarker | src/btcquant/backup.py:1174-1197 | absent, valid and invalid markers |
| Recovery.RecoveryRoot.AssertRecoveryClear | src/btcquant/backup.py:1200-1215 | a gate is open exactly without a marker or with a valid cleared one |
| Recovery.RecoveryRoot.WriteRecoveryMarker | src/btcquant/backup.py:1218-1256 | a marker is never overwritten |
| Recovery.RecoveryRoot.AdvanceRecoveryMarker | src/btcquant/backup.py:1259-1310 | what an advance writes, when it is accepted, and that a rejected one changes nothing; other scopes are untouched |
| Recovery.ReachableMarkersAreValid | src/btcquant/backup.py:1109-1310 | every marker the calls can produce passes validation unless its restore time lies beyond the clock tolerance |
| Recovery.FutureRestoreWritesAnInvalidMarker | src/btcquant/backup.py:1119-1124 | a write with such a time produces an invalid marker, which still shuts the gate |
| Recovery.AdvanceAcceptedExactly | src/btcquant/backup.py:1280-1308 | an advance is accepted exactly for the next status with its full evidence and, when clearing, no reconciliation fact withdrawn |
| Recovery.FactsByName | src/btcquant/backup.py:1141-1163 | a marker is verified exactly on the eight facts of trading and shadow, or the five of research, by name, and the gate of a restored scope is open only with all of them and the verification of its marker |
| Recovery.HistoryByName | src/btcquant/backup.py:1124-1141 | the transitions of a marker the calls produced, status by status, by name |
| Recovery.AcceptedLikeReached | src/btcquant/backup.py:1109-1171 | however a marker file came about, it is accepted exactly when it is not from the future and says what a restored, a reconciled or a cleared marker says: more facts may hold, and when cleared exactly one of the two flags is set, whichever it is |
| Recovery.StatusOnlyMovesForward | src/btcquant/backup.py:106-110 | a marker is never removed, keeps its origin and moves REQUIRED, VERIFIED, CLEARED; established facts stay |
| Recovery.ClearedAfterBothSteps | src/btcquant/backup.py:1259-1310 | a cleared scope was restored, then reconciled with every fact of its scope, then cleared, in that order |
| Recovery.GateOpensWhenCleared | src/btcquant/backup.py:1200-1310 | a restored scope opens exactly when cleared; a writer or a search is allowed exactly then, each in its own scope, with all evidence true |
| Recovery.OpenGateStaysOpen | src/btcquant/backup.py:1200-1215 | an open gate of a restored scope stays open |
| BackupSets.ReadManifest | src/btcquant/backup.py:588-640 | accepts exactly the directories whose manifest matches its two hashes, is well formed and names each source once |
| BackupSets.VerifyDirectoryContents | src/btcquant/backup.py:643-675 | accepts exactly the directories that hold each entry with its size, hash and schema and nothing unexpected; returns their total |
| BackupSets.ValidateManifestMetadata | src/btcquant/backup.py:678-707 | the metadata checks, entry by entry |
| BackupSets.VerifyBackupSet | src/btcquant/backup.py:743-807 | a set verifies exactly under all those conditions, and is trusted exactly when its skew is within its limit |
| BackupSets.ManifestPinsContents | src/btcquant/backup.py:643-675 | two sets that verify with the same manifest hold the same bytes for every captured entry |
| BackupSets.VerifiesAgainExactly | src/btcquant/backup.py:743-807 | a verified set verifies again exactly under its own name, not earlier than five seconds before its creation, and under a schema limit not below its own |
| BackupSets.VerifiedEntrySays | src/btcquant/backup.py:643-707 | an absent entry of a verified set was optional and claims nothing; a captured one has its file with its size and hash, a database sound and of the schema stated, the trading database of the schema of the application |
| BackupSets.VerifiedSetSays | src/btcquant/backup.py:588-768 | a verified set has its own name, the hash of its core, 40 lower-case hexadecimal digits of source, an application schema, the sizes of its captured entries added up, and is complete exactly within its skew limit |
| BackupSets.GitShaExactly | src/btcquant/backup.py:216-218 | a source revision is accepted exactly with 40 characters, all lower-case hexadecimal digits |
| BackupSets.ChangeIsCaughtExactly | src/btcquant/backup.py:588-675 | one file of a verified set changed, added or removed: it no longer verifies, unless the file is the verification record, which nothing pins |
| BackupCreation.CaptureSources | src/btcquant/backup.py:893-958 | the capture loop, with its failures and injected ones |
| BackupCreation.BackupStore.Prepare | src/btcquant/backup.py:876-999 | everything before the rename succeeds exactly when the set is publishable and nothing strikes |
| BackupCreation.BackupStore.CreateBackupSet | src/btcquant/backup.py:861-1009 | wherever a failure strikes, the visible sets are the earlier ones or those and the whole new one; success exactly when published, not struck and verifying; every visible set verifies if the sources are distinct and the limit not negative |
| BackupCreation.PublishedSetVerifies | src/btcquant/backup.py:988-1004 | a published set verifies, then and later, exactly when no two sources share a name and the skew limit is not negative |
| BackupCreation.StagedChecksMean | src/btcquant/backup.py:988-989 | the checks on the stage come down to the schema read after each database copy being that of the copy |
| BackupCreation.PublishableExactly | src/btcquant/backup.py:876-999 | exactly which requests with distinct names are published |
| BackupCreation.PublishedSays | src/btcquant/backup.py:893-958 | in a published set a source is absent only if optional, a database was sound in the original and in the copy, and with distinct names the file of each source holds what was captured of it |
| BackupCreation.SkewSpansCaptures | src/btcquant/backup.py:960-973 | the manifest spans the clock readings before and after every capture, both ends attained, its skew is their distance in seconds, and the set is complete exactly when no two readings are further apart than the limit |
| BackupCreation.SameFileTwiceIsPublished | src/btcquant/backup.py:876-1004 | one plain file listed twice passes every check before the rename, and the visible set never verifies |
| Restore.NoDataWithoutItsGate | src/btcquant/backup.py:1343-1414 | wherever a restore stops, raised or killed: a visible destination has every gate its manifest calls for shut, no marker is lost, and the destination appears with the last step only |
| Restore.RestoredStateIsGated | src/btcquant/backup.py:1368-1393 | wherever a restore stops with its files visible: if the manifest lists trading state, the trading marker stands where the runtime looks for it, unverified, allowing neither writer nor search, and its gate is shut; the same for shadow state and the shadow marker, and for research governance and the research marker |
| Restore.NewMarkerHasItsClass | src/btcquant/backup.py:1368-1393 | conversely a trading, shadow or research marker that was nowhere before means that the manifest lists state of that class |
| Restore.EveryStepKeepsGates | src/btcquant/backup.py:1343-1399 | what holds after each single step |
| Restore.RestoreCompletesExactly | src/btcquant/backup.py:1343-1399 | a verified set restores exactly when no marker it must write is already in a separate runtime root |
| Restore.RetryExactly | src/btcquant/backup.py:1368-1404 | after a failed attempt a retry succeeds exactly when no marker had been written |
| Restore.RestoredBytes | src/btcquant/backup.py:1347-1366 | the destination holds each captured entry byte for byte under a target name of its own, and nothing else |
| Restore.RestoredUnderItsName | src/btcquant/backup.py:1347-1366 | each captured entry of a verified set is restored under the file name its classification alone determines, btcquant.db for trading state |
| Restore.RestoreRoot.RunSteps | src/btcquant/backup.py:1343-1404 | the steps end where the step specification says, wherever they are struck |
| Restore.RestoreRoot.RestoreToStaging | src/btcquant/backup.py:1313-1422 | the whole procedure succeeds exactly for a trusted set when destination and stage are free, no marker it must write is in the way and nothing interrupts it; otherwise nothing is touched, or the site is left as specified; whenever it leaves a new destination, trading, shadow and research state are each behind their own shut gate |
| BackupRoundTrip.RestoreReturnsCaptures | src/btcquant/backup.py:861-1422 | a set published from distinct sources and restored gives back each captured file byte for byte, and nothing for absent sources |
| RetainedArchives.NamesSortLikeStamps | scripts/prune_local_backups.py:24-45 | sorting the archive names sorts their day and time |
| RetainedArchives.RetainedNames | scripts/prune_local_backups.py:40-45 | refused exactly without two days; otherwise the latest archive and the latest of the preceding backup day |
| RetainedArchives.RetainedSays | scripts/prune_local_backups.py:40-45 | day by day: the last minute of the last day and the last minute of the last day before it, which exist unless all archives are of one day |
| RetainedArchives.RetainedIsUnique | scripts/prune_local_backups.py:40-45 | that describes one pair |
| LocalRetention.LocalBackups.MayRemove | scripts/prune_local_backups.py:217-241 | a candidate may go exactly when the remote commit and the mirror hold the same archive and record, the record or else the archive itself verifies, and the remote head has not moved |
| LocalRetention.LocalBackups.Remove | scripts/prune_local_backups.py:242-259 | wherever it stops, a deleted archive has a whole receipt whose hash is that of the remote blob |
| LocalRetention.GoneIsStored | scripts/prune_local_backups.py:242-259 | an archive that was there before a run is there unchanged, or a whole receipt has the hash of its bytes and names a commit of the remote that holds them |
| LocalRetention.LocalBackups.Prune | scripts/prune_local_backups.py:183-261 | wherever a run stops, the two retained archives and their records are untouched and every removal is accounted for; a completed run leaves exactly the two |
| MirrorSwap.Mirror.UndoSwap | scripts/prune_local_backups.py:169-173 | the rollback keeps the original, and says when it is back in place |
| MirrorSwap.Mirror.Swap | scripts/prune_local_backups.py:161-180 | the original object store is destroyed only once the replacement is in place and has passed validation |
| Fingerprint.DoubleTextInjective | scripts/fingerprint_state.py:54-61 | float.hex() and the special names tell every two doubles apart, NaN counting once |
| Fingerprint.ValueTextApart | scripts/fingerprint_state.py:45-66 | the JSON text of a tagged value says where it ends and which value it is |
| Fingerprint.RowTextInjective | scripts/fingerprint_state.py:71-78 | two rows with the same text are the same row |
| Fingerprint.RowTextHasNoNewline | scripts/fingerprint_state.py:71-78 | the text of a row has no raw newline (section 7 of RFC 8259) |
| Fingerprint.SortedIsInOrder | scripts/fingerprint_state.py:81 | sorting orders the texts and keeps their multiset |
| Fingerprint.InOrderIsUnique | scripts/fingerprint_state.py:81 | one multiset of texts has one sorted order |
| Fingerprint.FingerprintIsCanonical | scripts/fingerprint_state.py:69-82 | two tables have the same fingerprint exactly when they hold the same rows, each as often; the hashed text alone says as much, without the row count |
| Evidence.EvidenceStore.EncryptVerified | scripts/backup_carry_dated_evidence.py:66-122 | a stored file is checked, a missing one encrypted once, and nothing else changes |
| Evidence.EvidenceStore.StorePair | scripts/backup_carry_dated_evidence.py:163-183 | archive first, then manifest |
| Evidence.EvidenceStore.StoreOne | scripts/backup_carry_dated_evidence.py:142-185 | one manifest, with its refusals |
| Evidence.EvidenceStore.BackupEvidence | scripts/backup_carry_dated_evidence.py:125-186 | wherever a run is cut off, nothing stored was rewritten and everything new came from the verified source; a completed run covers the source, and a run over a verified source with room to finish completes |
| Evidence.EveryStateIsFaithful | scripts/backup_carry_dated_evidence.py:125-186 | along any sequence of interrupted runs over a growing source, everything stored came from it |
| Evidence.NothingIsRewritten | scripts/backup_carry_dated_evidence.py:80-83 | a stored file never changes |
| Evidence.StoredManifestHasArchive | scripts/backup_carry_dated_evidence.py:163-183 | a stored manifest has its archive stored, with the contents it pins |
| Evidence.CompletedRunsAgree | scripts/backup_carry_dated_evidence.py:125-186 | once a run completes, the decrypted contents are those of one clean run |
| Evidence.ExpectedArchives | scripts/backup_carry_dated_evidence.py:255-266 | the names the manifests give, refusing a bad or repeated one |
| Evidence.RestoreEvidence | scripts/backup_carry_dated_evidence.py:189-298 | a restore succeeds exactly when the decrypted folder passes every check, and returns it |
| Evidence.AcceptedFileSays | scripts/backup_carry_dated_evidence.py:250-290 | each file of an accepted folder is a manifest, with the archive it names beside it, of the hash it states and with the records it lists, or an archive that exactly one manifest names |
| Evidence.RestorableExactly | scripts/backup_carry_dated_evidence.py:250-267 | what runs have stored can be restored exactly when there is a manifest, no two name the same archive and no archive lacks its manifest |
| Evidence.RestoreReturnsSource | scripts/backup_carry_dated_evidence.py:189-298 | after a completed history, restore returns the manifests of the source and the archives they name, unchanged |
| Evidence.SharedArchiveIsRefused | scripts/backup_carry_dated_evidence.py:255-266 | a source whose two manifests pin one archive verifies and can be backed up completely, and no restore accepts what was stored |
| Acquisition.Funding | scripts/acquire_carry_v2_data.py:86-125 | the download returns a prefix of the wanted history: all of it, or one page when the server pages are shorter than 500 |
| Acquisition.CompleteExactly | scripts/acquire_carry_v2_data.py:98-117 | nothing is missing exactly when pages reach 500 rows or one page holds everything |
| Acquisition.WantedMembers | scripts/acquire_carry_v2_data.py:105-109 | the wanted history is exactly the events in range that are already known |
| Acquisition.BisectRight | scripts/acquire_carry_v2_data.py:173 | how many candles had closed by then |
| Acquisition.NormalizeFunding | scripts/acquire_carry_v2_data.py:165-186 | each event is joined with the last candle completed by then, or the whole join is refused |
| Acquisition.JoinedSays | scripts/acquire_carry_v2_data.py:173-186 | the price and the time joined to an event are those of a candle closed by then, and no candle closed by then is later; the join is refused exactly when every candle closes later |
| Acquisition.JoinIsCausal | scripts/acquire_carry_v2_data.py:165-186 | candles that close later do not change a price |

## Left out

- Floating-point rounding: money is exact, and NaN and infinities appear only where the code tests for them.
- The statistics of the carry report (Sharpe ratio, CAGR, drawdown, cycle counts) and `CarryPolicy`: derived values without state.
- `funding_event_id`, `load_funding`, `resolve_funding`: file handling and network access around the validator modelled here.
- FundingSlots.FundingEventGaps: the interval is given; inferring it as the median spacing is modelled for the smoothing in CarrySignal only.
- CarrySignal.FlatUntilHistory: the halted, entry-blocked and net-expected switches of the decision rule keep their defaults, as the backtest calls it.
- CarryBacktest.BacktestCarry: the performance statistics of the report.
- Resampling.Resample: inferring the source frequency from the most common spacing, and the cadence dictionary attached to the result.
- CandleCache.Cache.Load: CSV reading and writing, the NaN checks, the paged exchange download, and the cadence check on the returned rows.
- Reconciliation: timeline strings are compared as the times they print, intent identifiers by an integer in the order of their strings.
- ReconciliationStore.TrendStore.ApplyEventAndCheckpoint: a row already recorded under the key is not compared field by field; equal or not, nothing is written and reconciliation stops.
- ReconciliationProofs.ExactlyOnce: assumes distinct payment keys, which the store's unique ledger key provides.
- ReconciliationProofs.CorrectedSlotExactly: the slots of one payment are distinct, because they are the keys of a dictionary.
- Retention.IncrementalEqualsBatch: sets are told apart by their creation stamp; two sets with the same stamp are not modelled.
- The bucket of a date (ISO week, month, day) is an arbitrary function of the second: the theorems need no more.
- Recovery: a marker whose evidence field is not an object is treated as unreadable.
- BackupSets.ReadManifest: the manifest schema version, relative-path and symlink refusals.
- BackupSets.VerifyDirectoryContents: the symlink refusals.
- BackupCreation.BackupStore.CreateBackupSet: sizes, modes, fsync, locks, symlinks, secret-path filters and sub-directories of a set are not modelled; the free-space check is a yes or no.
- Restore.RestoreRoot.RestoreToStaging: a runtime root strictly inside the destination, and a runtime root that cannot be created, are not modelled.
- Restore drills, exports, freshness metrics and writer quiescence of the backup module: single checks over what is modelled here.
- LocalRetention.LocalBackups.Prune: git, the archive reader and the lock are parameters; names with non-ASCII digits are not modelled.
- MirrorSwap.Mirror.Swap: cloning, sparse checkout and the size budget are the single question whether the replacement validates.
- Evidence.RestoreEvidence: the optional database restore, temporary files and symlink checks; what a manifest says of its records is an abstract check.
- Fingerprint.FingerprintIsCanonical: UTF-8 encoding and the hash itself are injective by assumption; texts hold no lone surrogates, which SQLite cannot return.
- Acquisition.Funding: the server answers in time order from the cursor on; the final sort and duplicate checks then have nothing to do.
- Dashboards, exchange clients, research and run scripts, the state store apart from the one transaction above.
