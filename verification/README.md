# Verified models of the trading research platform

This project models the parts of the repository whose correctness spans many calls,
and proves what they promise over every input, every run and every reachable state.

| files | what they model |
|---|---|
| `Basics` | options, clocks and the shape of a content hash |
| `Totals`, `Receipts`, `Budget`, `BudgetProtocol`, `UsageSummary` | the generative call budget: admissions and settlements over an immutable journal and a mutable projection |
| `ForwardFilter`, `RegimeDetector`, `CapturedRegime` | the causal regime filter, its hysteresis and its two stored event paths |
| `NavStore`, `NavReader`, `DailyReturns`, `StrategyReport` | attributed NAV periods, funding anchors, return chains, daily compounding and the published report |
| `CallbackControl` | the random selection control of a callback benchmark |
| `Calendar`, `FoldSplit`, `WalkForward` | month arithmetic, walk-forward folds, purging and the independent split check |
| `Replay` | chronological replay on a resumable ledger |
| `FlexReport`, `FlexCapture` | broker report parsing, the capture writer and its independent reader |
| `DeskMemory`, `Desk` | certified memory, and the desk graph with its veto and exposure flags |

Conventions. An instant is a number of microseconds in UTC, an identity the number
its text spells, a decimal or a float an exact real. A table is a map or a sequence, a
transaction one step. A hash stands for what it hashes, or is an arbitrary function
where a mismatch matters. Engines, samplers, clocks, networks, models and other stores
are arbitrary functions, so the theorems hold for each of them.

Where a method loops or writes, it is a method or a class here too, proved equal to a
specification function or predicate; the theorems are about those. What such a function
computes is said a second time without it: when an operation succeeds and why it is
refused (`...Exactly`, `RefusalsAreExact`), and what its result is worth in prices,
posteriors, unit prices, counts or reports.

What the proofs found in the code, stated as theorems:

- A settlement reads the clock again after checking it. Reads stay possible exactly when no
  settlement on record has a completion before its admission (`ReachableStoresAreAccepted`);
  such a settlement is reachable (`LockoutIsReachable`) and refuses every later admission of
  its run and its day (`LateClockLocksOut`).
- `record_nav` does not order availability. A period known before its predecessor is
  admitted, and reads between the two clocks then fail (`LateEvidenceBlocksAnEarlierRead`);
  `ReaderAcceptsExactly` says when a read succeeds.
- The coverage entry of a strategy is overwritten by each of its chains. A period of an
  earlier chain that no day uses is then published nowhere (`ClosedEpochIsLost`), as with
  every epoch of one period that ends off midnight on the 365-day calendar
  (`MidnightsLoseTheLastPeriod`); `ReportAccountsExactly` says when nothing is lost.
- Adding months does not keep the order of all instants; `AddMonthsMonotone` says exactly
  which are reversed. Folds are unaffected because their boundaries share one time of day
  (`TrainingExpands`).

`dafny verify dfyconfig.toml` checks the project.

## Model

| member | source | states |
|---|---|---|
| `Basics.Sha256IsHexadecimal` | src/agents/budget.py:66-70 | a well-formed hash is 64 lower-case hexadecimal digits |
| `Receipts.CostOverrunHasTokenCause` | src/agents/receipts.py:390-399 | for every admission and evidence, a spend overrun comes with an input or an output overrun |
| `Receipts.UnbreachedMeansEachCounterFits` | src/agents/receipts.py:353-402 | no breach if and only if the response is attributable and input, output and total each fit their own bound |
| `Receipts.ChargeCoversReservation` | src/agents/receipts.py:412-426 | a charge never falls below its reservation and equals it unless the call is breached |
| `Receipts.PendingIsReservation` | src/agents/receipts.py:505-516 | a call without settlement is charged exactly its reservation |
| `Receipts.ContradictionMeansImpossible` | src/agents/receipts.py:354-357 | a response is contradictory if and only if no input and output counts agree with what it reports |
| `Receipts.KnownTokensAreLeast` | src/agents/receipts.py:354-380 | the known tokens are the least that agree with the report; tokens are actual exactly when both counters are reported, consistent, unambiguous and confirmed where a total is due |
| `Receipts.KnownCostIsPriced` | src/agents/receipts.py:365-379 | a response that names the admitted model costs its input at the input rate and its output at the output rate, per million |
| `Receipts.KnownCostIsLeast` | src/agents/receipts.py:367-379 | no counts that agree with the report cost less than the known cost |
| `Receipts.ChargeIsLeastCover` | src/agents/receipts.py:420-424 | the charge is the least amount that covers both the reservation and what is known |
| `Receipts.BreachesDecideStatus` | src/agents/receipts.py:381-411 | each breach in terms of the published usage, and the one status the breaches leave |
| `Receipts.AcceptancePinsTheRow` | src/agents/receipts.py:443-544 | whatever the mutable table holds, a call is accepted if and only if its row is the one its immutable admission and settlement determine |
| `Receipts.VerifiedUsage` | src/agents/receipts.py:505-533 | the usage an accepted call reports is the one derived from its immutable records |
| `Receipts.ReadVerifiedCharges` | src/agents/receipts.py:579-611 | the reading loop returns exactly the charges of the asked day or run, one by one in identity order, or the first failure |
| `Budget.LatestQuote` | src/agents/budget.py:79-87 | the price used is listed, effective now, and no later one is; none exactly when no quote is effective |
| `Budget.AgentCallBudget.ReserveBound` | src/agents/budget.py:58-169 | the admission transaction is the transition Reserve: same refusals in the same order, and on success one admission and one row |
| `Budget.AgentCallBudget.Settle` | src/agents/budget.py:171-243 | the settlement transaction is the transition Finish, including the failures raised after its commit |
| `Budget.CertifiedSuccess` | src/agents/budget.py:229-243 | a success that raises nothing is unbreached, has both counters, and is charged its reservation |
| `Budget.ReservationIsPriced` | src/agents/budget.py:79-92 | an admitted call reserves its input bound at the input rate and its output limit at the output rate, per million, of the latest listed quote |
| `Budget.SettlementIsPriced` | src/agents/budget.py:189-228 | a settled call is charged at the rates it was admitted with, whatever price is reported with it |
| `Budget.SilentExactly` | src/agents/budget.py:229-243 | after the commit nothing is raised if and only if no breach but an unverified model is on record and a reported success is certified |
| `BudgetProtocol.ReserveShape` | src/agents/budget.py:74-169 | an admission writes one sound admission with its row, or nothing |
| `BudgetProtocol.FinishShape` | src/agents/budget.py:189-228 | a settlement writes one settlement and the row it determines, or nothing |
| `BudgetProtocol.AdmissionKeepsReservedUnderCap` | src/agents/budget.py:105-128 | one admission keeps every measure of its run and its day within the cap |
| `BudgetProtocol.ReservationsStayWithinCaps` | src/agents/budget.py:95-128 | over any interleaving with shared caps, requests, reserved tokens and reserved cost of every run and UTC day stay within their caps, even when the mutable table is rewritten in between |
| `BudgetProtocol.ChargesExceedCapsOnlyByBreaches` | src/agents/receipts.py:380-427 | over the same runs the total charge exceeds a cap by at most the excess of breached calls |
| `BudgetProtocol.BreachFencesRunAndDay` | src/agents/budget.py:95-104 | once a breach is settled, no later call of that run or that day is admitted |
| `BudgetProtocol.CollectTotal` | src/agents/receipts.py:588-611 | the list of charges an admission sums is the total over the admissions of its scope |
| `BudgetProtocol.AdmitsIntact` | src/agents/budget.py:132-168 | an admission leaves a store every reader accepts |
| `BudgetProtocol.FinishKeepsAuthorityIff` | src/agents/budget.py:205-228 | a committed settlement leaves a store every reader accepts if and only if its completion clock is not before the admission |
| `BudgetProtocol.RunsStayIntactExactly` | src/agents/budget.py:58-243 | after every run every call is accepted if and only if each settlement on record is completed no earlier than its admission |
| `BudgetProtocol.ReadsAcceptExactly` | src/agents/receipts.py:579-611 | after every run a read at any day, run and cutoff succeeds if and only if the settlements it looks at are in time |
| `BudgetProtocol.ReadListsExactly` | src/agents/receipts.py:579-611 | every successful read lists each call it looks at once, in identity order, settled as far as its cutoff sees and with the usage its records certify |
| `BudgetProtocol.AdmissionSucceedsExactly` | src/agents/budget.py:58-169 | after every run a call is admitted if and only if the request is valid and in time, no call of its run or day is late or in breach, and at the first latest quote it fits both caps |
| `BudgetProtocol.AdmissionRefusesExactly` | src/agents/budget.py:60-132 | and is otherwise refused for the first of these reasons, in this order |
| `BudgetProtocol.SettlementSucceedsExactly` | src/agents/budget.py:171-228 | after every run a settlement commits if and only if the report is valid, the call is of this run, unsettled, and not checked before its admission |
| `BudgetProtocol.ReachableStoresAreAccepted` | src/agents/receipts.py:579-611 | every day, run and cutoff is readable, so admission never locks itself out, if and only if all settlements on record are in time |
| `BudgetProtocol.LateClockLocksOut` | src/agents/budget.py:95-100 | a settlement on record before its admission refuses every later admission of its run and its day, whatever is rewritten |
| `BudgetProtocol.LockoutIsReachable` | src/agents/budget.py:205-228 | one admission and one settlement whose clock steps back between check and record reach such a store |
| `BudgetProtocol.RewritesAreDetected` | src/agents/receipts.py:443-544 | on a reached store, after any replacement of the mutable table a call is accepted if and only if its settlement is in time and its row was left as it was |
| `BudgetProtocol.RewrittenReadsAcceptExactly` | src/agents/receipts.py:579-611 | after any rewrite a read succeeds if and only if no row was added or removed and every call it looks at is in time and unchanged |
| `BudgetProtocol.SettlesOnce` | src/agents/budget.py:191-196 | a settled call is refused ever after, whatever happens to the mutable table |
| `BudgetProtocol.PointInTimeRead` | src/agents/receipts.py:588-611 | a read as of t on any later store, whatever the clocks of its later settlements, equals the read on the store as it was at t |
| `BudgetProtocol.ConservativeTotalsGrow` | src/agents/receipts.py:674-713 | for every scope and measure the conservative total never decreases as the cutoff grows |
| `UsageSummary.SummaryIsSound` | src/agents/receipts.py:614-671 | for all verified charges, known lower bounds are at most the conservative totals, and a non-null actual total is both the sum of known counters and of lower bounds |
| `UsageSummary.FiguresAreColumns` | src/agents/receipts.py:614-652 | each figure of a summary is the total of its own column over the calls |
| `UsageSummary.VerifiedChargesCoherent` | src/agents/receipts.py:579-611 | every charge a read returns meets what the summary relies on |
| `UsageSummary.ConservativeTotalsAreCapUsage` | src/agents/budget.py:121-127 | the conservative totals of a summary are the totals the caps are checked against |
| `ForwardFilter.Forward` | src/core/macro_regime.py:775-785 | the filter loop returns the recursion applied to every prefix of the emissions |
| `ForwardFilter.Step` | src/core/macro_regime.py:780-784 | one step is a positive vector of sum one that is proportional to transition and emission |
| `ForwardFilter.FilterRestarts` | src/core/macro_regime.py:775-785 | filtering xs + ys is filtering ys restarted from the last vector of xs |
| `ForwardFilter.PathsAreAllPaths` | src/core/macro_regime.py:775-785 | the reference enumerates exactly the state sequences of a length |
| `ForwardFilter.PathsAreDistinct` | src/core/macro_regime.py:775-785 | and each of them once |
| `ForwardFilter.FilterIsExact` | src/core/macro_regime.py:775-785 | the normalised vector, times the total weight of all state paths, is the weight of the paths ending in each state |
| `RegimeDetector.StateIsFilter` | src/core/macro_regime.py:860-873 | the stored vector is the filter over every emission since training began, delayed rows included |
| `RegimeDetector.StoredPosteriorIsExact` | src/core/macro_regime.py:825-898 | end to end: the vector stored with a history is the exact posterior over all hidden paths |
| `RegimeDetector.RegimesDwell` | src/core/macro_regime.py:872-885 | in every stored history the held count is the length of the current block, and a block ends only after the minimum number of events |
| `RegimeDetector.EmittedExactly` | src/core/macro_regime.py:869-873 | one emission for every row that survives normalisation, in order |
| `RegimeDetector.RegimesFollowPosterior` | src/core/macro_regime.py:872-897 | every row after the fit has one event; its regime changes only to the label of the first largest entry of the posterior, exactly when that reaches the threshold and no minimum duration holds, and the reason says why not |
| `RegimeDetector.StoredExactly` | src/core/macro_regime.py:834-866 | a call stores if and only if its rows are ordered and known, extend the training rows and the last stored history, end after the fit and leave none out |
| `RegimeDetector.RefusalsAreExact` | src/core/macro_regime.py:834-866 | and is otherwise refused for the first of these reasons |
| `RegimeDetector.CausalRegimeDetector.Check` | src/core/macro_regime.py:838-866 | the refusals of a call and their order |
| `RegimeDetector.CausalRegimeDetector.Predict` | src/core/macro_regime.py:825-898 | a call that stores leaves exactly the events of one pass over the supplied rows, whatever was stored before; otherwise nothing changes |
| `RegimeDetector.CausalRegimeDetector.FilterDelayed` | src/core/macro_regime.py:867-870 | rows between training and fit move the vector without recording events |
| `RegimeDetector.IncrementalEqualsOneShot` | src/core/macro_regime.py:847-898 | any series of calls whose last one stores leaves the same events as that call alone |
| `CapturedRegime.CapturedRegimeDetector.Check` | src/core/macro_regime.py:908-936 | the refusals of a captured decision and their order |
| `CapturedRegime.CapturedRegimeDetector.Predict` | src/core/macro_regime.py:900-982 | a captured decision appends one event that folds only the new rows into the last state; a refusal or a retry at its clock appends nothing |
| `CapturedRegime.DecisionKeepsChain` | src/core/macro_regime.py:918-982 | after every decision each event folds every row after training into one opening state |
| `CapturedRegime.FoldSplits` | src/core/macro_regime.py:963-965 | folding rows in two parts is folding them once |
| `CapturedRegime.IdleCyclesChangeNothing` | src/core/macro_regime.py:957-980 | after any series of decisions, any number of cycles without a new row, stored or refused, hands on the same vector, regime, count and reason |
| `CapturedRegime.CyclesDoNotMatter` | src/core/macro_regime.py:918-982 | any two series of decisions that stored an event, opened alike and last observed the same rows end in the same state |
| `CapturedRegime.StateDependsOnRows` | src/core/macro_regime.py:937-965 | the state after any series that stored an event folds the rows after training into one of two opening states, fixed by whether the first event had such a row |
| `CapturedRegime.CapturedRegimesDwell` | src/core/macro_regime.py:942-965 | over the rows of a history, however decisions were spread on them, the held count is the length of the current block and a block ends only after the minimum number of rows |
| `CapturedRegime.StoredStateDwells` | src/core/macro_regime.py:937-982 | the state of every stored event is the last of such a series |
| `CapturedRegime.CapturedRegimesFollowPosterior` | src/core/macro_regime.py:942-965 | over the rows after training the captured regime follows the posterior by the same rule, with the opening accepted under its own reason |
| `CapturedRegime.StoredDecisionPublishes` | src/core/macro_regime.py:958-982 | the state and reason of every stored event end such a series over its rows |
| `CapturedRegime.DecisionsStoreExactly` | src/core/macro_regime.py:908-980 | after any decisions the stored clocks and rows only grow, and a decision is stored if and only if it is fresh, after the fit, not behind the last one, and extends training and the last rows without a gap |
| `CapturedRegime.CapturedRefusalsAreExact` | src/core/macro_regime.py:908-980 | and is otherwise refused for the first of these reasons |
| `CapturedRegime.StoredDecisionObserves` | src/core/macro_regime.py:966-981 | the rows given to a stored decision are the rows its state observed |
| `CapturedRegime.CapturedPosteriorIsExact` | src/core/macro_regime.py:937-965 | every captured vector is the exact posterior over all hidden paths of its history |
| `NavStore.AttributedPerformanceStore.StartFundedEpoch` | src/core/strategy_tracker.py:297-335 | anchoring is the transition StartEpoch, retries included, and keeps every chain |
| `NavStore.AttributedPerformanceStore.RecordPeriod` | src/core/strategy_tracker.py:337-377 | recording is the transition RecordNav, retries included, and keeps every chain |
| `NavStore.StartEpochKeepsValid` | src/core/strategy_tracker.py:318-335 | anchors stay strictly increasing, follow a zero NAV, and cut no period |
| `NavStore.RecordNavKeepsValid` | src/core/strategy_tracker.py:358-377 | periods stay disjoint, in order, and each continues the last or restarts at an anchor |
| `NavStore.EveryHistoryIsValid` | src/core/strategy_tracker.py:297-377 | over every series of operations the chain invariant holds for every strategy |
| `NavStore.ZeroNavEndsTheChain` | src/core/strategy_tracker.py:323-333 | after a zero closing NAV the next period opens at an anchor |
| `NavStore.PeriodKeyNeverClashes` | src/core/strategy_tracker.py:366-377 | the unique key on strategy and end never refuses a period the guards admit |
| `NavStore.AnchorKeyNeverClashes` | src/core/strategy_tracker.py:325-335 | the unique key on strategy and anchor time never refuses an anchor the guards admit |
| `NavStore.StoredReturnsReconcile` | src/core/strategy_tracker.py:353-357 | every stored row closes with its opening NAV grown by its return plus its end flow |
| `NavStore.PeriodsReconcile` | src/core/strategy_tracker.py:366-376 | every stored period starts when and with what the one before ended or, after a zero NAV, what an anchor was funded with; the first one from an anchor on is that anchor's |
| `NavStore.RecordedStays` | src/core/strategy_tracker.py:377 | an inserted period stays on record whatever is done later |
| `NavStore.PeriodsAdmittedExactly` | src/core/strategy_tracker.py:338-377 | a period is inserted if and only if it is well formed, of a new source, after everything on record and leaves a chain the invariant admits |
| `NavStore.AnchorsAdmittedExactly` | src/core/strategy_tracker.py:297-335 | an anchor is inserted if and only if it is well formed, of a new source, after every period and leaves a chain the invariant admits |
| `NavReader.Partition` | src/core/strategy_tracker.py:407-425 | the partition loops return the chains cut at the visible anchors, or fail exactly when a consistency check does |
| `NavReader.SeenExactly` | src/core/strategy_tracker.py:397 | a query sees exactly the periods over and known by its cutoff |
| `NavReader.SeenAnchorsExactly` | src/core/strategy_tracker.py:398 | and exactly the anchors set and known by it |
| `NavReader.AcceptedExactly` | src/core/strategy_tracker.py:408-425 | the reader accepts exactly chains that start from their anchor, continue without a gap and are over before the next anchor; what lies before the first anchor may cross it |
| `NavReader.AcceptedAppend` | src/core/strategy_tracker.py:408-425 | one more visible period adds exactly one local check |
| `NavReader.ReaderAcceptsExactly` | src/core/strategy_tracker.py:396-425 | for every chain and cutoff the reader accepts if and only if every visible period is begun by a visible anchor, continues its visible predecessor, or has nothing visible before it |
| `NavReader.CompleteHistoryIsReadable` | src/core/strategy_tracker.py:396-425 | at a cutoff past every recorded clock none of the consistency errors fires |
| `NavReader.OrderedAvailabilityIsAlwaysReadable` | src/core/strategy_tracker.py:396-425 | with availability in order of recording none fires at any cutoff |
| `NavReader.WritersAdmit` | src/core/strategy_tracker.py:358-377 | the writers admit a second period known before its first |
| `NavReader.LateEvidenceBlocksAnEarlierRead` | src/core/strategy_tracker.py:396-425 | and then every read between the two clocks fails: the writer does not enforce the ordering |
| `DailyReturns.Walk` | src/core/strategy_tracker.py:437-446 | the cursor loop ends, and finds the periods that tile a day if and only if some do |
| `DailyReturns.Aggregate` | src/core/strategy_tracker.py:436-464 | the days are those of the tiled pairs in order, what is unaggregated is what no day used, and it fails exactly when the stored return of a tiled day is not that of its NAVs |
| `DailyReturns.Compound` | src/core/strategy_tracker.py:447-453 | a day compounds exactly the factors of its periods |
| `DailyReturns.PairsAreConsecutive` | src/core/strategy_tracker.py:427-434 | the expected days are consecutive and inside the window |
| `DailyReturns.PairsAreComplete` | src/core/strategy_tracker.py:434 | neighbouring closes are an expected day if and only if they lie in the window |
| `DailyReturns.DayIffTiled` | src/core/strategy_tracker.py:437-446 | a day is emitted if and only if periods known at the cutoff tile it exactly |
| `DailyReturns.DaysAreDetermined` | src/core/strategy_tracker.py:436-461 | a chain and its expected days have one list of days |
| `DailyReturns.EveryPeriodOnce` | src/core/strategy_tracker.py:453-464 | every period of a chain is in exactly one place: once in one day, or in the chain's unaggregated periods |
| `StrategyReport.ReportStrategy` | src/core/strategy_tracker.py:396-469 | reading a strategy succeeds exactly when its chains are accepted and the stored returns of their tiled days are right; it gives the days of every chain and the coverage entry each chain overwrites |
| `StrategyReport.EveryPeriodInOneSegment` | src/core/strategy_tracker.py:408-415 | every visible period lies in exactly one chain |
| `StrategyReport.PeriodAccountedExactly` | src/core/strategy_tracker.py:436-464 | the published report accounts for a visible period if and only if it is of the last chain or in a tiled day of its own |
| `StrategyReport.ReportAccountsExactly` | src/core/strategy_tracker.py:462-464 | it accounts for every visible period if and only if every chain but the last is fully tiled |
| `StrategyReport.ClosedEpochIsLost` | src/core/strategy_tracker.py:462-464 | two epochs built by the writers: when the last period of the first ends after the last close of its chain, it is in no day and in no unaggregated list |
| `StrategyReport.MidnightsLoseTheLastPeriod` | src/core/strategy_tracker.py:426-464 | on the calendar of UTC midnights this is every first epoch of one period that does not end at midnight |
| `StrategyReport.StoredRowsAreUsable` | src/core/strategy_tracker.py:396-407 | on every store the writers built the queried rows meet what the reader relies on |
| `StrategyReport.StampedRowsCheck` | src/core/strategy_tracker.py:447-451 | and on rows as the writers stamp them no stored return is refused |
| `StrategyReport.MetricsSeeTheLastChain` | src/core/strategy_tracker.py:477-480 | metrics are computed from exactly the days of the last chain |
| `StrategyReport.CompleteReturnTelescopes` | src/core/strategy_tracker.py:477-491 | with complete coverage and no flows the published total return is the NAV at the last boundary of the last chain over the NAV at its first boundary, minus one |
| `StrategyReport.CompleteReturnIsUnitPrice` | src/core/strategy_tracker.py:477-491 | with complete coverage, flows or not, the published total return is what a unit of the last chain gained |
| `StrategyReport.CoverageIsExact` | src/core/strategy_tracker.py:462-464 | coverage is the last chain's, complete if and only if there is an expected day and each is tiled, and lists the periods no tiled day spans |
| `DailyReturns.DaysCompoundExactly` | src/core/strategy_tracker.py:447-456 | the product of daily factors is the product of the used period factors |
| `DailyReturns.GrowthIsUnitPrice` | src/core/strategy_tracker.py:447-456 | with any flows, a stretch of periods grows as the price of a unit when money that flows in or out buys or redeems units |
| `DailyReturns.UnitsExist` | src/core/strategy_tracker.py:447-456 | such a unit account exists unless money comes in when nothing is left |
| `DailyReturns.DepositsAreNoReturn` | src/core/strategy_tracker.py:353 | money that comes in at the end of the last period leaves the growth as it is |
| `DailyReturns.FullCoverageIsUnitPrice` | src/core/strategy_tracker.py:471-491 | with every expected day present the total return is the unit price at the last boundary, minus one |
| `DailyReturns.FullCoverageTelescopes` | src/core/strategy_tracker.py:471-491 | with every expected day present and no flows the cumulated return of a chain is the NAV at its last boundary over the NAV at its first, minus one |
| `DailyReturns.AcceptedChainsAreSound` | src/core/strategy_tracker.py:418-451 | every chain the reader accepts meets what the aggregation relies on, and its stored returns are never refused |
| `CallbackControl.SelectRow` | src/core/benchmark.py:288-326 | one row of the control, with its four refusals |
| `CallbackControl.PlanAll` | src/core/benchmark.py:280-328 | the row loop threads the mapping and stops at the first refusal |
| `CallbackControl.TargetlessRowsChangeNothing` | src/core/benchmark.py:283-287 | a control is that of the rows that have a target: acceptance, mapping, variation and plans |
| `CallbackControl.InsertedRowChangesNothing` | src/core/benchmark.py:285-287 | a row without a target inserted anywhere changes none of them |
| `CallbackControl.NextRowAccepted` | src/core/benchmark.py:283-328 | a further row is accepted exactly under the conditions on the mapping before it, and its plan is the new mapping |
| `CallbackControl.AssignIsSound` | src/core/benchmark.py:301-322 | class by class, the drawn instruments are eligible, of the slot's class and distinct from all others |
| `CallbackControl.AssignSucceedsExactly` | src/core/benchmark.py:306-319 | a rebalance has enough candidates if and only if each class does at its start, whatever is drawn |
| `CallbackControl.SelectAcceptsExactly` | src/core/benchmark.py:288-324 | exactly when a row is accepted, independent of the draw |
| `CallbackControl.RefusalsAreExact` | src/core/benchmark.py:292-326 | and is otherwise refused for the first of these reasons |
| `CallbackControl.SelectIsSound` | src/core/benchmark.py:288-326 | an accepted row maps its active and kept slots, keeps passive ones, and off the cadence also active ones |
| `CallbackControl.MappingStaysSound` | src/core/benchmark.py:280-326 | over every accepted sequence of rows the mapping is injective and keeps asset classes, and every plan maps all active slots to eligible instruments |
| `CallbackControl.OffCadenceNeverRotates` | src/core/benchmark.py:296-300 | off the cadence every slot keeps its instrument |
| `CallbackControl.Provide` | src/core/benchmark.py:330-346 | the slot loop gives each mapped instrument one weight and overwrites none |
| `CallbackControl.PassiveWeightsFollowHoldings` | src/core/benchmark.py:340-344 | a passive slot weighs what the control itself holds of its instrument, over its own NAV |
| `CallbackControl.ClassBudgetsAreConserved` | src/core/benchmark.py:338-346 | for every asset class the control's active weight is the baseline's |
| `CallbackControl.UnvariedControlIsForced` | src/core/benchmark.py:320-328 | a control that reports no variation is the same under every sampler |
| `CallbackControl.VariedControlIsFree` | src/core/benchmark.py:320-328 | a control that reports variation plans differently, or is refused, under some sampler |
| `CallbackControl.VariationIsExact` | src/core/benchmark.py:320-328 | it reports no variation if and only if every sampler gives the same control |
| `Calendar.MonthsAreContiguous` | src/core/backtester.py:1199-1208 | months tile the days of the proleptic Gregorian calendar |
| `Calendar.AddMonthsMoves` | src/core/backtester.py:1199-1208 | adding months strictly moves an instant in their direction, whatever is clipped |
| `Calendar.AddMonthsMonotone` | src/core/backtester.py:1206-1208 | adding months keeps the order of days, and reverses two instants if and only if they are different days of one month, clipped onto one day, with their times of day the other way round |
| `Calendar.ClippingCanReverse` | src/core/backtester.py:1206-1208 | a family of reversed instants at the end of every 31-day month before a month shorter than 30 days |
| `Calendar.MonthsRoundTripExactly` | src/core/backtester.py:1206-1208 | months can be taken back if and only if the day was not clipped |
| `FoldSplit.SplitFolds` | src/core/backtester.py:1176-1222 | the loop ends; folds start at the first test date, adjoin, and stop at the first window past the last date |
| `FoldSplit.FoldsAreDetermined` | src/core/backtester.py:1199-1222 | these conditions determine the folds |
| `FoldSplit.SegmentsAreOrdered` | src/core/backtester.py:1206-1209 | training ends before validation, and validation before its test window |
| `FoldSplit.EmbargoSeparates` | src/core/backtester.py:1205-1222 | in every fold the embargo days separate training from validation and validation from test, validation lasts its months, and the window its walk months |
| `FoldSplit.FirstTestIsPlaced` | src/core/backtester.py:1198-1203 | the first window starts the embargo days after the initial and validation months |
| `FoldSplit.TestWindowsTile` | src/core/backtester.py:1204-1221 | every date from the first test start to the last lies in exactly one test window |
| `FoldSplit.OnlyTheLastIsIncomplete` | src/core/backtester.py:1218 | only the last window can be incomplete |
| `FoldSplit.TrainingExpands` | src/core/backtester.py:1207-1209 | every training window is part of every later one |
| `WalkForward.RunFolds` | src/core/walk_forward.py:258-438 | the fold loop succeeds exactly when the inputs and every fold do; predictions never overlap |
| `WalkForward.RunFold` | src/core/walk_forward.py:296-311 | the rows of a fold, their purging and the recorded evidence |
| `WalkForward.FoldSucceedsExactly` | src/core/walk_forward.py:305-317 | a fold succeeds if and only if it has labelled rows to train and validate on, all of them labelled, and a row to predict |
| `WalkForward.EachRowIsPredictedOnce` | src/core/walk_forward.py:395-439 | a successful run predicts every row from the first test start on, once each and in order |
| `WalkForward.NoLabelLeaks` | src/core/walk_forward.py:296-301 | labels trained on end before any validated row is decided, and labels validated on before any row predicted then or later |
| `WalkForward.EmbargoedRowsAreUnused` | src/core/walk_forward.py:305-310 | no row decided in the embargo days before a validation or test window is trained or validated on |
| `WalkForward.EvidenceCounts` | src/core/walk_forward.py:402-432 | the recorded counts are those of the rows of each segment, and the purged ones had labels not yet over |
| `WalkForward.TrainingRowsExpand` | src/core/walk_forward.py:297-298 | a training row stays one in every later fold |
| `WalkForward.CheckSplits` | src/core/validation.py:404-418 | the independent check accepts exactly the valid splits |
| `WalkForward.ValidSplitsDoNotLeak` | src/core/validation.py:404-418 | what the check accepts, and that no accepted fold learns from a label still open when it or a later fold predicts |
| `WalkForward.SuccessfulRunsAreValid` | src/core/validation.py:404-418 | every successful run passes it |
| `Replay.PortfolioReplay.CancelPending` | src/core/backtester.py:1123-1124 | every open intent is closed and nothing else changes |
| `Replay.PortfolioReplay.Rebalance` | src/core/backtester.py:1119-1173 | a target cancels what is open before its intents are routed and submitted |
| `Replay.RiskCheckDecides` | src/core/backtester.py:1158-1163 | an intent not on record is opened exactly when the risk check admits it on the ledger the intents before it left |
| `Replay.RebalanceSubmits` | src/core/backtester.py:1119-1173 | a target succeeds exactly when it is routed, with nothing open, to executable intents; they are submitted and the decision recorded |
| `Replay.StepIsPhased` | src/core/backtester.py:841-932 | a new timestamp succeeds exactly as settlement, trades, decision and valuation, each on what the one before left |
| `Replay.PortfolioReplay.Step` | src/core/backtester.py:841-932 | one timestamp is one transaction: all phases in order, or nothing; a recorded step is skipped |
| `Replay.PortfolioReplay.Run` | src/core/backtester.py:838-942 | the timeline loop and the cutoff; a failure leaves the ledger after the steps before it |
| `Replay.EveryRunIsCausal` | src/core/backtester.py:838-942 | at every step boundary each timestamp was applied once and in order, every fill follows its decision, and every open intent is of the latest rebalance |
| `Replay.ResumeEqualsUninterrupted` | src/core/backtester.py:841-845 | a run stopped after any number of steps and started again reaches the ledger of an uninterrupted one |
| `Replay.RerunChangesNothing` | src/core/backtester.py:933-942 | running a finished ledger again, the cutoff included, changes nothing |
| `Replay.CheckTiming` | src/core/validation.py:292-296 | the independent check accepts exactly fills that follow their decisions |
| `Replay.FinishedRunsPassTheTimingCheck` | src/core/validation.py:292-296 | every finished run that traded passes it, and leaves nothing open |
| `FlexReport.ParseReport` | src/data/ibkr_flex.py:215-293 | the parser accepts exactly the fitting trees and keeps every row with its pointer |
| `FlexReport.ParseSection` | src/data/ibkr_flex.py:239-286 | the running counters give each row its position among the rows of its tag |
| `FlexReport.AcceptsExactly` | src/data/ibkr_flex.py:215-255 | a report is accepted if and only if its one container holds what it states and every statement is identified and has leaf records of its own account |
| `FlexReport.StatementsAreKept` | src/data/ibkr_flex.py:226-292 | account, interval and the attributes of every record are kept in place |
| `FlexReport.PointersResolve` | src/data/ibkr_flex.py:269-272 | a pointer, read as positional steps (section 2.4 of XPath 1.0), resolves to the row it was emitted for and to nothing else |
| `FlexReport.PointersAreDistinct` | src/data/ibkr_flex.py:225-293 | no two rows of a report share a pointer |
| `FlexReport.TextIsInjective` | src/data/ibkr_flex.py:271 | over plain tag names the printed pointer determines statement, section, row tag and position |
| `FlexReport.TextsAreDistinct` | src/data/ibkr_flex.py:225-293 | no two rows with plain tag names are printed the same |
| `FlexCapture.SortedSorts` | scripts/fetch_ibkr_flex_report.py:174 | generations are put in order of their start, none lost or repeated |
| `FlexCapture.Latest` | scripts/fetch_ibkr_flex_report.py:176-194 | the resumed generation is of this query, not downloaded, and every other ended before it began; refused when that order is uncertain |
| `FlexCapture.FlexFetch.Request` | scripts/fetch_ibkr_flex_report.py:213-260 | body and receipt are filed before the status is judged |
| `FlexCapture.FlexFetch.Poll` | scripts/fetch_ibkr_flex_report.py:275-300 | from an acknowledged or resumed start, the polling loop finishes exactly then |
| `FlexCapture.FlexFetch.Fetch` | scripts/fetch_ibkr_flex_report.py:197-300 | a manifest is written if and only if the request is resumed or acknowledged and one of the first eight polls, all in time so far, brings a report after answers that only said to wait; the directory is then a finished capture |
| `FlexCapture.Read` | src/data/ibkr_flex.py:342-466 | the reader accepts exactly the readable directories: one acknowledgement, earlier answers pending, receipts in time order, the report last |
| `FlexCapture.WriterAndReaderAgree` | src/data/ibkr_flex.py:342-466 | a finished capture is readable if and only if the clock did not run back, pending answers were tagged as responses, bodies are within limits and the report parses |
| `FlexCapture.ReaderAcceptsExactlyCaptures` | src/data/ibkr_flex.py:342-475 | whatever the reader accepts could have been left by polling a broker that answered in order, and every such capture is accepted |
| `FlexCapture.CountsEveryStatement` | scripts/fetch_ibkr_flex_report.py:286-288 | the writer counts the statements two steps below the root |
| `DeskMemory.Project` | src/agents/history.py:100-116 | the projection is the longest suffix of the receipts within the limit |
| `DeskMemory.ProjectionIsFixed` | src/agents/history.py:100-116 | projecting the receipts a projection kept returns the same entries |
| `DeskMemory.EncodedIsLength` | src/agents/history.py:112-113 | the bounded length is that of the whole encoded list |
| `DeskMemory.ExportReceipt` | src/agents/history.py:308-409 | the recursive walk ends on every finite store, cyclic ones included, and is the specified export |
| `DeskMemory.ExportReferences` | src/agents/history.py:382-402 | the loop over one receipt's references returns them all, re-verified against its own clock, or fails with the first that does |
| `DeskMemory.ExportIffEveryWalkIsSound` | src/agents/history.py:308-409 | a decision exports if and only if every walk along its memory ends in a new, genuine receipt with a sound memory of its own |
| `DeskMemory.SoundEndExactly` | src/agents/history.py:119-125 | what a sound end is: a new receipt, certifiable at its clock, that shows and cites exactly the current receipts it refers to |
| `DeskMemory.MemoryIsCausal` | src/agents/history.py:380-399 | everything remembered, at any depth, is of the same instrument and was available at every clock on the way, and no walk repeats |
| `Desk.CompletionOrderIsIrrelevant` | src/agents/state.py:10-11 | the joined reports do not depend on which specialist finishes first |
| `Desk.DecisionIgnoresCompletionOrder` | src/agents/graph.py:239-246 | and neither does the decision of the desk |
| `Desk.RunDebateRound` | src/agents/debate.py:17-68 | a round revises exactly the reports of applicable analysts |
| `Desk.DeskEndsWithinTheLimit` | src/agents/graph.py:304 | the debate loop ends within the recursion limit, whatever the nodes write |
| `Desk.RunIsUnrolled` | src/agents/graph.py:239-257 | a run completes if and only if no node on its path raises; its final flags and reports are those of as many debates, each verified, as are configured, and of the review of risk |
| `Desk.DeskDecidesExactly` | src/agents/graph.py:303-321 | the decision in every world: veto, action, blocking and reports, completed or failed, persisted or not |
| `Desk.SynthesisIsAlwaysSafe` | src/agents/strategist.py:42-63 | the synthesised decision always passes its own validation |
| `Desk.BindingVetoHolds` | src/agents/graph.py:303-321 | an accounting veto or an eligible crisis regime yields a blocking veto, whatever nodes write or raise and even if nothing persists |
| `Desk.BlockedExposureIsNeverTaken` | src/agents/strategist.py:12-56 | exposure blocked at entry or by any later finding is never bought, reduced or exited |
| `Desk.ExposureIsTakenExactly` | src/agents/strategist.py:8-63 | exactly when the desk buys, reduces or exits |
| `Desk.ConsensusIsExact` | src/agents/consensus.py:23-65 | an action is the consensus if and only if the desk decided it, nothing vetoes it, every voting role answered and enough of them recommend it; a veto if and only if one is on the decision |
| `Desk.ConsensusRespectsTheDesk` | src/agents/consensus.py:23-65 | a binding veto is the consensus, and consensus takes no exposure the desk was denied |

## Left out

- Schema 1.0 admissions and settlements: legacy branches of the same derivation.
- `usage_at_admission` and the copy of the caps inside an admission; the listed order of breach reasons (a set here).
- `capture_usage` and `capture_openai_usage`, which read provider responses: evidence is any well-formed record.
- Corruption of the immutable tables themselves, and hash collisions: records are immutable, and a stored hash is the record.
- Decimal precision, floating point, log-space floors and infinite or missing latencies: exact reals and given positive weights.
- `GaussianHMM.fit` and `preprocess`: emissions are an arbitrary function of the rows seen so far.
- Evidence and source-id validation before a regime call, and the confidence fields of its result.
- SQLite, file permissions, network transport, JSON and XML decoding: transactions, maps and arbitrary functions.
- The exchange's sessions: an arbitrary increasing list of closes (the UTC midnights of the 365-day calendar are modelled). Time zones with daylight saving in fold arithmetic: UTC only.
- Sharpe ratios, drawdowns and windows of `metrics`, and availability clocks and hashes in a coverage entry. An anchor whose source id is the label of the unanchored chain is not modelled.
- FlexReport.PointersResolve: speaks of the pointer's steps; the text of a tag in a namespace, printed in braces, is accepted by the parser and is no XPath 1.0 step.
- The equal-weight, SPY, BTC and 60/40 controls, and the target's own leverage validation.
- CallbackControl.Provide: assumes a nonzero NAV when positions are held, because the code divides by it.
- Model fitting, prediction, model artifacts and information coefficients of a fold: a fold is what rows it uses.
- Portfolio ledger, order filling, dividends, sleeves and `_rank_target`: an engine that fills and closes only open intents.
- Run manifests, saved results and failure records around a replay.
- Row categories, decimal fields and missing-field lists of a Flex row; the scope review and the reader's binding hash.
- The directory scan of `latest_generation`: it is given the valid generations it finds.
- Deadlines of the capture writer: an arbitrary function says whether a poll is still in time.
- The evidence, budget and judgment authorities a memory export consults: arbitrary functions of a receipt.
- Prompts, provider calls, claim checking and the wording of reports on the desk.
