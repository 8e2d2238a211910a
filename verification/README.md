# Verified models of QuantFoundry

Dafny models of the parts of QuantFoundry whose behaviour is decided by code rather than
by I/O, with proofs of the properties those parts exist for.

* **Quant engine** (`Market`, `Portfolio`, `Simulator`, `Drawdown`, `RankCorrelation`,
  `RiskContribution`, `FactorScores`, `FactorExpressions`, `ValidationChecks` and their proofs): the portfolio loop,
  its metrics and checks, over exact reals. The loops are methods proved equal to
  specification functions; the theorems are about those functions. `SelectionLaws`, `Accounts`,
  `Reports`, `FactorLaws` and `CorrelationSigns` say what the functions mean, in closes, signals,
  dates and money.
* **Scheduler initialization, migration 0017** (`SchedulerStore`, `SchedulerInit`,
  `SchedulerMigration`, `SchedulerProof`, `SchedulerTheorems`, `SchedulerStatuses`,
  `SchedulerRecords`): producer and checker are
  separate code, here and in the original; the theorem is that they fit together exactly on
  the stores called ready.
* **Schema rebuild, migration 0016** (`TableOrder`, `DeferredLoad`, `SchemaRestore`): ordering
  tables over an arbitrary foreign-key graph, two-phase loading, topological drop.
* **Browser event stream** (`EventFraming`, `EventStream`, `EventDelivery`) and **decimal formatter**
  (`Digits`, `DecimalParsing`, `DecimalRounding`, `DecimalFormatting`, `DecimalReading`).
* **Control plane** (`AccessKeys`, `SessionHistory`, `LoginLimits`, `KeyRequests`, `DatabaseConnection`,
  `Configuration`, `CandidateRequests`, `CandidateValidation`, `ConsumerAcknowledgement`,
  `ConfigurationTheorems`, `ConfigurationDependencies`): handlers as sequential transactions whose
  commit succeeds. A problem answer commits what was written before it; an exception undoes the transaction.
* **Evidence guards** (`EvidenceGuards`, `GuardHistories`): the PostgreSQL triggers of migrations 0003, 0004 and
  0006, in the schema that migration 0016 rebuilds and reinstalls them on, as predicates over one
  statement on one row. That schema (0016_section14_physical.json) has no foreign key to
  `validations`; the foreign keys it has only refuse more statements and are not modelled.

`Totals`, `Statistics`, `Arithmetic`, `Filters`, `StableSort`, `Digits`, `Durations`, `Preconditions`
and `Wrappers` are shared helpers.
Symbols, dates and table names are integers standing for their rank in the source's order.
`dafny verify dfyconfig.toml` checks everything.

## Where the code differs from what is said about it

* The client's comment calls a frame without data a heartbeat, but the loop counts it as a
  contract skew. The server sends `: heartbeat` when idle, so three in a row block a healthy
  client (`EventStream.IdleStreamBlocks`; the exact condition is `BlocksExactly`).
* "Higher modeled costs do not improve deterministic net return" is false when a period loses
  more than everything, because two negative factors multiply to a gain
  (`CostCounterexample.DearerCanLookBetter`); long-only
  portfolios are safe from it whenever all price relatives reach a floor, exactly when that floor is
  at least one and a half times the base rate (`CostThreshold.ThresholdExactly`).
* On validated data the simulation can still raise: a zero score total, 1 + gross equal to zero in
  a long-short portfolio, and a held symbol without a row after a session without candidates
  (`FailingRuns`; the exact conditions on the inputs are in `SimulationOutcome`). One that ends with
  no weights succeeds, but its metrics raise in the risk contribution, which intersects no sets.
* Migration 0017 is blocked, with its data untouched, in a workspace that needs baselines, retains
  no event and has an expiry mark above one: numbering restarts at one, which its validator refuses
  (`SchedulerTheorems.RestartedNumberingBlocks`).
* The last-active-key guard counts keys by status and ignores expiry
  (`AccessKeys.LastUsableKeyCanGo`).
* A configuration candidate refused half way stays stored and can be activated
  (`CandidateRequests`); a rollback neither checks the source's state nor validates it again, though
  the design asks for it, and leaves the candidate pointer and the consumer rows alone, so that no
  consumer stands at the active revision until the next activation
  (`ConsumerAcknowledgement.RunInStepExactly`).
* The login limiter counts the refusals it makes itself: a client that keeps trying while it is
  limited stays limited, with the right key too (`LoginLimits.LimitedExactly`).
* Validation and the preview lay a candidate over the active revision, while the activated revision
  shows its own rows only: activating a validated candidate can lose dependencies and values it was
  validated and previewed with (`ConfigurationDependencies.DependencyAndPreviewLost`).
* The holdout guard fires on two columns of updates only. In the schema in force an exposed
  validation can be renamed, deleted, given another strategy version, or inserted as such
  (`EvidenceGuards.ExposedCanBeRenamed` and the lemmas after it); up to migration 0015 foreign keys
  refused the first two. From EXPOSED a validation may still move to FAILED.
* The strategy guard names the columns of migration 0006; those that migration 0016 adds, such as
  the signals, can change in a frozen version.

## Model

| member | source | states |
|---|---|---|
| Simulator.PortfolioReturns | backend/src/quantfoundry/engines/core.py:629-800 | the simulation entry: input checks, then the session loop; returns exactly the ledger the specification `Portfolio.Simulate` defines, with every error the code raises as a value |
| Simulator.Trade | backend/src/quantfoundry/engines/core.py:690-800 | the loop over sessions updating weights, returns and turnovers computes `Portfolio.Run` over all periods |
| Simulator.ChooseTarget | backend/src/quantfoundry/engines/core.py:711-756 | hold, rebalance or long-short target of one session, including the division by a zero score total and the unsupported weighting |
| Simulator.RecordCloses | backend/src/quantfoundry/engines/core.py:693-694 | appends today's close to the history of every symbol that trades today and of no other |
| Simulator.InverseVolatility | backend/src/quantfoundry/engines/core.py:723-732 | raw weight of each selected symbol is one over its floored volatility |
| Simulator.SimulationMetrics | backend/src/quantfoundry/engines/core.py:841-893 | reported wealth, drawdown, turnover, commission and slippage are those of the simulated ledger, with the risk contribution of the final weights, or the failure that empty final weights raise |
| Reports.ReportReconciles | backend/src/quantfoundry/engines/core.py:841-893 | a report's commission and slippage add up to what the gross returns lost and divide it by their rates; total return is the compounded path and no drawdown falls short of it; a long-only strategy's exposure and cash are one and its turnover at most one a session |
| SimulationFailures.RebalanceFailsExactly | backend/src/quantfoundry/engines/core.py:718-741 | a rebalancing fails if and only if the weighting is not supported, or is by score and every selected score is zero |
| SimulationFailures.StepFailsExactly | backend/src/quantfoundry/engines/core.py:690-796 | every way a session can fail, each with its exact condition: unsupported calendar, failing rebalancing, a held symbol that trades tomorrow but not today, a portfolio that loses exactly everything |
| SimulationFailures.StepEmptiesExactly | backend/src/quantfoundry/engines/core.py:711-716 | a session leaves no weights if and only if it holds and nothing held trades tomorrow |
| SimulationOutcome.SimulationAnswersExactly | backend/src/quantfoundry/engines/core.py:690-800 | read off rows, calendar and ranking alone, for every long-only simulation: it succeeds if and only if some session has candidates and every session works (the calendar answers; a rebalancing has a supported weighting and scores to go by; what is held and trades tomorrow trades today), it fails as its first failing session does, and it ends with the predicted holdings |
| SimulationOutcome.MetricsAnswerExactly | backend/src/quantfoundry/engines/core.py:817-893 | its metrics are computed if and only if, besides, the predicted holdings at the end are not empty |
| SimulationOutcome.RunAnswers | backend/src/quantfoundry/engines/core.py:690-796 | after any number of sessions a long-only run has failed with exactly the failure of the first session that fails, or has got through |
| SimulationOutcome.RunHolds | backend/src/quantfoundry/engines/core.py:711-797 | for every strategy, a run that gets through holds exactly the predicted symbols, and no session before should have failed |
| SimulationOutcome.FailsSomewhere | backend/src/quantfoundry/engines/core.py:690-796 | a run of any strategy that fails does so at a session that fails as predicted, or at one that should have worked and whose portfolio lost exactly everything |
| SimulationOutcome.MissingRowFollowsSkip | backend/src/quantfoundry/engines/core.py:709-716 | a held symbol is missing only in a session that follows one without candidates |
| SimulationOutcome.DailyHolds | backend/src/quantfoundry/engines/core.py:673-675 | rebalancing daily, something is held once some session has had candidates |
| FailingRuns.ZeroScoresDivide | backend/src/quantfoundry/engines/core.py:737-741 | a simulation that divides by a zero score total |
| FailingRuns.HedgeWipesOut | backend/src/quantfoundry/engines/core.py:793-796 | a long-short simulation in which 1 + gross is exactly zero |
| FailingRuns.HeldSymbolIsMissing | backend/src/quantfoundry/engines/core.py:765-776 | a simulation that looks up a held symbol in a session where it does not trade |
| FailingRuns.NothingIsHeld | backend/src/quantfoundry/engines/core.py:817-820 | a simulation that succeeds with empty final weights, whose metrics fail |
| NoLookAhead.SimulationHasNoLookAhead | backend/src/quantfoundry/engines/core.py:629-800 | simulating the rows up to a date gives a prefix of the returns, benchmarks and turnovers of the full simulation, for every strategy, cost and cut-off; when the full one succeeds, the truncated one can only fail for having too few sessions |
| Market.BookUpTo | backend/src/quantfoundry/engines/core.py:637-640 | dropping later rows removes the later sessions and leaves every other session as it was |
| Market.BookExactly | backend/src/quantfoundry/engines/core.py:637-640 | the book holds, for each date and symbol that has rows, the last of them, and nothing else |
| SelectionLaws.ScaleIsLean | backend/src/quantfoundry/engines/core.py:654-659 | the signal scale is the total weight of the LONG signals minus that of the SHORT signals |
| SelectionLaws.RefusedExactly | backend/src/quantfoundry/engines/core.py:635-668 | whatever the rows, a simulation is refused if and only if its count is below one, its long and short signals weigh the same, or its limits are not positive and in order |
| SelectionLaws.RankingEligible | backend/src/quantfoundry/engines/core.py:695-707 | the ranking takes exactly the eligible symbols, each once, and each is preferred to those after it: by strategy score where there is one, and otherwise by close, the dearer first when the signals lean long and the cheaper first when they lean short; ties by symbol |
| SelectionLaws.LongOnlyBuysBest | backend/src/quantfoundry/engines/core.py:695-741 | a long-only session that buys (nothing held yet, or a new period) holds exactly the best eligible symbols: as many as asked for or as there are, each preferred to every eligible symbol not bought |
| SelectionLaws.LongShortBuysEnds | backend/src/quantfoundry/engines/core.py:742-756 | a long-short session that buys is long exactly the best symbols and short the worst of the others, each position half the leverage limit split over one end of the ranking, capped |
| SelectionLaws.EqualParts | backend/src/quantfoundry/engines/core.py:733-741 | equal weighting gives each holding the leverage limit divided by their number, capped |
| SelectionLaws.ScoreWeighsByClose | backend/src/quantfoundry/engines/core.py:718-741 | score weighting without strategy scores weighs by close: however the signals lean, they cancel out of the shares |
| SelectionLaws.DueExactly | backend/src/quantfoundry/engines/core.py:673-688 | a session rebalances if and only if it is the first, the frequency is daily, or its week, month or quarter is not that of the session before; another frequency fails from the second session on |
| SelectionLaws.HeldWithinPeriod | backend/src/quantfoundry/engines/core.py:711-716 | within a period the target is what is held and trades tomorrow, with its weights |
| SelectionLaws.HeldSessionIsFree | backend/src/quantfoundry/engines/core.py:711-796 | a held session in which everything still trades turns nothing over, trades nothing, costs nothing and keeps its weights as target |
| Accounts.SessionInMoney | backend/src/quantfoundry/engines/core.py:765-797 | a session counted in money: one unit of capital put into shares at the closes and counted again with splits and dividends is 1 + gross; net is gross less both cost rates on the turnover; each weight carried over is the position's part of that capital |
| Accounts.TradesCounted | backend/src/quantfoundry/engines/core.py:787-791 | the trades of a session are the positions bought and the positions sold |
| Accounts.RemembersCloses | backend/src/quantfoundry/engines/core.py:691-694 | a run remembers exactly the closes each symbol has shown so far, also in sessions that do not trade |
| Accounts.ChangesExactly | backend/src/quantfoundry/engines/core.py:726-729 | each change of a history grows one close into the next |
| Accounts.EqualRisk | backend/src/quantfoundry/engines/core.py:723-741 | volatility weighting gives all holding weights below the position limit the same product with the floored deviation |
| Accounts.LevelIsMean | backend/src/quantfoundry/engines/core.py:780-785 | the benchmark closes of a session differ from its level by amounts that cancel out |
| Accounts.BenchmarkTelescopes | backend/src/quantfoundry/engines/core.py:780-786 | where every session trades, the compounded benchmark return is the last level over the first |
| PortfolioSimplex.SimulationOnSimplex | backend/src/quantfoundry/engines/core.py:709-796 | long-only with leverage at most one: over the whole loop weights and cash stay non-negative and total one, and every turnover lies in [0, 1] |
| PortfolioSimplex.CappedBounds | backend/src/quantfoundry/engines/core.py:737-741 | capped proportional weights are non-negative, each within the position limit, and total at most the leverage limit |
| PortfolioSimplex.RebalancedWithinLeverage | backend/src/quantfoundry/engines/core.py:717-756 | any freshly rebalanced target, long-only or long-short, has gross exposure within the leverage limit and each position within the position limit |
| PortfolioSimplex.DriftSimplex | backend/src/quantfoundry/engines/core.py:777-796 | with asset returns above minus one, 1 + gross is positive, the drifted weights are again a simplex, and drifted cash is old cash divided by 1 + gross |
| PortfolioSimplex.TurnoverIsBought | backend/src/quantfoundry/engines/core.py:757-764 | turnover, cash included, is the fraction of the portfolio bought: the total-variation distance of the two allocations |
| PortfolioSimplex.TurnoverBounds | backend/src/quantfoundry/engines/core.py:757-764 | turnover is never negative, and at most one between two simplex allocations |
| CostSensitivity.SimulateTwice | backend/src/quantfoundry/engines/core.py:778-800 | under any two costs the simulation trades the same: same outcome, weights, gross returns, benchmarks and turnovers; net is gross minus turnover times the rate |
| CostSensitivity.HigherCostsNeverHelp | backend/src/quantfoundry/engines/core.py:778-779 | a higher cost rate never raises any period's net return, and never raises compounded return when in each period the two net factors together are not negative |
| CostSensitivity.CostsAreConserved | backend/src/quantfoundry/engines/core.py:884-885 | summed gross minus summed net equals reported commission plus slippage |
| CostThreshold.ThresholdExactly | backend/src/quantfoundry/engines/core.py:953-963 | the check passes on every long-only run whose price relatives all reach a floor (of at most one) if and only if the floor is at least one and a half times the base cost rate, or nothing is charged |
| CostThreshold.TapeFails | backend/src/quantfoundry/engines/core.py:953-963 | below that threshold, whatever the rate: a simulation with relatives at the floor on which doubled costs look better by more than the tolerance |
| CostCounterexample.DearerCanLookBetter | backend/src/quantfoundry/engines/core.py:953-963 | a concrete one: four sessions on which doubling non-negative costs turns a total return of -100% into 0% |
| ValidationChecks.CostCheckHolds | backend/src/quantfoundry/engines/core.py:953-963 | path by path: the cost_sensitivity check passes on doubled costs whenever base and stressed factor of each period together are not negative, hence whenever no stressed period loses more than everything |
| CostMargin.CostCheckHoldsOnPrices | backend/src/quantfoundry/engines/core.py:953-963 | read off the inputs: long-only, with price relatives that all cover one and a half times the cost rate, the check passes |
| CostMargin.SolventOnPrices | backend/src/quantfoundry/engines/core.py:777-779 | when they cover the cost rate itself, no period loses more than everything |
| CostMargin.GrowthAtLeast | backend/src/quantfoundry/engines/core.py:777 | 1 + gross of a simplex allocation is at least the least price relative of its holdings, when that is at most one |
| ValidationChecks.NumericalCheckIsSolvency | backend/src/quantfoundry/engines/core.py:910-917 | for a simulated result with non-negative costs, the numerical check passes if and only if there are at least two periods and the compounded wealth never falls below zero |
| Drawdown.Compound | backend/src/quantfoundry/engines/core.py:850-856 | the one-pass loop computes compounded wealth and the recursively specified worst drawdown |
| Drawdown.PeakIsLargest | backend/src/quantfoundry/engines/core.py:855 | the running peak is the largest wealth so far and is attained |
| Drawdown.WorstIsLeastDecline | backend/src/quantfoundry/engines/core.py:850-856 | with every return above -1 the maximum drawdown is attained by some earlier and later time and lies in (-1, 0] |
| Drawdown.WorstBoundsDeclines | backend/src/quantfoundry/engines/core.py:850-856 | it bounds the decline from any earlier to any later time, so it is the minimum over all pairs |
| RankCorrelation.AssignRanks | backend/src/quantfoundry/engines/core.py:478-490 | the block loop over any value-sorted order fills the array with the average ranks, so the order of ties does not matter |
| RankCorrelation.BlockCounts | backend/src/quantfoundry/engines/core.py:483-488 | the rank given to a block, half of cursor + 1 + end, is the number of smaller values plus half of ties plus one |
| RankCorrelation.RanksSum | backend/src/quantfoundry/engines/core.py:478-490 | the ranks of n values sum to n(n+1)/2 |
| RankCorrelation.RanksDependOnOrder | backend/src/quantfoundry/engines/core.py:478-490 | two sequences that compare alike position by position have the same ranks |
| RankCorrelation.PearsonBounded | backend/src/quantfoundry/engines/core.py:463-475 | the correlation of equally long sequences of two or more succeeds and lies between -1 and 1, the zero-denominator case included |
| Statistics.CauchySchwarz | backend/src/quantfoundry/engines/core.py:467-474 | the squared numerator never exceeds the product of the sums of squares |
| RankCorrelation.RankCorrelationInvariant | backend/src/quantfoundry/engines/core.py:573 | any strictly increasing transform of the scores leaves the rank correlation unchanged |
| CorrelationSigns.CorrelationOfScaled | backend/src/quantfoundry/engines/core.py:463-475 | a correlation ignores shifts and positive factors and changes its sign under a negative factor |
| CorrelationSigns.CorrelationWithItself | backend/src/quantfoundry/engines/core.py:463-475 | values that are not all the same correlate with themselves by exactly one |
| CorrelationSigns.AgreementIsOne | backend/src/quantfoundry/engines/core.py:478-490 | scores that order the outcomes as they fall have rank correlation one, scores that order them backwards minus one, unless all are tied |
| RiskContribution.VarianceIsSampleVariance | backend/src/quantfoundry/engines/core.py:824-835 | the matrix form of the variance equals the sample variance of the weighted return series, hence is not negative |
| RiskContribution.SharesAreEuler | backend/src/quantfoundry/engines/core.py:831-838 | contributions total exactly one when the variance is positive and are all zero when it is zero |
| RiskContribution.ContributionsAreEuler | backend/src/quantfoundry/engines/core.py:803-838 | from raw rows and any non-empty holdings: each contribution times the variance of the weighted return series is the holding's weight times its covariance with that series, and they total one; all are zero when the series does not vary or has fewer than two days |
| RiskContribution.PricesExactly | backend/src/quantfoundry/engines/core.py:806-809 | a symbol's price of a date is the close of its last row of that date |
| RiskContribution.ReturnsExactly | backend/src/quantfoundry/engines/core.py:811-816 | every date of a symbol but its first has a return, which grows the price of the date before into its own |
| RiskContribution.CovarianceOfWeighted | backend/src/quantfoundry/engines/core.py:824-834 | the covariance of any series with the weighted series is the weighted sum of its covariances with the holdings |
| FactorScores.ComputeFactorRows | backend/src/quantfoundry/engines/core.py:503-526 | for a formula already read: group by symbol, score, refuse an empty result, sort by date and symbol: the specified factor rows |
| FactorExpressions.ComputeFactorExpression | backend/src/quantfoundry/engines/core.py:493-526 | substitutes the parameters one after the other, reads the formula and computes its rows |
| FactorExpressions.TemplateFormula | backend/src/quantfoundry/engines/core.py:500-509 | a template with one placeholder, given decimal digits, stands for the formula with their number as look-back |
| FactorExpressions.FormulaExactly | backend/src/quantfoundry/engines/core.py:503-508 | the alternatives of the pattern exclude each other: a text has a formula if and only if it is spelled in that one way, with the decimal digits of Unicode the pattern takes |
| FactorExpressions.ReplaceOne | backend/src/quantfoundry/engines/core.py:500-502 | a single placeholder is replaced where it stands and nothing else changes |
| FactorExpressions.ReplaceEach | backend/src/quantfoundry/engines/core.py:500-502 | every placeholder of a parameter is replaced where it stands, however many a text has |
| FactorScores.CollectHistories | backend/src/quantfoundry/engines/core.py:512-514 | the dictionary holds exactly each symbol's rows in date order |
| FactorScores.AppendScores | backend/src/quantfoundry/engines/core.py:516-523 | the inner loop appends one history's look-back scores |
| FactorScores.CalculateAll | backend/src/quantfoundry/engines/core.py:515-523 | the outer loop appends the histories' scores symbol by symbol |
| FactorScores.ScoresHaveNoLookAhead | backend/src/quantfoundry/engines/core.py:512-526 | scores computed from rows up to a date are the full scores up to that date, for any rows and look-back |
| FactorScores.FactorHasNoLookAhead | backend/src/quantfoundry/engines/core.py:493-526 | the same for the whole computation with its error: truncated input gives the truncated result, or the insufficient-history error exactly when that is empty |
| FactorLaws.ScoresExactly | backend/src/quantfoundry/engines/core.py:512-526 | exactly these scores are computed: a row and the one `lookback` rows before it in its symbol's timeline, with the score that grows the earlier close into the later one (momentum) or its opposite (mean reversion) |
| FactorLaws.FactorExactly | backend/src/quantfoundry/engines/core.py:503-528 | every formula answered exactly: the close scores, the look-back range, the insufficient history (no symbol with more rows than the look-back), and otherwise exactly those scores in order of date and symbol |
| SchedulerTheorems.UpgradeExactly | backend/alembic/versions/0017_paper_scheduler_state_initialization.py:521-841 | initialize, validate and commit succeeds if and only if the store is ready: authority and states are unambiguous and each deployment either has a proven baseline or has no earlier evidence and a workspace whose numbering cannot restart below its expiry mark |
| SchedulerTheorems.RestartedNumberingBlocks | backend/alembic/versions/0017_paper_scheduler_state_initialization.py:585-589 | a store with nothing else wrong and no retained event: the baseline can be written, and the upgrade succeeds if and only if the expiry mark is at most one |
| SchedulerTheorems.UpgradeOutcome | backend/alembic/versions/0017_paper_scheduler_state_initialization.py:521-841 | a successful upgrade leaves a store the separate validator accepts; it appends one state, one audit row and one event per deployment that lacked a state, removes nothing, only relabels deployments and keeps the hash chain linked |
| SchedulerTheorems.RerunChangesNothing | backend/alembic/versions/0017_paper_scheduler_state_initialization.py:765-841 | on a validated store a further run succeeds and changes nothing |
| SchedulerTheorems.DeploymentOutcome | backend/alembic/versions/0017_paper_scheduler_state_initialization.py:322-440 | after the insertions a deployment is proven if and only if it had no state and no earlier baseline audit row, or was proven before |
| SchedulerTheorems.LinkedAll | backend/alembic/versions/0017_paper_scheduler_state_initialization.py:592-605 | appending baselines keeps every workspace's audit rows a hash chain |
| SchedulerTheorems.AppendsOnly | backend/alembic/versions/0017_paper_scheduler_state_initialization.py:613-762 | states, audit rows and events are only appended to, one of each per baseline |
| SchedulerStatuses.StatusesStored | backend/alembic/versions/0017_paper_scheduler_state_initialization.py:613-762 | after a successful upgrade an ACTIVE deployment has exactly one state, ACTIVE and not suppressed, a PAUSED one PAUSED, and a STOPPED, PENDING, FAILED or DISABLED one DISABLED; written now, the state is suppressed since the instant, and evidence and event carry the same status; a state that was there is kept |
| SchedulerStatuses.UnknownStatusBlocks | backend/alembic/versions/0017_paper_scheduler_state_initialization.py:27-34 | a deployment of any other status blocks the upgrade |
| SchedulerStatuses.DeploymentsAfter | backend/alembic/versions/0017_paper_scheduler_state_initialization.py:799-812 | a deployment changes in one way only: stopped and without a state, it is disabled |
| SchedulerRecords.UpgradeVouches | backend/alembic/versions/0017_paper_scheduler_state_initialization.py:521-582 | what success means, row by row: deployments are well kept; each has one state of its own and one baseline with its evidence and its announcing event, or an expired one; chain head and watermark stand at the newest rows; the rows added are numbered without a gap |
| SchedulerRecords.UnusedUpgradesExactly | backend/alembic/versions/0017_paper_scheduler_state_initialization.py:765-841 | deployments without any history, in any number of workspaces, are upgraded if and only if they are well kept: known status, no empty reference, a positive revision, and no id or paper twice in a workspace |
| SchedulerProof.Support | backend/alembic/versions/0017_paper_scheduler_state_initialization.py:443-518 | in a workspace that receives baselines, chain head and watermark end up valid if and only if numbering does not restart at or below the expiry mark; other workspaces are unaffected |
| SchedulerProof.TargetProven | backend/alembic/versions/0017_paper_scheduler_state_initialization.py:613-762 | a deployment that receives a baseline ends up proven if and only if no earlier baseline audit row names its paper |
| SchedulerProof.OtherProven | backend/alembic/versions/0017_paper_scheduler_state_initialization.py:613-762 | any other deployment is exactly as proven as before |
| SchedulerMigration.Database.RunUpgrade | backend/alembic/versions/0017_paper_scheduler_state_initialization.py:827-841 | initialize, validate, commit; a blocked run leaves every table as it was; success exactly on ready stores |
| SchedulerMigration.Database.InitializeMissingBaselines | backend/alembic/versions/0017_paper_scheduler_state_initialization.py:765-824 | collects the deployments without a state and writes their baselines, or blocks |
| SchedulerMigration.Database.WriteBaseline | backend/alembic/versions/0017_paper_scheduler_state_initialization.py:613-762 | inserts or updates state, audit row, chain head, event and watermark for one deployment |
| SchedulerMigration.Database.ValidateBaselines | backend/alembic/versions/0017_paper_scheduler_state_initialization.py:521-582 | the independent re-check accepts exactly the validated stores |
| SchedulerMigration.Database.ValidateEvidence | backend/alembic/versions/0017_paper_scheduler_state_initialization.py:322-440 | accepts exactly when the single state row is matched by one baseline audit row and its event, or the event has expired |
| SchedulerMigration.Database.ValidateSupportRows | backend/alembic/versions/0017_paper_scheduler_state_initialization.py:443-518 | accepts exactly when chain head and watermark agree with the newest audit row and event |
| SchedulerMigration.Database.ValidateDeploymentAuthority | backend/alembic/versions/0017_paper_scheduler_state_initialization.py:249-262 | accepts exactly when every deployment carries the required references |
| SchedulerMigration.Database.CheckStates | backend/alembic/versions/0017_paper_scheduler_state_initialization.py:765-790 | refuses duplicated and orphaned states and otherwise groups the states by deployment |
| TableOrder.LoadOrderCorrect | backend/alembic/versions/0016_section14_schema.py:1124-1143 | the load order is a permutation of the tables for any foreign-key graph, and puts every table after its mandatory parents if and only if the mandatory references have no cycle |
| TableOrder.ComputeLoadOrder | backend/alembic/versions/0016_section14_schema.py:1124-1143 | the loop that shrinks `pending`, taking the first table when none is ready, yields that order |
| TableOrder.FirstTable | backend/alembic/versions/0016_section14_schema.py:1130-1141 | the first table of the order is the first by name that waits for no other, or the first of all when every table waits |
| TableOrder.ComputeDropOrder | backend/alembic/versions/0016_section14_schema.py:1410-1425 | the drop loop terminates; it returns every table once with referrers first, and raises if and only if the references are cyclic, naming tables that contain a cycle |
| TableOrder.StuckIsCyclic | backend/alembic/versions/0016_section14_schema.py:1418-1421 | tables that each wait for another of them contain a reference cycle |
| SchemaRestore.Database.RestoreAll | backend/alembic/versions/0016_section14_schema.py:1152-1197 | for any schema and prepared rows the two-phase load ends with exactly those rows and loses no update; no reference with a nullable column dangles in any intermediate state; and none at all does if and only if every row comes, in load order, when the rows its mandatory references name are there |
| SchemaRestore.AcyclicOrder | backend/alembic/versions/0016_section14_schema.py:1124-1143 | without a cycle of mandatory references between tables, that is the case if and only if rows that refer to their own table follow the rows they name |
| SchemaRestore.ChildFirst | backend/alembic/versions/0016_section14_schema.py:1184-1185 | prepared rows in which nothing dangles and yet a child comes before its parent |
| SchemaRestore.Database.LoadTable | backend/alembic/versions/0016_section14_schema.py:1152-1187 | nulls and inserts the rows of one table, keeping every other table and the loading invariant in each state it goes through |
| SchemaRestore.Database.Update | backend/alembic/versions/0016_section14_schema.py:1188-1196 | updates every row whose primary key matches and counts them |
| SchemaRestore.OneMatch | backend/alembic/versions/0016_section14_schema.py:1192-1196 | each restoring update hits exactly one row, so the error is never raised |
| SchemaRestore.UpdateStep | backend/alembic/versions/0016_section14_schema.py:1188-1197 | restoring the first remembered entry keeps the loading invariant for the remaining ones |
| SchemaRestore.LoadingDone | backend/alembic/versions/0016_section14_schema.py:1188-1197 | with nothing left to restore every table holds its prepared rows |
| SchemaRestore.ParentsBefore | backend/alembic/versions/0016_section14_schema.py:1126-1143 | in an order that honours the waiting, each mandatory reference points to an earlier table or to its own |
| DeferredLoad.DeferRow | backend/alembic/versions/0016_section14_schema.py:1161-1183 | nulls the nullable columns of references whose target is not loaded, and no other column, and remembers exactly what was nulled |
| DeferredLoad.LoadingIsSound | backend/alembic/versions/0016_section14_schema.py:1152-1197 | in every loading state, a reference with a nullable column is either incomplete or names a present row |
| DeferredLoad.LoadingIsComplete | backend/alembic/versions/0016_section14_schema.py:1152-1197 | no reference dangles in a loading state in which each present row's mandatory references name a loaded table or a row of its own table not after it |
| EventFraming.ChunkInvariance | frontend/src/api/client.ts:1330-1337 | any two ways of cutting the same text into chunks give the same frames and the same remainder |
| EventFraming.ReadChunks | frontend/src/api/client.ts:1330-1337 | buffering and splitting chunk by chunk gives what splitting the whole text at once gives |
| EventFraming.SplitConcat | frontend/src/api/client.ts:1266-1278 | splitting a prefix and then its remainder with the rest equals splitting everything, also when a separator straddles the cut |
| EventFraming.RemainderUnsplit | frontend/src/api/client.ts:1266-1278 | the remainder contains no complete separator |
| EventStream.DecodedAgrees | frontend/src/api/client.ts:1242-1264 | a frame is accepted only when its cursor line and its envelope sequence agree and are at least one |
| EventStream.Stream.HandleRaw | frontend/src/api/client.ts:1337-1376 | one turn of the frame loop: skews, block, replay, gap, cursor storage and callbacks |
| EventStream.Stream.Receive | frontend/src/api/client.ts:1331-1377 | one chunk: buffer, split, and handle every complete frame |
| EventStream.Stream.Connect | frontend/src/api/client.ts:1327-1330 | a new connection starts with an empty buffer; cursor and skew count survive |
| EventStream.Stream.Break | frontend/src/api/client.ts:1378-1383 | a broken connection reports and resynchronises, keeping cursor and count |
| EventStream.ReceiveInChunks | frontend/src/api/client.ts:1330-1377 | receiving a text in two chunks is indistinguishable from receiving it in one |
| EventStream.RunCoherent | frontend/src/api/client.ts:1295-1390 | over any run of connections, breaks and frames in one scope: deliveries strictly increase above the initial cursor, the stored cursor is the last accepted sequence, and every gap after an accepted event is followed by a resync |
| EventStream.BlockedForever | frontend/src/api/client.ts:1344-1349 | after the contract block nothing is delivered or stored again |
| EventStream.BlocksExactly | frontend/src/api/client.ts:1339-1365 | the client blocks if and only if three frames in a row were unacceptable, however spread over connections |
| EventStream.DeliversTheRecords | frontend/src/api/client.ts:1365-1375 | until a block, exactly the events whose sequence beats everything before them are delivered, in order and once each |
| EventStream.ResumedConnection | frontend/src/api/client.ts:1365-1375 | a connection that resumes right after the cursor delivers every event once with no resync |
| EventStream.HeartbeatHasNoData | backend/src/quantfoundry/api/sse/stream.py:190-197 | the server's idle heartbeat is one complete frame that carries no data |
| EventStream.IdleStreamBlocks | frontend/src/api/client.ts:1353-1361 | three heartbeats with nothing in between block the client |
| EventDelivery.RefusedFrame | frontend/src/api/client.ts:1339-1363 | a frame without data, out of contract, or notifying of a holdout with any payload member but status, state and reason_code counts a skew and asks for a resync, and leaves cursor and deliveries alone; the third in a row blocks |
| EventDelivery.AcceptedFrame | frontend/src/api/client.ts:1364-1375 | every other frame ends the run of skews; beyond the cursor it moves and stores the cursor and is delivered, unless it demands a resync, and resynchronises after a gap |
| EventDelivery.OnlyHarmlessDelivered | frontend/src/api/client.ts:1230-1234 | over every run no holdout notification with any other payload member is delivered |
| EventDelivery.RecordDecodes | backend/src/quantfoundry/api/sse/stream.py:45-49 | what the server writes for an event is a frame that decodes to that event |
| EventDelivery.ServerToCaller | backend/src/quantfoundry/api/sse/stream.py:45-49 | end to end: the server's text for consecutive events after the cursor, cut into chunks in any way, is stored and delivered once each, in order, with no resync |
| EventDelivery.BlankEndsFrame | frontend/src/api/client.ts:1332 | any blank line ends a frame, its two line ends spelled as LF or CRLF |
| EventDelivery.BreakEndsLine | frontend/src/api/client.ts:1243 | either spelling ends a line |
| DecimalParsing.MatchExactly | frontend/src/format.tsx:24 | the matcher finds a reading if and only if it is well formed and renders to the text; it is unique |
| DecimalParsing.ParseKeepsValue | frontend/src/format.tsx:22-51 | parsing keeps coefficient times ten to the exponent exactly, strips leading zeros and yields at most 10001 digits |
| DecimalParsing.ParseCanonicalDecimal | frontend/src/format.tsx:22-51 | length, match, exponent and size checks in order, then the repositioned digits |
| DecimalParsing.ParseBoundedExponent | frontend/src/format.tsx:10-20 | the accumulating loop equals the bounded value of the signed digits, giving up past the bound |
| DecimalRounding.RoundedCorrect | frontend/src/format.tsx:57-76 | rounding gives exactly the requested fraction digits; exact when nothing is dropped, otherwise nearest with ties away from zero |
| DecimalRounding.NearestError | frontend/src/format.tsx:62-76 | the rounding error is at most half a unit, and half only upwards in magnitude |
| DecimalRounding.Carry | frontend/src/format.tsx:63-70 | the in-place carry loop over the digit array produces the incremented digit string |
| DecimalRounding.IncrementAddsOne | frontend/src/format.tsx:63-70 | that digit string is worth exactly one more, all nines included |
| DecimalRounding.WithPrecision | frontend/src/format.tsx:53-77 | precision checks, padding, truncation or rounding as specified |
| DecimalFormatting.GroupInteger | frontend/src/format.tsx:98-115 | the cursor loop returns the segments joined by the separator |
| DecimalFormatting.SegmentsCorrect | frontend/src/format.tsx:105-113 | segments concatenate to the integer; the last has the primary size, inner ones the secondary size, the first is not empty |
| DecimalFormatting.GroupingUndone | frontend/src/format.tsx:98-115 | deleting the separators gives the integer back |
| DecimalFormatting.FormatCanonicalDecimal | frontend/src/format.tsx:117-139 | parse, adjust, group and assemble, or no text at all |
| DecimalFormatting.AssembledDigits | frontend/src/format.tsx:127-135 | the digits of the formatted text are the integer digits followed by the fraction digits |
| DecimalFormatting.FormattingRounds | frontend/src/format.tsx:117-139 | end to end: the digits shown are the input's value scaled to the requested places and rounded to nearest, ties away from zero |
| DecimalReading.DisplayReadsBack | frontend/src/format.tsx:133-135 | the displayed text begins with the minus if and only if the input does; without minus and group separators it is the integer digits, then the decimal mark if and only if there are fraction digits, then those; read back it is the parsed number, or its value rounded to the places with its sign, zero included |
| DecimalReading.ShownExactly | frontend/src/format.tsx:117-126 | a text is shown if and only if it has a reading within 10000 characters, exponent and digits, and the precision is absent or a whole number from 0 to 18 |
| DecimalReading.GroupsPeel | frontend/src/format.tsx:98-115 | the last digits, as many as the primary size, stand behind a separator, and the digits before them are grouped by the secondary size; a short integer stays whole |
| AccessKeys.RunSound | backend/app/control_plane.py:1420-1731 | over every run of requests at any times, audit entries of the configuration and database handlers included: the audit log stays a linked hash chain, an unrevoked session's key is ACTIVE, idle expiry never passes absolute expiry, and once some key is ACTIVE some key always is |
| AccessKeys.DeadForever | backend/app/control_plane.py:611-640 | a revoked session, or one whose key is no longer ACTIVE, is never accepted again |
| AccessKeys.RevokedKeyKillsSessions | backend/app/control_plane.py:1617-1652 | revoking, expiring or rotating a key makes each of its sessions such a session |
| AccessKeys.AcceptedWithinAWeek | backend/app/control_plane.py:1464-1476 | no session is accepted later than a week after issue, however often its idle window moves |
| AccessKeys.HeadDeterminesChain | backend/app/control_plane.py:501-541 | two linked chains with the same last hash are the same chain |
| AccessKeys.RevocationKeepsUsable | backend/app/control_plane.py:1628-1641 | after a successful revocation a key that can log in remains if and only if another one was usable before |
| AccessKeys.LastUsableKeyCanGo | backend/app/control_plane.py:1628-1641 | a concrete state in which the last usable key is revoked past the last-active-key guard |
| AccessKeys.ControlPlane.SessionContext | backend/app/control_plane.py:611-640 | accepts exactly the valid sessions and moves only the accepted one's idle window |
| AccessKeys.ControlPlane.LogIn | backend/app/control_plane.py:1420-1480 | a login of a limited client or with a malformed, unknown, inactive or unverified key is refused and logged; otherwise a fresh session is stored |
| AccessKeys.ControlPlane.RevokeKey | backend/app/control_plane.py:1617-1657 | checks in order, then ends the key and its sessions and logs it |
| AccessKeys.ControlPlane.RotateKey | backend/app/control_plane.py:1684-1731 | replaces a key by a new one with the same label and expiry and ends the old one's sessions |
| AccessKeys.ControlPlane.RevokeSessions | backend/app/control_plane.py:1642-1645 | revokes exactly the unrevoked sessions of the key |
| AccessKeys.ControlPlane.Handle | backend/app/control_plane.py:1420-1735 | every request changes the tables as its specification says |
| SessionHistory.LoginExactly | backend/app/control_plane.py:1420-1480 | a login succeeds if and only if its client was not refused eight times within a minute, its key is stored, ACTIVE and unexpired, and the secret was verified; a refused one leaves keys and sessions alone and adds one RATE_LIMIT entry |
| SessionHistory.EverySessionIssued | backend/app/control_plane.py:1457-1480 | over every run each session not there at the start was issued by such a login, with the key it names |
| SessionHistory.AcceptedExactly | backend/app/control_plane.py:611-640 | from its login on, through any run at any times, a session is accepted if and only if no logout, revocation or rotation ended it, its key has not expired, a week has not passed since the login and twelve hours have not passed since it was last let in |
| SessionHistory.OtherEpochNever | backend/app/control_plane.py:625-634 | a session of another epoch is never accepted, over any run |
| LoginLimits.LimitedExactly | backend/app/control_plane.py:583-608 | told from the history of requests: a client is turned away for the limit, whatever key it presents, if and only if it was refused eight times within the last minute, refusals for the limit included |
| LoginLimits.EightGuessesAMinute | backend/app/control_plane.py:583-608 | in no minute are more than eight wrong keys of one client looked at, over every run |
| KeyRequests.RevocationExactly | backend/app/control_plane.py:1617-1657 | a key is revoked or expired if and only if the request names its revision and it is not the last ACTIVE one; exactly its sessions end, nothing else changes, and the log says so |
| KeyRequests.RotationExactly | backend/app/control_plane.py:1684-1731 | a key is replaced if and only if the request names its revision; the new one is ACTIVE with the old label and expiry |
| KeyRequests.CreationExactly | backend/app/control_plane.py:1556-1612 | creation, renaming and the issue of a first key: when granted and all they change |
| KeyRequests.OnlyAcceptedPerform | backend/app/control_plane.py:686-692 | a request of a session that is not accepted changes nothing, one without its token at most the idle window; logging out revokes exactly that session |
| KeyRequests.NothingUnlogged | backend/app/control_plane.py:501-541 | over every run the log keeps every entry, and a run that adds none has changed no key and nothing of a session but its idle window |
| DatabaseConnection.RunSound | backend/app/control_plane.py:2290-2607 | in every reachable state at most one revision is ACTIVE and the bootstrap pointer names it; the last known good one is ACTIVE or SUPERSEDED and passed validation |
| DatabaseConnection.ActivationRemembers | backend/app/control_plane.py:2467-2480 | a successful activation makes the latest validated revision active and remembers the one before it |
| DatabaseConnection.RevertUndoesActivation | backend/app/control_plane.py:2518-2597 | activate then revert makes the earlier active revision active again, and a further immediate revert is refused and changes nothing; after a first activation there is nothing to revert to |
| DatabaseConnection.RetiredForever | backend/app/control_plane.py:2415-2597 | a superseded revision that is not the last known good one never becomes active again over any run |
| DatabaseConnection.RevertRetires | backend/app/control_plane.py:2571-2577 | the revision a revert leaves behind is such a revision |
| DatabaseConnection.Latest | backend/app/control_plane.py:2427-2436 | the row a descending query returns first: the greatest revision in the phase, none if and only if there is none |
| DatabaseConnection.Bootstrap.PutCandidate | backend/app/control_plane.py:2290-2362 | stores a candidate based on the active revision or on one; without a root key nothing stays |
| DatabaseConnection.Bootstrap.ValidateCandidate | backend/app/control_plane.py:2370-2408 | the latest candidate becomes VALIDATED or FAILED by the probe |
| DatabaseConnection.Bootstrap.ActivateCandidate | backend/app/control_plane.py:2415-2501 | a failed probe or switch marks the candidate FAILED although the request is refused; success moves both pointers |
| DatabaseConnection.Bootstrap.RevertConnection | backend/app/control_plane.py:2518-2597 | a refused revert changes nothing; success moves both pointers to the last known good revision |
| DatabaseConnection.EmptySound | backend/app/control_plane.py:2426-2436 | a database without revisions is sound, so every run from it is |
| DatabaseConnection.AnswersExactly | backend/app/control_plane.py:2290-2597 | which requests succeed, told from the pointers and the request; of the others only an activation whose probe or switch fails changes anything, and that only marks its candidate as failed |
| DatabaseConnection.JudgedByProbe | backend/app/control_plane.py:2370-2408 | the latest candidate becomes VALIDATED if and only if its probe passes, and nothing else changes |
| ConfigurationTheorems.RunSound | backend/app/control_plane.py:1759-2240 | over every run under any sequence of root keys: each stored secret is sealed under its own installation, key, revision and schema version, snapshots match contents, both pointers name ACTIVE revisions, and no revision's rows, base or snapshot ever change |
| ConfigurationTheorems.RollbackRestores | backend/app/control_plane.py:2107-2240 | after a rollback the active revision is new and greater than all others, its view and every decrypted secret equal the source's although no envelope is the same, and last known good is the revision active just before |
| ConfigurationTheorems.RollbackSucceedsExactly | backend/app/control_plane.py:2118-2162 | it succeeds if and only if the precondition holds, the source exists and all its secrets were sealed under the configured root key; otherwise nothing changes |
| ConfigurationTheorems.RollbackUndoesActivation | backend/app/control_plane.py:1978-2240 | activating and then rolling back to the last known good revision restores the earlier view and secrets |
| ConfigurationTheorems.PreviewKeptExactly | backend/app/control_plane.py:726-754 | activation shows what the candidate preview showed if and only if the candidate itself configures every catalogued key the active revision configures |
| ConfigurationTheorems.RollbackVouchesExactly | backend/app/control_plane.py:2127-2181 | what a rollback makes active meets the schemas of its keys if and only if the source did |
| ConfigurationTheorems.RunVouchedExactly | backend/app/control_plane.py:1862-2240 | over a whole run every revision that is validated, or is or was active, meets the schemas of its keys all along if and only if the source of every successful rollback did |
| ConfigurationTheorems.RunVouched | backend/app/control_plane.py:1862-1970 | in particular when every rollback names a validated or active source, which the caller can look up |
| ConfigurationTheorems.FailedRevisionGoesLive | backend/app/control_plane.py:2127-2181 | a revision that failed validation can be rolled back to and becomes active |
| CandidateRequests.DraftAnswer | backend/app/control_plane.py:1800-1845 | the items decide the answer, exactly: refused when the first that cannot be stored has an unknown or repeated key or lacks its secret text, an exception when it is a fit secret without a root key |
| CandidateRequests.PutAnswerExactly | backend/app/control_plane.py:1775-1853 | when a request is refused as invalid, and when accepted; of the requests that are not accepted, exactly those refused as invalid change the tables |
| CandidateRequests.RefusedPutStays | backend/app/control_plane.py:1787-1810 | what a refused request leaves: a candidate with exactly the rows of the items before the one that stopped it, which is the latest candidate; all else untouched |
| CandidateRequests.RefusedPutIsJudged | backend/app/control_plane.py:1871-1876 | the next validation judges that candidate, under any root key; when it passes, activation succeeds and those rows are the active ones |
| ConfigurationTheorems.RefusedCandidateGoesLive | backend/app/control_plane.py:1799-1820 | a concrete candidate refused half way that is then validated and activated |
| ConfigurationDependencies.ActivationMeetsExactly | backend/app/control_plane.py:2004-2034 | after an activation every configured key has its dependencies among the active rows if and only if the activated revision's own rows contain them |
| ConfigurationDependencies.CoveringCandidateMeets | backend/app/control_plane.py:1945-1953 | a candidate that passes validation and configures every key the active revision configures keeps its dependencies when activated |
| ConfigurationDependencies.RollbackMeetsExactly | backend/app/control_plane.py:2127-2181 | a rollback ends with the dependencies met if and only if the source contained its own |
| ConfigurationDependencies.RunMeetsExactly | backend/app/control_plane.py:1759-2240 | over a whole run the active revision contains its own dependencies all along if and only if every revision activated or rolled back to did |
| ConfigurationDependencies.DependencyAndPreviewLost | backend/app/control_plane.py:1945-1953 | a concrete candidate that passes validation and on activation loses its dependency and what its preview showed |
| Configuration.ControlDatabase.HandlePut | backend/app/control_plane.py:1759-1853 | stores the candidate item by item; a refused item leaves the earlier ones, a missing root key undoes all |
| Configuration.ControlDatabase.HandleValidate | backend/app/control_plane.py:1862-1970 | the latest candidate becomes VALIDATED exactly when every row opens, fits its schema and has its dependencies |
| Configuration.ControlDatabase.HandleActivate | backend/app/control_plane.py:1978-2070 | moves the pointers, marks the revision and acknowledges every catalogued consumer |
| Configuration.ControlDatabase.ActivateRevision | backend/app/control_plane.py:831-917 | the second activation path makes the same state change and differs only in answering not-found for a missing revision |
| Configuration.ControlDatabase.AcknowledgeAll | backend/app/control_plane.py:883-909 | exactly the consumers of the catalog are set to the revision, the others and stored error codes kept |
| Configuration.ControlDatabase.ReadSecrets | backend/app/control_plane.py:2133-2162 | opens every secret of the source, in any order of its rows, or answers with a failure that one of them has |
| Configuration.ControlDatabase.HandleRollback | backend/app/control_plane.py:2107-2240 | reads all secrets before writing, then seals them again under the new revision and moves the pointers; outside the state invariant, where secrets can fail in two ways, the order of the rows decides which answer is given |
| Configuration.SoundReads | backend/app/control_plane.py:416-435 | in a sound state opening a stored secret gives its text, or fails for the root key alone; the tag never fails |
| ConfigurationTheorems.FreshSound | backend/app/control_plane.py:378-402 | the state a new control database is initialised to is sound, so every run from it is |
| CandidateValidation.CandidateJudgedExactly | backend/app/control_plane.py:1862-1970 | the candidate of an accepted request becomes VALIDATED if and only if each item fits: a secret was sealed under the root key still configured, every text meets its schema, and what the key depends on is configured; it is FAILED otherwise, and an exception escapes if and only if it holds a secret and no root key is left |
| CandidateValidation.FittingCandidateServes | backend/app/control_plane.py:1759-2070 | request, validation and activation of such a candidate all succeed; the active revision holds exactly its items, and each secret opens to the text it was put with |
| CandidateValidation.SecretBoundToPlace | backend/app/control_plane.py:416-435 | a stored secret opens if and only if it is read in its own row and revision under the root key that sealed it |
| CandidateValidation.ViewsExactly | backend/app/control_plane.py:726-754 | a view shows the revision's own rows over the active ones, plain texts as they are and of a secret nothing but that it is configured |
| ConsumerAcknowledgement.ActivationExactly | backend/app/control_plane.py:1978-2070 | an activation succeeds if and only if the request names the active revision and the other one is validated or already active; it then moves the pointers and leaves every consumer of the catalog desiring, having and acknowledging the new revision |
| ConsumerAcknowledgement.StepInStepExactly | backend/app/control_plane.py:2036-2062 | a request keeps all consumers at the active revision if and only if it is no successful rollback |
| ConsumerAcknowledgement.RunInStepExactly | backend/app/control_plane.py:2107-2240 | over a whole run they are at the active revision all along if and only if no rollback succeeds |
| EvidenceGuards.StepKeepsEvidenceExactly | backend/alembic/versions/0016_section14_schema.py:1349-1389 | an admitted statement keeps every validation's evidence (an APPROVED approval once unlocked, one exposure row and a count of one once exposed) if and only if it is justified: an inserted row, or one given another id, brings its own |
| EvidenceGuards.RunEvidenceExactly | backend/alembic/versions/0016_section14_schema.py:1485-1489 | over a run the evidence holds after every statement if and only if every admitted statement was justified when it came |
| EvidenceGuards.RunEvidence | backend/alembic/versions/0016_section14_schema.py:1349-1389 | over every run that inserts validations locked and keeps the id of opened ones: an unlocked, running or exposed validation has an APPROVED approval, an exposed one exactly one exposure row, and the stored count agrees |
| EvidenceGuards.PinnedStaysExactly | backend/alembic/versions/0016_section14_schema.py:1485-1489 | an admitted statement keeps an exposed validation with its approval and exposure row if and only if it neither deletes nor renames it; it can then only stay exposed or fail |
| EvidenceGuards.ExposedForeverExactly | backend/alembic/versions/0016_section14_schema.py:1446-1489 | the same over a whole run, in both directions |
| EvidenceGuards.RowsOutliveRuns | backend/alembic/versions/0003_runtime_integrity.py:89-98 | terminal approvals and exposure rows stay as they are over every run of statements, and no validation id gets a second exposure row |
| EvidenceGuards.ApplyKeepsEvidence | backend/alembic/versions/0003_runtime_integrity.py:155-169 | no statement changes or removes a terminal approval or an exposure, or adds a second exposure for a validation |
| EvidenceGuards.ExposedIsPinned | backend/alembic/versions/0016_section14_schema.py:1376-1384 | an exposed validation with its evidence is held by some exposure row and some APPROVED approval |
| EvidenceGuards.StepKeepsStrategyExactly | backend/alembic/versions/0016_section14_schema.py:1379-1489 | an admitted statement keeps each exposed validation's strategy version equal to the one its exposure records if and only if a row inserted exposed has its own exposure, and a row exposed afterwards keeps id and strategy version or has an exposure under the new ones |
| EvidenceGuards.RunKeepsStrategyExactly | backend/alembic/versions/0016_section14_schema.py:1485-1489 | the same over a whole run, in both directions |
| EvidenceGuards.OneExposedSound | backend/alembic/versions/0016_section14_schema.py:1376-1384 | the tables of the following examples have their evidence and match |
| EvidenceGuards.ExposedCanBeRenamed | backend/alembic/versions/0016_section14_schema.py:1485-1489 | an admitted update that gives an exposed validation another id, under which nothing approves it |
| EvidenceGuards.ExposedCanBeDeleted | backend/alembic/versions/0016_section14_schema.py:1485-1489 | an exposed validation is deleted and a locked one of the same id inserted, while the exposure row stays |
| EvidenceGuards.ExposedStrategyCanChange | backend/alembic/versions/0016_section14_schema.py:1485-1489 | an admitted update that gives an exposed validation another strategy version |
| EvidenceGuards.ExposedCanBeInserted | backend/alembic/versions/0016_section14_schema.py:1485-1489 | an admitted insert of an exposed validation without approval or exposure |
| EvidenceGuards.FrozenColumnsCanChange | backend/alembic/versions/0006_p0_truthfulness.py:108-123 | the columns of a frozen version that the guard does not name can change |
| EvidenceGuards.FrozenForever | backend/alembic/versions/0006_p0_truthfulness.py:95-127 | over every run a strategy version past CANDIDATE is never deleted, keeps its specification, moves only forward, and changes its detail only together with its state |
| EvidenceGuards.FewChanges | backend/alembic/versions/0006_p0_truthfulness.py:113-120 | such a version changes state at most four times, however long the run |
| GuardHistories.ExposureCameThrough | backend/alembic/versions/0016_section14_schema.py:1349-1389 | a validation that starts locked and ends exposed was requested, unlocked and run before, in that order: requested while an approval was pending, unlocked and run while one was APPROVED, exposed once its exposure row named it and its strategy version |
| GuardHistories.FailedForever | backend/alembic/versions/0016_section14_schema.py:1349-1361 | a failed validation stays failed as long as it is there |
| GuardHistories.PaperCameThrough | backend/alembic/versions/0006_p0_truthfulness.py:108-117 | a strategy version that started as a candidate and trades on paper was frozen, put to validation and validated before, in that order |
| GuardHistories.ExposureIsPossible | backend/alembic/versions/0016_section14_schema.py:1349-1389 | wherever its ids and keys are free, a validation can be requested, approved, run and exposed, each statement admitted |
| GuardHistories.TradingIsPossible | backend/alembic/versions/0006_p0_truthfulness.py:108-117 | each step of a version's lifecycle is admitted and changes its state alone |
| GuardHistories.DeletionsExactly | backend/alembic/versions/0003_runtime_integrity.py:89-98 | a deletion removes a pending approval, a candidate version or any validation, and never an exposure or a terminal approval |
| GuardHistories.KeysUniqueThroughout | backend/alembic/versions/0016_section14_schema.py:1349-1389 | over every run no two validations share an id and no two exposures a validation, an approval or a job |

## Left out

- SimulationAnswersExactly: is about long-only strategies with a leverage of at most one; others can besides lose exactly everything in a session, which depends on the weights and not only on which symbols are held (`SimulationOutcome.FailsSomewhere`).
- Which characters are decimal digits of Unicode, and their values, is a parameter of reading factor expressions.
- Floating-point rounding: the engine is proved over reals; the 1e-12 tolerance and the volatility floor are kept.
- Square roots, annualised ratios (CAGR, Sharpe, Sortino, Calmar) and averages that only divide: the root is a parameter assumed only to square back, the standard deviation and the calendar are parameters.
- Dataset, cost-model and policy loading, Parquet and DuckDB: only the validated facts (positive prices, non-negative dividends, positive split factors) are kept, as types of a row.
- `snapshot_rows`, `date_range_rows` and the aggregation in `factor_metrics`: filters and averages that would add only easier members.
- JSON typing checks, timestamps' textual forms and the quarantine report of migration 0017: rows are typed and instants are values; the reason of a block is not distinguished.
- The preparation of row values in migration 0016 (defaults, coercion, renumbering of events) and the SQLite deferral pragma: prepared rows are an arbitrary input that meets the schema's keys.
- RestoreAll: takes the rows of a table to be inserted one by one, as the database drivers do with a list of rows; a single multi-row statement would only check references at its end.
- HTTP transport, backoff timers, and changes of the authenticated scope in the event stream: a run stays in one scope, and a refused connection is a step that changes nothing.
- The JSON and schema validation inside a frame: the wire format is an arbitrary decoding function.
- `Intl` locale lookup: separators and group sizes are parameters; separators contain no digits, and a positive primary size comes with a positive secondary one, as the lookup ensures.
- Argon2, HMAC and SHA-256: verification is an arbitrary answer, a hash is its content. AES-GCM opens under the same root key id and associated data and fails its tag otherwise; two different keys under one id are not modelled.
- Random identifiers are drawn fresh, as an assumption on runs; the verifiers of secrets and CSRF tokens are arbitrary answers.
- Database probing, rebinding and failing commits: a probe and a switch are arbitrary answers, commits succeed; the bootstrap row exists.
- The response bodies of the handlers, consumer heartbeats, build identifiers and timestamps of configuration revisions.
- The SQLite variants of the guards, which migration 0016 does not reinstall completely.
- Statement-level effects of the guards (several rows in one statement, concurrent transactions): one statement changes one row.
- React pages, mocks, schema manifests, seed and smoke scripts, connectors.
