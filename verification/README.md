# Sentinel Apex: verified models of the trading core

This project models the algorithmic core of Sentinel Apex in Dafny and proves what that core is relied on for.
`dafny verify dfyconfig.toml` checks everything. Amounts, prices and sizes are exact reals, time is an integer
number of milliseconds passed in by the caller, text is a sequence of characters, and what a venue or an audit
writer answers is a parameter. Wherever the code rounds or compares with a threshold on purpose (`toFixed(4)`,
`toFixed(2)`, rounding down to cents, 1e-8, 1e-12, 1e-6) the model does the same.

Code that works step by step is modelled as methods with loops, or as classes whose methods update their fields;
each such method is proved equal to a function of its inputs, and the laws are lemmas about that function.

| module | models |
|---|---|
| `LotMatching`, `PnlCalculator` | FIFO, LIFO and average-cost profit of a trade history |
| `GuardrailModel`, `GuardrailRuns`, `GuardrailLaws`, `ExecutionGuardrails` | the execution guardrail engine: lazily reset failure counters and daily totals |
| `MultiLegOrchestration` | ordering the legs of a plan, and what a failed leg rolls back |
| `PortfolioModel`, `PortfolioLaws`, `ScoringLaws`, `PortfolioOptimizer` | greedy selection and capped sizing of carry opportunities |
| `SolanaKeys`, `Text` | the base-58 public key check |
| `DerivativeLedger`, `VenueComparison` | positions rebuilt from fills, and their comparison with a venue's positions |
| `OrderLifecycle`, `OrderLaws`, `OrderExecution` | the order store's transitions and the executor's retries, polls, cancels and fills |
| `SqlStatements` | splitting migrations into statements |
| `ExposureReduction` | the greedy reduction of carry exposure |
| `RiskGate` | the pre-trade risk checks, their roll-up, and the state after a fill |
| `AllocatorPolicy` | the carry and treasury targets |
| `Basics`, `StableSort`, `Sums` | rounding, sorting by key, sums over sequences |

## Where the code and its intention differ

- Allocator: the design documents cap carry when the sleeve is throttled or degraded. The code asks for degraded,
  blocked, de-risked or unhealthy, so a sleeve that is only throttled is not capped (`AllocatorPolicy.ThrottledSleeveIsNotCapped`).
  A capped sleeve can be returned above its cap in two more ways: the uplift adds five points (`UpliftPassesTheWeakCap`), and
  the treasury's maximum puts carry back up (`TreasuryBoundPassesTheWeakCap`). `TargetIsCappedIff` and
  `CappedUnderEveryPolicyIff` give the exact conditions on the returned target. The engine's interface admits these inputs;
  the runtime builds none of them: there a sleeve is healthy only when it is active, restricted sleeves come with
  pressure or a weak score, and the treasury's maximum is 100.
- Risk gate: in an empty portfolio the first order is all of its venue's and its asset's exposure, so with the default
  concentration limits of 40 and 30 % every order is refused for ever; the runtime sets both limits to 100
  (`RiskGate.ColdStartIff`). Orders of one cycle are assessed against one state, and together they can break a limit that
  each of them keeps (`RiskGate.BatchBreaksALimit`; `BatchKeepsLimitsIff` gives the exact condition).
  A closing fill does not return the margin its opening took from the reserve (`RiskGate.CloseDoesNotReturnMargin`).
- Guardrails: with an enabled breaker and a threshold below 1, a `check` can change a later verdict, because it
  clears the failure count but not the failure time. `GuardrailRuns.ProbesHarmlessIff` gives the exact condition
  for any engine, at any time, with one configuration per scope, which `createConfig` maintains.
- Plan rollback: a failed leg number that is not in the plan rolls back all legs but the last, since `indexOf`
  answers −1 and `slice(0, -1)` drops one (`MultiLegOrchestration.RollbackOfUnknownLeg`, `RollbackIsEarlierIff`).
- Public keys: 32 times `1`, the base-58 form of 32 zero bytes, is rejected, because the array starts with a zero byte of
  its own; among all strings it is the only one (`SolanaKeys.OnlyAllOnesIsMisjudged`).
- Venue comparison: an internal position without partner is silently dropped when an earlier one carries the same
  position key (`VenueComparison.EveryPositionAccounted` and `AlwaysListedIff` give the exact conditions,
  `OneMarketTwoGroups` an example).
- Order executor: an audit failure after an accepted placement sends the order back into the retry loop, and it is
  placed again (`OrderLifecycle.PlacesAgainIff` gives the exact condition, `AuditFailurePlacesTwice` an example);
  after an immediate full fill the call throws instead (`SubmitIsNeverRefused`).
- Position sizing: the configured gross cap can be exceeded through rounding (`PortfolioLaws.GrossCapIsExceeded`;
  `PlainGrossCapIff` and `PlainGrossCapOverRunIff` give the exact condition). The excess is at most `5e-7·NAV + 0.005` and does not grow
  with the number of positions (`GrossStaysUnderCap`, `SizingRespectsCaps`).

## Model

| member | source | states |
|---|---|---|
| `LotMatching.MatchConserves` | packages/cex-verification/src/pnl-calculator.ts:155-171 | one sell, FIFO or LIFO, any signs: cost charged + value of lots left + dropped dust = value of lots before, and the same for quantities |
| `LotMatching.MatchBounds` | packages/cex-verification/src/pnl-calculator.ts:155-171 | lots stay non-negative; a sell drops at most one dust remainder (at most 1e-8 units), only when fully matched, and is left unmatched beyond dust only when no lot remains |
| `LotMatching.MatchDust` | packages/cex-verification/src/pnl-calculator.ts:164-170 | dropped dust is non-negative and at most 1e-8 times the prices of the removed lots, for any quantities |
| `LotMatching.DustThreshold` | packages/cex-verification/src/pnl-calculator.ts:159-170 | a remainder of a lot is dropped exactly when it is at most 0.00000001, and a sell of that size is not matched |
| `LotMatching.MatchChargesTheFront` | packages/cex-verification/src/pnl-calculator.ts:155-171 | cost equals the price of the first matched units along the consumption order (a loop-free cost curve), and the lots left are that curve with those units cut off, for FIFO and LIFO |
| `LotMatching.LedgerConserves` | packages/cex-verification/src/pnl-calculator.ts:134-238 | at every point of a FIFO or LIFO run, overselling included, charged cost + queued value + dust = total buy cost; quantities balance likewise; realised PnL = sell value − charged cost |
| `LotMatching.LedgerDust` | packages/cex-verification/src/pnl-calculator.ts:134-238 | over a whole run dust lies between 0 and 1e-8 times the summed prices of removed lots |
| `LotMatching.LedgerBounds` | packages/cex-verification/src/pnl-calculator.ts:134-238 | without overselling, dropped and unmatched quantity each stay within one 1e-8 threshold per sell, and dust is worth at most that quantity at the highest buy price |
| `LotMatching.LedgerKeepsQuantities` | packages/cex-verification/src/pnl-calculator.ts:155-171 | lot quantities stay non-negative at every point of a FIFO or LIFO run, overselling included |
| `LotMatching.RealizedPnlIdentity` | packages/cex-verification/src/pnl-calculator.ts:134-238 | realised PnL differs from sell value − buy value by exactly the value still queued plus the dust, for every history |
| `LotMatching.FifoConsumesOldestFirst` | packages/cex-verification/src/pnl-calculator.ts:134-185 | over every FIFO run the queue prices further units exactly as the purchase history does after the units already consumed |
| `LotMatching.FifoChargesOldestUnits` | packages/cex-verification/src/pnl-calculator.ts:155-174 | the cost of a FIFO sell is the slice of the purchase history that starts where earlier consumption ended |
| `LotMatching.LifoKeepsLowest` | packages/cex-verification/src/pnl-calculator.ts:209-224 | a LIFO sell leaves the lowest units, up to the quantity that remains, exactly as they were |
| `LotMatching.LifoKeepsAStack` | packages/cex-verification/src/pnl-calculator.ts:188-238 | over every LIFO run, overselling included, the open lots are the stack of purchases: the unit at each height belongs to the last purchase that lifted the holding through it |
| `LotMatching.LifoChargesNewestUnits` | packages/cex-verification/src/pnl-calculator.ts:209-227 | the cost of a LIFO sell plus its dust is the top of that stack, from the holding after the sell to the holding before |
| `LotMatching.FlatPnlWithinDust` | packages/cex-verification/src/pnl-calculator.ts:134-238 | never overselling and ending flat: FIFO and LIFO realise sell value − buy value up to (number of sells) × 1e-8 × highest buy price, never below |
| `LotMatching.AverageConserves` | packages/cex-verification/src/pnl-calculator.ts:241-289 | average method: realised PnL = sell value − buy value + cost still carried; carried quantity = bought − sold, for every history |
| `LotMatching.AverageCarriesNothingWhenFlat` | packages/cex-verification/src/pnl-calculator.ts:257-283 | average method: a flat position carries no cost, when no prefix oversells |
| `LotMatching.ThreeMethodsAgree` | packages/cex-verification/src/pnl-calculator.ts:134-289 | flat, never overselling: the average method gives exactly sell value − buy value, FIFO and LIFO lie above it by at most the dust bound |
| `LotMatching.LotRowTells` | packages/cex-verification/src/pnl-calculator.ts:141-181 | row n of a FIFO or LIFO run: a purchase shows its cost and no profit, a sale splits its proceeds into cost and profit, both show what is held after it |
| `LotMatching.SaleKeepsAverage` | packages/cex-verification/src/pnl-calculator.ts:269-277 | a sale is charged its share of the carried cost, so the average of what remains is unchanged |
| `LotMatching.AverageRowTells` | packages/cex-verification/src/pnl-calculator.ts:246-285 | row n of the average method: position bought less sold, the average times the position is the carried cost, and a sale is charged at the average it shows |
| `PnlCalculator.MatchEarliest` | packages/cex-verification/src/pnl-calculator.ts:156-171 | the inner FIFO loop terminates and leaves exactly the lots and cost of the matching function the laws are about |
| `PnlCalculator.MatchLatest` | packages/cex-verification/src/pnl-calculator.ts:209-224 | the same for the inner LIFO loop, which works on the last lot |
| `PnlCalculator.CalculateFifoPnl` | packages/cex-verification/src/pnl-calculator.ts:134-185 | the FIFO loop produces the rows of the run for which conservation and oldest-first are proved |
| `PnlCalculator.CalculateLifoPnl` | packages/cex-verification/src/pnl-calculator.ts:188-238 | the LIFO loop produces the rows of the run for which conservation is proved |
| `PnlCalculator.CalculateAveragePnl` | packages/cex-verification/src/pnl-calculator.ts:241-289 | the average-cost loop produces the rows of the run for which conservation is proved |
| `PnlCalculator.GenerateAssetSummary` | packages/cex-verification/src/pnl-calculator.ts:292-315 | summary totals are the totals of the trade list; realised PnL is the sum over sell rows, less fees when they are included; open position = bought − sold |
| `PnlCalculator.RowsKeepTrades` | packages/cex-verification/src/pnl-calculator.ts:134-289 | no method loses, adds or reorders trades |
| `PnlCalculator.CalculateAssetPnl` | packages/cex-verification/src/pnl-calculator.ts:86-125 | fails exactly on an empty list; otherwise the rows show the supplied trades oldest first, those of one moment in their given order, and are those of the chosen method on that history; the totals are those of the supplied trades |
| `PnlCalculator.TimeOrderIsUnique` | packages/cex-verification/src/pnl-calculator.ts:100-103 | trades have exactly one such history |
| `PnlCalculator.TotalsPermute` | packages/cex-verification/src/pnl-calculator.ts:300-303 | traded totals do not depend on the order in which trades are supplied |
| `PnlCalculator.AssetPnlIsSalesMinusPurchases` | packages/cex-verification/src/pnl-calculator.ts:86-125 | for trades supplied in any order and their history oldest first, which never oversells and ends flat: every method realises sales − purchases up to (number of sells) × 1e-8 × highest buy price, the average method exactly |
| `GuardrailModel.TickTwice` | packages/risk-engine/src/execution-guardrails.ts:378-385 | timers of the eager machine that fire twice fire once, so time need only be observed when it matters |
| `GuardrailModel.CheckRefines` | packages/risk-engine/src/execution-guardrails.ts:216-309 | a check that resets lazily gives the verdict of a machine whose timers fire on their own, and changes nothing that machine can see (threshold at least 1) |
| `GuardrailModel.FailureRefines` | packages/risk-engine/src/execution-guardrails.ts:372-398 | recording a failure commutes with the view as an eager machine and counts one more than that machine held |
| `GuardrailModel.SuccessRefines` | packages/risk-engine/src/execution-guardrails.ts:403-421 | recording a success commutes with that view and adds the notional to the total current at that moment |
| `GuardrailModel.MidnightFacts` | packages/risk-engine/src/execution-guardrails.ts:514-524 | the next local midnight lies strictly later and is the same for every moment before it |
| `GuardrailRuns.StepAgrees` | packages/risk-engine/src/execution-guardrails.ts:170-421 | two engines that stand for the same eager engine give the same output on every operation and still stand for the same one |
| `GuardrailRuns.ProbesChangeNothing` | packages/risk-engine/src/execution-guardrails.ts:216-421 | any number of extra checks inserted into any run with a monotone clock changes no later verdict, failure count, daily total or kill-switch answer |
| `GuardrailRuns.ProbesHarmlessIff` | packages/risk-engine/src/execution-guardrails.ts:223-250 | for an engine in any state and at any time, extra checks are harmless in every run from then on if and only if every configuration a check can consult has a threshold of at least 1 or no breaker |
| `GuardrailRuns.UnsoundIsRevealed` | packages/risk-engine/src/execution-guardrails.ts:216-421 | a configuration without that, beside a default global one that is sound or absent, makes some run from any given time on answer differently with one extra check, whatever counters and kill switches the engine holds |
| `GuardrailRuns.WithProbe` | packages/risk-engine/src/execution-guardrails.ts:491-506 | one probe between failure and success keeps the failure time, so the later check reports exactly the size and daily violations and no open breaker |
| `GuardrailRuns.WithoutProbe` | packages/risk-engine/src/execution-guardrails.ts:403-413 | without the probe the success clears the failure time and the later check reports the breaker open with no reset time |
| `GuardrailRuns.CheckAllParts` | packages/risk-engine/src/execution-guardrails.ts:223-308 | a check over several configurations reports what each reports on its own and changes each on its own |
| `GuardrailRuns.AllowedIff` | packages/risk-engine/src/execution-guardrails.ts:216-309 | a check allows an action exactly when every applicable configuration is neither halted nor tripped and its size limits and current daily total permit the notional; other configurations stay untouched |
| `GuardrailRuns.BudgetStep` | packages/risk-engine/src/execution-guardrails.ts:170-421 | every operation keeps the budget invariant: totals within limits, and unspent grants of allowed checks still fit |
| `GuardrailRuns.DailyBudgetHolds` | packages/risk-engine/src/execution-guardrails.ts:279-309 | if each success spends what the latest check of that configuration allowed, every daily total stays between 0 and its limit in every reachable state, across midnights |
| `GuardrailLaws.ConsultedIff` | packages/risk-engine/src/execution-guardrails.ts:463-489 | a check consults exactly the default global configuration and those of the venue, sleeve and strategy the input names |
| `GuardrailLaws.VerdictParts` | packages/risk-engine/src/execution-guardrails.ts:216-309 | the verdict contains exactly what the consulted configurations report |
| `GuardrailLaws.TriggerHalts` | packages/risk-engine/src/execution-guardrails.ts:314-341 | after a trigger every check that names the configuration is refused with the time, operator and reason of the trigger, through any operations, until it is reset, triggered again or created anew |
| `GuardrailLaws.ResetLiftsHalt` | packages/risk-engine/src/execution-guardrails.ts:346-367 | after a reset the configuration causes no such refusal any more, under the same conditions |
| `GuardrailLaws.FailuresAreStreak` | packages/risk-engine/src/execution-guardrails.ts:372-421 | through any run the failures counted are exactly the latest failures, none older than the last success, each within the reset window of the next |
| `GuardrailLaws.BreakerOpensIff` | packages/risk-engine/src/execution-guardrails.ts:491-512 | unless halted, a configuration reports an open breaker exactly when that streak has reached the threshold, with its length and the moment its window ends |
| `GuardrailLaws.MidnightIsDay` | packages/risk-engine/src/execution-guardrails.ts:514-524 | the reset moment has passed exactly when a later local day of 86400000 milliseconds has begun |
| `GuardrailLaws.DailyTotalIsTodaysSum` | packages/risk-engine/src/execution-guardrails.ts:403-421 | the daily total in force at any moment is the sum of today's successes, whenever and however often it was reset |
| `GuardrailLaws.ViolationsTell` | packages/risk-engine/src/execution-guardrails.ts:252-301 | each size or daily violation is reported exactly when its limit is passed, with the amounts compared; the concurrency warning likewise |
| `ExecutionGuardrails.GuardrailConfig.IsCircuitBreakerOpen` | packages/risk-engine/src/execution-guardrails.ts:491-506 | the answer, and the only field it may write: the failure count of an elapsed window |
| `ExecutionGuardrails.GuardrailConfig.ResetDailyNotionalIfNeeded` | packages/risk-engine/src/execution-guardrails.ts:514-524 | the daily total restarts exactly when the local midnight after the last reset has passed |
| `ExecutionGuardrails.GuardrailConfig.CheckAgainst` | packages/risk-engine/src/execution-guardrails.ts:223-302 | one configuration: violations in order, and the exact new state |
| `ExecutionGuardrails.GuardrailConfig.RecordFailure` | packages/risk-engine/src/execution-guardrails.ts:378-389 | exact new state: the count restarts after an elapsed window |
| `ExecutionGuardrails.GuardrailConfig.RecordSuccess` | packages/risk-engine/src/execution-guardrails.ts:409-418 | exact new state: failures cleared only if there were any; the total restarts or grows |
| `ExecutionGuardrails.ExecutionGuardrailEngine.constructor` | packages/risk-engine/src/execution-guardrails.ts:162-165 | starts with the one default configuration |
| `ExecutionGuardrails.ExecutionGuardrailEngine.DeleteScope` | packages/risk-engine/src/execution-guardrails.ts:174-181 | removes exactly the configurations of one scope |
| `ExecutionGuardrails.ExecutionGuardrailEngine.CreateConfig` | packages/risk-engine/src/execution-guardrails.ts:170-199 | replaces the configuration of its scope, so that scopes stay unique and records unshared |
| `ExecutionGuardrails.ExecutionGuardrailEngine.GetConfig` | packages/risk-engine/src/execution-guardrails.ts:204-211 | finds the configuration of a scope exactly when there is one |
| `ExecutionGuardrails.ExecutionGuardrailEngine.GetApplicableConfigs` | packages/risk-engine/src/execution-guardrails.ts:463-489 | global first, then venue, sleeve, strategy; absent and empty ids are skipped |
| `ExecutionGuardrails.ExecutionGuardrailEngine.CheckEach` | packages/risk-engine/src/execution-guardrails.ts:223-308 | the loop checks the applicable records one after the other, violations and warnings in order |
| `ExecutionGuardrails.ExecutionGuardrailEngine.Check` | packages/risk-engine/src/execution-guardrails.ts:216-309 | performs the check step of the run model on all applicable records, leaving every other record unchanged |
| `ExecutionGuardrails.ExecutionGuardrailEngine.TriggerKillSwitch` | packages/risk-engine/src/execution-guardrails.ts:314-341 | triggers exactly an existing configuration whose kill switch is enabled, else changes nothing |
| `ExecutionGuardrails.ExecutionGuardrailEngine.ResetKillSwitch` | packages/risk-engine/src/execution-guardrails.ts:346-367 | clears the kill switch of an existing configuration, else changes nothing |
| `ExecutionGuardrails.ExecutionGuardrailEngine.RecordFailure` | packages/risk-engine/src/execution-guardrails.ts:372-398 | performs the failure step of the run model; unknown ids and disabled breakers change nothing |
| `ExecutionGuardrails.ExecutionGuardrailEngine.RecordSuccess` | packages/risk-engine/src/execution-guardrails.ts:403-421 | performs the success step of the run model; unknown ids change nothing |
| `MultiLegOrchestration.AncestorsComeFirst` | packages/carry/src/multi-leg-orchestration.ts:257-273 | in a good order everything a leg depends on, however indirectly, stands strictly before it |
| `MultiLegOrchestration.OrderMeansAcyclic` | packages/carry/src/multi-leg-orchestration.ts:257-280 | a good order exists only when no leg reaches itself |
| `MultiLegOrchestration.Search.Visit` | packages/carry/src/multi-leg-orchestration.ts:257-273 | the recursive visit terminates, keeps the partial order good, and fails only when it has found a cycle |
| `MultiLegOrchestration.ComputeExecutionOrder` | packages/carry/src/multi-leg-orchestration.ts:251-280 | returns [] when some leg reaches itself, otherwise every leg once with each present dependency before its dependent (duplicate numbers included) |
| `MultiLegOrchestration.OrderIffAcyclic` | packages/carry/src/multi-leg-orchestration.ts:251-280 | for a plan with legs: [] if and only if circular, a good order if and only if acyclic |
| `MultiLegOrchestration.OrderIsPermutation` | packages/carry/src/multi-leg-orchestration.ts:189-192 | on legs numbered 1 to n the order is a permutation of the numbers, so comparing lengths detects cycles |
| `MultiLegOrchestration.SortedNumbers` | packages/carry/src/multi-leg-orchestration.ts:181-186 | the sorted numbers read 1..n exactly when the legs are numbered 1 to n, each once |
| `MultiLegOrchestration.CreateMultiLegPlan` | packages/carry/src/multi-leg-orchestration.ts:175-192 | succeeds exactly with legs, numbered 1 to n, without circular dependency; each error exactly in its case, and the reported missing number is the first gap |
| `MultiLegOrchestration.RollbackIsExact` | packages/carry/src/multi-leg-orchestration.ts:359-379 | rolling back a failed leg of the plan undoes exactly the legs ordered before it, hence all its transitive dependencies and neither itself nor any dependent |
| `MultiLegOrchestration.RollbackIsEarlierIff` | packages/carry/src/multi-leg-orchestration.ts:364-379 | a rollback undoes only legs that run before the failed one if and only if that leg is part of the plan or the plan has one leg |
| `MultiLegOrchestration.RollbackOfUnknownLeg` | packages/carry/src/multi-leg-orchestration.ts:364-379 | a leg number outside the plan rolls back every leg but the last (indexOf answers −1) |
| `MultiLegOrchestration.OtherFailureActions` | packages/carry/src/multi-leg-orchestration.ts:381-391 | continuing needs nothing else; waiting lasts 30000 ms unless configured |
| `PortfolioLaws.SelectionPartitions` | packages/carry/src/portfolio-optimizer.ts:136-220 | every opportunity is selected or rejected exactly once |
| `PortfolioLaws.SelectionWithinLimits` | packages/carry/src/portfolio-optimizer.ts:151-210 | the selected count and the counts per asset and per venue never exceed their limits |
| `PortfolioLaws.SelectionIsGreedy` | packages/carry/src/portfolio-optimizer.ts:151-210 | each pick scores at least as high as everything picked or rejected later did at that moment; limit rejections happen only when as many as allowed of the asset or at a venue had been selected, and budget rejections only when the selection is full |
| `PortfolioLaws.SelectionLaws` | packages/carry/src/portfolio-optimizer.ts:136-220 | all of these for a selection from scratch, for every input and configuration |
| `PortfolioLaws.ScoreRange` | packages/carry/src/portfolio-optimizer.ts:77-113 | total scores lie between 0 and 1 |
| `ScoringLaws.YieldMovesScore` | packages/carry/src/portfolio-optimizer.ts:82-104 | a point of yield moves the score by 0.025 between 0 and 20 %, up to the fourth decimal |
| `ScoringLaws.ConfidenceMovesScore` | packages/carry/src/portfolio-optimizer.ts:83-104 | a unit of confidence moves the score by 0.25 between 0 and 1 |
| `ScoringLaws.BreadthMovesScore` | packages/carry/src/portfolio-optimizer.ts:84-104 | a unit of distinct venues per leg moves the score by 0.1 |
| `ScoringLaws.NewAssetMovesScore` | packages/carry/src/portfolio-optimizer.ts:88-104 | an asset not selected yet is worth 0.0975 |
| `ScoringLaws.NewVenuesMoveScore` | packages/carry/src/portfolio-optimizer.ts:93-104 | each of the first two new venues is worth 0.0225, all new venues together at most 0.0525 |
| `ScoringLaws.NothingScoresZero` | packages/carry/src/portfolio-optimizer.ts:77-113 | without yield, confidence, legs and diversification the score is zero |
| `ScoringLaws.HigherYieldComesFirst` | packages/carry/src/portfolio-optimizer.ts:136-220 | of two candidates equal but for a clearly higher yield, that one is never picked or rejected after the other was picked |
| `PortfolioLaws.GrossStaysUnderCap` | packages/carry/src/portfolio-optimizer.ts:253-305 | one sizing step leaves planned gross at most max(before, NAV·maxPositionSizePct/100 + 5e-7·NAV + 0.005); rounding does not accumulate |
| `PortfolioLaws.PlainGrossCapIff` | packages/carry/src/portfolio-optimizer.ts:253-305 | one step respects the configured gross cap, without slack, if and only if the room computed from the rounded exposure, or another bound on the size, is in whole cents at most the true room |
| `PortfolioLaws.PlainGrossCapOverRunIff` | packages/carry/src/portfolio-optimizer.ts:253-319 | over a whole sizing run the configured gross cap holds if and only if every step fits in that sense: no later step repairs an excess |
| `PortfolioLaws.HarmlessRounding` | packages/carry/src/position-sizer.ts:63-88 | the rounded room is at most the true one when the exposure percentage is not rounded down and the room is not rounded up |
| `PortfolioLaws.GrossCapIsExceeded` | packages/carry/src/portfolio-optimizer.ts:254-305 | witness: NAV 1000000, cap 60 %, gross 500000.40 grows to 600000.40 |
| `PortfolioLaws.AssetStaysUnderCap` | packages/carry/src/portfolio-optimizer.ts:267-310 | one step leaves every asset exposure at most max(before, asset cap) |
| `PortfolioLaws.VenueStaysUnderCap` | packages/carry/src/portfolio-optimizer.ts:270-318 | one step leaves every leg-weighted venue exposure at most max(before, venue cap) |
| `PortfolioLaws.SlotsStayUnderLimit` | packages/carry/src/position-sizer.ts:96-107 | open positions never pass maxConcurrentOpportunities unless they started above it |
| `PortfolioLaws.SizingRespectsCaps` | packages/carry/src/portfolio-optimizer.ts:248-319 | after sizing any list of opportunities all four caps hold against the initial state |
| `ScoringLaws.TargetSizeIs` | packages/carry/src/position-sizer.ts:44-89 | the target is the share of NAV given by Kelly or the default, capped by the maximum and the remaining percentage, to the nearest cent; zero when nothing remains |
| `ScoringLaws.SlotSizeIs` | packages/carry/src/position-sizer.ts:96-121 | a slot is an equal part of the maximum, at most the default, to the nearest cent; zero without a slot |
| `ScoringLaws.VenueRoomIs` | packages/carry/src/portfolio-optimizer.ts:270-277 | the room of a venue, spread over the legs there, is what its cap leaves |
| `ScoringLaws.SizeIsLeastBound` | packages/carry/src/portfolio-optimizer.ts:279-284 | the size is the least of target, slot, asset room and venue rooms |
| `ScoringLaws.GrantIsGreatest` | packages/carry/src/portfolio-optimizer.ts:279-303 | nothing is granted exactly when some bound leaves nothing; otherwise whole cents within every bound and less than a cent below one |
| `ScoringLaws.WeightsAddUp` | packages/carry/src/portfolio-optimizer.ts:61-75 | the weights of the venues add up to one |
| `Basics.ToFixedIsMultiple` | packages/carry/src/position-sizer.ts:88 | rounding to nearest yields whole units, halves away from zero |
| `PortfolioOptimizer.CanSelectOpportunity` | packages/carry/src/portfolio-optimizer.ts:115-134 | the counters admit an opportunity exactly when neither its asset limit nor any of its venue limits is reached by the selection |
| `PortfolioOptimizer.CountVenues` | packages/carry/src/portfolio-optimizer.ts:206-209 | each distinct venue of an opportunity is counted once, whatever its number of legs there |
| `PortfolioOptimizer.SelectOpportunityCandidates` | packages/carry/src/portfolio-optimizer.ts:136-220 | the loop with its running maps and sets terminates and yields the selection the laws are about |
| `PortfolioOptimizer.BuildVenueWeights` | packages/carry/src/portfolio-optimizer.ts:61-75 | the weight of each venue is its share of the legs, and exactly the venues of the legs have one |
| `PortfolioOptimizer.SizeOpportunity` | packages/carry/src/portfolio-optimizer.ts:253-318 | one round of the sizing loop performs the sizing step the caps are proved for |
| `PortfolioOptimizer.SizingPartitions` | packages/carry/src/portfolio-optimizer.ts:253-319 | sizing allocates or refuses every selected opportunity exactly once |
| `PortfolioOptimizer.WholePartition` | packages/carry/src/portfolio-optimizer.ts:222-321 | selection followed by sizing still partitions the input |
| `PortfolioOptimizer.BookIsAllocations` | packages/carry/src/portfolio-optimizer.ts:294-318 | the running gross, slots, asset and leg-weighted venue exposures are the initial ones plus the sums over the returned allocations |
| `PortfolioOptimizer.SizedWithinCaps` | packages/carry/src/portfolio-optimizer.ts:248-319 | so all four caps hold of the returned sizes |
| `PortfolioOptimizer.OptimizeCarryPortfolio` | packages/carry/src/portfolio-optimizer.ts:222-321 | refuses everything for NAV ≤ 0; otherwise allocates the sized selection; the input is partitioned in every case, and the returned sizes added to the current exposures respect the gross, asset, venue and slot caps |
| `SolanaKeys.CarryStaysSmall` | packages/config/src/assets.ts:29-34 | between bytes the carry never exceeds 57, so the 32-bit operators are exact |
| `SolanaKeys.DigitIsIndex` | packages/config/src/assets.ts:18-28 | the value of a character is its place in the alphabet, and -1 exactly outside it |
| `SolanaKeys.MultiplyAddBytes` | packages/config/src/assets.ts:29-38 | one character turns an array denoting v into an array of bytes denoting 58·v + digit |
| `SolanaKeys.TopStaysNonZero` | packages/config/src/assets.ts:29-38 | a non-zero top byte stays non-zero |
| `SolanaKeys.DecodeDenotes` | packages/config/src/assets.ts:23-39 | after any number of characters the array denotes in base 256 the base-58 value read, with a non-zero top byte unless the value is 0 |
| `SolanaKeys.AddDigit` | packages/config/src/assets.ts:29-38 | the inner loop, in place from the low byte up, computes the multiply-and-add the laws are about |
| `SolanaKeys.PushCarry` | packages/config/src/assets.ts:35-38 | the carry spills into bytes appended at the top, least significant first |
| `SolanaKeys.IsSolanaPublicKey` | packages/config/src/assets.ts:17-47 | true exactly for 32 to 44 base-58 characters whose array, with one zero per leading 1, has 32 bytes; surrounding blanks are rejected |
| `SolanaKeys.AcceptedIff` | packages/config/src/assets.ts:17-47 | accepted if and only if it encodes exactly 32 bytes (leading ones + minimal byte length) and is not all 1s, for every string |
| `SolanaKeys.EncodingFixesLength` | packages/config/src/assets.ts:20 | every string that encodes 32 bytes has 32 to 44 characters, so the length test refuses none of them |
| `SolanaKeys.OnlyAllOnesIsMisjudged` | packages/config/src/assets.ts:23-46 | among all strings the check and the encoding disagree on exactly one, 32 times 1 |
| `SolanaKeys.KeyBytesInjective` | packages/config/src/assets.ts:23-45 | different strings that are not all 1s decode to different arrays |
| `SolanaKeys.AcceptedKeysAreDistinct` | packages/config/src/assets.ts:17-47 | no two accepted strings denote the same 32 bytes |
| `DerivativeLedger.NetAndAverage` | packages/runtime/src/internal-derivative-state.ts:832-876 | over any positive fills net = bought − sold, and the average price is null exactly when net is 0 |
| `DerivativeLedger.AverageWithinEntryPrices` | packages/runtime/src/internal-derivative-state.ts:854-875 | the average lies within the range of the prices that opened or extended the position since it was last flat or flipped |
| `DerivativeLedger.FillBalances` | packages/runtime/src/internal-derivative-state.ts:854-875 | one fill: cash flow = realised gain − change of the cost of the open position, whether it opens, extends, reduces, flattens or flips |
| `DerivativeLedger.CashFlowBalances` | packages/runtime/src/internal-derivative-state.ts:832-876 | sell notional − buy notional = realised gain − net × average, over any run |
| `DerivativeLedger.ReplayTells` | packages/runtime/src/internal-derivative-state.ts:846-852 | the first and last fill times are the earliest and the latest, and the fill count and order ids are those of the fills |
| `DerivativeLedger.PositionAccumulator.ApplyFillToAccumulator` | packages/runtime/src/internal-derivative-state.ts:832-876 | updates the accumulator in place exactly as the fill step of the laws |
| `DerivativeLedger.GroupFills` | packages/runtime/src/internal-derivative-state.ts:886-931 | every key has one unshared accumulator that has replayed exactly the fills of that key, in order |
| `DerivativeLedger.BuildPositionState` | packages/runtime/src/internal-derivative-state.ts:888-934 | exactly the keys with a non-zero net remain, each with the replay of its fills oldest first, those of one moment in their given order |
| `VenueComparison.ChosenPartnerMatches` | packages/runtime/src/internal-derivative-state.ts:1277-1300 | a partner chosen by key priority always compares as matched, with mode exact or partial |
| `VenueComparison.ComparisonAccounted` | packages/runtime/src/internal-derivative-state.ts:1262-1447 | each counter counts its rows by status and mode, together they count all rows, a paired row is mismatched only through its quantity, and an unpaired one names the missing side |
| `VenueComparison.SoundRowTells` | packages/runtime/src/internal-derivative-state.ts:1213-1389 | a paired row is matched exactly when the venue reports no amount or net minus the signed amount, negative for shorts, rounds to at most 0.000001; its delta is that difference to eight decimals |
| `VenueComparison.IdentityComparisonTells` | packages/runtime/src/internal-derivative-state.ts:607-706 | identities match exactly when they share a key of some kind; exactly through index, key or an exact symbol, otherwise in part; mismatched only when both name an index or a key of one market type |
| `VenueComparison.ShareKeyIff` | packages/runtime/src/internal-derivative-state.ts:539-587 | sharing a key means the same market index, key, symbol, or asset with market type |
| `VenueComparison.UnpairedRowTells` | packages/runtime/src/internal-derivative-state.ts:1302-1366 | an unpaired internal position is not comparable exactly when its best key is ambiguous or a free external has its asset and type, else internal only |
| `VenueComparison.EveryPositionAccounted` | packages/runtime/src/internal-derivative-state.ts:1273-1447 | exactly one row per known external position (none paired twice); exactly one row per internal position unless it finds no partner and an earlier one has its key, and then none |
| `VenueComparison.AlwaysListedIff` | packages/runtime/src/internal-derivative-state.ts:1331-1334 | every internal position has exactly one row, whatever the venue reports, if and only if the position keys are distinct |
| `VenueComparison.DistinctKeysComparison` | packages/runtime/src/internal-derivative-state.ts:1231-1461 | with distinct position keys the comparison is complete in both inventories and its counters add up |
| `VenueComparison.SharedKeyLosesAPosition` | packages/runtime/src/internal-derivative-state.ts:1331-1334 | when two positions share a key and the first takes the only external, the second is not reported |
| `VenueComparison.OneMarketTwoGroups` | packages/runtime/src/internal-derivative-state.ts:909-943 | witness: fills of one market with a native and with a derived symbol give two such positions |
| `VenueComparison.ChoiceIff` | packages/runtime/src/internal-derivative-state.ts:1277-1329 | no partner exactly when no free external shares any key; a pair exactly with the only free external sharing the first kind of key that is shared at all; ambiguous exactly when several share it |
| `VenueComparison.ChoosePartner` | packages/runtime/src/internal-derivative-state.ts:1277-1329 | no partner exactly when no free external shares a key, a pair exactly with the only match of the first kind that any free external shares |
| `VenueComparison.PairInternals` | packages/runtime/src/internal-derivative-state.ts:1257-1420 | the loop with its matched flags and five counters produces the rows the accounting is about |
| `VenueComparison.ComparePositions` | packages/runtime/src/internal-derivative-state.ts:1231-1461 | unknown external types are skipped and counted; counters count the rows; a paired row is matched exactly when the venue reports no amount or net minus signed amount is negligible |
| `OrderLifecycle.StepEvolves` | packages/execution/src/executor.ts:45-429 | every executor call keeps fill ids distinct and covered orders filled, loses no fill and no record, and leaves filled, cancelled and expired records in place |
| `OrderLifecycle.ReachableRecordsAreGood` | packages/execution/src/executor.ts:45-429 | in every reachable state fill ids are distinct and fills reaching size − 1e-12 mean status filled |
| `OrderLifecycle.RecordsEvolve` | packages/execution/src/order-manager.ts:40-75 | from any point of a run to any later one, terminal states are absorbing and recorded fills remain a prefix |
| `OrderLifecycle.AttemptCases` | packages/execution/src/executor.ts:99-226 | the three ways an attempt ends: retried after a throw or failed audit, finished, or thrown out when a filled order cannot be marked failed |
| `OrderLifecycle.AttemptsAreBounded` | packages/execution/src/executor.ts:99-102 | a submit call makes at most maxRetries + 1 placements |
| `OrderLifecycle.SubmitIsNeverRefused` | packages/execution/src/order-manager.ts:46-75 | a submit call requests a transition the store refuses if and only if its last placement was filled and its audit write failed |
| `OrderLifecycle.AttemptsAccept` | packages/execution/src/executor.ts:99-226 | per submit call: accepted placements = those forgotten through audit failures, plus one exactly when the order ends beyond resubmission |
| `OrderLifecycle.AcceptedPlacementsAreBounded` | packages/execution/src/executor.ts:45-236 | over any run of all four calls an order is accepted at most once, plus once per poll that reported it rejected and per audit failure after acceptance |
| `OrderLifecycle.NothingAfterAccepted` | packages/execution/src/executor.ts:45-236 | without those, nothing is placed for an order after the venue has accepted it |
| `OrderLifecycle.PlacesAgainIff` | packages/execution/src/executor.ts:99-226 | a submit call places an accepted order again if and only if an accepted answer, not filled at once, is followed by a failing audit write while attempts are left and all answers before it were retried |
| `OrderLifecycle.AuditFailurePlacesTwice` | packages/execution/src/executor.ts:178-218 | witness: an audit failure after an accepted placement makes the retry place the order again |
| `OrderLaws.TransitionsAre` | packages/execution/src/order-manager.ts:40-75 | the thirteen transitions the store allows beside staying put |
| `OrderLaws.CancelTells` | packages/execution/src/executor.ts:299-352 | an order ends cancelled exactly when it is open and the venue agrees or never had it; nothing else changes; exactly when the call throws |
| `OrderLaws.PollTells` | packages/execution/src/executor.ts:243-292 | a poll records what the venue reports, when the order was placed, is known there and may change that way; exactly when the call throws |
| `OrderLaws.FillTells` | packages/execution/src/executor.ts:360-429 | a new fill of a submitted or partially filled order is appended and fills it exactly when the sum reaches size − 1e-12; other fills change nothing; exactly when the call throws |
| `OrderLaws.SubmitLeavesPlacedOrders` | packages/execution/src/executor.ts:47-74 | orders neither pending nor failed are returned untouched, others go through the attempts, new ones from a fresh record |
| `OrderLaws.SubmitPlaces` | packages/execution/src/executor.ts:99-226 | the placements are the venue's answers in order, up to the first that is not retried or the last allowed attempt |
| `OrderLaws.SubmitTells` | packages/execution/src/executor.ts:104-226 | the record left is that of the last attempt: its number, status, venue id, filled size and error |
| `OrderExecution.InMemoryOrderStore.Save` | packages/execution/src/order-manager.ts:84-90 | stores the record under its intent id and touches no other |
| `OrderExecution.InMemoryOrderStore.UpdateStatus` | packages/execution/src/order-manager.ts:100-131 | updates exactly for a known id and an allowed transition, else leaves the store unchanged |
| `OrderExecution.OrderExecutor.PlaceOnce` | packages/execution/src/executor.ts:104-205 | one try block: record, exception and whether the venue was reached, as in the attempt model |
| `OrderExecution.OrderExecutor.RunAttempts` | packages/execution/src/executor.ts:99-226 | the retry loop makes the placements of the attempt model and ends in its record |
| `OrderExecution.OrderExecutor.SubmitIntent` | packages/execution/src/executor.ts:45-236 | one submit step of the run model, its placements and its exception; other records unchanged |
| `OrderExecution.OrderExecutor.PollOrderStatus` | packages/execution/src/executor.ts:243-292 | one poll step; throws exactly for an unknown order, a failing venue query or a refused transition |
| `OrderExecution.OrderExecutor.CancelOrder` | packages/execution/src/executor.ts:299-352 | one cancel step; throws exactly for an unknown order, a failing venue call or audit write, or a refused transition |
| `OrderExecution.OrderExecutor.ProcessFill` | packages/execution/src/executor.ts:360-429 | one fill step; fills of closed or failed orders and duplicates are ignored, and a failing audit write throws after the fill is stored |
| `SqlStatements.ChunksCoverText` | packages/db/src/migrations.ts:22-82 | the untrimmed chunks concatenate to the input and trimming them gives the statements |
| `SqlStatements.SplitJoinSplit` | packages/db/src/migrations.ts:16-83 | splitting the newline-join of the statements returns the same statements, for every text, unclosed quotes included |
| `SqlStatements.CutsOutsideQuotes` | packages/db/src/migrations.ts:25-70 | the text before a cutting semicolon leaves no dollar quote open |
| `SqlStatements.TagLengthIff` | packages/db/src/migrations.ts:25-47 | a text starts with a dollar tag of n characters exactly when these are a dollar, letters, digits or underscores, possibly none, and a dollar |
| `SqlStatements.QuotedIsNotCut` | packages/db/src/migrations.ts:48-54 | a quoted body is never cut, whatever semicolons and line breaks it holds, and scanning goes on behind its closing tag |
| `SqlStatements.ChunkPassesQuote` | packages/db/src/migrations.ts:22-74 | a chunk that has reached a quoted body outside quotes reaches its end uncut |
| `SqlStatements.OpenQuoteIsNotCut` | packages/db/src/migrations.ts:49-80 | a quote that is never closed keeps the rest of the text in one piece |
| `SqlStatements.LineEndsIff` | packages/db/src/migrations.ts:59-60 | a line ends where only blanks are left before a line break or the end |
| `SqlStatements.TerminatorCuts` | packages/db/src/migrations.ts:56-69 | outside quotes a semicolon at a line end always cuts |
| `SqlStatements.PlainIsKept` | packages/db/src/migrations.ts:72-73 | outside quotes every other character that starts no tag is kept |
| `SqlStatements.CutAtLineEnd` | packages/db/src/migrations.ts:56-70 | a terminated chunk ends in a semicolon after which its line ends |
| `SqlStatements.CutTerminated` | packages/db/src/migrations.ts:22-70 | where a terminated chunk ends does not depend on what follows, as long as its line still ends there |
| `SqlStatements.CutOpen` | packages/db/src/migrations.ts:76-80 | trimming the unterminated rest creates no terminator |
| `SqlStatements.ScanTag` | packages/db/src/migrations.ts:28-46 | the lookahead finds a dollar tag exactly when there is one, the empty name included |
| `SqlStatements.LineEndsAt` | packages/db/src/migrations.ts:59-60 | only blanks up to a line break or the end of the text |
| `SqlStatements.NextToken` | packages/db/src/migrations.ts:25-73 | one round of the scanner, which always advances |
| `SqlStatements.SplitSqlStatements` | packages/db/src/migrations.ts:16-83 | the index-driven loop terminates and returns the statements the round trip is about |
| `ExposureReduction.BuildCarryReductionIntents` | packages/carry/src/controlled-execution.ts:161-212 | the loop returns the plan the laws are about, on positions sorted by notional |
| `ExposureReduction.PlanTotal` | packages/carry/src/controlled-execution.ts:171-209 | exact planned reductions sum to min(requested, notional of positively priced positions) |
| `ExposureReduction.PlanShape` | packages/carry/src/controlled-execution.ts:184-206 | no reduction exceeds its position in money or units, units times price is the planned amount, only the last may be partial, orders are reduce-only on the closing side |
| `ExposureReduction.PrefixIsHeaviest` | packages/carry/src/controlled-execution.ts:167-169 | any n positions are worth at most the first n in descending order |
| `ExposureReduction.ReductionIsExactAndMinimal` | packages/carry/src/controlled-execution.ts:161-212 | the total is exact, and when the request is coverable no selection of fewer positions is worth enough |
| `RiskGate.RollUpStatus` | packages/risk-engine/src/engine.ts:96-103 | failed exactly if some result failed, warning exactly if none failed and some warned |
| `RiskGate.AssessOrderIntent` | packages/risk-engine/src/engine.ts:151-291 | all results in order, an open breaker short-circuiting them; failed exactly for orders the gate does not accept |
| `RiskGate.UntouchedShareShrinks` | packages/risk-engine/src/checks.ts:193-201 | the share of an exposure that is not traded cannot grow when gross exposure does |
| `RiskGate.ApplyKeepsLimits` | packages/risk-engine/src/engine.ts:182-291 | applying one accepted order keeps every limit, from an empty portfolio as well |
| `RiskGate.AcceptsIffLimitsHold` | packages/risk-engine/src/engine.ts:151-291 | within limits, an order is accepted if and only if no breaker is open, price, drawdowns and position size are in order, gross exposure plus size is not zero, and the projected portfolio is within every limit: nothing else is refused |
| `RiskGate.AllPassIff` | packages/risk-engine/src/checks.ts:57-584 | no check fails or warns exactly when every figure is within its limit and outside the warning band: 10 % below the limit, 20 % for price age and reserve |
| `RiskGate.GateKeepsLimits` | packages/risk-engine/src/engine.ts:151-291 | from any portfolio within limits, the empty one included, no sequence of orders leaves them through the gate: gross, net, leverage, reserve, position count, and every venue and asset, traded or not |
| `RiskGate.SharesArePercentages` | packages/risk-engine/src/checks.ts:193-201 | the concentration limits of that theorem are the percentages of the checks whenever there is gross exposure |
| `RiskGate.ColdStart` | packages/risk-engine/src/checks.ts:193-221 | with a concentration limit below 100 % no sequence of orders changes an empty portfolio |
| `RiskGate.ColdStartIff` | packages/risk-engine/src/engine.ts:205-225 | an empty portfolio for which some order passes everything but concentration stays empty for ever if and only if one of the two concentration limits is below 100 % |
| `RiskGate.BatchKeepsLimitsIff` | packages/risk-engine/src/engine.ts:151-291 | orders assessed against one state keep all limits if and only if the accepted ones fit together: their summed sizes, deltas and margins, and their sums at every venue and in every asset |
| `RiskGate.BatchIsRun` | packages/risk-engine/src/engine.ts:151-291 | a batch whose verdicts are the same when the orders are taken in turn ends like a run through the gate |
| `RiskGate.BatchBreaksALimit` | packages/risk-engine/src/engine.ts:185-193 | witness: two orders of 80, each accepted at 190 % of NAV, together reach 206 % under a limit of 200 % |
| `RiskGate.FillKeepsReserveIff` | packages/risk-engine/src/engine.ts:434-444 | the margin check protects the reserve limit from a fill, whatever the reserve, if and only if the margin covers notional / maxLeverage plus the fee |
| `RiskGate.FilledOrderKeepsLimits` | packages/risk-engine/src/engine.ts:405-452 | an accepted order filled in full reaches the projected exposures, and with such a margin all of the gross, net, leverage and reserve limits hold afterwards |
| `RiskGate.CloseDoesNotReturnMargin` | packages/risk-engine/src/engine.ts:426-444 | opening and closing the same notional restores gross and net exposure, while the margin stays taken from the reserve |
| `RiskGate.SmallerOrderIsNoWorse` | packages/risk-engine/src/checks.ts:57-584 | shrinking an order makes none of the gross, leverage, venue, asset and position-size checks worse: passed stays passed, warned does not fail |
| `AllocatorPolicy.Evaluate` | packages/allocator/src/policy.ts:97-253 | the reassigning code computes the targets the laws are about: lowest applicable cap, uplift, three clamps |
| `AllocatorPolicy.TargetsSplitIff` | packages/allocator/src/policy.ts:115-253 | targets sum to 100 within all bounds if and only if the bounds and the treasury floor admit any split |
| `AllocatorPolicy.PressedCapIff` | packages/allocator/src/policy.ts:56-77 | the lowest of the baseline and the caps for shortfall, for an alarming and for a strained system, from the inputs and their thresholds |
| `AllocatorPolicy.DesiredCarryIff` | packages/allocator/src/policy.ts:112-249 | the share asked for, from the inputs: all caps that apply, and five points more up to the maximum when all is well and carry is strong |
| `AllocatorPolicy.TreasuryTargetFloor` | packages/allocator/src/policy.ts:115-120 | the treasury target never falls below its floor, which is ten points higher while reserves are not fully covered |
| `AllocatorPolicy.WeakCapHoldsIff` | packages/allocator/src/policy.ts:201-249 | the carry share asked for, before the clamps, stays at or below the weak-carry cap if and only if: outside the uplift, the sleeve is degraded, blocked, de-risked or unhealthy, or the opportunity is weak, or another cap is as low; under the uplift, the maximum or the other caps leave no more |
| `AllocatorPolicy.TargetIsClamped` | packages/allocator/src/policy.ts:251-253 | the three clamps are one: the returned carry target is the share asked for, clamped between the least and the greatest target the bounds let through, for all bounds |
| `AllocatorPolicy.ExtremesOfASplit` | packages/allocator/src/policy.ts:251-253 | when the bounds admit a split, these extremes are the bounds of carry met with 100 less those of treasury |
| `AllocatorPolicy.TargetIsCappedIff` | packages/allocator/src/policy.ts:201-253 | the returned carry target stays at or below the weak cap if and only if the bounds do not force more and either allow no more or the share asked for is capped |
| `AllocatorPolicy.CappedUnderEveryPolicyIff` | packages/allocator/src/policy.ts:201-253 | the returned carry target stays at or below the weak cap, whatever baseline and other caps are, if and only if the bounds of the sleeves allow it and either force it, or one of those sleeve values or a weak opportunity is present outside the uplift; throttled is not among those values |
| `AllocatorPolicy.ThrottledSleeveIsNotCapped` | packages/allocator/src/policy.ts:201-207 | witness: a throttled sleeve in a calm system keeps 55 under the default policy, where the weak cap is 20 |
| `AllocatorPolicy.UpliftPassesTheWeakCap` | packages/allocator/src/policy.ts:236-237 | witness: a degraded sleeve with a strong opportunity gets 25, above its cap of 20 |
| `AllocatorPolicy.TreasuryBoundPassesTheWeakCap` | packages/allocator/src/policy.ts:252-253 | witness: a degraded, unhealthy sleeve asked to stay at 20 is returned at 40, because the treasury may hold at most 60 |
| `AllocatorPolicy.PressureGrows` | packages/allocator/src/policy.ts:56-77 | worse inputs never lower the pressure level |
| `AllocatorPolicy.LowestCapFalls` | packages/allocator/src/policy.ts:131-224 | worse inputs never raise the lowest applicable cap, with degraded cap ≤ elevated cap |
| `AllocatorPolicy.CarryTargetIsMonotone` | packages/allocator/src/policy.ts:112-253 | worsening any pressure, shortfall, coverage, score, sleeve status, throttle state or health never raises the final carry target, over all their values |
| `StableSort.SortByCorrect` | packages/carry/src/portfolio-optimizer.ts:155-159 | sorting permutes, orders by key, and keeps equal keys in their order |
| `StableSort.StableOrderIsUnique` | packages/carry/src/portfolio-optimizer.ts:155-159 | ascending keys with unchanged groups of equal keys leave only one order |

## Left out

- Binary floating point and the significant digits of decimal.js: all arithmetic is on exact reals.
- The strings of results: 8- and 2-decimal formatting of profit figures, the 8-decimal order size of a reduction.
- The statistics of an asset summary (win rate, average win and loss, position value), and portfolio-wide profit.
- Lots and store records are values in a local queue or map of the model; the source updates lot objects in place but never shares them.
- `GuardrailModel.MidnightFacts`: local time is a fixed offset from UTC, because daylight saving depends on the host.
- `GuardrailRuns.DailyBudgetHolds`: the caller's discipline (spend what the latest check allowed) is a premise, because the engine cannot enforce it.
- `GuardrailRuns.ProbesHarmlessIff`: it speaks of runs whose newly created configurations have a threshold of at least 1 or no breaker; the condition is about the configurations present at the start.
- `ExecutionGuardrails.ExecutionGuardrailEngine.Check`: a concurrency warning is its limit, not its message; `checkPartialFill`, the unused violations map and `updatedAt` are not modelled.
- Plan status updates, hedge state and leg records: small tables around the ordering that is modelled.
- Rationale texts and score breakdowns of the optimizer; a rejection carries instead how many picks preceded it.
- `PortfolioOptimizer.SelectOpportunityCandidates`: sorting is the stable sort by key of module `StableSort`, standing for the array sort of the language.
- `SolanaKeys.IsSolanaPublicKey`: strings are read by code point; a character outside the basic plane counts once, not twice, towards the length, and is refused either way.
- `DerivativeLedger.GroupFills`: the key of a fill is given; resolving it from fill and order metadata is not modelled.
- `VenueComparison.ComparePositions`: market identities are given records; comparison keys, notes and the final ordering of rows are not modelled.
- Order inventory, account and health comparison of the derivative state.
- `OrderExecution.OrderExecutor.SubmitIntent`: calls are atomic steps; interleavings of asynchronous calls are not modelled, nor are timestamps, fees, market-identity metadata and pauses between retries.
- Reading migration files and executing their statements.
- `ExposureReduction.BuildCarryReductionIntents`: order ids, metadata and the blocked reasons of the planner are not modelled.
- `RiskGate.AssessOrderIntent`: messages and limit strings of a result, the risk level, the kill switch and the dashboard summary are not modelled; "some breaker is open" is one boolean.
- `RiskGate.GateKeepsLimits`: each accepted order is applied before the next assessment, as the checks project it; the strategy pipeline (packages/strategy-engine/src/pipeline.ts:470-510) assesses a whole cycle against one state, which is `Batch`. Sizes are not negative, and concentration limits are not negative when there is no exposure.
- `RiskGate.FilledOrderKeepsLimits`: venue and asset exposures and the position count are not part of the update after a fill; reading the notional and the side out of fill metadata is not modelled, nor is a maximal leverage of zero.
- `AllocatorPolicy.Evaluate`: dollar amounts, recommendations, constraints and rationales are not modelled.
- Backtesting, runtime control plane, reconciliation, vault and venue clients, API and dashboard.
