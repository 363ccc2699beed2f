# Trading journal analytics, modelled in Dafny

This project models the analytics core of a React trading journal. A trader
records trading plans: currency pair, direction, entry, stop loss, take profit,
commission, setup, session and strategy. Executing a plan turns it into a trade
with a realised R-multiple and psychology tags.

From those trades the journal computes the following:
- the R-multiple formulas and the plan store (create, execute, delete, restore);
- the dashboard figures: win rate, total, average, best and worst R, and a plan search;
- three different R histograms with their statistics and percentiles;
- two equity curves: a running total with a rolling expectancy, drawdown and
  streaks, and a cumulative mean with a 20-point trend;
- four heatmaps over setup × session: the interactive heatmap (average R, with
  cells marked by an active-filter list), the R-analysis heatmap (average R and
  win rate, with excluded cells hiding their trades), the psychology heatmap
  (error rates with tag counts and advice), and the psychology error heatmap
  (error rates with the dominant error and an analysis);
- a binomial projection of outcomes over the active plans;
- the plan and execution dialogs, the settings lists and the tag picker.

Prices and R values are exact `real`s. The order-dependent folds are methods
whose loops are proved against specification functions. Stateful parts are
classes: the plan store, the heatmap filters and the two dialog forms.

## Model

| member | source | states |
|---|---|---|
| Journal.RValues | src/components/EquityCurveWidget.tsx:30 | the R values of a list of trades, in order, one per trade |
| RMultiple.ExpectedRDirectionFree | src/components/CreatePlanDialog.tsx:59-63 | planned R is unchanged when stop and target are mirrored around the entry (long vs short); with zero commission it is reward/risk and never negative |
| RMultiple.ExpectedRCommissionMonotone | src/components/CreatePlanDialog.tsx:57-63 | for a positive entry price, a larger commission never gives a larger planned R |
| RMultiple.ExpectedRPlaceholderExample | src/components/CreatePlanDialog.tsx:59-64 | the form's placeholder prices (112588 / 112255 / 113122, commission 0.04%) give 443.9296/333, between 1.325 and 1.335, i.e. 1.33 after rounding |
| RMultiple.ExpectedR | src/components/CreatePlanDialog.tsx:59-63 | R times the risk is the reward net of twice the entry-priced commission; R ≥ 0 iff the reward covers that commission |
| RMultiple.DirectionalR | src/components/ExecutePlanDialog.tsx:46-50 | the exit lies R units of risk from the entry: above it for a long trade, below it for a short one |
| RMultiple.StoredR | src/hooks/useTradingPlans.tsx:92-94 | the exit lies R units of risk above the entry whatever the direction |
| RMultiple.DirectionalRSign | src/components/ExecutePlanDialog.tsx:46-50 | a long trade's realised R is positive iff the exit is above the entry and negative iff below; mirrored for short; \|R\| = \|exit − entry\|/\|entry − stop\| |
| RMultiple.StopExitIsOneR | src/components/ExecutePlanDialog.tsx:46-50 | exiting at the stop gives \|R\| = 1, and −1 when the stop lies on the losing side |
| RMultiple.StoredRIgnoresDirection | src/hooks/useTradingPlans.tsx:92-94 | the store's R, (exit − entry)/\|entry − stop\|, equals the dialog's R for long trades and is its negation for short trades |
| PlanStore.Take | src/hooks/useTradingPlans.tsx:61 | `slice(0, n)`: a prefix of length min(n, length) |
| PlanStore.WithRecentPair | src/hooks/useTradingPlans.tsx:59-65 | the pair comes first and its other occurrences are gone; the rest keeps its order; the length is min(5, 1 + the others), so exactly the first four others are kept when the cap binds; with room left no pair is lost |
| PlanStore.WithRecentPairIdempotent | src/hooks/useTradingPlans.tsx:61 | using the same pair twice in a row gives the same list as once |
| PlanStore.WithRecentPairNoDuplicates | src/hooks/useTradingPlans.tsx:61 | a duplicate-free recent list stays duplicate-free |
| PlanStore.NewPlan | src/hooks/useTradingPlans.tsx:67-73 | the new plan carries every submitted field, the given id and creation time, and status active |
| PlanStore.FirstIndexOf | src/hooks/useTradingPlans.tsx:89 | `find`: the first index with that id, or −1 exactly when no plan has it |
| PlanStore.FindById | src/hooks/useTradingPlans.tsx:89-90 | None exactly when no plan has the id; otherwise the plan at the first index with that id, as `find` returns |
| PlanStore.MarkStatus | src/hooks/useTradingPlans.tsx:105-107 | same length; plans with the id get the new status and nothing else changes; other plans are untouched |
| PlanStore.ExecuteThenRestore | src/hooks/useTradingPlans.tsx:105-107 | marking a plan executed, then active again, gives back the original list when its plans were active |
| PlanStore.ExecutedTrade | src/hooks/useTradingPlans.tsx:92-101 | the trade copies the plan and the execution data; actualR × \|entry − stop\| = exit − entry, whatever the direction |
| PlanStore.WithoutTrade | src/hooks/useTradingPlans.tsx:113 | exactly the trades with another id remain, each as often as before, as an order-preserving subsequence |
| PlanStore.ActivePlansOf | src/hooks/useTradingPlans.tsx:128 | exactly the active plans, each as often as before, as an order-preserving subsequence |
| PlanStore.ExecutedPlanNotActive | src/hooks/useTradingPlans.tsx:105-107 | after marking an id executed, no active plan has that id |
| PlanStore.TradingPlanStore.constructor | src/hooks/useTradingPlans.tsx:52-57 | no plans, no trades; recent pairs from storage or `['BTCUSDT']` |
| PlanStore.TradingPlanStore.AddRecentPair | src/hooks/useTradingPlans.tsx:59-65 | the recent pairs become `WithRecentPair` of the old ones; plans and trades unchanged |
| PlanStore.TradingPlanStore.CreatePlan | src/hooks/useTradingPlans.tsx:67-78 | prepends exactly the new active plan; the old plans follow unchanged; the pair becomes most recent; trades unchanged |
| PlanStore.TradingPlanStore.ExecutePlan | src/hooks/useTradingPlans.tsx:80-110 | an unknown id returns None and changes nothing; otherwise the trade is prepended and that id is marked executed |
| PlanStore.TradingPlanStore.DeleteTrade | src/hooks/useTradingPlans.tsx:112-114 | removes exactly the trades with that id, keeping order; plans untouched |
| PlanStore.TradingPlanStore.DeleteAllTrades | src/hooks/useTradingPlans.tsx:116-118 | no trades remain; plans untouched |
| PlanStore.TradingPlanStore.RestorePlanFromTrade | src/hooks/useTradingPlans.tsx:120-126 | removes the trade and marks plans with its id active; nothing else changes |
| PlanStore.TradingPlanStore.ActivePlans | src/hooks/useTradingPlans.tsx:128 | exactly the store's active plans, in stored order and with their multiplicities (equal to ActivePlansOf) |
| CreatePlanForm.InitialPair | src/components/CreatePlanDialog.tsx:36 | `recentPairs[0] \|\| 'BTCUSDT'`: never empty; the first recent pair when it is non-empty |
| CreatePlanForm.EffectValue | src/components/CreatePlanDialog.tsx:53-64 | finite exactly when entry ≠ stop and the commission parses; then it is the planned R |
| CreatePlanForm.PlaceholderExpectedR | src/components/CreatePlanDialog.tsx:59-64 | the placeholder prices with the default commission store 443.9296/333 (shown as 1.33) |
| CreatePlanForm.RecomputedIgnoresDirection | src/components/CreatePlanDialog.tsx:59-63 | mirroring stop and take around the entry leaves the stored expected R unchanged |
| CreatePlanForm.ZeroCommissionIsRewardToRisk | src/components/CreatePlanDialog.tsx:59-63 | with zero commission the stored value is reward/risk, never negative |
| CreatePlanForm.Recomputed | src/components/CreatePlanDialog.tsx:51-67 | kept unless all three prices are numbers; then finite iff entry ≠ stop and the commission is a number, and then the planned R |
| CreatePlanForm.Form.constructor | src/components/CreatePlanDialog.tsx:34-49 | the defaults: today, the first recent pair, long, empty prices, commission 0.04, empty labels, expected R 0 |
| CreatePlanForm.Form.Refresh | src/components/CreatePlanDialog.tsx:51-67 | recomputes only when entry, stop and take are non-empty numbers, otherwise keeps the old value; establishes the form invariant |
| CreatePlanForm.Form.EditPrice | src/components/CreatePlanDialog.tsx:216-259 | sets one price field and re-runs the effect; the invariant "shown R belongs to the numeric prices" holds after |
| CreatePlanForm.Form.EditText | src/components/CreatePlanDialog.tsx:125-336 | sets one text field; prices and expected R unchanged |
| CreatePlanForm.Form.SetDirection | src/components/CreatePlanDialog.tsx:185-186 | sets the direction; the expected R is untouched |
| CreatePlanForm.Form.Submit | src/components/CreatePlanDialog.tsx:69-106 | emits the form's fields with the shown expected R, which equals the planned R of the emitted prices; then resets to the defaults with expected R 0, after which the form is invalid |
| ExecutePlanForm.RealisedR | src/components/ExecutePlanDialog.tsx:44-51 | finite exactly when the plan's risk is non-zero; then the direction-aware realised R |
| ExecutePlanForm.StopLossShowsOneR | src/components/ExecutePlanDialog.tsx:46-66 | choosing stop loss shows \|R\| = 1, and −1 when the stop is on the losing side |
| ExecutePlanForm.TakeProfitShowsPlannedR | src/components/ExecutePlanDialog.tsx:46-62 | choosing take profit on a target on the winning side shows the plan's commission-free planned R |
| ExecutePlanForm.Recomputed | src/components/ExecutePlanDialog.tsx:42-56 | no R without a plan or exit; the realised R for a numeric exit; kept for text that does not parse |
| ExecutePlanForm.ForcedExit | src/components/ExecutePlanDialog.tsx:58-66 | a number iff a plan is given and the type is take profit or stop loss, then the plan's target or stop; otherwise empty |
| ExecutePlanForm.Form.constructor | src/components/ExecutePlanDialog.tsx:36-40 | manual close, empty exit, no tags, no notes, R null; the effects' invariant holds |
| ExecutePlanForm.Form.RefreshR | src/components/ExecutePlanDialog.tsx:42-56 | R null without a plan or an exit; recomputed for a numeric exit; kept for a non-numeric one |
| ExecutePlanForm.Form.ForceExit | src/components/ExecutePlanDialog.tsx:58-66 | take profit forces the plan's target, stop loss its stop, manual close (or no plan) clears the exit |
| ExecutePlanForm.Form.SelectExecutionType | src/components/ExecutePlanDialog.tsx:58-133 | the exit is forced by the type, then R follows; manual close leaves R null; the invariant holds |
| ExecutePlanForm.Form.ChangePlan | src/components/ExecutePlanDialog.tsx:42-66 | a new plan re-runs both effects; the invariant holds for the new plan |
| ExecutePlanForm.Form.EditExit | src/components/ExecutePlanDialog.tsx:167-171 | typing an exit (manual close only) sets it and recomputes R |
| ExecutePlanForm.Form.SetTags | src/components/ExecutePlanDialog.tsx:179-181 | the selection is replaced; the invariant is kept |
| ExecutePlanForm.Form.SetNotes | src/components/ExecutePlanDialog.tsx:212 | the notes are replaced; the invariant is kept |
| ExecutePlanForm.Form.Submit | src/components/ExecutePlanDialog.tsx:68-89 | without a plan or without tags nothing is sent and nothing changes; otherwise the plan id and the execution are sent (an automatic exit equals the plan's target or stop) and the form resets |
| Settings.WithList | src/components/SettingsTab.tsx:21-31 | the partial update replaces one list and leaves the other two |
| Settings.AddCustom | src/components/SettingsTab.tsx:19-26 | the list changes iff the trimmed input is non-empty and absent; then exactly that value is appended and the input cleared; otherwise the input stays; length grows by at most 1; no duplicates are introduced |
| Settings.RemoveCustom | src/components/SettingsTab.tsx:28-32 | every occurrence removed, every other label kept as often as before, order preserved, no duplicates introduced |
| Settings.AddToSettings | src/components/SettingsTab.tsx:19-56 | the same add rule on any of the three lists; the other two are untouched |
| Settings.RemoveFromSettings | src/components/SettingsTab.tsx:28-62 | the same remove rule on any of the three lists; the other two are untouched |
| Settings.AddThenRemoveRestores | src/components/SettingsTab.tsx:19-32 | adding a fresh label and removing it gives the original list |
| Settings.AddIsIdempotent | src/components/SettingsTab.tsx:19-26 | pressing add a second time with the same text changes nothing |
| Settings.SettingsAddThenRemoveRestores | src/components/SettingsTab.tsx:19-62 | add-then-remove restores the whole settings record, for any list |
| MultiSelect.HandleSelect | src/components/ui/multi-select.tsx:31-37 | flips membership of the value and of no other; an absent value is appended; a present one is removed everywhere (shorter, order kept) |
| MultiSelect.HandleRemove | src/components/ui/multi-select.tsx:39-41 | the value is gone, every other value kept as often as before and in order; a no-op when absent |
| MultiSelect.SelectTwiceRestores | src/components/ui/multi-select.tsx:31-37 | selecting an absent value twice restores the selection |
| MultiSelect.SelectTwiceMovesToEnd | src/components/ui/multi-select.tsx:31-37 | clicking a selected value twice moves it to the end |
| MultiSelect.SelectionStaysDuplicateFree | src/components/ui/multi-select.tsx:31-41 | both operations keep a duplicate-free selection duplicate-free |
| Metrics.WinRate | src/pages/Index.tsx:37-39 | between 0 and 100; 0 without trades; otherwise winners × 100 / count |
| Metrics.AvgR | src/pages/Index.tsx:40-41 | 0 without trades; otherwise total R / count |
| Metrics.MeanR | src/pages/Index.tsx:40-41 | the same mean over trades |
| Metrics.MaxWin | src/pages/Index.tsx:42 | 0 without trades; otherwise an R of the list that no R exceeds |
| Metrics.MaxLoss | src/pages/Index.tsx:43 | 0 without trades; otherwise an R of the list below no other |
| Metrics.AvgBetweenExtremes | src/pages/Index.tsx:41-43 | worst ≤ average ≤ best |
| Metrics.WinRateExtremes | src/pages/Index.tsx:38-39 | win rate is 100 iff every trade wins and 0 iff none does |
| Metrics.AllPositiveIffCount | src/pages/Index.tsx:38 | all trades are winners iff the winner count is the length |
| Metrics.NonePositiveIffCount | src/pages/Index.tsx:38 | no trade wins iff the winner count is 0 |
| Metrics.GuideSessionExample | src/pages/Guide.tsx:331-357 | +1.5, −1, +1.5, +0.5: win rate 75, total 2.5, average 0.625, best 1.5, worst −1 |
| Metrics.ProjectorWinRate | src/pages/Index.tsx:206 | positive; the journal's rate when positive, else 65 |
| Metrics.NoWinsProjectsDefault | src/pages/Index.tsx:206 | a journal without a winning trade projects with 65 |
| Metrics.MatchesFilters | src/pages/Index.tsx:50-55 | a listed plan has the chosen setup unless it is "all"; with an empty search exactly the setup test decides |
| Metrics.FilteredPlans | src/pages/Index.tsx:50-55 | exactly the plans matching search and setup, each as often as before, in order; all plans when all match |
| Metrics.EmptyFiltersKeepAll | src/pages/Index.tsx:50-55 | empty search and setup "all" list every plan, whatever the status control says |
| Metrics.SearchIgnoresCase | src/pages/Index.tsx:51-52 | lower-casing the search text first changes nothing |
| Timeline.ByExecutionTime | src/components/EquityCurveWidget.tsx:26 | a permutation of the trades, ordered by execution time |
| Timeline.ByExecutionTimeIsStable | src/components/EquityCurveWidget.tsx:26 | trades with the same execution time keep their stored order |
| Timeline.RValuesPermutation | src/components/EquityCurveWidget.tsx:26 | reordering trades reorders their R values |
| Timeline.TotalRStep | src/components/EquityCurveWidget.tsx:30 | one more trade adds its R to the total |
| Timeline.PermutationSum | src/components/EquityCurveWidget.tsx:26-30 | reordering does not change the sum |
| Timeline.PermutationWins | src/components/EquityCurveWidget.tsx:26-73 | reordering does not change the number of winners |
| Timeline.ByExecutionTimeKeepsTotals | src/components/CapitalCurve.tsx:14-18 | the time-ordered trades have the stored trades' total R and win count |
| Sorting.SortBy | src/components/CapitalCurve.tsx:14 | a permutation of the input, ordered by the key |
| Sorting.InsertSorted | src/components/CapitalCurve.tsx:14 | inserting into an ordered sequence keeps it ordered |
| Sorting.SortByIsStable | src/components/CapitalCurve.tsx:14 | for every key, the elements with that key keep their input order |
| Sorting.SortByFirstIsMin | src/components/CapitalCurve.tsx:14 | the first sorted element has the smallest key |
| Sorting.SortByFirstAmongTies | src/components/CapitalCurve.tsx:14 | the first sorted element is the earliest one with its key |
| Sorting.SortBySorted | src/components/CapitalCurve.tsx:14 | sorting an ordered sequence changes nothing |
| EquityCurve.WindowStart | src/components/EquityCurveWidget.tsx:32-33 | the window ending at index i holds min(w, i + 1) trades |
| EquityCurve.Point | src/components/EquityCurveWidget.tsx:29-41 | the i-th point is numbered i + 1 and carries the i-th time-ordered trade |
| EquityCurve.BuildCurve | src/components/EquityCurveWidget.tsx:23-43 | one point per trade, each the specified point of the time-ordered trades |
| EquityCurve.FoldCurve | src/components/EquityCurveWidget.tsx:27-42 | the accumulator loop produces exactly the specified points |
| EquityCurve.PointStep | src/components/EquityCurveWidget.tsx:30-34 | the running total grows by the trade's R and the expectancy is the window's mean |
| EquityCurve.LastPointIsTotal | src/components/EquityCurveWidget.tsx:48-85 | the last running total is the total R of all trades, whatever their stored order |
| EquityCurve.RollingWindowBounds | src/components/EquityCurveWidget.tsx:32-34 | the rolling expectancy lies between the window's smallest and largest R |
| EquityCurve.ShortHistoryIsRunningMean | src/components/EquityCurveWidget.tsx:32-34 | while the window reaches the first trade, the expectancy is the running mean |
| EquityCurve.PeakAfter | src/components/EquityCurveWidget.tsx:51-57 | the peak starts at 0 and is at least every running total so far |
| EquityCurve.PeakAttained | src/components/EquityCurveWidget.tsx:51-57 | the peak is 0 or one of the running totals |
| EquityCurve.MaxDrawdownOf | src/components/EquityCurveWidget.tsx:51-65 | the largest drawdown is never negative |
| EquityCurve.DrawdownBoundsEveryFall | src/components/EquityCurveWidget.tsx:51-65 | it bounds the fall from every earlier running total, and from the starting level 0 |
| EquityCurve.FallWithin | src/components/EquityCurveWidget.tsx:59-63 | each point's fall below the peak before it is within the largest drawdown |
| EquityCurve.DrawdownStep | src/components/EquityCurveWidget.tsx:55-65 | one more point never shrinks the drawdown and covers the new fall |
| EquityCurve.DrawdownAttained | src/components/EquityCurveWidget.tsx:59-63 | the largest drawdown is 0 or the actual fall of some point below its prior peak |
| EquityCurve.RisingCurveNoDrawdown | src/components/EquityCurveWidget.tsx:51-65 | a non-negative, non-decreasing curve has no drawdown |
| EquityCurve.CurveCumulatives | src/components/EquityCurveWidget.tsx:27-30 | the curve's running totals are the prefix sums of the time-ordered R values |
| EquityCurve.NoLossNoDrawdown | src/components/EquityCurveWidget.tsx:51-65 | a history without a losing trade has no drawdown |
| EquityCurve.PrefixSumsRising | src/components/EquityCurveWidget.tsx:27-30 | without losses the running totals are non-negative and non-decreasing |
| EquityCurve.DrawdownExample | src/components/EquityCurveWidget.tsx:51-65 | trades +1.5, −1, +2 give totals 1.5, 0.5, 2.5 and a drawdown of 1 |
| EquityCurve.RunEndingAtCovers | src/components/EquityCurveWidget.tsx:72-82 | the current streak covers every stretch of the same outcome ending at that point |
| EquityCurve.RunEndingAtIsRun | src/components/EquityCurveWidget.tsx:72-82 | the current streak is itself a stretch of one outcome |
| EquityCurve.LongestRunIsLongest | src/components/EquityCurveWidget.tsx:67-82 | the longest streak bounds every stretch of consecutive wins (or losses) and is attained by one |
| EquityCurve.StreaksWithinCounts | src/components/EquityCurveWidget.tsx:67-82 | a winning streak is at most the number of wins, a losing one at most the others; with trades, one is at least 1 |
| EquityCurve.CurveStreaksWithinCounts | src/components/EquityCurveWidget.tsx:67-82 | over a whole curve, the streaks are bounded by the stored trades' win and loss counts |
| EquityCurve.ComputeStats | src/components/EquityCurveWidget.tsx:45-92 | None for an empty curve; otherwise the total and expectancy of the last point, the largest drawdown, the longest streaks and the trend by the sign of the expectancy |
| EquityCurve.DrawdownScan | src/components/EquityCurveWidget.tsx:51-65 | the loop computes exactly the largest drawdown |
| EquityCurve.StreakScan | src/components/EquityCurveWidget.tsx:67-82 | the loop computes exactly the longest winning and losing streaks |
| EquityCurve.PrefixSums | src/components/EquityCurveWidget.tsx:30-31 | one running total per R value |
| EquityCurve.RunEndingAt | src/components/EquityCurveWidget.tsx:71-80 | the current streak before index k is never longer than k |
| EquityCurve.LongestRun | src/components/EquityCurveWidget.tsx:67-82 | the longest streak among the first k trades is never longer than k |
| CapitalCurve.PointAt | src/components/CapitalCurve.tsx:17-27 | the i-th point carries the i-th trade, and expectation × (i + 1) is the running total |
| CapitalCurve.BuildCapitalCurve | src/components/CapitalCurve.tsx:14-27 | one point per trade, each the specified point of the time-ordered trades |
| CapitalCurve.CurrentExpectation | src/components/CapitalCurve.tsx:29 | the last point's expectation, or 0 for an empty curve |
| CapitalCurve.CurrentExpectationIsMeanR | src/components/CapitalCurve.tsx:14-29 | the current expectation is the mean R of all trades, whatever the stored order |
| CapitalCurve.TrendOf | src/components/CapitalCurve.tsx:31-42 | neutral below 20 points; otherwise improving iff the last-10 mean exceeds the previous-10 mean by more than 0.1, declining iff it falls more than 0.1 below |
| CapitalCurve.TrendIgnoresLevel | src/components/CapitalCurve.tsx:33-42 | shifting every expectation by the same amount leaves the trend unchanged |
| CapitalCurve.FlatIsNeutral | src/components/CapitalCurve.tsx:33-42 | a constant history of expectations is neutral |
| Stats.Ascending | src/components/PnLDistributionWidget.tsx:41 | a permutation of the values, in ascending order |
| Stats.AscendingEnds | src/components/PnLDistributionWidget.tsx:61 | the first and last ascending values are the minimum and the maximum |
| Stats.AscendingMean | src/components/PLDistribution.tsx:25-28 | sorting does not change the mean |
| Stats.Median | src/components/PnLDistributionWidget.tsx:45 | the element at index ⌊n/2⌋ of the ascending values |
| Stats.MedianSplits | src/components/PLDistribution.tsx:29 | the median lies between the ends, with at least half of the values on each side |
| Stats.Deviations | src/components/PnLDistributionWidget.tsx:48 | one non-negative squared deviation per value |
| Stats.Variance | src/components/PnLDistributionWidget.tsx:48 | the mean squared deviation is never negative |
| Stats.ConstantHasZeroVariance | src/components/PLDistribution.tsx:30 | values that all agree have variance 0 |
| Partition.Members | src/components/PnLDistributionWidget.tsx:83-88 | a bin's filter keeps only values that pass its test |
| Partition.MembersAll | src/components/PnLDistributionWidget.tsx:83-88 | a bin every value passes holds all of them, in order |
| Partition.MembersNone | src/components/PnLDistributionWidget.tsx:83-88 | a bin no value passes is empty |
| Partition.BinsPartition | src/components/PnLDistributionWidget.tsx:79-107 | when each value lies in exactly one of K bins, the counts add up to the number of values and the totals to their sum |
| Partition.EvenGrid | src/components/PnLDistributionWidget.tsx:71-75 | the equal-width grid starts at the low end and its last edge is the high end |
| Partition.EdgesRise | src/components/PnLDistributionWidget.tsx:80-81 | on a grid of non-negative width the edges never decrease |
| Partition.GridPartitions | src/components/PnLDistributionWidget.tsx:83-88 | half-open bins plus a closed last bin: every value between the ends lies in exactly one bin, and no value outside lies in any |
| Partition.EvenGridPartition | src/components/PLDistribution.tsx:36-64 | for values within the range, the even grid's counts and totals add up to the number of values and their sum |
| PnLDistribution.Ceil | src/components/PnLDistributionWidget.tsx:53 | `Math.ceil`: the least integer not below x |
| PnLDistribution.CeilMonotone | src/components/PnLDistributionWidget.tsx:53 | ceil never decreases |
| PnLDistribution.PercentileIndex | src/components/PnLDistributionWidget.tsx:52-55 | always a valid index; for p in (0, 100] it is the nearest rank: k < p/100·n ≤ k + 1 |
| PnLDistribution.PercentileIndexMonotone | src/components/PnLDistributionWidget.tsx:52-55 | a larger percentage reads an index at least as large |
| PnLDistribution.Percentile | src/components/PnLDistributionWidget.tsx:52-55 | the ascending value at the percentile index |
| PnLDistribution.ComputeStats | src/components/PnLDistributionWidget.tsx:33-68 | None iff there are no trades; otherwise the mean, the variance as Variance (non-negative), the range as minimum and maximum, the median as sorted[⌊n/2⌋] (one of the values, within the range), and the four percentiles as the nearest-rank Percentile at 5, 25, 75 and 95 of the ascending values |
| PnLDistribution.PercentilesOrdered | src/components/PnLDistributionWidget.tsx:62-67 | p5 ≤ p25 ≤ p75 ≤ p95, all within the range and all values of the input |
| PnLDistribution.PercentileIsValue | src/components/PnLDistributionWidget.tsx:52-55 | every percentile is an input value between the minimum and the maximum |
| PnLDistribution.PercentileMonotone | src/components/PnLDistributionWidget.tsx:52-55 | a larger percentage reads a value at least as large |
| PnLDistribution.BucketGrid | src/components/PnLDistributionWidget.tsx:71-75 | five equal buckets from the smallest to the largest R |
| PnLDistribution.BucketAt | src/components/PnLDistributionWidget.tsx:80-106 | bucket i spans edges i and i + 1, counts and totals exactly its members, and is profit iff its lower bound is not negative |
| PnLDistribution.Histogram | src/components/PnLDistributionWidget.tsx:33-107 | no buckets without trades, otherwise the five specified buckets in order |
| PnLDistribution.Distribution | src/components/PnLDistributionWidget.tsx:31-110 | the widget's buckets and statistics are those of the trades' R values |
| PnLDistribution.FillBuckets | src/components/PnLDistributionWidget.tsx:77-107 | the bucket loop builds exactly the histogram |
| PnLDistribution.HistogramPartitions | src/components/PnLDistributionWidget.tsx:79-107 | the bucket counts add up to the number of trades and the totals to the total R |
| PnLDistribution.BucketsTile | src/components/PnLDistributionWidget.tsx:80-81 | the first bucket starts at the minimum, each ends where the next starts, the last ends at the maximum |
| PnLDistribution.ProfitBucketHasNoLoss | src/components/PnLDistributionWidget.tsx:105 | a bucket marked profit holds no losing trade |
| PnLDistribution.EqualValuesFillLastBucket | src/components/PnLDistributionWidget.tsx:84-88 | with all R equal, the closed last bucket holds every trade and the others none |
| PLDistribution.CeilThird | src/components/PLDistribution.tsx:36 | `Math.ceil(n / 3)` |
| PLDistribution.BinCount | src/components/PLDistribution.tsx:36 | between 5 and 10 bins; ⌈n/3⌉ strictly between; 5 iff n ≤ 15; 10 iff n > 27 |
| PLDistribution.FloorIndex | src/components/PLDistribution.tsx:68-71 | ⌊n·f⌋, always a valid index |
| PLDistribution.FloorIndexMonotone | src/components/PLDistribution.tsx:68-71 | a larger fraction reads an index at least as large |
| PLDistribution.ComputeStats | src/components/PLDistribution.tsx:21-83 | all zero without trades; otherwise the mean, the variance as Variance (non-negative), the range ends, the median sorted[⌊n/2⌋] within the range, and the percentiles as sorted[⌊n·f⌋] for f = 0.05, 0.25, 0.75, 0.95 |
| PLDistribution.PercentilesOrdered | src/components/PLDistribution.tsx:67-72 | p5 ≤ p25 ≤ p75 ≤ p95, within the range |
| PLDistribution.BinGrid | src/components/PLDistribution.tsx:36-37 | the chosen number of bins over [min R, max R] |
| PLDistribution.BinAt | src/components/PLDistribution.tsx:40-63 | bin i starts at its edge, counts exactly its members, and its percentage is count / n × 100, between 0 and 100 |
| PLDistribution.Histogram | src/components/PLDistribution.tsx:21-64 | no bins without trades, otherwise the specified bins in order |
| PLDistribution.Distribution | src/components/PLDistribution.tsx:20-84 | the panel's bins and statistics are those of the ascending R values |
| PLDistribution.BuildBins | src/components/PLDistribution.tsx:39-64 | the bin loop builds exactly the histogram |
| PLDistribution.BinsTile | src/components/PLDistribution.tsx:41-42 | the first bin starts at min R, each ends where the next starts, the last ends at max R |
| PLDistribution.BinCountsPartition | src/components/PLDistribution.tsx:44-47 | every trade lands in exactly one bin: the counts add up to the number of trades |
| PLDistribution.PercentagesSumTo100 | src/components/PLDistribution.tsx:51-59 | the bin percentages add up to 100 |
| PLDistribution.GetBinColor | src/components/PLDistribution.tsx:88-92 | loss iff the bin ends at or below 0; profit iff it ends above 0 and starts at or above 0; mixed iff it straddles 0 |
| PLDistribution.BinColorDescribesTrades | src/components/PLDistribution.tsx:88-92 | a loss-coloured bin holds no winning trade and a profit-coloured one no losing trade |
| PLDistribution.StatsOfTrades | src/components/PLDistribution.tsx:25-33 | sorting first does not change the mean; the range is the smallest and largest R |
| RDistribution.Threshold | src/components/RDistributionWidget.tsx:39-50 | threshold k is the least R of bucket k + 1 |
| RDistribution.BucketIndex | src/components/RDistributionWidget.tsx:39-50 | one of the twelve buckets |
| RDistribution.BucketIndexInterval | src/components/RDistributionWidget.tsx:39-50 | bucket k holds exactly the values from the threshold below it up to, not including, its own |
| RDistribution.BucketIndexMonotone | src/components/RDistributionWidget.tsx:39-50 | a larger R never lands in a lower bucket |
| RDistribution.OpenEndedBuckets | src/components/RDistributionWidget.tsx:21-50 | "-2.0R" holds exactly the values below −1.75 and "3.5R+" exactly those from 3.25 up |
| RDistribution.BucketOf | src/components/RDistributionWidget.tsx:20-54 | bucket k keeps its label and counts and totals exactly the values indexed to it |
| RDistribution.AllBuckets | src/components/RDistributionWidget.tsx:20-54 | the twelve buckets in order |
| RDistribution.Histogram | src/components/RDistributionWidget.tsx:56 | only occupied buckets, every occupied bucket, in bucket order |
| RDistribution.Distribute | src/components/RDistributionWidget.tsx:17-57 | the widget's loop yields exactly the histogram of the trades' R values |
| RDistribution.AddToBucket | src/components/RDistributionWidget.tsx:52-53 | the value's bucket counts one more and adds it to its total |
| RDistribution.BucketOfStep | src/components/RDistributionWidget.tsx:52-53 | one more value changes its own bucket only |
| RDistribution.DropEmptyKeepsSums | src/components/RDistributionWidget.tsx:56 | dropping empty buckets changes neither the count sum nor the total sum |
| RDistribution.BucketsPartition | src/components/RDistributionWidget.tsx:39-50 | every value lands in exactly one of the twelve buckets |
| RDistribution.EmptyBucketsHoldNothing | src/components/RDistributionWidget.tsx:20-56 | a bucket nobody landed in has a total of 0 |
| RDistribution.HistogramPartitions | src/components/RDistributionWidget.tsx:17-57 | the shown buckets' counts add up to the number of trades and their totals to the total R |
| RDistribution.AllBucketsPartition | src/components/RDistributionWidget.tsx:20-54 | the twelve buckets, empty ones included, add up to the number of values and their sum |
| CrossTab.KeyOf | src/components/InteractiveHeatmap.tsx:38 | a trade's cell is its (setup, session) pair |
| CrossTab.CellTrades | src/components/InteractiveHeatmap.tsx:38-45 | the trades of one cell, in order, never more than all trades |
| CrossTab.CellTradesMembers | src/components/InteractiveHeatmap.tsx:38-45 | a trade is in a cell iff it is one of the trades and has the cell's pair |
| CrossTab.CellTradesKeys | src/components/InteractiveHeatmap.tsx:38-45 | every trade of a cell has the cell's pair |
| CrossTab.CellTradesAppend | src/components/InteractiveHeatmap.tsx:43-45 | one more trade joins its own cell at the end and no other cell |
| CrossTab.Setups | src/components/InteractiveHeatmap.tsx:36-49 | the rows: strictly sorted, duplicate-free, and exactly the setups that occur |
| CrossTab.Sessions | src/components/InteractiveHeatmap.tsx:35-48 | the columns: strictly sorted, duplicate-free, and exactly the sessions that occur |
| CrossTab.GridCoversTrades | src/components/InteractiveHeatmap.tsx:34-67 | over distinct rows and columns covering every trade, the cell sizes add up to the number of trades |
| CrossTab.GridRows | src/components/InteractiveHeatmap.tsx:53-67 | one row per setup, one cell per session, cell (i, j) built from setup i and session j |
| CrossTab.FlatGridMember | src/components/InteractiveHeatmap.tsx:53-67 | every pushed cell is the cell of a row label and a column label |
| CrossTab.FlatGridHas | src/components/InteractiveHeatmap.tsx:53-67 | the cell of every row label and column label is pushed |
| CrossTab.PushGrid | src/components/InteractiveHeatmap.tsx:51-67 | the nested loops push exactly the rows one after the other |
| CrossTab.GridCountsEveryTrade | src/components/InteractiveHeatmap.tsx:34-67 | on the heatmap's own rows and columns every trade is counted exactly once |
| CrossTab.TradeCellOnGrid | src/components/InteractiveHeatmap.tsx:34-49 | every trade's setup is a row, its session a column, and it is in its own cell |
| InteractiveHeatmap.StatsOf | src/components/InteractiveHeatmap.tsx:32-45 | a cell's record: the number of its trades, their total R and the trades themselves |
| InteractiveHeatmap.CollectStats | src/components/InteractiveHeatmap.tsx:32-46 | the collecting loop gives an entry exactly for each occupied pair, holding that cell's record |
| InteractiveHeatmap.CollectStep | src/components/InteractiveHeatmap.tsx:38-45 | one loop step keeps the collected map exact for the trades seen so far |
| InteractiveHeatmap.StatsStep | src/components/InteractiveHeatmap.tsx:43-45 | adding a trade adds one to the count and its R to the total |
| InteractiveHeatmap.IsFiltered | src/components/InteractiveHeatmap.tsx:57 | `some` filter names the pair iff the pair is in the active list |
| InteractiveHeatmap.RoundTenth | src/components/InteractiveHeatmap.tsx:62 | `Number(x.toFixed(1))`: a whole number of tenths within 0.05 of x, ties away from zero |
| InteractiveHeatmap.RoundedBands | src/components/InteractiveHeatmap.tsx:62-101 | on the exact mean the colour thresholds sit at 1.95, 0.45, above −0.05 and above −1.05, each iff |
| InteractiveHeatmap.SmallLossShowsAsGain | src/components/InteractiveHeatmap.tsx:62-101 | a mean of −0.04R shows 0 and the gain colour, where the unrounded mean would be a mild loss |
| InteractiveHeatmap.CellAt | src/components/InteractiveHeatmap.tsx:55-65 | the pair's cell: its trade count, filtered iff listed, avgR 0 when empty and otherwise the mean R rounded to one decimal, within 0.05 of the mean |
| InteractiveHeatmap.FlatCellsOfPairs | src/components/InteractiveHeatmap.tsx:53-67 | each pushed cell is its own pair's cell and every pair's cell is pushed |
| InteractiveHeatmap.HeatmapData | src/components/InteractiveHeatmap.tsx:29-70 | the grid lists exactly the cells of the setup × session pairs that occur |
| InteractiveHeatmap.CellFromStats | src/components/InteractiveHeatmap.tsx:56-63 | reading the map collected from any trades (no entry = empty) gives CellAt of those trades |
| InteractiveHeatmap.BuildHeatmap | src/components/InteractiveHeatmap.tsx:29-70 | the widget's two passes build exactly the specified grid |
| InteractiveHeatmap.FindIndex | src/components/InteractiveHeatmap.tsx:73-75 | the first index holding the pair, or −1 exactly when it is absent |
| InteractiveHeatmap.WithoutIndex | src/components/InteractiveHeatmap.tsx:79 | the list with that one position dropped, the rest in order |
| InteractiveHeatmap.Toggle | src/components/InteractiveHeatmap.tsx:72-86 | an absent pair is appended; for a present one exactly its first occurrence (FindIndex) is removed and the rest keep their order (WithoutIndex); other pairs keep their membership |
| InteractiveHeatmap.ToggleFlips | src/components/InteractiveHeatmap.tsx:72-86 | on a duplicate-free list a click flips the pair's membership and keeps the list duplicate-free |
| InteractiveHeatmap.WithoutIndexNoDuplicates | src/components/InteractiveHeatmap.tsx:79 | on a duplicate-free list the removed pair is gone entirely |
| InteractiveHeatmap.ToggleTwiceRestores | src/components/InteractiveHeatmap.tsx:72-86 | two clicks on an inactive pair give the original list back |
| InteractiveHeatmap.Heatmap.constructor | src/components/InteractiveHeatmap.tsx:27 | no active filters |
| InteractiveHeatmap.Heatmap.ToggleFilter | src/components/InteractiveHeatmap.tsx:72-86 | stores the toggled list and reports it |
| InteractiveHeatmap.Heatmap.ClearFilters | src/components/InteractiveHeatmap.tsx:88-91 | stores and reports the empty list |
| InteractiveHeatmap.GetCellColor | src/components/InteractiveHeatmap.tsx:93-102 | muted iff empty; filtered style iff occupied and filtered; otherwise the band of avgR at thresholds 2, 0.5, 0, −1, each iff |
| InteractiveHeatmap.ColorMonotone | src/components/InteractiveHeatmap.tsx:97-101 | a higher average R never gets a worse colour |
| RAnalysisHeatmap.AccumOf | src/components/RAnalysisHeatmap.tsx:28-42 | a cell's accumulator: its trades, their total R and the number of winning trades |
| RAnalysisHeatmap.CollectCells | src/components/RAnalysisHeatmap.tsx:28-43 | the collecting loop gives an entry exactly for each occupied pair, holding that cell's accumulator |
| RAnalysisHeatmap.CollectStep | src/components/RAnalysisHeatmap.tsx:34-42 | one loop step keeps the collected map exact for the trades seen so far |
| RAnalysisHeatmap.AccumStep | src/components/RAnalysisHeatmap.tsx:40-42 | one more trade is appended, its R added, and the wins counted up iff its R is positive |
| RAnalysisHeatmap.CellOf | src/components/RAnalysisHeatmap.tsx:54-72 | zeros for an empty cell; otherwise avgR × n = total R and winRate × n = wins × 100, with the win rate in [0, 100] |
| RAnalysisHeatmap.CellAt | src/components/RAnalysisHeatmap.tsx:49-73 | the pair's cell is built from exactly that pair's trades, filtered iff the pair is excluded |
| RAnalysisHeatmap.HeatmapData | src/components/RAnalysisHeatmap.tsx:45-74 | one row per sorted setup, one cell per sorted session, each the cell of its pair |
| RAnalysisHeatmap.BuildHeatmap | src/components/RAnalysisHeatmap.tsx:25-77 | the widget's two passes build exactly the specified grid |
| RAnalysisHeatmap.CellFromData | src/components/RAnalysisHeatmap.tsx:50-72 | reading the map collected from any trades (no entry = empty cell) gives CellAt of those trades |
| RAnalysisHeatmap.CellTotalsCountEveryTrade | src/components/RAnalysisHeatmap.tsx:30-74 | the cells' trade counts add up to the number of trades |
| RAnalysisHeatmap.Toggled | src/components/RAnalysisHeatmap.tsx:80-87 | the clicked pair's membership flips; every other pair keeps it |
| RAnalysisHeatmap.ToggleTwiceRestores | src/components/RAnalysisHeatmap.tsx:80-87 | two clicks on the same cell restore the set |
| RAnalysisHeatmap.Visible | src/components/RAnalysisHeatmap.tsx:91-94 | a trade passes iff its pair is not excluded |
| RAnalysisHeatmap.Hidden | src/components/RAnalysisHeatmap.tsx:114-117 | a trade is counted as hidden iff it does not pass Visible |
| RAnalysisHeatmap.FilteredTrades | src/components/RAnalysisHeatmap.tsx:92-95 | an order-preserving subsequence holding exactly the trades outside the excluded cells; all trades when none is excluded |
| RAnalysisHeatmap.HiddenCountIsExcludedTrades | src/components/RAnalysisHeatmap.tsx:114-117 | the hidden count is the number of trades in excluded cells, 0 iff no trade is in one |
| RAnalysisHeatmap.Heatmap.constructor | src/components/RAnalysisHeatmap.tsx:23 | no excluded cells |
| RAnalysisHeatmap.Heatmap.ToggleCellFilter | src/components/RAnalysisHeatmap.tsx:79-98 | flips the cell and passes on the trades outside the new set |
| RAnalysisHeatmap.Heatmap.ClearAllFilters | src/components/RAnalysisHeatmap.tsx:100-103 | empties the set and passes every trade on |
| RAnalysisHeatmap.Heatmap.HiddenTradesCount | src/components/RAnalysisHeatmap.tsx:114-117 | between 0 and the number of trades; the number in excluded cells; 0 with no exclusions |
| RAnalysisHeatmap.GetCellColor | src/components/RAnalysisHeatmap.tsx:105-112 | muted iff empty; otherwise the band of avgR at thresholds 2, 1, 0, −1, each iff |
| RAnalysisHeatmap.ColorMonotone | src/components/RAnalysisHeatmap.tsx:107-111 | a higher average R never gets a worse colour |
| Psychology.HasErrorTag | src/components/PsychologyHeatmap.tsx:58 | true iff some tag is not "Perfect Execution" |
| Psychology.ErrorTags | src/components/PsychologyHeatmap.tsx:61-65 | the tags other than "Perfect Execution"; empty iff the trade has no error tag |
| Psychology.ErrorTagsMembers | src/components/PsychologyHeatmap.tsx:61-65 | any other tag is an error tag iff the trade carries it |
| Psychology.ErrorTradesOf | src/components/PsychologyHeatmap.tsx:131-133 | the error trades, never more than all trades |
| Psychology.ErrorTradesMembers | src/components/PsychologyHeatmap.tsx:131-133 | a trade is an error trade iff it is one of the trades and has an error tag |
| Psychology.AllErrorTags | src/components/PsychologyHeatmap.tsx:59-66 | every error tag of every trade; never "Perfect Execution" |
| Psychology.ErrorTradesCarryAllTags | src/components/PsychologyHeatmap.tsx:59-66 | counting tags of error trades only loses nothing |
| Psychology.NoTagsIffNoErrorTrades | src/components/PsychologyHeatmap.tsx:58-66 | there are error tags iff there are error trades |
| Psychology.ErrorTradesFull | src/components/PsychologyHeatmap.tsx:131-133 | when the error trades are as many as the trades, they are all the trades |
| Psychology.TagInAllErrorTags | src/components/PsychologyHeatmap.tsx:61-65 | an error tag is counted iff some trade carries it |
| Psychology.Tally | src/components/PsychologyHeatmap.tsx:63 | the keys are exactly the tags seen |
| Psychology.TallyCounts | src/components/PsychologyHeatmap.tsx:63 | the tally's keys are exactly the tags seen, each counting its occurrences, never 0 |
| Psychology.TallyEmptyIff | src/components/PsychologyHeatmap.tsx:63 | the tally is empty iff no tag was seen |
| Psychology.SentinelNeverTallied | src/components/PsychologyHeatmap.tsx:62 | "Perfect Execution" is never a key of the error counts |
| Psychology.RateBounds | src/components/PsychologyHeatmap.tsx:80 | the error percentage is in [0, 100], 0 without errors and 100 when every trade errs |
| Psychology.RateTimesTotal | src/components/PsychologyHeatmap.tsx:80 | the percentage times the total is the error count times 100 |
| PsychologyHeatmap.StatsOf | src/components/PsychologyHeatmap.tsx:38-43 | a cell's record: its trade count, total R, error trades and error-tag counts; empty without trades |
| PsychologyHeatmap.CollectedEntry | src/components/PsychologyHeatmap.tsx:77 | after collecting, each pair's entry (absent = empty) is the record of that cell's trades |
| PsychologyHeatmap.CountErrorTags | src/components/PsychologyHeatmap.tsx:61-65 | the inner tag loop adds exactly the trade's error tags to the counts |
| PsychologyHeatmap.CollectStats | src/components/PsychologyHeatmap.tsx:45-67 | the collecting loop gives an entry exactly for each occupied pair, holding that cell's record |
| PsychologyHeatmap.AddTrade | src/components/PsychologyHeatmap.tsx:49-66 | one loop step keeps the collected map exact for the trades seen so far |
| PsychologyHeatmap.UpdateEntry | src/components/PsychologyHeatmap.tsx:54-66 | one more trade, its R added; an error trade is kept and its error tags counted |
| PsychologyHeatmap.CollectStep | src/components/PsychologyHeatmap.tsx:49-66 | a step's map update keeps the collected map exact |
| PsychologyHeatmap.StatsStep | src/components/PsychologyHeatmap.tsx:54-66 | a cell's record after one more trade |
| PsychologyHeatmap.RoundedRate | src/components/PsychologyHeatmap.tsx:80-84 | the rounded percentage, in [0, 100], 0 without errors and 100 when all err |
| PsychologyHeatmap.RoundedRateIsNearest | src/components/PsychologyHeatmap.tsx:84 | `toFixed(0)`: the nearest whole number, halves rounded up |
| PsychologyHeatmap.CellOf | src/components/PsychologyHeatmap.tsx:79-98 | count, error count ≤ count, error-tag counts of the error trades, rate rounded in [0, 100]; all zero without trades; no tag counts iff no error trades |
| PsychologyHeatmap.CellAt | src/components/PsychologyHeatmap.tsx:76-98 | the pair's cell is built from exactly that pair's trades |
| PsychologyHeatmap.FlatCellsOfPairs | src/components/PsychologyHeatmap.tsx:74-100 | each pushed cell is its own pair's cell and every pair's cell is pushed |
| PsychologyHeatmap.HeatmapData | src/components/PsychologyHeatmap.tsx:35-103 | the grid lists exactly the cells of the setup × session pairs that occur |
| PsychologyHeatmap.CellFromStats | src/components/PsychologyHeatmap.tsx:77-98 | reading the map collected from any trades gives CellAt of those trades |
| PsychologyHeatmap.BuildHeatmap | src/components/PsychologyHeatmap.tsx:35-103 | the widget's two passes build exactly the specified grid |
| PsychologyHeatmap.GetCellColor | src/components/PsychologyHeatmap.tsx:105-112 | muted iff empty; otherwise clean iff 0 %, few iff ≤ 20 %, many iff ≤ 50 %, critical above |
| PsychologyHeatmap.ColorMonotone | src/components/PsychologyHeatmap.tsx:108-111 | a higher error rate never gets a milder colour |
| PsychologyHeatmap.AnalysisOf | src/components/PsychologyHeatmap.tsx:127-143 | the cell's figures plus the mean R of its trades and of its error trades, 0 when there is nothing to average |
| PsychologyHeatmap.OpenAnalysis | src/components/PsychologyHeatmap.tsx:119-144 | nothing for an empty cell; otherwise the analysis of the trades of its pair |
| PsychologyHeatmap.AnalysisOfGridCell | src/components/PsychologyHeatmap.tsx:119-144 | an occupied grid cell opens; error mean 0 without errors, equal to the cell mean when every trade errs |
| PsychologyHeatmap.Flagged | src/components/PsychologyHeatmap.tsx:166-174 | a tag missing from the counts never flags (an undefined count is not > 0); a present tag flags iff its count is not zero |
| PsychologyHeatmap.FlaggedIffSomeTradeCarriesIt | src/components/PsychologyHeatmap.tsx:166-174 | an error tag is flagged in a cell iff one of its trades carries it |
| PsychologyHeatmap.Fired | src/components/PsychologyHeatmap.tsx:162-176 | at most one advice per rule, never the praise |
| PsychologyHeatmap.RecommendationsFor | src/components/PsychologyHeatmap.tsx:159-183 | never empty; holds the praise iff no rule fired |
| PsychologyHeatmap.FiredMembers | src/components/PsychologyHeatmap.tsx:162-176 | each rule's advice is fired iff its rule holds; the praise never |
| PsychologyHeatmap.FiredInRuleOrder | src/components/PsychologyHeatmap.tsx:162-176 | fired advice comes in rule order, none twice |
| PsychologyHeatmap.RecommendationRules | src/components/PsychologyHeatmap.tsx:159-183 | never empty; each piece of advice iff its rule holds; the praise iff none does, and then alone; no repeats, in rule order |
| PsychologyHeatmap.GetRecommendations | src/components/PsychologyHeatmap.tsx:159-183 | the pushes build exactly the specified advice |
| PsychologyErrorHeatmap.FirstIndex | src/components/PsychologyErrorHeatmap.tsx:139-141 | the first position of a value that occurs |
| PsychologyErrorHeatmap.TagIndex | src/components/PsychologyErrorHeatmap.tsx:140 | the position of a tag's entry, or −1 exactly when no entry has the tag |
| PsychologyErrorHeatmap.ErrorEntries | src/components/PsychologyErrorHeatmap.tsx:138-141 | no more entries than error tags |
| PsychologyErrorHeatmap.ErrorEntriesCount | src/components/PsychologyErrorHeatmap.tsx:138-141 | the counts object has one entry per distinct error, with its number of occurrences, in first-occurrence order |
| PsychologyErrorHeatmap.Bump | src/components/PsychologyErrorHeatmap.tsx:140 | an absent tag gets a new last entry with count 1; a present tag's entry grows by one; every other entry is unchanged |
| PsychologyErrorHeatmap.BumpPresent | src/components/PsychologyErrorHeatmap.tsx:140 | bumping a seen tag keeps the entries an exact count |
| PsychologyErrorHeatmap.BumpAbsent | src/components/PsychologyErrorHeatmap.tsx:140 | a new tag gets a new last entry with count 1, and the entries stay an exact count |
| PsychologyErrorHeatmap.CountErrors | src/components/PsychologyErrorHeatmap.tsx:138-141 | the counting loop builds exactly the entries |
| PsychologyErrorHeatmap.FindTag | src/components/PsychologyErrorHeatmap.tsx:140 | the search finds the tag's entry, or −1 |
| PsychologyErrorHeatmap.ByCountDescending | src/components/PsychologyErrorHeatmap.tsx:143 | a non-positive sort key, the negated count |
| PsychologyErrorHeatmap.ByCountDescendingOrders | src/components/PsychologyErrorHeatmap.tsx:143 | as `(a, b) => b - a`: an entry sorts no later than another iff its count is at least as large |
| PsychologyErrorHeatmap.DominantError | src/components/PsychologyErrorHeatmap.tsx:143 | "" without errors, otherwise one of the errors |
| PsychologyErrorHeatmap.DominantIsMostCommon | src/components/PsychologyErrorHeatmap.tsx:143 | no error occurs more often than the dominant one |
| PsychologyErrorHeatmap.DominantIsFirstAmongTies | src/components/PsychologyErrorHeatmap.tsx:143 | the stable sort makes the earliest of the most common errors dominant |
| PsychologyErrorHeatmap.DominantEntry | src/components/PsychologyErrorHeatmap.tsx:143 | the first entry after sorting counts the dominant error's occurrences |
| PsychologyErrorHeatmap.DataOf | src/components/PsychologyErrorHeatmap.tsx:89-109 | a cell's data: its trades, their error tags and their total R; empty without trades |
| PsychologyErrorHeatmap.CollectedEntry | src/components/PsychologyErrorHeatmap.tsx:118 | after collecting, each pair's entry (absent = empty) is the data of that cell's trades |
| PsychologyErrorHeatmap.CollectCells | src/components/PsychologyErrorHeatmap.tsx:89-110 | the collecting loop gives an entry exactly for each occupied pair, holding that cell's data |
| PsychologyErrorHeatmap.AddTrade | src/components/PsychologyErrorHeatmap.tsx:95-109 | one loop step keeps the collected map exact for the trades seen so far |
| PsychologyErrorHeatmap.PushErrorTags | src/components/PsychologyErrorHeatmap.tsx:105-109 | the inner loop pushes exactly the trade's error tags |
| PsychologyErrorHeatmap.CollectStep | src/components/PsychologyErrorHeatmap.tsx:95-109 | a step's map update keeps the collected map exact |
| PsychologyErrorHeatmap.DataStep | src/components/PsychologyErrorHeatmap.tsx:101-109 | a cell's data after one more trade |
| PsychologyErrorHeatmap.ErrorRate | src/components/PsychologyErrorHeatmap.tsx:135 | errors / total × 100, in [0, 100], 0 without errors |
| PsychologyErrorHeatmap.CellOf | src/components/PsychologyErrorHeatmap.tsx:120-152 | count, error-trade count ≤ count, the exact rate in [0, 100]; zeros and "" without trades; a dominant error iff there are error trades, and then one of their tags |
| PsychologyErrorHeatmap.CellAt | src/components/PsychologyErrorHeatmap.tsx:116-153 | the pair's cell is built from exactly that pair's trades |
| PsychologyErrorHeatmap.HeatmapData | src/components/PsychologyErrorHeatmap.tsx:112-154 | one row per sorted setup, one cell per sorted session, each the cell of its pair |
| PsychologyErrorHeatmap.CellFromData | src/components/PsychologyErrorHeatmap.tsx:117-152 | reading the map collected from any trades gives CellAt of those trades |
| PsychologyErrorHeatmap.BuildHeatmap | src/components/PsychologyErrorHeatmap.tsx:86-157 | the widget's two passes build exactly the specified grid |
| PsychologyErrorHeatmap.DominantOfCell | src/components/PsychologyErrorHeatmap.tsx:137-143 | a cell's dominant error is its most frequent error tag, the earliest among equals |
| PsychologyErrorHeatmap.GetCellColor | src/components/PsychologyErrorHeatmap.tsx:159-166 | muted iff empty; otherwise perfect iff 0 %, then bands below 20, 50, 80 and critical from 80, each iff |
| PsychologyErrorHeatmap.ColorMonotone | src/components/PsychologyErrorHeatmap.tsx:161-165 | a higher error rate never gets a milder colour |
| PsychologyErrorHeatmap.Recommendation | src/components/PsychologyErrorHeatmap.tsx:190-197 | high iff above 50 %, moderate iff above 20 % up to 50 %, good discipline iff at most 20 % |
| PsychologyErrorHeatmap.Breakdown | src/components/PsychologyErrorHeatmap.tsx:175-186 | the error-trade tag counts equal the counts over all the cell's tags |
| PsychologyErrorHeatmap.CellAvgR | src/components/PsychologyErrorHeatmap.tsx:188 | the cell's mean R; None exactly when the source divides by zero |
| PsychologyErrorHeatmap.AnalysisOf | src/components/PsychologyErrorHeatmap.tsx:199-208 | the cell's figures, the breakdown, the mean R and the advice for its rate |
| PsychologyErrorHeatmap.HandleCellClick | src/components/PsychologyErrorHeatmap.tsx:168-211 | nothing for an empty cell; otherwise the analysis of the trades of its pair |
| PsychologyErrorHeatmap.DominantTopsBreakdown | src/components/PsychologyErrorHeatmap.tsx:143-186 | the dominant error is a breakdown key with the largest count |
| Labels.LexLessIrreflexive | src/components/InteractiveHeatmap.tsx:48-49 | no label sorts before itself |
| Labels.LexLessTransitive | src/components/InteractiveHeatmap.tsx:48-49 | the default sort order is transitive |
| Labels.LexLess | src/components/InteractiveHeatmap.tsx:48-49 | a proper prefix sorts first |
| Labels.LexLessTotal | src/components/InteractiveHeatmap.tsx:48-49 | two different labels are ordered one way or the other |
| Labels.LexLessAsymmetric | src/components/InteractiveHeatmap.tsx:48-49 | never both a < b and b < a |
| Labels.StrictlySortedDistinct | src/components/InteractiveHeatmap.tsx:48-49 | a strictly sorted list repeats no label |
| Labels.InsertDistinct | src/components/InteractiveHeatmap.tsx:35-36 | adding to the sorted set keeps it strictly sorted, with exactly the old labels and the new one |
| Labels.SortedDistinct | src/components/InteractiveHeatmap.tsx:48-49 | `Array.from(set).sort()`: strictly sorted, exactly the labels that occur, never longer than the input |
| Labels.DistinctSubsetSize | src/components/InteractiveHeatmap.tsx:48-49 | a duplicate-free list of labels from the input is no longer than the input |
| Labels.TrimStart | src/components/SettingsTab.tsx:20 | a suffix of the text that does not start with white space, and every character it drops is white space |
| Labels.TrimEnd | src/components/SettingsTab.tsx:20 | a prefix of the text that does not end with white space, and every character it drops is white space |
| Labels.Trim | src/components/SettingsTab.tsx:20 | `trim()`: a slice s[i..j] of the text with only white space before i and from j on, neither starting nor ending with white space |
| Labels.TrimEmptyIffBlank | src/components/SettingsTab.tsx:20 | the trimmed text is empty iff the text is all white space |
| Labels.TrimIdempotent | src/components/SettingsTab.tsx:20 | trimming a trimmed text changes nothing |
| Labels.LowerChar | src/pages/Index.tsx:51-52 | no Latin or basic Cyrillic capital remains, and only those capitals change |
| Labels.Lower | src/pages/Index.tsx:51-52 | `toLowerCase()`, character by character, same length |
| Labels.LowerCharIdempotent | src/pages/Index.tsx:51-52 | lowering twice is lowering once |
| Labels.ContainsEmpty | src/pages/Index.tsx:51-52 | the empty search matches every text |
| Labels.Contains | src/pages/Index.tsx:51-52 | an included text is no longer than the text, and one of equal length is included iff it is the text |
| Labels.ContainsIffOccurs | src/pages/Index.tsx:51-52 | `includes` holds iff the search occurs at some position |
| OutcomeAnalysis.Factorial | src/components/OutcomeAnalysisWidget.tsx:191-194 | the recursive factorial is at least 1 |
| OutcomeAnalysis.ChooseAbove | src/components/OutcomeAnalysisWidget.tsx:187 | no way to pick more items than there are |
| OutcomeAnalysis.ChooseAll | src/components/OutcomeAnalysisWidget.tsx:187 | one way to pick all items |
| OutcomeAnalysis.FactorialStep | src/components/OutcomeAnalysisWidget.tsx:193 | n! = n · (n − 1)! for n ≥ 1 |
| OutcomeAnalysis.FactorialQuotientIsChoose | src/components/OutcomeAnalysisWidget.tsx:187 | n! = C(n, k) · k! · (n − k)! for every k ≤ n |
| OutcomeAnalysis.BinomialCoefficient | src/components/OutcomeAnalysisWidget.tsx:187 | the factorial quotient is the binomial coefficient C(n, k) |
| OutcomeAnalysis.BinomialProbability | src/components/OutcomeAnalysisWidget.tsx:186-189 | the source's probability is the k-th term of the expansion of (p + (1 − p))^n |
| OutcomeAnalysis.TermSplit | src/components/OutcomeAnalysisWidget.tsx:186-189 | Pascal's rule on one term of the expansion |
| OutcomeAnalysis.EntryIsTerm | src/components/OutcomeAnalysisWidget.tsx:186-189 | entry k of the weighted Pascal row n is the k-th term of (p + q)^n |
| OutcomeAnalysis.PartialStep | src/components/OutcomeAnalysisWidget.tsx:77-93 | a partial row sum is p times a partial sum of the row above plus q times the next longer one |
| OutcomeAnalysis.BinomialTheorem | src/components/OutcomeAnalysisWidget.tsx:77-93 | the entries of row n add up to (p + q)^n |
| OutcomeAnalysis.ExpectedRs | src/components/OutcomeAnalysisWidget.tsx:43-79 | one expected R per plan, in order |
| OutcomeAnalysis.ScenarioAt | src/components/OutcomeAnalysisWidget.tsx:78-92 | the scenario with w wins has n − w losses |
| OutcomeAnalysis.Scenarios | src/components/OutcomeAnalysisWidget.tsx:76-93 | n + 1 scenarios, scenario w with w wins and n − w losses |
| OutcomeAnalysis.BuildScenarios | src/components/OutcomeAnalysisWidget.tsx:76-93 | the loop pushes exactly the scenarios |
| OutcomeAnalysis.Probabilities | src/components/OutcomeAnalysisWidget.tsx:84-89 | the probabilities of the scenarios, in order |
| OutcomeAnalysis.PercentPartial | src/components/OutcomeAnalysisWidget.tsx:84 | percentages of row entries add up to 100 times the row's partial sums |
| OutcomeAnalysis.ProbabilityIsEntry | src/components/OutcomeAnalysisWidget.tsx:84 | the probability of k wins is 100 times entry k of row n |
| OutcomeAnalysis.PercentRowSum | src/components/OutcomeAnalysisWidget.tsx:84 | 100 times the entries of a row with q = 1 − p add up to 100 |
| OutcomeAnalysis.ProbabilitiesSumTo100 | src/components/OutcomeAnalysisWidget.tsx:76-93 | for any win rate the scenario probabilities add up to 100 % |
| OutcomeAnalysis.DescendingProbabilities | src/components/OutcomeAnalysisWidget.tsx:96-97 | after the sort the probabilities never increase |
| OutcomeAnalysis.RankedPrefix | src/components/OutcomeAnalysisWidget.tsx:96-98 | a prefix of the sorted scenarios comes from them, and everything left out is at most as probable as its last element |
| OutcomeAnalysis.TopScenarios | src/components/OutcomeAnalysisWidget.tsx:96-98 | min(3, n) scenarios, every one taken from the input |
| OutcomeAnalysis.TopScenariosRanked | src/components/OutcomeAnalysisWidget.tsx:96-98 | the top list has min(3, n + 1) scenarios, most probable first |
| OutcomeAnalysis.TopScenariosMostLikely | src/components/OutcomeAnalysisWidget.tsx:96-98 | the top scenarios are scenarios, and each one left out is at most as probable as the last one kept |
| OutcomeAnalysis.PredictedWins | src/components/OutcomeAnalysisWidget.tsx:40 | `Math.round(n · p)`: the whole number w with w ≤ n·p + 0.5 < w + 1 |
| OutcomeAnalysis.PredictedWinsInRange | src/components/OutcomeAnalysisWidget.tsx:40-41 | `Math.round(n · p)`: within half a win of n·p, and neither wins nor losses negative |
| OutcomeAnalysis.ExpectedValue | src/components/OutcomeAnalysisWidget.tsx:45 | the worst case moved the share p of the way to the best case: the worst at p = 0, the best at p = 1 |
| OutcomeAnalysis.ExpectedBetweenCases | src/components/OutcomeAnalysisWidget.tsx:45 | the expected R lies between the worst and the best case |
| OutcomeAnalysis.ScaleBetween | src/components/OutcomeAnalysisWidget.tsx:45 | p·d lies between 0 and d for a probability p |
| OutcomeAnalysis.Project | src/components/OutcomeAnalysisWidget.tsx:13-98 | the empty view iff there are no active plans; otherwise n plans, wins = PredictedWins and wins + losses = n, best case the sum of the expected Rs, worst case −n R, expected R = ExpectedValue(best, worst, p), best and worst probabilities pⁿ·100 and (1 − p)ⁿ·100, the scenarios and their top three |
| OutcomeAnalysis.AllWinsScenario | src/components/OutcomeAnalysisWidget.tsx:43-52 | all wins: the sum of the expected R values, with probability p^n |
| OutcomeAnalysis.AllLossesScenario | src/components/OutcomeAnalysisWidget.tsx:44-60 | all losses: −n R, with probability (1 − p)^n |
| OutcomeAnalysis.ExtremeScenarios | src/components/OutcomeAnalysisWidget.tsx:43-93 | the loop's first and last scenarios are the worst and the best case, with the same probabilities |

## Left out

- Rendering: JSX, CSS classes, icons, chart geometry and axis scaling, bar heights, badge texts and the Russian messages. Colours and advice are enumerations, not class names or strings.
- `toFixed` and `Number(x.toFixed(n))` rounding is not modelled where it only shapes a shown figure; there the values are exact reals. Two roundings that decide a colour are modelled: the psychology heatmap's `toFixed(0)` error rate (rounding half up) and the interactive heatmap's `toFixed(1)` cell mean (`InteractiveHeatmap.RoundTenth`). Binary floating-point representation of decimal thresholds such as 0.05 is not modelled.
- PlanStore.ExecutedTrade: stores the exact quotient, not the 2-decimal rounded value (src/hooks/useTradingPlans.tsx:99). It requires entry ≠ stop, where the source would store NaN or ±Infinity.
- PlanStore.TradingPlanStore.ExecutePlan: requires entry ≠ stop for the plans carrying the id, for the same reason.
- CapitalCurve.PointAt: the running total and the expectation are exact, not rounded to 2 decimals (src/components/CapitalCurve.tsx:23-24).
- CapitalCurve.TrendOf: averages the exact expectations, while the source averages the 2-decimal rounded ones (src/components/CapitalCurve.tsx:37-41). When the two 10-point means differ by close to 0.1, the source and the model can pick different trends.
- CreatePlanForm.EffectValue: the stored value is exact, not rounded to 2 decimals (src/components/CreatePlanDialog.tsx:64).
- ExecutePlanForm.RealisedR: the shown value is exact, not rounded to 2 decimals (src/components/ExecutePlanDialog.tsx:51).
- PnLDistribution.ComputeStats: stops at the variance; the standard deviation (`Math.sqrt`) is not computed.
- PLDistribution.ComputeStats: also stops at the variance; its range text `'min / max'` is not built.
- Floating point: NaN and ±Infinity are one abstract `NonFinite` value, and IEEE overflow of the recursive factorial for large n is not modelled (the factorial is exact over naturals).
- Parsing: `parseFloat` of a text field is abstracted as its outcome: empty, a number, or text that does not parse. A price's round trip through `toString` and `parseFloat` is taken as exact.
- CreatePlanForm.Form.Submit: requires numeric prices and commission and entry ≠ stop, where the source would emit NaN or Infinity in the plan.
- ExecutePlanForm.Form.Submit: requires a numeric exit whenever it sends, where the source would send NaN for unparsable text.
- ExecutePlanForm.Form.EditExit: requires a manual close, because the exit field is disabled for the other execution types (src/components/ExecutePlanDialog.tsx:170).
- OutcomeAnalysis.TopScenariosMostLikely: requires a non-empty scenario list. The list of n + 1 scenarios is never empty.
- The clock and ids: `Date.now()` and `new Date()` come in as parameters. `localStorage` is left out: the saved recent pairs are a constructor parameter, and saving is not modelled.
- React: effect scheduling is modelled as the effect running right after the change it depends on. Dialog open/close, `onOpenChange`, theme context and the `useMemo` caching are left out.
- Callbacks: `onFiltersChange` and `onFilterChange` are modelled as the value the method returns; `onSubmit` is the value `Submit` returns.
- The cell key `${setup}-${session}` is modelled as a pair of strings. The source's concatenated key can collide when a label contains `-`, for example setup "A-B" with session "C" and setup "A" with session "B-C".
- Labels.LexLess: compares characters by Unicode code point, while `Array.prototype.sort()` compares UTF-16 code units. The two orders differ only when one label has a character above U+FFFF (stored as surrogates 0xD800-0xDFFF) where the other has one in U+E000-U+FFFF.
- PsychologyErrorHeatmap.ErrorEntries: lists the error tags in first-occurrence order. `Object.entries` lists integer-like keys (such as "42") first, in ascending order. The tags the journal offers (src/hooks/useTradingPlans.tsx:41-49) are never integer-like, but the model accepts any string as a tag, so the tie-break can differ for such tags.
- Labels.Lower: lower-cases only the Latin and the basic Cyrillic capitals, not full Unicode case mapping.
- Settings: the settings update (`updateUserSettings`) is not defined in src/hooks/useTradingPlans.tsx; it is modelled as replacing the one list the partial update names. Its persistence is not part of this model.
- Presentational files (src/pages/Guide.tsx apart from its worked example, DashboardContent, TradeDetailsDialog, TradesTab, AllPlansTab, ActivePlansTab, JournalHeader, EmptyTabs) and the data-only tag tables are not part of this model. Tags are opaque strings, with "Perfect Execution" as a named constant.
- Direction in the store: the store's R ignores the direction, while the execution dialog's R honours it. The model keeps both formulas as written and relates them in `RMultiple.StoredRIgnoresDirection`.
