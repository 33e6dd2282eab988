# Verified model of the agent runtime's decision logic

The runtime compiles requests into *chains* of ability calls, runs them behind safety gates, remembers
solved work in a semantic cache, repeats chains on a schedule, and looks for page elements with a
detector network. Most of its code is I/O; this project models the parts that decide something, and
proves what they promise for every input, every environment and every run.

**Chains.** `Template` models argument templates: one textual replace per map entry, in an unspecified
order. `ChainDsl` models definitions, their static check and step conditions. `CircuitBreaker` models the rule
registry with its capped execution history. `ChainExecutor` models the interpreter: an execution is a
sequence of `Move`s through `State`s, `Path` says which sequences are possible, `Executes` how they may
end, and `Run` is proved to produce such an execution. Ability outcomes, constitution verdicts, clock
readings, number parsing and confirmations are arbitrary functions of the environment (`World`).
`ChainRuns` proves what holds of all executions, `ChainCalls` what holds of the calls they leave in the trace of
the abilities, `ChainWorstCase` that the bound on their length is attained. `Autonomous` models the
plan-execute-review loop, `Trust` the step statistics and graduation.

**Detector.** `YoloOutput` models the decoding of the raw tensor, `ElementDetector` overlap, sorting and
non-maximum suppression, `BoxGeometry` what overlap measures, `GreedySelection` the suppression loop without
geometry, `NmsOrder` when the order of the input matters.

**Cache.** `EmbeddingCodec`, `Similarity` and `ParameterExtraction` are the parts of `SemanticCache`, whose
tables, lookup, outcome recording and audit log are a state machine over `Operation`s.
`TrainingQueue` models the export queue.

**Schedules and triggers.** `Scheduler` models the job table and its history, `Heartbeat` the tick and all
runs of the scheduler under it. `Triggers` models the trigger map with its two indexes.

SQLite tables are fields of a class: sequences in row order or maps. Each method that changes such a
field is proved against a function on table contents (`Step`, `Recorded`, `Registered`, `Upserted`,
`AfterExport`), and the lemmas about runs use that function. Clock readings are parameters.

## Results worth knowing

* A chain of n steps ends after at most n + (n+1)²/4 loop iterations, rounded down, and for every n > 0 some
  checked chain needs exactly that many. (`ChainRuns.IterationBound`, `ChainWorstCase.IterationBoundIsReached`)
* A template resolves to the simultaneous substitution of its placeholders, for all maps with brace-free names
  and all iteration orders, **if and only if** deleting its placeholders leaves no placeholder behind. So
  `{{{{a}}}}` and `{{{b}}{a}}` style nesting is exactly what can go wrong. (`Template.ResolvesToSubstitutionIffFlat`)
* An abort threshold rule that covers a chain blocks every ability of it: outputs start empty, and a
  missing key fires. (`ChainRuns.AbortThresholdBlocksEverything`)
* The history cap never changes the verdict of a frequency rule up to the cap **if and only if** no entry it
  dropped is later than one it kept, as under a clock that never goes back. (`CircuitBreaker.CappedVerdictsAgreeIff`)
* The autonomous loop succeeds **if and only if** its last attempt is one permitted call that received the goal word
  for word and whose stored answer counts. (`Autonomous.SuccessIff`)
* Non-maximum suppression ignores the order of its input **if and only if** all ties are decided by strictly more
  confident detections. (`NmsOrder.OrderIrrelevantIffTiesDecided`)
* A channel trigger's parameter is a simultaneous substitution for all messages **if and only if** it uses at most the
  subject. (`Triggers.ParamIsSubstitutedIff`)
* An interval job is never due early **if and only if** its interval in milliseconds fits an `i64`.
  (`Scheduler.NeverEarlyIffIntervalFits`, `Heartbeat.IntervalIsKeptIff`)
* Registering an agent keeps the trigger indexes consistent **if and only if** nothing stale is left of it, and
  unregistering undoes a registration **if and only if** it took over no existing webhook route.
  (`Triggers.RegisterConsistentIff`, `Triggers.UnregisterUndoesRegisterIff`)
* The adaptive threshold moves the announced way exactly for base thresholds from 0.88 to 0.98.
  (`SemanticCache.AdaptationDirection`)

Where the code and its documentation disagree, the model follows the code, and `DocumentedPromises` proves
for each case an input and exactly when they differ:

* the book (`docs/book/src/security/circuit-breakers.md:146-149`) says that a `confirm` rule without a confirmation
  channel aborts; the code lets the step through with a warning (`src/chain/executor.rs:184-197`). The autonomous loop
  never has a channel, so confirm rules have no influence on it;
* the book says a frequency rule fires above its count; the code fires from the count on
  (`src/chain/circuit_breaker.rs:165`), and the run itself has already been recorded;
* the book asks for more than 50 runs and more than 95% to graduate; the code uses `>=` (`src/chain/trust.rs:79-81`).

Every lemma carries `{:induction false}`: inductions are spelled out in the proofs.

## Model

| member | source | states |
|---|---|---|
| Strings.ContainsIff | src/chain/dsl.rs:186 | A text contains a pattern iff the pattern stands at some position |
| Strings.EndsWithIff | src/agent_os/triggers.rs:148 | A text ends with a pattern iff it is some head followed by the pattern |
| Strings.ReplaceOfAbsent | src/chain/dsl.rs:150 | A text without the pattern is copied |
| Strings.ReplaceOfFirst | src/chain/dsl.rs:150 | Otherwise the leftmost occurrence is replaced, and the search goes on behind it |
| Strings.DecimalDenotes | src/chain/scheduler.rs:201 | A printed number denotes that number, without leading zeros |
| Template.SanitizeIsStrip | src/chain/dsl.rs:165-175 | The four replaces and the filter equal one pass over the characters; the result holds no brace and no control character but newline and tab |
| Template.SanitizedIsSubsequence | src/chain/dsl.rs:165-175 | The sanitized text is the subsequence of exactly the characters that are no brace and are newline, tab, 0x20 to 0x7E, or at least 0xA0 |
| Template.SurvivorsAreKept | src/chain/dsl.rs:165-175 | A text of such characters is not changed |
| Template.PlainPlaceholderResolves | src/chain/dsl.rs:140-159 | An argument that is one placeholder becomes the sanitized value, and the value itself if all its characters survive |
| Template.StripKeepsClean | src/chain/dsl.rs:165-175 | Clean values pass through unchanged |
| Template.ReplaceEach | src/chain/dsl.rs:148-151 | The loop over one map replaces the placeholder of every key once, in some enumeration of the keys |
| Template.ResolveArgs | src/chain/dsl.rs:140-159 | Every argument keeps its key and becomes what some pair of iteration orders makes of it |
| Template.ReplaceFillsTemplate | src/chain/dsl.rs:150 | One replace call fills exactly the placeholders of its name, for any template and any value |
| Template.FlatResolvesToSubstitution | src/chain/dsl.rs:145-158 | For flat templates every iteration order gives the simultaneous substitution, in which parameters shadow outputs and unknown placeholders survive |
| Template.NestedCanMisresolve | src/chain/dsl.rs:145-158 | For every other template there are maps on which all orders miss the substitution |
| Template.ResolvesToSubstitutionIffFlat | src/chain/dsl.rs:145-158 | The exact boundary between the two |
| Template.FlatArgsResolveUniquely | src/chain/dsl.rs:140-159 | With flat arguments and brace-free names the resolved arguments are determined |
| ChainDsl.FindStep | src/chain/executor.rs:238-239 | Finds the first step with an id, and nothing iff there is none |
| ChainDsl.Check | src/chain/dsl.rs:102-135 | Accepts exactly the well-formed chains; each error names the first defect of its kind |
| ChainDsl.ConditionWithoutOutputs | src/chain/dsl.rs:179-196 | On a missing key exactly `is_empty` and `not_equals` hold |
| ChainDsl.NumericConditions | src/chain/dsl.rs:187-194 | With numbers a and b on both sides, `greater_than` holds iff a > b and `less_than` iff a < b |
| ChainDsl.UnparsedConditions | src/chain/dsl.rs:187-194 | Neither holds if one side is no number |
| ChainDsl.TextConditions | src/chain/dsl.rs:182-186 | Equality, its negation, occurrence of the value somewhere in the output, and emptiness |
| ChainDsl.GreaterThanIff | src/chain/dsl.rs:187-194 | The comparison is the order of the extended reals, in which NaN has no place |
| ChainDsl.ConditionIsRelation | src/chain/dsl.rs:179-196 | A condition holds iff its output, which may be missing, stands in the relation of the operator |
| CircuitBreaker.BreakerRegistry.RecordExecution | src/chain/circuit_breaker.rs:94-107 | The full log grows by one reading, and the stored history stays its last 10000 entries |
| CircuitBreaker.BreakerRegistry.Register | src/chain/circuit_breaker.rs:110-112 | A rule is added at the end |
| CircuitBreaker.BreakerRegistry.Evaluate | src/chain/circuit_breaker.rs:125-193 | Reports the applicable triggered rules in registration order, with the two verdicts |
| CircuitBreaker.FiredIffRuleFires | src/chain/circuit_breaker.rs:133-185 | An action is among the fired iff some applicable rule with it is triggered |
| CircuitBreaker.ProceedIff | src/chain/circuit_breaker.rs:184-186 | A step proceeds iff no applicable abort rule is triggered |
| CircuitBreaker.AppliesIff | src/chain/circuit_breaker.rs:134-136 | A rule applies iff its chain is this one or `*` |
| CircuitBreaker.ThresholdIff | src/chain/circuit_breaker.rs:139-142 | A number a triggers the threshold t iff a > t |
| CircuitBreaker.ThresholdTriggersIff | src/chain/circuit_breaker.rs:139-142 | A threshold is triggered iff the output is missing, is no number, or exceeds it |
| CircuitBreaker.PatternIff | src/chain/circuit_breaker.rs:148-150 | A pattern is triggered iff it stands somewhere in the output |
| CircuitBreaker.AbilityIff | src/chain/circuit_breaker.rs:144-146 | An ability rule is triggered iff the names are equal |
| CircuitBreaker.FrequencyIff | src/chain/circuit_breaker.rs:152-171 | A frequency is triggered iff at least `max_count` recorded executions of the chain are at most `window_secs` old |
| CircuitBreaker.FiredGrows | src/chain/circuit_breaker.rs:133-180 | Later rules only add firings at the end |
| CircuitBreaker.CappedCount | src/chain/circuit_breaker.rs:99-106 | The count on the capped history is the count on the full log, cut off at the cap |
| CircuitBreaker.CapIsHarmlessIff | src/chain/circuit_breaker.rs:99-106 | The capped verdict is the full one for every window and every count up to the cap iff no dropped entry is later than a kept one |
| CircuitBreaker.EarlierKeptMisleads | src/chain/circuit_breaker.rs:99-106 | Every log with a dropped entry later than a kept one has a window and a count on which the cap hides a firing |
| CircuitBreaker.CappedVerdictsAgreeIff | src/chain/circuit_breaker.rs:152-171 | The same boundary for frequency rules at the cap of 10000; rules with a larger count never fire |
| CircuitBreaker.CappedVerdict | src/chain/circuit_breaker.rs:152-171 | In particular the verdicts agree under a clock that never goes back |
| CircuitBreaker.CapNeedsMonotoneClock | src/chain/circuit_breaker.rs:94-107 | For every count up to the cap there is a log on the wrong side of that boundary |
| ChainExecutor.FirstConfirm | src/chain/executor.rs:157-160 | Finds a fired confirmation iff there is one |
| ChainExecutor.ValidateParams | src/chain/executor.rs:37-50 | Names the first missing required parameter, and none iff none is missing |
| ChainExecutor.ChainExecutor.CheckGates | src/chain/executor.rs:124-199 | Constitution, breakers and confirmation, in this order, with their errors |
| ChainExecutor.AbilityRegistry.ExecuteAbility | src/chain/executor.rs:273-277 | An ability call answers as the environment does and leaves exactly one trace |
| ChainExecutor.ChainExecutor.Attempt | src/chain/executor.rs:124-208 | One traced call, with resolved arguments, if all gates passed; no call at all if one closed |
| ChainExecutor.ChainExecutor.Run | src/chain/executor.rs:88-101 | Fails for a missing parameter before anything is recorded or called; otherwise records one execution and returns what an execution of the chain returns, with its calls in the trace |
| ChainExecutor.ChainExecutor.RunSteps | src/chain/executor.rs:103-271 | The step loop terminates, its result is that of a possible execution, and the trace grows by exactly the calls of that execution |
| ChainRuns.RunLength | src/chain/executor.rs:107-261 | Exact length of a run so far; jump sources are distinct, and as many as jump targets |
| ChainRuns.IterationBound | src/chain/executor.rs:107-261 | At most n + (n+1)²/4 iterations, for every chain and environment |
| ChainWorstCase.IterationBoundIsReached | src/chain/executor.rs:107-261 | For every n > 0 a checked chain attains the bound |
| ChainRuns.Accounting | src/chain/executor.rs:103-261 | Receipts, skipped steps and failures add up to the iterations |
| ChainRuns.SkippedIff | src/chain/executor.rs:115-122 | A step is skipped iff it has a condition whose relation fails on the outputs of that moment |
| ChainRuns.NumericStepRunsIff | src/chain/executor.rs:115-122 | A step with a numeric condition runs iff the numbers compare so |
| ChainRuns.SuccessVisitsEveryStepOnce | src/chain/executor.rs:263-270 | Success iff no step failed; then every step was visited once, in order, with one record each |
| ChainRuns.RecordsAreInOrder | src/chain/executor.rs:118-230 | The k-th receipt is that of the k-th successful call, the k-th skipped id that of the k-th skipped step |
| ChainRuns.OutputsAreLastWrites | src/chain/executor.rs:211-235 | An output exists iff a call stored it or a failed step left its error under it, and the last writer's value stands |
| ChainRuns.StoredTextIs | src/chain/executor.rs:215-227 | An output is stored as it is unless it begins with a brace and is a JSON object with a text |
| ChainRuns.CycleErrorIffSecondJump | src/chain/executor.rs:238-249 | No run jumps to a step twice; a failure ends with the cycle error iff it would |
| ChainRuns.CheckedChainFindsTargets | src/chain/executor.rs:234-256 | In a checked chain the "target not found" fall-through is unreachable |
| ChainRuns.FirstConfirmRule | src/chain/executor.rs:157-169 | The confirmation asked for belongs to the first confirmation rule that fires |
| ChainRuns.GateIsSafety | src/chain/executor.rs:124-199 | The gates open iff the constitution allows the ability, no abort rule fires, and a confirmation that can be asked for was given |
| ChainRuns.GateErrorIs | src/chain/executor.rs:124-199 | Which of the three gate errors is returned, exactly, and that it names the step |
| ChainRuns.OnlyApprovalOpens | src/chain/executor.rs:154-183 | If a confirm rule fires and there is a channel, the gate is open only after one of the three approving answers |
| ChainRuns.HaltReasonsAre | src/chain/executor.rs:141-151 | The reasons reported with a halt are those of the firing abort rules, in registration order, with repeats |
| ChainRuns.MoveCallIsSafe | src/chain/executor.rs:124-208 | Every move with a call, also after jumps back, passed all safety rules on the outputs of that moment |
| ChainRuns.FailingCallIsSafe | src/chain/executor.rs:232-257 | So did the call with which a run failed |
| ChainCalls.CallsAreOfMoves | src/chain/executor.rs:202-208 | Each traced call is that of a move, with its ability and arguments, in iteration order |
| ChainCalls.MovesAreTraced | src/chain/executor.rs:202-208 | No call is missing from the trace |
| ChainCalls.EveryCallIsSafe | src/chain/executor.rs:124-257 | Every call in the trace of an execution, the last failing one included, belongs to the step of its iteration, has arguments resolved from the outputs of that moment, and was permitted by every safety rule |
| ChainCalls.AbortThresholdPreventsCalls | src/chain/circuit_breaker.rs:139-142 | Under an abort threshold rule the trace of an execution is empty |
| ChainCalls.CallsRespectTheRate | src/chain/circuit_breaker.rs:152-171 | Under an abort frequency rule, at every traced call fewer than `max_count` logged executions are at most `window_secs` old, as long as the cap is harmless |
| ChainCalls.CallsFindRulesQuiet | src/chain/executor.rs:138-152 | No call is made while the condition of an applicable abort rule is triggered |
| ChainCalls.CallsRespectTheThreshold | src/chain/circuit_breaker.rs:139-142 | Under an abort rule `key > t` every call finds an output that parses and does not exceed t |
| ChainCalls.ForbiddenAbilityIsNotCalled | src/chain/circuit_breaker.rs:144-146 | Under an abort rule on an ability no execution calls it |
| ChainCalls.CallsAvoidThePattern | src/chain/circuit_breaker.rs:148-150 | Under an abort rule on a pattern no call is made while the output holds it |
| ChainRuns.MoreRulesStopMore | src/chain/circuit_breaker.rs:184-186 | Adding rules never opens a gate |
| ChainRuns.MoreRulesOnlyRestrict | src/chain/executor.rs:138-199 | What can happen under more rules can happen under fewer, with the same states |
| ChainRuns.CompletedRunsSurviveFewerRules | src/chain/executor.rs:138-199 | A completed run has the same result under fewer rules |
| ChainRuns.AbortThresholdBlocksEverything | src/chain/circuit_breaker.rs:139-142 | Under an abort threshold rule a run only skips steps, keeps its outputs empty, and fails in no step |
| ChainRuns.FlatChainRunsDeterministically | src/chain/executor.rs:88-271 | Hash map order has no influence on any run of a flat chain |
| Autonomous.StraightChainCompletes | src/chain/autonomous.rs:187-217 | A completed chain without conditions and failure targets leaves one receipt for each step and succeeded |
| Autonomous.NothingToResolve | src/chain/autonomous.rs:199 | Without parameters and outputs the arguments reach the ability word for word, braces included |
| Autonomous.PlanIsWellFormed | src/chain/autonomous.rs:81-112 | Every plan passes the static check |
| Autonomous.PlanNamesAbilities | src/chain/autonomous.rs:81-93 | The arguments are the goal word for word, a context that names every ability, and any backend |
| Autonomous.PlanIdsDiffer | src/chain/autonomous.rs:96 | Plans made at different times have different chain ids |
| Autonomous.PlannedRun | src/chain/autonomous.rs:81-126 | A run of the plan calls `deep.delegate` with the goal unchanged iff the gates permit it, and nothing else; it completes iff that call succeeds, and is accepted iff, besides, the stored answer is not empty, "stopped" or "{}" |
| Autonomous.CostLaw | src/chain/autonomous.rs:199-217 | The cost of any attempts is their number plus four for every executed step |
| Autonomous.CostIsCapped | src/chain/autonomous.rs:154-217 | The cost is at most the cap plus four, and zero if the cap is zero |
| Autonomous.AutonomousExecutor.PlanAndRun | src/chain/autonomous.rs:187-212 | The result is that of an execution of the chain planned for the goal, without parameters and confirmation channel, under the registered rules, and its calls are traced |
| Autonomous.AutonomousExecutor.Execute | src/chain/autonomous.rs:131-245 | Attempt i is an execution of the plan in world i, made before the timeout; log and trace grow by exactly these attempts, the result sums them up, cost law and cap hold; without success, iterations, time or money ran out |
| Autonomous.AutonomousExecutor.Iterate | src/chain/autonomous.rs:178-228 | One iteration adds one such attempt and counts it |
| Autonomous.AttemptIs | src/chain/autonomous.rs:187-228 | What an attempt calls, and whether it completes and meets the goal, told by its gates and the answer alone |
| Autonomous.SuccessIff | src/chain/autonomous.rs:114-228 | The loop succeeds iff its last attempt is one permitted `deep.delegate` call that received the goal and whose stored answer counts; no earlier attempt is |
| Autonomous.CallsOfAllAre | src/chain/autonomous.rs:154-228 | All ability calls of the loop are planned calls with the goal, at most one for each attempt |
| DocumentedPromises.ConfirmCanFailOpen | src/chain/executor.rs:184-197 | With the book's own example, a confirm rule on `email.send`, and no channel, the rule fires and the call goes through |
| DocumentedPromises.ConfirmFailsClosedIff | src/chain/executor.rs:124-199 | A firing confirm rule lets a call through only with approval iff there is a channel, no confirm rule fires, or an abort rule or the constitution stops the call |
| DocumentedPromises.ConfirmRulesDoNothingWithoutChannel | src/chain/executor.rs:154-198 | Without a channel exactly the same executions are possible with and without the confirm rules |
| DocumentedPromises.ConfirmRulesNeverStopTheLoop | src/chain/autonomous.rs:191-199 | No attempt of the autonomous loop is denied by a user, and it calls its ability iff it would without confirm rules |
| DocumentedPromises.FrequencyDiffersIff | src/chain/circuit_breaker.rs:164-165 | Code and book differ iff the count is exactly reached; then only the code fires |
| DocumentedPromises.LastAllowedRunIsStopped | src/chain/executor.rs:98-101 | The run that fills the window is stopped, because it is recorded before it is judged |
| DocumentedPromises.EligibilityDiffersIff | src/chain/trust.rs:79-81 | Code and book differ iff the step is eligible and has exactly fifty runs or exactly nineteen successes for every failure |
| DocumentedPromises.FiftyRunsGraduate | src/chain/trust.rs:79-81 | Fifty flawless runs graduate a step, which the book denies |
| Trust.TrustManager.RecordStep | src/chain/trust.rs:110-127 | The table stays the fold of the outcome log |
| Trust.TrustManager.Assess | src/chain/trust.rs:153-217 | Without a pinned ability exactly the ineligible steps are listed, in order, and the level is autonomous iff there are none; with one, all steps are |
| Trust.StatsAreCounts | src/chain/trust.rs:110-127 | The row of a step holds the numbers of its recorded successes and failures and their sum |
| Trust.EligibleIff | src/chain/trust.rs:70-82 | Eligible iff at least fifty runs and nineteen successes for every failure |
| Trust.GraduatesAfterExactly | src/chain/trust.rs:70-127 | After k further successes a step graduates iff k is at least max(0, 50 - s - f, 19f - s) |
| Trust.UnprovenAre | src/chain/trust.rs:174-187 | A step is listed iff it was asked about and has not graduated |
| Trust.OtherStepsDoNotCount | src/chain/trust.rs:110-127 | Outcomes of one step do not affect another |
| Trust.PinnedIff | src/chain/trust.rs:17-24 | An ability is pinned iff one of the six names stands somewhere in it |
| GreedySelection.SelectionIsUnique | src/browser/element_detector.rs:309-320 | At most one way to choose such that chosen ones do not suppress each other and each other one is suppressed by an earlier chosen one |
| GreedySelection.KeepIsTheSelection | src/browser/element_detector.rs:309-320 | The loop computes that choice |
| GreedySelection.GreedyMask | src/browser/element_detector.rs:309-320 | There always is such a choice |
| GreedySelection.KeepAllApart | src/browser/element_detector.rs:309-320 | Nothing is dropped where nothing is suppressed |
| ElementDetector.IouSymmetric | src/browser/element_detector.rs:278-297 | The order of the two boxes does not matter |
| ElementDetector.IouInUnitInterval | src/browser/element_detector.rs:278-297 | Between 0 and 1 for boxes without negative sides |
| ElementDetector.IouIsOneIffSameBox | src/browser/element_detector.rs:278-297 | For boxes of positive area, 1 iff the boxes are equal |
| BoxGeometry.CommonBoxExists | src/browser/element_detector.rs:279-282 | Boxes with a point in common have a box of exactly their common points |
| BoxGeometry.CommonSides | src/browser/element_detector.rs:279-286 | The sides of that box are the ones the code multiplies |
| BoxGeometry.IouLaw | src/browser/element_detector.rs:286-296 | The ratio times the united area is the common area |
| BoxGeometry.IouOfDisjoint | src/browser/element_detector.rs:284-296 | 0 for boxes without a common point |
| BoxGeometry.IouOfTouching | src/browser/element_detector.rs:284-296 | 0 for boxes whose common points have no area |
| BoxGeometry.SuppressesIff | src/browser/element_detector.rs:312-314 | A box is suppressed iff (1 + t) times the common area exceeds t times the two areas together |
| BoxGeometry.DisjointBothStay | src/browser/element_detector.rs:312-314 | Boxes without a common point do not suppress each other |
| ElementDetector.SortIsStableSort | src/browser/element_detector.rs:307 | Descending, a permutation, ties in their old order |
| ElementDetector.SortOfSorted | src/browser/element_detector.rs:305-307 | Sorting again is harmless |
| ElementDetector.SortedIsUnique | src/browser/element_detector.rs:307 | With distinct confidences there is one descending order |
| ElementDetector.NonMaxSuppression | src/browser/element_detector.rs:301-321 | The loop returns the greedy selection of the sorted detections |
| ElementDetector.NmsKeepsTheMaxima | src/browser/element_detector.rs:299-321 | Kept boxes are pairwise within the threshold; each dropped one exceeds it with a kept one of at least its confidence |
| ElementDetector.NmsIsIdempotent | src/browser/element_detector.rs:299-321 | Suppressing again changes nothing |
| ElementDetector.NmsIgnoresInputOrder | src/browser/element_detector.rs:299-321 | With distinct confidences every permutation of the input gives the same output |
| ElementDetector.TiesGoToTheFirst | src/browser/element_detector.rs:307-318 | Of two overlapping detections with a tie the first one given wins |
| NmsOrder.OrderIrrelevantIffTiesDecided | src/browser/element_detector.rs:299-321 | Every order of the input gives the same output iff of any two different detections of equal confidence at least one is suppressed by what is kept of the strictly more confident ones |
| NmsOrder.DecidedTiesSuffice | src/browser/element_detector.rs:299-321 | Permutations with decided ties have the same output |
| NmsOrder.UndecidedTieMatters | src/browser/element_detector.rs:299-321 | For every undecided tie there are two orders with different outputs |
| NmsOrder.KeepLevel | src/browser/element_detector.rs:309-318 | What the loop keeps of one confidence level |
| YoloOutput.RowsFit | src/browser/element_detector.rs:199-225 | No access leaves the tensor, whatever its length |
| YoloOutput.TensorLayout | src/browser/element_detector.rs:199-225 | Of a tensor of rows with one entry for each prediction, and an incomplete remainder, exactly entry (row, column) is read |
| YoloOutput.DetectionOfColumn | src/browser/element_detector.rs:213-260 | A column shows centre and size from the first four rows, the score from the row of its class, and that class by name and type |
| YoloOutput.ClassTable | src/browser/element_detector.rs:324-339 | Eleven classes in the order of the default names, everything else unknown |
| YoloOutput.NormalisedBox | src/browser/element_detector.rs:236-246 | Every box is clamped into the unit square, and one that is inside already is only scaled |
| YoloOutput.NormalisedIsNearest | src/browser/element_detector.rs:236-246 | Each corner coordinate is moved to the nearest one in the unit interval, each side to the nearest length that fits |
| YoloOutput.BestClass | src/browser/element_detector.rs:221-230 | Picks the first class of maximal score, and none iff there are no classes |
| YoloOutput.ParseYoloOutput | src/browser/element_detector.rs:193-270 | The sorted list of what the columns show, complete and without additions |
| YoloOutput.BestClassIsUnique | src/browser/element_detector.rs:221-230 | The best class is determined by the scores |
| YoloOutput.DecodingIsUnique | src/browser/element_detector.rs:213-261 | The detections are determined by the tensor |
| YoloOutput.DecodedDetections | src/browser/element_detector.rs:213-261 | A detection is listed iff some column shows it; all are inside the unit square and reach the threshold |
| YoloOutput.DetectReportsProperBoxes | src/browser/element_detector.rs:183-186 | What detection reports is inside the unit square, reaches the threshold, and has overlaps between 0 and 1 |
| EmbeddingCodec.WordRoundTrip | src/cache/semantic_cache.rs:433-435 | Four little-endian bytes give the word back |
| EmbeddingCodec.BytesRoundTrip | src/cache/semantic_cache.rs:437-442 | A word gives its four bytes back |
| EmbeddingCodec.DecodeEncode | src/cache/semantic_cache.rs:433-442 | Every stored embedding is read back bit for bit |
| EmbeddingCodec.EncodeDecode | src/cache/semantic_cache.rs:433-442 | Reading any blob loses exactly an incomplete last word |
| EmbeddingCodec.BytesAreLittleEndian | src/cache/semantic_cache.rs:433-435 | Byte k counts multiples of 256 to the power of k |
| EmbeddingCodec.WordPosition | src/cache/semantic_cache.rs:433-435 | Word i occupies the four bytes from 4i on |
| Similarity.CosineSimilarity | src/cache/semantic_cache.rs:410-431 | The accumulation loop computes the cosine; 0 for different or zero lengths and for zero vectors |
| Similarity.CauchySchwarz | src/cache/semantic_cache.rs:415-423 | The squared dot product is at most the product of the squared norms, for every length |
| Similarity.CosineBounds | src/cache/semantic_cache.rs:410-431 | Between -1 and 1 for vectors of any length |
| Similarity.CosineOfSelf | src/cache/semantic_cache.rs:410-431 | 1 for a nonzero vector with itself |
| Similarity.CosineSymmetric | src/cache/semantic_cache.rs:410-431 | The order of the arguments does not matter |
| Similarity.DotOfSum | src/cache/semantic_cache.rs:419-423 | The accumulated product is additive |
| Similarity.DotOfScaled | src/cache/semantic_cache.rs:419-423 | It is homogeneous |
| Similarity.DotWithUnit | src/cache/semantic_cache.rs:419-423 | On unit vectors it gives the coordinates |
| Similarity.CosineValue | src/cache/semantic_cache.rs:410-431 | For nonzero vectors the square of the similarity times both squared norms is the squared dot product, and the signs agree |
| Similarity.CosineUnique | src/cache/semantic_cache.rs:425-430 | This determines the similarity |
| Similarity.CosineOfZero | src/cache/semantic_cache.rs:411-413 | 0 for different lengths and for zero vectors |
| Similarity.CosineOfOrthogonal | src/cache/semantic_cache.rs:410-431 | 0 for orthogonal vectors |
| Similarity.CosineOfScaled | src/cache/semantic_cache.rs:410-431 | Scaling by a positive number keeps it, by a negative number negates it |
| Similarity.CosineReachesIff | src/cache/semantic_cache.rs:212-215 | A positive threshold t is met iff the dot product is positive and its square is at least t squared times both squared norms |
| ParameterExtraction.ClaimFirst | src/cache/semantic_cache.rs:494-503 | The loop returns the first match that overlaps nothing used |
| ParameterExtraction.FirstFreeIs | src/cache/semantic_cache.rs:468-503 | That match is free, all before it are not, and none is returned iff none is free |
| ParameterExtraction.OverlapIff | src/cache/semantic_cache.rs:468-470 | Nonempty spans overlap iff they share a position; an empty span overlaps what surrounds it |
| ParameterExtraction.ClaimParameters | src/cache/semantic_cache.rs:490-526 | The first pass computes all claims, their values and the text parameters left over |
| ParameterExtraction.ExtractParameters | src/cache/semantic_cache.rs:478-556 | Both passes together, with the new words for the left-over text parameters |
| ParameterExtraction.ClaimIsLeftmostFree | src/cache/semantic_cache.rs:490-526 | Each parameter claims its first match disjoint from all earlier claims, and none iff all are blocked |
| ParameterExtraction.ClaimsAreDisjoint | src/cache/semantic_cache.rs:468-526 | No position of the text belongs to two parameters |
| ParameterExtraction.ClaimedText | src/cache/semantic_cache.rs:492-521 | A claim is a match of its type; its value is the text of the span, for a text parameter without the quotes; lists claim nothing |
| ParameterExtraction.MatchedValue | src/cache/semantic_cache.rs:490-526 | The first pass binds each name to the value of the last parameter of that name with a claim |
| ParameterExtraction.ExtractedValue | src/cache/semantic_cache.rs:490-556 | What each name is bound to, for any schema: the new words if some text parameter of the name is left over and there are any, else the text of the span of the last claim for the name, else nothing |
| ParameterExtraction.SplitIff | src/cache/semantic_cache.rs:532-537 | The words of a text are exactly the nonempty runs without Unicode white space that make it up, with white space between |
| ParameterExtraction.JoinedWordsAreRead | src/cache/semantic_cache.rs:547 | Words joined by a space are read back |
| ParameterExtraction.NewWordsAre | src/cache/semantic_cache.rs:532-539 | A word is new, as often as it occurs, unless the original task has it and it does not begin with a brace |
| ParameterExtraction.NewWordsOfConcat | src/cache/semantic_cache.rs:536-539 | New words keep their order |
| SemanticCache.SemanticCache.StoreEntry | src/cache/semantic_cache.rs:253-297 | A fresh row with zero counters, threshold 0.95 and the encoded embedding, and its log row |
| SemanticCache.SemanticCache.FindBest | src/cache/semantic_cache.rs:184-221 | The scan returns the best row and its similarity |
| SemanticCache.SemanticCache.LookupEntry | src/cache/semantic_cache.rs:171-250 | A hit is counted, stamped, logged and answered with the extracted parameters; a miss changes nothing; in a reachable table it hits iff the dot product with some enabled row is positive and reaches the threshold's share of the norms |
| SemanticCache.SemanticCache.LogEvent | src/cache/semantic_cache.rs:384-397 | An event is logged unless foreign keys are enforced and the entry is unknown |
| SemanticCache.SemanticCache.Record | src/cache/semantic_cache.rs:300-344 | Counts and logs the outcome, disables an unreliable entry after a failure, and reports an unknown id |
| SemanticCache.SemanticCache.InvalidateEntry | src/cache/semantic_cache.rs:347-353 | Disables the entry and logs it |
| SemanticCache.StoredThresholdRange | src/cache/semantic_cache.rs:96-106 | A stored entry accepts from 0.92, 0.95 or 0.98 on |
| SemanticCache.StoredThresholdIs | src/cache/semantic_cache.rs:87-106 | The threshold of a stored entry, told in whole numbers of hits, successes and outcomes |
| SemanticCache.AdaptationDirection | src/cache/semantic_cache.rs:95-106 | Success relaxes and failure tightens exactly for base thresholds within the clamps |
| SemanticCache.BestIsFirstMaximum | src/cache/semantic_cache.rs:210-221 | The scan finds the first enabled row of maximal similarity among those above their own threshold, and misses iff there is none |
| SemanticCache.QualifiesIff | src/cache/semantic_cache.rs:210-215 | A stored row may answer iff it is enabled and the dot product with the query is positive and reaches the threshold's share of the norms |
| SemanticCache.LookupFindsNear | src/cache/semantic_cache.rs:171-250 | A lookup hits iff some row may answer in this sense, and what it finds may |
| SemanticCache.LookupTouchesOneRow | src/cache/semantic_cache.rs:223-249 | A hit counts and stamps the row that answers and nothing else; a miss touches nothing |
| SemanticCache.UnreliableIs | src/cache/semantic_cache.rs:322-329 | Unreliable iff three outcomes and fewer than three successes for two failures |
| SemanticCache.StepKeepsGood | src/cache/semantic_cache.rs:170-353 | Every operation keeps counters and log in agreement and enabled entries reliable |
| SemanticCache.RunsStayGood | src/cache/semantic_cache.rs:226-353 | So does every run |
| SemanticCache.DisabledStaysDisabled | src/cache/semantic_cache.rs:330-350 | No run removes, moves, rewrites or re-enables a row |
| SemanticCache.DisabledIsNeverReturned | src/cache/semantic_cache.rs:176-221 | A disabled entry is never returned again |
| SemanticCache.OwnEmbeddingHits | src/cache/semantic_cache.rs:171-250 | The nonzero embedding of an enabled entry is a hit with similarity exactly 1 |
| SemanticCache.StoredEntryIsFound | src/cache/semantic_cache.rs:171-297 | After any run since it was stored, an entry holds everything it was given, and if still in use it makes its embedding hit with similarity 1 |
| Scheduler.Scheduler.Schedule | src/chain/scheduler.rs:160-213 | Adds an enabled job that never ran, or refuses it for its interval, cron expression, the job cap or a used id, changing nothing |
| Scheduler.Scheduler.DueJobs | src/chain/scheduler.rs:216-248 | Exactly the due jobs, in table order |
| Scheduler.Scheduler.RecordRun | src/chain/scheduler.rs:251-303 | Updates the job and its history together; an unknown job changes nothing |
| Scheduler.Scheduler.Disable | src/chain/scheduler.rs:306-314 | Only the flag of the job changes |
| Scheduler.Scheduler.Enable | src/chain/scheduler.rs:317-325 | Only the flag of the job changes, whatever the number of active jobs |
| Scheduler.JobIdsAreInjective | src/chain/scheduler.rs:201 | Ids of different chains or times differ, even with underscores in chain ids |
| Scheduler.IntervalFits | src/chain/scheduler.rs:55-58 | The product in milliseconds is exact iff it fits an `i64`; 2^61 seconds wrap to no wait at all |
| Scheduler.NeverEarlyIffIntervalFits | src/chain/scheduler.rs:40-60 | Never due before its interval has passed iff the interval fits |
| Scheduler.IntervalJobDueIff | src/chain/scheduler.rs:40-60 | An interval job is due iff it is enabled and never ran or its interval has passed, for intervals that fit |
| Scheduler.CronJobDueIff | src/chain/scheduler.rs:40-50 | A cron job is due iff it is enabled and the cron engine says so |
| Scheduler.WrapIsUnique | src/chain/scheduler.rs:57 | The wrapped product is the only `i64` that differs from the product by a multiple of 2^64 |
| Scheduler.ActiveCountIs | src/chain/scheduler.rs:185-192 | The active count is the number of enabled rows |
| Scheduler.AcceptedIff | src/chain/scheduler.rs:166-210 | A schedule is accepted iff it has thirty seconds or more or a valid expression, fewer than a hundred jobs are enabled, and the id is unused |
| Scheduler.OnlyTheFlagChanges | src/chain/scheduler.rs:306-325 | Enabling and disabling change the flag of the job and nothing else |
| Heartbeat.Tick | src/chain/heartbeat.rs:62-75 | One tick records exactly the jobs due at its start, one after the other, and reports the results of these recordings |
| Heartbeat.RecordDue | src/chain/heartbeat.rs:63-74 | The loop over the due jobs |
| Heartbeat.TickReportsDueJobs | src/chain/heartbeat.rs:69-73 | The callback is told every due job once, in table order, with its output, change mark and run number |
| Heartbeat.OutputNamesTheChain | src/chain/heartbeat.rs:65-68 | The recorded output names the chain and then its parameters |
| Heartbeat.TickRunsDueJobsOnce | src/chain/heartbeat.rs:62-75 | One tick adds exactly one run to the history of every due job and none to any other |
| Heartbeat.RunsStayGood | src/chain/scheduler.rs:160-325 | In every run, run count, last output, last time and change marks of a job agree with its history, and interval jobs have at least thirty seconds |
| Heartbeat.ActiveJobsAreCapped | src/chain/scheduler.rs:184-325 | In every run at most 100 jobs are active, plus one for each `enable` |
| Heartbeat.HeartbeatSpacesRuns | src/chain/heartbeat.rs:57-75 | Under a clock that never goes back, recorded runs of interval jobs stay at least the interval apart |
| Heartbeat.WindowRoom | src/chain/heartbeat.rs:57-75 | All but one of the runs in a window take a full interval each |
| Heartbeat.HeartbeatRateIsBounded | src/chain/heartbeat.rs:57-75 | From the empty table on, a window of W ms holds at most W / (1000 * interval) + 1 runs of an interval job |
| Heartbeat.IntervalIsKeptIff | src/chain/scheduler.rs:55-58 | The heartbeat keeps an interval in all runs iff it fits an `i64` in milliseconds |
| Triggers.TriggerEngine.RegisterAgent | src/agent_os/triggers.rs:41-74 | All three structures after a registration |
| Triggers.TriggerEngine.IndexWebhooks | src/agent_os/triggers.rs:50-66 | Routes are added in order, a later one replacing an earlier one on its path |
| Triggers.TriggerEngine.IndexChannels | src/agent_os/triggers.rs:67-71 | The agent's channel triggers are appended to the flat list |
| Triggers.TriggerEngine.UnregisterAgent | src/agent_os/triggers.rs:77-81 | All three structures after an unregistration |
| Triggers.TriggerEngine.ResolveWebhook | src/agent_os/triggers.rs:110-112 | In a consistent engine the route found on a path has a registered owner with a webhook trigger on that path and with that content |
| Triggers.PathLeadsToLastRegistration | src/agent_os/triggers.rs:41-112 | In every run a path resolves iff some registration covers it that no later one took over and whose agent was not unregistered since; it resolves to the last webhook on the path of that registration |
| Triggers.RouteAfterRun | src/agent_os/triggers.rs:41-81 | The same from any engine, whose own routes last until taken over or until their owner goes |
| Triggers.AddedRouteIsLast | src/agent_os/triggers.rs:50-64 | Within a registration the last webhook on a path wins |
| Triggers.TriggerEngine.MatchChannelMessage | src/agent_os/triggers.rs:126-197 | The matching triggers of the flat list, in order, with resolved parameters |
| Triggers.TriggerEngine.MatchEvent | src/agent_os/triggers.rs:200-220 | Exactly the matching event triggers of all agents, agent by agent in some order |
| Triggers.AddedRoutes | src/agent_os/triggers.rs:50-66 | Which routes exist after a registration, and to whom they belong |
| Triggers.DefsAreTriggers | src/agent_os/triggers.rs:42-71 | The definitions of an agent are exactly its four kinds of triggers |
| Triggers.RegisterConsistentIff | src/agent_os/triggers.rs:41-74 | Registration keeps the indexes consistent iff nothing stale is left of the agent |
| Triggers.RegisterKeepsConsistent | src/agent_os/triggers.rs:41-74 | It always does for an agent that is not registered |
| Triggers.UnregisterRemovesAgent | src/agent_os/triggers.rs:77-81 | No structure mentions the agent any more, nothing of other agents changes, consistency is kept |
| Triggers.DisciplinedRunsStayConsistent | src/agent_os/triggers.rs:41-81 | Consistency holds in every run that unregisters before registering again |
| Triggers.UnregisterUndoesRegisterIff | src/agent_os/triggers.rs:41-81 | Unregistering restores everything iff the registration took over no route |
| Triggers.InEventsInOrder | src/agent_os/triggers.rs:206-217 | An event trigger is reported iff its agent has it and it matches, whatever the order |
| Triggers.FlatScanAgreesWithTriggers | src/agent_os/triggers.rs:126-197 | For each agent the flat scan reports what a scan of its own triggers reports, in the same order |
| Triggers.FlatScanIsMapScan | src/agent_os/triggers.rs:126-197 | The flat scan is a permutation of a scan of the trigger map in any order |
| Triggers.ParamIsSubstitutedIff | src/agent_os/triggers.rs:185-193 | A parameter becomes the simultaneous substitution of the four names for all messages iff it uses none of the three names that are replaced before the last |
| Triggers.EarlyNameIsReadAgain | src/agent_os/triggers.rs:185-193 | For each other parameter one and the same message is substituted twice |
| Triggers.MessageIsReadAgain | src/agent_os/triggers.rs:185-193 | A message text `{{sender}}` becomes the sender |
| Triggers.DomainMatchesIff | src/agent_os/triggers.rs:144-157 | A sender matches a domain iff it is the domain or ends with it after a dot or an at sign |
| Triggers.MatchesIffNothingFails | src/agent_os/triggers.rs:135-183 | A trigger matches iff the message fails none of its six filters |
| Triggers.InMatches | src/agent_os/triggers.rs:134-196 | A match is reported iff some matching trigger of the list produces it, with its agent, workflow and resolved parameters |
| Triggers.EventMatchesIff | src/agent_os/triggers.rs:208-213 | An event matches iff the types agree up to ASCII case and every filter entry is among its properties |
| Triggers.RoutePathIs | src/agent_os/triggers.rs:51-55 | Absolute paths are routes of their own, others lie below the agent |
| Triggers.RelativePathsAreSeparate | src/agent_os/triggers.rs:51-55 | Relative paths of agents without a slash in their ids never collide |
| TrainingQueue.SourceRoundTrip | src/cache/training_queue.rs:27-35 | The text of a source reads back as that source |
| TrainingQueue.SourceTexts | src/cache/training_queue.rs:127-131 | Which texts read as which source |
| TrainingQueue.TrainingQueue.Enqueue | src/cache/training_queue.rs:65-74 | One unexported row with the next id is appended |
| TrainingQueue.TrainingQueue.EnqueueRephrasings | src/cache/training_queue.rs:77-92 | The original query first, then every rephrasing, each with its own clock reading |
| TrainingQueue.TrainingQueue.PendingCount | src/cache/training_queue.rs:95-105 | The number of examples the next export returns |
| TrainingQueue.TrainingQueue.ExportBatch | src/cache/training_queue.rs:109-152 | Returns the pending examples in id order and marks the rows up to the last of them |
| TrainingQueue.ExportStep | src/cache/training_queue.rs:109-152 | Nothing is pending after an export |
| TrainingQueue.ExportedExactlyOnce | src/cache/training_queue.rs:65-152 | In every run, all exports followed by what is pending equal what was pending followed by what was enqueued |
| TrainingQueue.ExportsAreAPrefix | src/cache/training_queue.rs:65-152 | From the empty queue on, the exports are a prefix of everything enqueued, and a second export in a row is empty |

## Left out

- SQLite failures, YAML and JSON serialisation, mutexes, async tasks, logging, timings and the contents of receipts.
- Parsing of breaker rules, durations and intervals: it would only add string slicing. Rules are modelled as parsed.
- Cron expressions: the cron crate is an arbitrary predicate, so nothing is claimed about when cron jobs are due.
- Regular expressions, JSON text extraction, number parsing: arbitrary functions of the environment.
- Floating point rounding and NaN in the detector, the cache and the trust rates: exact reals, `sqrt` by its defining equation, and thresholds like 0.92 are exact there.
- Wrap-around of counters, ids and byte sizes: unbounded, except for the interval product.
- UTF-8 byte offsets: positions are character positions, and ASCII-only comparisons are modelled as such.
- Listing, statistics and count queries of all components, and the names, descriptions and reason texts that decide nothing.
- `src/chain/workflow.rs`, the demo definitions, command line, channels and browser control are not part of this model.
- Template.ResolvesToSubstitutionIffFlat: names with braces are outside the statement; the runtime does not promise anything for them.
- ChainExecutor.ChainExecutor.Run: the rules and the history seen by one run are fixed after its own execution was recorded; other threads recording meanwhile are not modelled.
- CircuitBreaker.BreakerRegistry.Evaluate: one clock reading for all rules of an evaluation, where the code reads the clock once per frequency rule.
- SemanticCache.SemanticCache.StoreEntry: the random id is a parameter that must be unused.
- SemanticCache.RunsStayGood: for runs in which stored ids are unused, and log rows without time and details.
- Triggers.ParamIsSubstituted: a sufficient condition on one message only; the boundary over all messages is Triggers.ParamIsSubstitutedIff.
- Heartbeat.HeartbeatRateIsBounded: for intervals whose product in milliseconds fits an `i64`; Heartbeat.IntervalIsKeptIff shows that the spacing fails for all others.
- Scheduler.Scheduler.DueJobs: the query has no order clause; rows come in table order.
