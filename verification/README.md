# SynapticBridge: a verified model of its core logic

SynapticBridge dispatches tool calls of AI agents. This Dafny project models the parts of it whose
correctness is not visible from one function body, and proves what they promise for all inputs and
all runs. `dafny verify dfyconfig.toml` checks everything.

| file | what it models |
|---|---|
| `Graphs.dfy`, `DagOrchestrator.dfy` | the workflow orchestrator: the depth-first cycle check and the wave-by-wave scheduler |
| `ChainPlanner.dfy` | the multi-hop planner: all maximal tool chains from every head, then one per multiset of tools |
| `CircuitBreaker.dfy` | the breaker, the connector protocol around it, and traces with many calls in flight |
| `RateLimiter.dfy` | the sliding-window limiter over runs of requests and resets |
| `Vectors.dfy`, `DriftDetector.dfy` | z-scores, baselines and anomaly lists over bounded windows |
| `Correction.dfy` | correction patterns, their scores, and the in-memory store that learns them |
| `IntentClassifier.dfy` | hashed term-frequency embeddings and the search for the best tool |
| `ExecuteTool.dfy` | the execute-tool command: gate, learned redirect, run, audit, with failing ports |
| `OpaEngine.dfy`, `OpaText.dfy` | the policy text scanner and evaluator, and rule lists rendered as text |
| `OpaScan.dfy` | what the engine's searches find in any text, a policy or not |
| `OpaIntent.dfy` | when a policy does what its author intended, and policies in the repository's own spelling |
| `Dictionaries.dfy`, `Wrappers.dfy` | dictionary key order and optional values |

Code that changes state is written as methods and classes and tied to specification functions; the
laws are lemmas about those functions. Numbers are exact reals. A square root is a number `s >= 0`
with `s * s == x`: sample deviations come in as arguments, vector norms as a function. The
exponential decay is any function of age into [0, 1] that is 1 at age zero, the token hash and the builtin policy functions are any
functions, and the clock is an argument that does not run backwards where a law needs it.

## What the code does not do as promised

Each of these is proved with the exact condition under which the promise holds, most with a run or an
input on which it fails.

- The planner never checks the head of a chain against its own dependencies, and de-duplication
  keeps the chain of the first head. The plan is correctly ordered exactly when the first available
  tool needs nothing, every needed tool is available and no tools need each other in a circle
  (`PlanIsOrderedIff`). If only the first condition fails, an ordered chain of all tools is found and
  dropped (`OrderedChainIsDropped`), as for `filesystem.write` listed before `filesystem.read`
  (`WritePrecedesItsRead`); `bash.execute` with `filesystem.write` alone fails the second
  (`MissingReadSpoilsPlan`). `DefaultPlanIsOrderedIff` gives the condition for the built-in table.
- `Retry-After` is truncated: a client that waits exactly that long is admitted only if the exact
  wait was a whole number of seconds (`RetryHeaderIsEarly`; 59 instead of 59.75 seconds in
  `TruncatedWaitIsDenied`).
- `X-RateLimit-Remaining` is one too high on an admitted request (`RemainingCountsThisRequest`,
  `OneRemainsIsNone`).
- `force_open` does not hold: an attempt is rejected exactly when the latest failure is younger than
  the timeout (`ForceOpenHoldsIff`), so on a new breaker the first attempt goes through
  (`ForceOpenIsLost`).
- Successes of calls admitted before HALF_OPEN help to close the breaker. They can replace new calls
  exactly when some are in flight on entry and one success is not enough (`OldCallsCanHelpIff`,
  `OldCallHelps`).
- `time_until_retry` can be too short: a caller that waits that long is let through exactly when no call
  in flight failed meanwhile, with a later time than the known failure (`RetryTimeHoldsIff`,
  `RetryTimeIsOutrun`).
- Two tokens in one embedding slot overwrite each other; the total stays 1 exactly when no two
  distinct tokens share a slot (`EmbeddingConserves`), which is impossible with more than 128 of them
  (`ManyTokensCollide`).
- The policy engine misreads conditions, and a deny rule of one condition does as intended exactly
  when it is not misread (`DenyIsIntendedIff`). A call to `neq` is evaluated as `eq`, because the
  search for `eq(` finds it first (`ComparisonText`). An infix comparison is looked up as a path, so
  the built-in session policy never denies an ordinary input (`SessionTimeoutText`). A checked path
  holds of `false` and not of `null` (`CheckText`). The literals `true`, `false` and `null` are taken
  for their text, so `eq(input.flag, true)` does not see the value `true` (`FlagDenyIsIntendedIff`,
  `FlagText`). Absent values equal each other, `true` equals 1 (`AbsentResultChangesIff`,
  `ClearResultChangesIff`), and a call without arguments holds, as does any bare word.
- The policy gate asks about the tool that was named. The tool that runs has the policies' approval
  exactly when no redirect leads to a tool without it (`RunIsApprovedIff`, `DeniedToolRuns`).
- An undo is meant to lower a pattern's score but also makes the pattern new. It lowers a positive
  score exactly when that decay is worth less than the penalty (`UndoLowersScoreIff`,
  `UndoRaisesOldScore`).
- A stored pattern lists only the original tool of its first save (`TableAgreesWithLog`), so the list
  is complete exactly when all its saves corrected the same tool (`OriginalsAreCompleteIff`).
- A redirect stands even when its audit write fails (`RedirectIsAuditedIff`).

## Model

| member | source | states |
|---|---|---|
| Graphs.OrderedIsSound | synaptic_bridge/application/orchestration/__init__.py:31-50 | a topological order of all steps shows that every dependency names a step and no cycle exists |
| Graphs.MinimalMember | synaptic_bridge/application/orchestration/__init__.py:56-64 | deadlock freedom: in a closed acyclic graph every nonempty set of pending steps has one that waits for none of the others |
| Graphs.WaveIsLongestWalk | synaptic_bridge/application/orchestration/__init__.py:52-77 | a step is in wave k exactly when its longest dependency path has k edges |
| Graphs.WavesAreDisjointAndOrdered | synaptic_bridge/application/orchestration/__init__.py:57-61 | no step belongs to two waves, and everything a wave needs is finished before it |
| Graphs.NextWaveNonempty | synaptic_bridge/application/orchestration/__init__.py:63-64 | on an accepted graph some step is ready until all are finished |
| Graphs.StuckMeansRefused | synaptic_bridge/application/orchestration/__init__.py:63-64 | an empty wave with steps pending happens only on a graph the constructor refuses |
| Graphs.AllDoneIsSound | synaptic_bridge/application/orchestration/__init__.py:52-77 | if the waves finish all steps, the graph is closed and acyclic |
| Graphs.WavesRunEachOnce | synaptic_bridge/application/orchestration/__init__.py:66-75 | the launched waves hold every finished step exactly once |
| Graphs.WaveCountIsCriticalPath | synaptic_bridge/application/orchestration/__init__.py:56-77 | the number of waves is the number of steps on a longest dependency path |
| DagOrchestrator.CycleCheck.Visit | synaptic_bridge/application/orchestration/__init__.py:35-47 | a normal return finishes the name and restores the path; a circular error comes with a real cycle, a missing step with a name outside the graph |
| DagOrchestrator.CycleCheck.Leave | synaptic_bridge/application/orchestration/__init__.py:44-47 | names end their visit after all their dependencies, so the finishing order stays topological |
| DagOrchestrator.StepsInOrder | synaptic_bridge/application/orchestration/__init__.py:28-50 | the order in which the check takes the steps lists every step name once |
| Dictionaries.KeysAreInInsertionOrder | synaptic_bridge/infrastructure/adapters/__init__.py:171-174 | keys are iterated in the order of their first insertion, and writing one again does not move it |
| DagOrchestrator.DagOrchestrator.StepsAreLastNamed | synaptic_bridge/application/orchestration/__init__.py:27-29 | a name is a step if and only if it is listed, and it is the last step listed under it |
| DagOrchestrator.DagOrchestrator.EdgesAreListed | synaptic_bridge/application/orchestration/__init__.py:27-50 | one name depends on another in the checked graph if and only if the last step listed under it does |
| DagOrchestrator.DagOrchestrator.ValidateNoCycles | synaptic_bridge/application/orchestration/__init__.py:31-50 | the check accepts if and only if every dependency names a step and there is no cycle, and otherwise names a step on a cycle or a missing one |
| DagOrchestrator.DagOrchestrator.Ready | synaptic_bridge/application/orchestration/__init__.py:57-61 | whatever order the pending set is iterated in, the ready list is exactly the next wave |
| DagOrchestrator.DagOrchestrator.Collect | synaptic_bridge/application/orchestration/__init__.py:71-75 | all results are recorded under their names, or a failure is reported and everything before it in the ready list returned |
| DagOrchestrator.DagOrchestrator.RunWave | synaptic_bridge/application/orchestration/__init__.py:66-75 | one wave advances the results to the next ledger or fails with the first of its steps that raised |
| DagOrchestrator.DagOrchestrator.Execute | synaptic_bridge/application/orchestration/__init__.py:52-77 | waves as above; after a failing wave no later one starts; a completed run ran each step once, took critical-path many waves, and its results do not depend on iteration order and are what the steps returned on those of their dependencies; the circular error occurs only on graphs the constructor refuses |
| DagOrchestrator.DagOrchestrator.LedgerIsComputed | synaptic_bridge/application/orchestration/__init__.py:66-75 | every recorded result is what its step returned, launched in its wave on the recorded results of all its dependencies |
| ChainPlanner.PlanFromIsExact | synaptic_bridge/application/orchestration/__init__.py:248-263 | the search lists exactly the chains that use each position at most once, place each added tool after its dependencies and cannot be continued |
| ChainPlanner.Confluence | synaptic_bridge/application/orchestration/__init__.py:248-273 | all maximal chains from one head hold the same multiset of tools |
| ChainPlanner.OneChainPerHead | synaptic_bridge/application/orchestration/__init__.py:238-246 | after de-duplication no two chains share a head |
| ChainPlanner.PlanIsComplete | synaptic_bridge/application/orchestration/__init__.py:222-246 | for acyclic dependencies within a nonempty list exactly one chain is returned, a permutation of the list |
| ChainPlanner.HeadReachesAllIff | synaptic_bridge/application/orchestration/__init__.py:232-263 | a head's chain holds all tools if and only if some order led by it respects the other dependencies |
| ChainPlanner.OrderedIffHeadIsFree | synaptic_bridge/application/orchestration/__init__.py:232-236 | a chain respects all dependencies if and only if its head has none |
| ChainPlanner.PlanIsOrderedIffFirstIsFree | synaptic_bridge/application/orchestration/__init__.py:232-246 | on closed acyclic dependencies the single chain is ordered if and only if the first available tool has no dependencies |
| ChainPlanner.PlanIsOrderedIff | synaptic_bridge/application/orchestration/__init__.py:222-263 | for every nonempty list and dependency table all returned chains are ordered if and only if the first tool has no dependencies, every dependency is available and there is no cycle |
| ChainPlanner.MissingReadSpoilsPlan | synaptic_bridge/application/orchestration/__init__.py:199-209 | an instance of a list whose first tool is free and whose plan is still not ordered, because a read is missing |
| ChainPlanner.OrderedChainIsDropped | synaptic_bridge/application/orchestration/__init__.py:238-246 | on closed acyclic dependencies whose first available tool needs another, some head finds an ordered chain of all tools, and the plan is one chain that is not ordered |
| ChainPlanner.WritePrecedesItsRead | synaptic_bridge/application/orchestration/__init__.py:199-209 | an instance: the built-in table plans writing a file before reading it |
| ChainPlanner.DefaultPlanIsOrderedIff | synaptic_bridge/application/orchestration/__init__.py:199-246 | with the built-in table the plan is ordered if and only if the first tool needs nothing and what the four needy tools need is available |
| ChainPlanner.FirstChainIsGreedy | synaptic_bridge/application/orchestration/__init__.py:222-263 | the first chain starts with the first available tool and then always takes the first position of the list that is free and whose dependencies are met, until there is none |
| ChainPlanner.MultiHopChainPlanner.AddDependency | synaptic_bridge/application/orchestration/__init__.py:211-216 | the dependency is appended once and no other tool's list changes |
| ChainPlanner.MultiHopChainPlanner.PlanWithTool | synaptic_bridge/application/orchestration/__init__.py:248-263 | the recursive search with its list-building loop computes the specified chains and terminates |
| ChainPlanner.MultiHopChainPlanner.AllHeads | synaptic_bridge/application/orchestration/__init__.py:232-236 | the chains found from the heads in their order, which are exactly the maximal chains of every head |
| ChainPlanner.MultiHopChainPlanner.KeepFirst | synaptic_bridge/application/orchestration/__init__.py:238-246 | the chains kept are, in order, the first of each multiset, and every multiset is represented |
| ChainPlanner.MultiHopChainPlanner.Plan | synaptic_bridge/application/orchestration/__init__.py:222-246 | the result is a set of maximal chains with different multisets that represents every head, each the first found of its multiset |
| CircuitBreaker.CircuitBreaker.Transition | synaptic_bridge/infrastructure/services/circuit_breaker.py:122-131 | counters are cleared on a real change of state only |
| CircuitBreaker.CircuitBreaker.Success | synaptic_bridge/infrastructure/services/circuit_breaker.py:87-95 | the state after a recorded success |
| CircuitBreaker.CircuitBreaker.Failure | synaptic_bridge/infrastructure/services/circuit_breaker.py:97-107 | the state after a recorded failure |
| CircuitBreaker.CircuitBreaker.Check | synaptic_bridge/infrastructure/services/circuit_breaker.py:109-120 | the state after the check for recovery time |
| CircuitBreaker.CircuitBreaker.RetryIn | synaptic_bridge/infrastructure/services/circuit_breaker.py:133-139 | the computed wait is the specified one |
| CircuitBreaker.CircuitBreaker.Clear | synaptic_bridge/infrastructure/services/circuit_breaker.py:213-219 | reset restores the initial state |
| CircuitBreaker.Send | synaptic_bridge/infrastructure/adapters/siem_connectors.py:66-95 | a send is rejected with the remaining wait exactly while the checked breaker is open; otherwise the outcome is recorded once and returned or raised |
| CircuitBreaker.CountersAreExplained | synaptic_bridge/infrastructure/services/circuit_breaker.py:87-131 | in every reachable state failure_count is the failures since the last CLOSED success, entry to CLOSED or reset, and in CLOSED it is below its threshold; success_count is the successes since HALF_OPEN was entered, below its threshold, and zero elsewhere |
| CircuitBreaker.TripsIffStreakIsFull | synaptic_bridge/infrastructure/services/circuit_breaker.py:97-107 | a failure in CLOSED opens the breaker if and only if it completes a streak of failure_threshold failures |
| CircuitBreaker.ClosedIsLeftOnlyByTripping | synaptic_bridge/infrastructure/services/circuit_breaker.py:97-131 | CLOSED is left only through a full failure streak or force_open |
| CircuitBreaker.ClosedLetsThrough | synaptic_bridge/infrastructure/services/circuit_breaker.py:87-120 | CLOSED admits every attempt, and a success there ends the failure streak |
| CircuitBreaker.HalfOpenDecides | synaptic_bridge/infrastructure/services/circuit_breaker.py:87-120 | in HALF_OPEN a failure opens the breaker, a success closes it if and only if it completes success_threshold, and every attempt is admitted |
| CircuitBreaker.ForcedToClose | synaptic_bridge/infrastructure/services/circuit_breaker.py:208-219 | force_close and reset lead to CLOSED from any state without losing a call in flight, with a new failure streak unless the breaker was CLOSED when forced; reset forgets the latest failure, force_close does not |
| CircuitBreaker.ClosingIsRecovery | synaptic_bridge/infrastructure/services/circuit_breaker.py:87-95 | without force_close or reset CLOSED is entered only after success_threshold successes and no failure in HALF_OPEN |
| CircuitBreaker.RecoveryProtocol | synaptic_bridge/infrastructure/services/circuit_breaker.py:87-131 | over all interleavings, from OPEN to CLOSED the breaker went through such a HALF_OPEN phase, entered in between by an attempt |
| CircuitBreaker.CallsAreConserved | synaptic_bridge/infrastructure/adapters/siem_connectors.py:66-95 | over any stretch of a trace, calls in flight plus recorded ends equal earlier calls plus admissions |
| CircuitBreaker.RecoveryMayUseOldCalls | synaptic_bridge/infrastructure/services/circuit_breaker.py:90-93 | the successes that close the breaker are covered by admissions since HALF_OPEN plus calls already in flight |
| CircuitBreaker.OldCallsCanHelpIff | synaptic_bridge/infrastructure/services/circuit_breaker.py:87-120 | from an entry to HALF_OPEN some run closes the breaker with fewer admissions than success_threshold if and only if that is at least two and an older call is in flight |
| CircuitBreaker.OldCallHelps | synaptic_bridge/infrastructure/services/circuit_breaker.py:87-120 | a run in which one admission closes a breaker that asks for two successes |
| CircuitBreaker.LastFailureIsLatest | synaptic_bridge/infrastructure/services/circuit_breaker.py:100-101 | the stored time is that of the latest recorded failure since the last reset |
| CircuitBreaker.FailsFastIff | synaptic_bridge/infrastructure/services/circuit_breaker.py:109-120 | an OPEN breaker rejects an attempt if and only if the latest failure is younger than the timeout |
| CircuitBreaker.OpenHasFailed | synaptic_bridge/infrastructure/services/circuit_breaker.py:97-120 | without force_open an OPEN breaker always has a failure to wait for |
| CircuitBreaker.ForceOpenHoldsIff | synaptic_bridge/infrastructure/services/circuit_breaker.py:203-206 | after force_open, whatever calls end and attempts are rejected in between, an attempt is rejected if and only if the latest failure is younger than the timeout |
| CircuitBreaker.ForceOpenIsLost | synaptic_bridge/infrastructure/services/circuit_breaker.py:203-206 | a run: on a new breaker the first attempt after force_open is let through |
| CircuitBreaker.WaitsIffRejected | synaptic_bridge/infrastructure/services/circuit_breaker.py:109-139 | the reported wait is positive if and only if an attempt now would be rejected |
| CircuitBreaker.RetryTimeIsExact | synaptic_bridge/infrastructure/services/circuit_breaker.py:133-139 | an OPEN breaker moves on after a wait if and only if the wait is at least time_until_retry |
| CircuitBreaker.RetryTimeHoldsIff | synaptic_bridge/infrastructure/services/circuit_breaker.py:97-139 | over all interleavings that keep the breaker open, an attempt after exactly the reported wait is let through if and only if no failure recorded meanwhile replaced the latest one |
| CircuitBreaker.RetryTimeIsOutrun | synaptic_bridge/infrastructure/services/circuit_breaker.py:97-139 | a run: 50 seconds are reported at 10, a call fails at 20, and the attempt at 60 is rejected |
| RateLimiter.SlidingWindowRateLimiter.IsAllowed | synaptic_bridge/infrastructure/services/rate_limiter.py:33-73 | decision, headers and new table of one request |
| RateLimiter.SlidingWindowRateLimiter.ResetKey | synaptic_bridge/infrastructure/services/rate_limiter.py:75-78 | one key is forgotten |
| RateLimiter.SlidingWindowRateLimiter.ResetEverything | synaptic_bridge/infrastructure/services/rate_limiter.py:80-83 | all keys are forgotten |
| RateLimiter.MinIsLeast | synaptic_bridge/infrastructure/services/rate_limiter.py:52-62 | the oldest counted time is a counted time and no later than any other |
| RateLimiter.TableAgreesWithLog | synaptic_bridge/infrastructure/services/rate_limiter.py:41-46 | over every run with a monotone clock pruning loses nothing that a later window can count |
| RateLimiter.DeniedIffWindowFull | synaptic_bridge/infrastructure/services/rate_limiter.py:41-59 | a request is denied if and only if the unpruned admission log has N entries in the window ending now |
| RateLimiter.NeverMoreThanN | synaptic_bridge/infrastructure/services/rate_limiter.py:33-73 | no interval (t - W, t] holds more than N admissions of a key since its last reset |
| RateLimiter.KeysAreIndependent | synaptic_bridge/infrastructure/services/rate_limiter.py:44-46 | the verdict on a key is the one it would get without the other keys' requests |
| RateLimiter.TruncatesTowardZero | synaptic_bridge/infrastructure/services/rate_limiter.py:53-71 | int() drops the fraction towards zero |
| RateLimiter.ResetIsFirstRelief | synaptic_bridge/infrastructure/services/rate_limiter.py:48-73 | X-RateLimit-Reset is the whole part of the first moment at which, without further admissions, fewer requests are counted than right after this one |
| RateLimiter.RetryAfterIsInRange | synaptic_bridge/infrastructure/services/rate_limiter.py:51-59 | the exact wait lies in (0, W] and the header is its whole part |
| RateLimiter.AllowedIffFree | synaptic_bridge/infrastructure/services/rate_limiter.py:51-59 | with no admission in between, a later attempt is admitted if and only if it is at oldest + W or later |
| RateLimiter.NothingBeforeFree | synaptic_bridge/infrastructure/services/rate_limiter.py:44-59 | after a denial, absent resets, every attempt on the key before oldest + W is denied |
| RateLimiter.RetryHeaderIsEarly | synaptic_bridge/infrastructure/services/rate_limiter.py:53-58 | waiting exactly Retry-After seconds suffices if and only if the exact wait was whole |
| RateLimiter.TruncatedWaitIsDenied | synaptic_bridge/infrastructure/services/rate_limiter.py:53-58 | a run: 59.75 seconds to wait are reported as 59, after which the client is denied again |
| RateLimiter.RemainingCountsThisRequest | synaptic_bridge/infrastructure/services/rate_limiter.py:48-71 | at the same instant another request is admitted if and only if the reported remaining was more than one |
| RateLimiter.OneRemainsIsNone | synaptic_bridge/infrastructure/services/rate_limiter.py:48-71 | a run: a limiter of one a minute reports one remaining on its only request |
| Vectors.CauchySchwarz | synaptic_bridge/domain/entities/correction.py:114-121 | the squared dot product is at most the product of the sums of squares, for any length |
| Vectors.DotIsBounded | synaptic_bridge/domain/entities/correction.py:114-121 | the dot product lies between minus and plus the product of the norms |
| Vectors.DotIsLinear | synaptic_bridge/domain/entities/correction.py:114 | the dot product is linear in its first argument |
| Vectors.DotWithUnit | synaptic_bridge/domain/entities/correction.py:114 | the dot product with a unit vector is the entry in its direction |
| DriftDetector.DriftDetector.CheckDrift | synaptic_bridge/infrastructure/adapters/drift_detector.py:36-85 | the behaviour is pushed into the bounded window first and the score is taken against that window |
| DriftDetector.DriftDetector.UpdateBaseline | synaptic_bridge/infrastructure/adapters/drift_detector.py:104-118 | the baseline summarises the whole window, or nothing changes |
| DriftDetector.DriftDetector.DetectAnomalies | synaptic_bridge/infrastructure/adapters/drift_detector.py:139-172 | the loop lists the specified anomalies, none without a baseline or with too few samples |
| DriftDetector.ScoreIsLargest | synaptic_bridge/infrastructure/adapters/drift_detector.py:66-85 | the score is nonnegative, at least every applicable component and equal to one of them or zero |
| DriftDetector.Samuelson | synaptic_bridge/infrastructure/adapters/drift_detector.py:50-74 | n * z^2 <= (n - 1)^2 for the value just pushed |
| DriftDetector.EveryCheckIsBounded | synaptic_bridge/infrastructure/adapters/drift_detector.py:47-74 | the bound holds for the execution-time component of every check, whatever the window held before |
| DriftDetector.SamuelsonIsSharp | synaptic_bridge/infrastructure/adapters/drift_detector.py:87-102 | one outlier among equal values attains the bound for every n |
| DriftDetector.QuietOnSmallWindows | synaptic_bridge/infrastructure/adapters/drift_detector.py:36-74 | the execution-time component is at most 2.0 while the window holds five samples or fewer |
| DriftDetector.OutlierAlarmsFromSix | synaptic_bridge/infrastructure/adapters/drift_detector.py:66-74 | from six samples on the outlier's component exceeds 2.0 |
| DriftDetector.PushedIsLast | synaptic_bridge/infrastructure/adapters/drift_detector.py:47-58 | the window never exceeds its size and ends with the pushed value |
| DriftDetector.WindowHoldsLatest | synaptic_bridge/infrastructure/adapters/drift_detector.py:47-58 | after any checks the window holds the latest of them, in order, up to its size |
| DriftDetector.StatsAreSample | synaptic_bridge/infrastructure/adapters/drift_detector.py:92-102 | the stored summary holds the number, the mean and the sample deviation of the values, zero for a single one |
| DriftDetector.ErrorRatesAddUp | synaptic_bridge/infrastructure/adapters/drift_detector.py:111-117 | the baseline's error rate times the window's size is the sum of its error rates |
| DriftDetector.OutlierCheckAlarms | synaptic_bridge/infrastructure/adapters/drift_detector.py:36-102 | after n - 1 checks with one time, a check with another scores above 2.0, for every n from six to the window's size with enough samples |
| DriftDetector.NineTensAndAThousand | synaptic_bridge/infrastructure/adapters/drift_detector.py:36-102 | an instance with the default settings: nine times of 10 and one of 1000 score 9 / sqrt(10) |
| DriftDetector.OutlierIsTheAnomaly | synaptic_bridge/infrastructure/adapters/drift_detector.py:139-172 | on a summarised window of n - 1 equal values and an outlier, with a threshold of at least 1, the anomalies are the outlier alone if (n - 1)^2 > n * threshold^2, and none otherwise |
| DriftDetector.AnomaliesAreExact | synaptic_bridge/infrastructure/adapters/drift_detector.py:152-172 | exactly the out-of-band indices are listed, in increasing order, each with its own score |
| DriftDetector.Chebyshev | synaptic_bridge/infrastructure/adapters/drift_detector.py:104-172 | on the history the baseline summarises, anomalies times threshold^2 is at most n - 1 |
| Correction.CosineIsBounded | synaptic_bridge/domain/entities/correction.py:111-121 | cosine similarity lies in [-1, 1] |
| Correction.CosineIsExact | synaptic_bridge/domain/entities/correction.py:111-121 | for nonzero vectors of equal length the similarity has the sign of the dot product, and its square times both sums of squares is the squared dot product |
| Correction.CosineIsOneIff | synaptic_bridge/domain/entities/correction.py:111-121 | the similarity is 1 if and only if one vector is a positive multiple of the other |
| Correction.OrthogonalIsNoMatch | synaptic_bridge/domain/entities/correction.py:109-126 | an instance: an intent at right angles to the pattern scores 0 |
| Correction.MatchIsBounded | synaptic_bridge/domain/entities/correction.py:109-126 | a match score lies in [-1, 1] for vectors of any length |
| Correction.MatchOfSelfIsBest | synaptic_bridge/domain/entities/correction.py:109-126 | an identical nonzero vector scores decay times penalty, and no vector scores more |
| Correction.PenaltyIsFactor | synaptic_bridge/domain/entities/correction.py:97-107 | the undo penalty lies in [0, 1] |
| Correction.ConfidenceIsBounded | synaptic_bridge/domain/entities/correction.py:128-137 | with average improvement at most 1 the confidence lies in [0, 1], between 0.7 times the match and the match, and equals a positive match exactly when saturated |
| Correction.ConfidenceIsWeighted | synaptic_bridge/domain/entities/correction.py:128-137 | the confidence is 70 percent of the match, two more for each occurrence up to ten and ten more for each unit of average improvement, cut off at zero and at one |
| Correction.HighMatchNeedsTrust | synaptic_bridge/domain/entities/correction.py:97-126 | a match of 0.7 needs a decay of 0.7, undos of at most three in ten occurrences and a nonzero vector |
| Correction.UndosSilencePattern | synaptic_bridge/domain/entities/correction.py:74-107 | undos silence a pattern if and only if they reach its occurrences |
| Correction.UndoLowersScoreIff | synaptic_bridge/domain/entities/correction.py:74-126 | with n occurrences and u undos an undo lowers the score of a similar intent if and only if u < n and n - u - 1 < decay * (n - u), and raises it if and only if u < n and n - u - 1 > decay * (n - u), or there are no occurrences and the pattern has faded |
| Correction.UndoRaisesOldScore | synaptic_bridge/domain/entities/correction.py:74-107 | an instance: with ten occurrences and half of the weight decayed the first undo raises the score |
| Correction.InMemoryCorrectionStore.SaveCorrection | synaptic_bridge/infrastructure/adapters/__init__.py:139-166 | the stored tables are those of the log extended by this save |
| Correction.InMemoryCorrectionStore.FindPatterns | synaptic_bridge/infrastructure/adapters/__init__.py:171-174 | all patterns in dictionary order |
| Correction.IncrementIsExact | synaptic_bridge/domain/entities/correction.py:62-72 | count times average grows by exactly the improvement |
| Correction.TableAgreesWithLog | synaptic_bridge/infrastructure/adapters/__init__.py:139-166 | after any saves, per corrected tool: count is the number of saves, count times average the sum of improvements, vector the latest supplied embedding or zeros, original tool that of the first save, time that of the latest save |
| Correction.OriginalsAreCompleteIff | synaptic_bridge/infrastructure/adapters/__init__.py:148-166 | a pattern names the original tool of every save of its tool if and only if these saves have one original tool |
| Correction.AverageIsBounded | synaptic_bridge/infrastructure/adapters/__init__.py:148-166 | the average improvement of every stored pattern lies in [-1, 1] |
| Correction.CountsSumToSaves | synaptic_bridge/infrastructure/adapters/__init__.py:148-166 | the counts over all patterns sum to the number of saves |
| Correction.UntaughtHasNoLength | synaptic_bridge/infrastructure/adapters/__init__.py:144-154 | a pattern has a nonzero vector only if some save of its tool supplied one |
| IntentClassifier.IntentClassifier.TextToEmbedding | synaptic_bridge/infrastructure/adapters/intent_classifier.py:53-73 | the counting loop and the in-place array compute the specified embedding |
| IntentClassifier.FillKeepsLast | synaptic_bridge/infrastructure/adapters/intent_classifier.py:66-71 | a slot holds the frequency of the last distinct token that hashes to it |
| IntentClassifier.FillConserves | synaptic_bridge/infrastructure/adapters/intent_classifier.py:66-71 | overwriting loses weight exactly when a slot is taken twice |
| IntentClassifier.CountsSumToLength | synaptic_bridge/infrastructure/adapters/intent_classifier.py:60-62 | the counts of the distinct tokens sum to the number of tokens |
| IntentClassifier.EmbeddingConserves | synaptic_bridge/infrastructure/adapters/intent_classifier.py:53-73 | entries lie in [0, 1], the total in (0, 1], and it is 1 if and only if no two distinct tokens share a slot |
| IntentClassifier.EmbeddingEntries | synaptic_bridge/infrastructure/adapters/intent_classifier.py:53-73 | the slot of a token's hash modulo 128 holds its share in the text unless a later new token has the slot, and slots of no token hold zero |
| IntentClassifier.ManyTokensCollide | synaptic_bridge/infrastructure/adapters/intent_classifier.py:66-71 | with more than 128 distinct tokens some share a slot whatever the hash, and the total is below 1 |
| IntentClassifier.CosineOfNonnegative | synaptic_bridge/infrastructure/adapters/intent_classifier.py:115-128 | similarity of nonnegative vectors lies in [0, 1] |
| IntentClassifier.IntentClassifier.AddTool | synaptic_bridge/infrastructure/adapters/intent_classifier.py:130-132 | the tool's embedding is stored and its place in the order kept |
| IntentClassifier.IntentClassifier.MatchTool | synaptic_bridge/infrastructure/adapters/intent_classifier.py:101-113 | the first tool of highest positive similarity, or unknown |
| IntentClassifier.IntentClassifier.ClassifyIntent | synaptic_bridge/infrastructure/adapters/intent_classifier.py:75-95 | confidence lies in [0, 1] and is 1.5 times the best similarity, capped |
| ExecuteTool.Environment.CheckPolicies | synaptic_bridge/application/commands/__init__.py:114-131 | the loop stops at the first gated policy that does not answer true |
| ExecuteTool.Environment.Redirect | synaptic_bridge/application/commands/__init__.py:133-187 | the learned redirect, with every failure inside swallowed |
| ExecuteTool.Environment.Execute | synaptic_bridge/application/commands/__init__.py:83-202 | outcome, audit log and tools run are those of the specified command |
| ExecuteTool.StopIsFirst | synaptic_bridge/application/commands/__init__.py:115-131 | no stop means every TOOL or SESSION policy answered true; a stop is the first that did not |
| ExecuteTool.RunsIffGatePasses | synaptic_bridge/application/commands/__init__.py:96-189 | a tool runs if and only if the gate passes, whatever the learning ports do |
| ExecuteTool.RefusalsAreExact | synaptic_bridge/application/commands/__init__.py:96-131 | unknown session, inactive session and unknown tool are each reported exactly then, in this order and without a trace; a denial is reported if and only if the first policy that does not answer true answers false and its event is written |
| ExecuteTool.ReturnedIsRecorded | synaptic_bridge/application/commands/__init__.py:189-202 | a returned command ran one tool and left one ToolCalledEvent, the last, naming it |
| ExecuteTool.DenialIsRecorded | synaptic_bridge/application/commands/__init__.py:118-131 | a denial leaves exactly one PolicyViolationEvent, of the first policy answering false, and runs nothing |
| ExecuteTool.BestIsMaximal | synaptic_bridge/application/commands/__init__.py:142-148 | the loop's best pattern is the first of the highest positive scores |
| ExecuteTool.SuggestionIff | synaptic_bridge/application/commands/__init__.py:139-185 | an interception is asked for if and only if it is that of the first leading pattern with its first tool and score, not applied in shadow mode and otherwise applied exactly if the registry knows the tool |
| ExecuteTool.InterceptionIsLogged | synaptic_bridge/application/commands/__init__.py:133-202 | in shadow mode or not, exactly the interception asked for is logged in front of the call, if its write is accepted; the tool that runs and every field of the call event are given |
| ExecuteTool.NothingIsIntercepted | synaptic_bridge/application/commands/__init__.py:133-202 | when none is asked for, the named tool runs and only the call is logged |
| ExecuteTool.ShadowModeLogs | synaptic_bridge/application/commands/__init__.py:153-164 | an instance in shadow mode: the interception and the call, in this order, and the named tool runs |
| ExecuteTool.RedirectsAreLearned | synaptic_bridge/application/commands/__init__.py:150-171 | redirects happen only outside shadow mode, to a registered tool of a maximal pattern scoring at least 0.7, and do happen when all such patterns name registered tools |
| ExecuteTool.RedirectNeedsTrust | synaptic_bridge/application/commands/__init__.py:139-171 | a pattern redirects only while its decay is at least 0.7, at most three in ten of its corrections were undone and its vector is not zero |
| ExecuteTool.RedirectWasTaught | synaptic_bridge/application/commands/__init__.py:139-171 | with the in-memory store, a redirect goes only to a tool that some saved correction names with a nonzero embedding |
| ExecuteTool.RunIsApprovedIff | synaptic_bridge/application/commands/__init__.py:107-189 | the tool that runs has the approval of every gated policy if and only if there is no redirect to a tool without it; in shadow mode it always has |
| ExecuteTool.DeniedToolRuns | synaptic_bridge/application/commands/__init__.py:107-189 | an instance: a tool that is denied when named runs by redirect |
| ExecuteTool.RedirectIsAuditedIff | synaptic_bridge/application/commands/__init__.py:165-187 | the redirect's event is logged if and only if that write succeeds, and the redirect stands either way |
| ExecuteTool.AuditIsConserved | synaptic_bridge/application/commands/__init__.py:83-202 | over any run one ToolCalledEvent per returned command, one PolicyViolationEvent per denial, one tool run per passed gate |
| OpaEngine.OPAPolicyEngine.Evaluate | synaptic_bridge/infrastructure/adapters/opa_engine.py:56-79 | disabled and ALLOW policies pass; the others are evaluated from their text |
| OpaEngine.OPAPolicyEngine.EvaluateRego | synaptic_bridge/infrastructure/adapters/opa_engine.py:81-100 | the loop over found rules decides as specified |
| OpaEngine.OPAPolicyEngine.EvaluateRule | synaptic_bridge/infrastructure/adapters/opa_engine.py:102-113 | a rule fires when all its nonempty conditions hold |
| OpaEngine.OPAPolicyEngine.EvaluateCondition | synaptic_bridge/infrastructure/adapters/opa_engine.py:115-129 | path check first, then the first builtin in table order whose name and parenthesis occur |
| OpaEngine.OPAPolicyEngine.EvaluateBuiltin | synaptic_bridge/infrastructure/adapters/opa_engine.py:143-173 | the arguments between the parentheses are split, stripped, evaluated and passed on |
| OpaEngine.OPAPolicyEngine.Nested | synaptic_bridge/infrastructure/adapters/opa_engine.py:131-141 | the loop follows the path and gives nothing where it breaks |
| OpaScan.SpacesAreListed | synaptic_bridge/infrastructure/adapters/opa_engine.py:85-106 | white space is exactly the 29 code points that Python counts as such |
| OpaScan.PackageIff | synaptic_bridge/infrastructure/adapters/opa_engine.py:85-87 | for every text, a package line is found if and only if somewhere the word package is followed by white space and then by something else |
| OpaScan.UnpackagedIsAllowed | synaptic_bridge/infrastructure/adapters/opa_engine.py:85-87 | a text without one allows everything, whatever rules it holds |
| OpaScan.NoPackageText | tests/infrastructure/test_engines.py:249-258 | an instance: the text of the test |
| OpaScan.RuleAtIff | synaptic_bridge/infrastructure/adapters/opa_engine.py:89-91 | for every text, a rule starts at its front if and only if it splits into keyword, white space and a nonempty body between braces |
| OpaScan.ScanIsLeftmost | synaptic_bridge/infrastructure/adapters/opa_engine.py:89-91 | the scan takes the leftmost rule and goes on behind it, and finds nothing if and only if no rule starts anywhere |
| OpaScan.CallsAreDispatched | synaptic_bridge/infrastructure/adapters/opa_engine.py:28-42 | a call to each of the thirteen builtins is dispatched to that one, except neq, which goes to eq |
| OpaScan.ArgumentsIff | synaptic_bridge/infrastructure/adapters/opa_engine.py:147-151 | for every text, the arguments found are those of the first call of that name with some text before its closing parenthesis |
| OpaScan.BracketedIsLookup | synaptic_bridge/infrastructure/adapters/opa_engine.py:131-141 | keys in brackets are looked up like keys behind dots |
| OpaText.SplitJoin | synaptic_bridge/infrastructure/adapters/opa_engine.py:133 | splitting a joined path gives its keys back |
| OpaText.StripSplitJoin | synaptic_bridge/infrastructure/adapters/opa_engine.py:106 | splitting and stripping gives back the joined conditions or arguments, each with its own white space in front and behind |
| OpaText.NestedIsLookup | synaptic_bridge/infrastructure/adapters/opa_engine.py:131-141 | a rendered path finds the value the path means |
| OpaText.DispatchIsEffective | synaptic_bridge/infrastructure/adapters/opa_engine.py:123-127 | a call is dispatched to its own builtin, except neq, which goes to eq |
| OpaText.ArgumentsAreFound | synaptic_bridge/infrastructure/adapters/opa_engine.py:147-151 | the pattern search finds exactly the argument text |
| OpaText.ConditionIsMeant | synaptic_bridge/infrastructure/adapters/opa_engine.py:115-173 | a rendered condition evaluates to its meaning: words hold, paths and infix comparisons are looked up, calls apply their builtin |
| OpaText.StripFirst | synaptic_bridge/infrastructure/adapters/opa_engine.py:104-106 | stripping the whole body first changes no stripped piece |
| OpaText.BodyIsMeant | synaptic_bridge/infrastructure/adapters/opa_engine.py:102-113 | a rendered body fires exactly when all its conditions hold, whatever the layout |
| OpaText.RuleIsFound | synaptic_bridge/infrastructure/adapters/opa_engine.py:89-91 | the scan finds a rendered rule with its keyword, body and rest |
| OpaText.RulesAreMeant | synaptic_bridge/infrastructure/adapters/opa_engine.py:89-100 | scanning and evaluating rendered rules gives their meaning, whatever white space or remarks stand between them |
| OpaText.TextMeansRules | synaptic_bridge/infrastructure/adapters/opa_engine.py:81-173 | for every policy of the fragment, every layout, input and builtin table, text evaluation gives the direct meaning: false exactly when the first firing deny-or-allow rule is a deny |
| OpaIntent.NoNeqIsIntended | synaptic_bridge/infrastructure/adapters/opa_engine.py:115-173 | policies of checks of values that are absent or neither false nor null, and of calls other than neq with arguments that are there and no keywords, where eq compares with a text, mean what was intended |
| OpaIntent.InfixFindsNothing | synaptic_bridge/infrastructure/adapters/opa_engine.py:119-141 | no infix comparison holds on an input without operators in its field names |
| OpaIntent.InfixMisreadIff | synaptic_bridge/infrastructure/adapters/opa_engine.py:119-141 | there an infix comparison is misread if and only if it is true: both sides are there and are equal, differ, or satisfy the builtin of the operator |
| OpaIntent.PresentIff | synaptic_bridge/infrastructure/adapters/opa_engine.py:131-141 | a path leads to a value if and only if the path before its last key leads to a dictionary with that key |
| OpaIntent.ClearResultChangesIff | synaptic_bridge/infrastructure/adapters/opa_engine.py:155-179 | with arguments that are there and no keywords a call is answered otherwise than meant, apart from the name, if and only if eq or neq compares different values that Python holds equal |
| OpaIntent.FlagResultChangesIff | synaptic_bridge/infrastructure/adapters/opa_engine.py:155-179 | a comparison with true, false or null is answered otherwise than meant if and only if the value is that literal or its text, or for neq absent |
| OpaIntent.AbsentResultChangesIff | synaptic_bridge/infrastructure/adapters/opa_engine.py:131-141 | eq of an absent value is answered otherwise than meant if and only if the other argument is absent or null too |
| OpaIntent.UnmisreadIsIntended | synaptic_bridge/infrastructure/adapters/opa_engine.py:81-200 | with the engine's builtins and literals a policy text without a misread condition does as intended |
| OpaIntent.DenyIsIntendedIff | synaptic_bridge/infrastructure/adapters/opa_engine.py:81-200 | the text of a one-condition deny does as intended on an input if and only if the condition is not misread: no word that is not true, no check of false or null, no infix comparison that is true unless a field of its name exists, no empty call but `and()`, and no call that is a neq of two arguments or depends on how its arguments are read, but not both |
| OpaIntent.FlagDenyIsIntendedIff | synaptic_bridge/infrastructure/adapters/opa_engine.py:155-176 | a deny on eq of a path with true, false or null does as intended if and only if the value is neither that literal nor its text |
| OpaIntent.ComparisonText | tests/infrastructure/test_engines.py:55-79 | the policy text of the tests denies exactly when eq holds, and so does the same text with neq |
| OpaIntent.FlagText | synaptic_bridge/infrastructure/adapters/opa_engine.py:155-176 | the policy text that denies eq(input.flag, true) denies exactly the text "true" and allows the value true |
| OpaIntent.CheckText | tests/application/test_commands.py:418 | the policy text that checks input.network_egress denies every value but null, false included |
| OpaIntent.SessionTimeoutText | synaptic_bridge/infrastructure/adapters/opa_engine.py:258-264 | the built-in session policy denies only inputs with a field named like its comparison, and no ordinary input |

## Left out

- HTTP API, middleware, portal, command line, MCP servers, tokens, identities, secret manager, telemetry: input, output and foreign libraries.
- `duckdb_store.py`, `worm_audit.py`, `metrics.py`, `call_graph.py`, `pattern_marketplace.py`, queries and the other entities: storage and record keeping.
- Floating-point rounding and the exponential in the decay factor: exact reals and any function of age into [0, 1].
- Effects of workflow steps: a step is a function of the results of earlier waves; the context dictionary is part of that function. Python's recursion limit in the cycle check is not modelled.
- `CLEPredictiveDispatchWorkflow`: a fixed chain of four steps over the same scheduler.
- `detect_circular` and `validate_dependencies` of the planner: a duplicate test.
- The in-memory registry, policy list, audit queries and sessions: dictionaries and lists. The execute command sees them as port answers.
- DriftDetector.GetStats: min and max are left out, because no score uses them; memory use and return size are stored but never read.
- `get_drift_report` and `get_behavior_stats`: reports.
- The breaker's decorator (`__call__`): its async wrapper follows the same check, call and record steps as `send`; its sync wrapper never records. Locks are left out because no locked section waits for anything else.
- The breaker registry: a dictionary.
- CircuitBreaker.Send: one call without others in between; interleavings are the traces. `force_open` and `force_close` are transitions of the trace and of `Transition`.
- `with_undo` in the store: patterns are never undone there; its effect on a pattern is modelled.
- Pattern ids, event ids and their time stamps: fresh values nothing depends on.
- IntentClassifier.IntentClassifier.TextToEmbedding: takes tokens; lower-casing and punctuation removal are left out. `SemanticToolMatcher` and the default tool descriptions are left out.
- ExecuteTool.Perform: a scoring error inside `matches_intent` and task cancellation are not modelled; other failures of every port and of audit writes are.
- OpaText.TextMeansRules: covers words, path checks, infix comparisons and calls; arguments free of parentheses, commas, semicolons and braces, path keys free of dots and brackets, bodies of at least one character, remarks outside the bodies without opening braces. Several conditions without a semicolon between them, which the engine reads as one, are outside the fragment.
- OpaIntent.DenyIsIntendedIff: an author means a value to hold unless it is absent or false, nothing to hold of an absent value, and eq and neq to compare values; what other builtins compute from their values is not judged, and a bare word other than true and false means any function of the word and the input.
- The builtin functions of the policy engine, number parsing and glob matching: any functions; an exception inside one counts as false.
- `add_policy`, `remove_policy` and `list_policies`: dictionary updates.
