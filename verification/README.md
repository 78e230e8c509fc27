# Verified model of softwheel-resilience

A Dafny model of the policy state machines of `softwheel-resilience`: the circuit breaker with its
permits and wrapping generations, the bulkhead's compare-exchange loop, weighted routing with
eligibility, shadow planning and failover, retry arithmetic and the retry loops under a shared
deadline, the retry token bucket, and the per-route resource registry with its primary and shadow
namespaces. `dafny verify dfyconfig.toml` checks it.

How it is put together:

- What one locked section, one atomic access or one pass through a loop does is a function on values.
  The objects of the source are classes, and its loops are methods, proved equal to those functions.
- Shared objects are state machines over those functions. Their theorems are about every run: every
  sequence of events, every interleaving, every choice of draws and times.
- Time is a natural number of nanoseconds, given to each operation. A source of draws is a function
  of the bound it is offered, and is not trusted to respect that bound: a value out of range takes the
  source's error path. `u32` and `u64` are bounded types and saturating, checked and wrapping
  arithmetic is written out.

| file | what it holds |
|---|---|
| `Breaker.dfy` | the breaker's transitions, and the breaker and permit objects |
| `BreakerRuns.dfy`, `BreakerHistory.dfy`, `BreakerTiming.dfy` | permit accounting, counters as functions of history, and timing, over all runs |
| `BreakerErasure.dfy` | the wrapping generation against an unbounded one; deleting late outcomes |
| `Bulkhead.dfy`, `BulkheadRuns.dfy` | the reservation loop and its permits; any number of threads against an atomic counter |
| `Routing.dfy`, `Eligibility.dfy` | route tables, weighted selection, the snapshot store; eligibility and why its `expect` holds |
| `Failover.dfy`, `FailoverSampling.dfy` | the failover machine and its runs; counting the draws behind each order of visits |
| `Shadow.dfy` | sampling and the two planners |
| `Retry.dfy`, `Deadline.dfy`, `TowerRetry.dfy` | backoff and the retry loop; the logical deadline and shadow policy; the Tower loop |
| `RetryBudget.dfy` | the token bucket, its window bound and optimality |
| `Registry.dfy`, `Isolation.dfy` | get-or-create and retirement under interleaving; non-interference of namespaces |

Results about code that meets its promise only under a condition:

- The generation check judges a permit rightly exactly while its age in transitions is zero or not a
  multiple of 2^64 (`BreakerErasure.WrappedCheckIsExact`); `BreakerErasure.LateOutcomeActsIff` says exactly
  when a late outcome then changes the state. `BreakerErasure.AliasedPermitOpensTheCircuit`
  gives a run of 2^64 transitions, followed by the wrapping breaker itself, after which the failure of a
  permit issued in generation 0 opens the circuit.
- The panic on the eligible total (`src/eligibility.rs:94`) is reached exactly when the candidates'
  total exceeds `u64::MAX` (`Eligibility.SelectionMeaning`). Tables of one store cannot reach it; two tables built by hand under
  one generation number can (`Eligibility.HandBuiltTablesCanOverflow`).
- The backoff equals the unsaturated exponential for all attempts exactly when the factor is 1 or the
  maximum is at most initial * (2^32 - 1) (`Retry.BackoffIsExponentialIff`).
- An elapsed budget bounds the total sleep of every retry loop exactly if it is below `Duration::MAX`
  (`Retry.BudgetHoldsIff`): the sum it is compared with saturates there, so that budget suppresses
  nothing (`Retry.LongestBudgetIsNoBudget`), and a loop of three attempts can sleep twice as long
  (`Retry.PatientSleepsTwice`). The same holds of a shadow deadline (`Deadline.ShadowDeadlineHoldsIff`).
- Jitter draws a u64 of nanoseconds: full jitter reaches every delay up to the cap exactly if the cap is at
  most `u64::MAX` nanoseconds (`Retry.FullJitterReaches`), equal jitter if its upper half is
  (`Retry.EqualJitterReaches`).

Where the design document and the code differ, the code is followed: specification 0002 names the
planning result without an eligible route `NoEligibleRoute`; the code returns `NoEligiblePrimary` from
planning and `NoRemainingEligibleRoute` from failover.

## Model

| member | source | states |
|---|---|---|
| Breaker.Config.New | src/circuit_breaker.rs:42-62 | a configuration has the values given, all positive; otherwise the error names the first that is zero |
| Breaker.CircuitBreaker.constructor | src/circuit_breaker.rs:165-177 | a new breaker is Closed with no failures, generation 0 |
| Breaker.CircuitBreaker.BumpGeneration | src/circuit_breaker.rs:124-146 | every transition moves the generation by one, modulo 2^64 |
| Breaker.CircuitBreaker.EnterClosed | src/circuit_breaker.rs:125-130 | the transition to Closed |
| Breaker.CircuitBreaker.EnterOpen | src/circuit_breaker.rs:132-137 | the transition to Open, until the clock reading plus the timeout |
| Breaker.CircuitBreaker.EnterHalfOpen | src/circuit_breaker.rs:139-145 | the transition to HalfOpen, with no probe in flight |
| Breaker.CircuitBreaker.RefreshOpenState | src/circuit_breaker.rs:241-247 | an Open circuit turns HalfOpen once its timeout is reached |
| Breaker.CircuitBreaker.State | src/circuit_breaker.rs:179-187 | observing refreshes first and answers the mode after that |
| Breaker.CircuitBreaker.TryAcquire | src/circuit_breaker.rs:193-216 | refreshes, then rejects or issues a fresh uncompleted permit with the current generation and mode |
| Breaker.CircuitBreaker.OnSuccess | src/circuit_breaker.rs:249-282 | the effect of a reported success, including on stale and mismatched permits |
| Breaker.CircuitBreaker.OnFailure | src/circuit_breaker.rs:284-311 | the effect of a reported failure, including on stale and mismatched permits |
| Breaker.CircuitBreaker.OnAbandon | src/circuit_breaker.rs:313-326 | an abandoned current probe frees its slot; any other abandonment changes nothing |
| Breaker.CircuitBreakerPermit.Success | src/circuit_breaker.rs:345-348 | completing with a success, drop included, records exactly that success |
| Breaker.CircuitBreakerPermit.Failure | src/circuit_breaker.rs:350-353 | completing with a failure, drop included, records exactly that failure |
| Breaker.CircuitBreakerPermit.Drop | src/circuit_breaker.rs:356-362 | only a permit that was never completed is abandoned |
| BreakerRuns.AnswerMeaning | src/circuit_breaker.rs:179-216 | in any state of either breaker, which state an observer is told, exactly when a caller is admitted and under which name, and exactly when it is rejected |
| BreakerRuns.StepKeepsAccounts | src/circuit_breaker.rs:193-326 | of the breaker whose generation never wraps: every operation keeps the accounts, that is, `in_flight` is the number of outstanding current probes, within its threshold, and current permits match the mode |
| BreakerRuns.RunKeepsAccounts | src/circuit_breaker.rs:193-326 | of the same breaker: so does every run |
| BreakerRuns.CurrentCompletionsAreExact | src/circuit_breaker.rs:255-310 | of the same breaker: in every reachable state a current permit meets its own mode, so that the fall-through arms are dead and no saturating operation clips |
| BreakerRuns.RejectionHasACause | src/circuit_breaker.rs:193-207 | of the same breaker: a rejection comes from an unexpired Open or from as many live probes as the threshold |
| BreakerErasure.WrappedCheckIsExact | src/circuit_breaker.rs:249-253 | the generation comparison judges a permit rightly if and only if its age is zero or not a multiple of 2^64 |
| BreakerErasure.LateOutcomeActsIff | src/circuit_breaker.rs:156-158 | exactly when a late failure, success or abandonment does change the state: its permit's age is a multiple of 2^64, its kind fits the mode, and there is something to change |
| BreakerErasure.StepWraps | src/circuit_breaker.rs:124-146 | one step of the wrapping breaker is one step of the unbounded one, with the same answer |
| BreakerErasure.WrappingRefinesUnbounded | src/circuit_breaker.rs:124-146 | in every run without an aliased permit the wrapping breaker refines the one with an unbounded epoch |
| BreakerErasure.ShortRunsAreTimely | src/circuit_breaker.rs:124-146 | no run of fewer than 2^64 events aliases a permit |
| BreakerErasure.WrappingBreakerIsAccounted | src/circuit_breaker.rs:193-326 | permit accounting in every reachable state of the wrapping breaker |
| BreakerErasure.WrappingCompletionsAreExact | src/circuit_breaker.rs:255-310 | in every reachable state of the wrapping breaker, a completion that passes the generation check, unless its permit is aliased, is of a current permit and meets its own mode: the fall-through arms are dead and no saturating operation clips |
| BreakerErasure.WrappingRejectionHasACause | src/circuit_breaker.rs:193-207 | a rejection by the wrapping breaker comes from an unexpired Open or from as many live probes as the threshold |
| BreakerErasure.ErasureChangesNothing | src/circuit_breaker.rs:249-326 | deleting every late outcome from any run leaves every remaining answer and state as it was |
| BreakerErasure.ErasureWraps | src/circuit_breaker.rs:249-253 | without aliasing the wrapping breaker's late outcomes are the truly late ones |
| BreakerErasure.LateOutcomesAreHarmless | src/circuit_breaker.rs:156-158 | every answer and state of the wrapping breaker is what it would have been without the late outcomes, and is that of the unbounded one without them: stale calls cannot change a newer state |
| BreakerErasure.LongRunIsTimely | src/circuit_breaker.rs:124-146 | a run that trips, fails any number of probes and recovers completes no aliased permit, so the wrapping breaker follows it |
| BreakerErasure.AliasedPermitOpensTheCircuit | src/circuit_breaker.rs:284-288 | the bound cannot be dropped: the wrapping breaker's own run of 2^64 transitions ends in a state where a permit of generation 0 opens the circuit |
| BreakerHistory.RunsAreFaithful | src/circuit_breaker.rs:249-326 | of the breaker whose generation never wraps: over every run the books of the current and of every ended epoch stay faithful, and each epoch begins in the state the one before it led to |
| BreakerHistory.StateIsAFunctionOfHistory | src/circuit_breaker.rs:249-326 | of the same breaker: `consecutive_failures` is the trailing failure run and first reaches the threshold when Closed opens; in HalfOpen admitted = successes + abandoned + in flight; an epoch closes on exactly the threshold of successes and no failure, and reopens on exactly one failure; epochs follow one another from Closed to the current mode |
| BreakerHistory.WrappingStateIsAFunctionOfHistory | src/circuit_breaker.rs:249-326 | the same of the wrapping breaker, whose generation is the number of ended epochs modulo 2^64 |
| BreakerTiming.StepMovesMode | src/circuit_breaker.rs:132-137 | only a failure opens the circuit, only the passing of `until` ends Open, and Open admits nothing |
| BreakerTiming.RunsArePunctual | src/circuit_breaker.rs:132-137 | over every run with a monotone clock, `until` is the last opening plus the timeout, and what is not Open lies past it |
| BreakerTiming.NothingIsAdmittedWhileOpen | src/circuit_breaker.rs:193-199 | nothing is admitted within `open_timeout` of any opening, whatever late permits do |
| BreakerTiming.OpeningsAreRare | src/circuit_breaker.rs:241-247 | openings are `open_timeout` apart; a window of length T holds at most floor(T / open_timeout) + 1 |
| Bulkhead.ReserveIsAtomic | src/bulkhead.rs:40-57 | whatever other threads do, a reservation ends as an atomic test-and-take on a value the counter really held |
| Bulkhead.ReserveMeaning | src/bulkhead.rs:40-57 | every outcome is accounted for by the turns met: each exchange before the last failed spuriously or on a counter another thread had changed, and the counter ends as the others left it, plus the slot if one was taken |
| Bulkhead.MetIsUnique | src/bulkhead.rs:40-57 | the turns met admit no other outcome |
| Bulkhead.Counter.CompareExchangeWeak | src/bulkhead.rs:25-33 | a weak exchange may fail although the value matches, and reports the value it saw |
| Bulkhead.TryReserve | src/bulkhead.rs:40-57 | the loop's answer and the counter it leaves are those that the other threads' turns account for, with interference and spurious failures |
| Bulkhead.Bulkhead.constructor | src/bulkhead.rs:109-116 | a new bulkhead has a counter of its own, at zero |
| Bulkhead.Bulkhead.TryAcquire | src/bulkhead.rs:130-139 | a fresh unreleased permit exactly when a slot was reserved, as the other threads' turns account for |
| Bulkhead.Bulkhead.Available | src/bulkhead.rs:126-128 | taken and available slots add up to the capacity |
| Bulkhead.BulkheadPermit.ReleaseInner | src/bulkhead.rs:161-166 | gives the slot back once |
| Bulkhead.BulkheadPermit.Release | src/bulkhead.rs:157-159 | explicit release with the drop that follows gives back exactly one slot |
| Bulkhead.BulkheadPermit.Drop | src/bulkhead.rs:169-173 | a drop gives back a slot only if none was given back before |
| BulkheadRuns.CounterIsHeldSlots | src/bulkhead.rs:40-62 | in every interleaving the counter equals the unreleased slots and never exceeds the capacity |
| BulkheadRuns.RunsRefineAtomicCounter | src/bulkhead.rs:40-62 | every interleaving is a legal run of the atomic bounded counter, which never underflows |
| BulkheadRuns.AnswersAreLinearised | src/bulkhead.rs:40-57 | each thread's answers are those of the atomic counter, and each takes effect between its call and its answer |
| BulkheadRuns.RejectionSawEverySlotHeld | src/bulkhead.rs:46-48 | a rejection takes effect at an access where every slot was held |
| BulkheadRuns.EachPermitReleasesOnce | src/bulkhead.rs:156-173 | each permit issued has given back exactly one slot, or none while it is held |
| BulkheadRuns.SlotsAreConserved | src/bulkhead.rs:156-173 | slots given back plus slots held are the permits issued |
| BulkheadRuns.ReleaseThenDropIsDrop | src/bulkhead.rs:156-173 | releasing and then dropping is dropping |
| BulkheadRuns.UnchangedWithoutAdvance | src/bulkhead.rs:40-62 | between two accesses of a thread the counter changes only by another thread's reservation or a release |
| BulkheadRuns.FailedExchangeMeansProgress | src/bulkhead.rs:49-56 | lock freedom: an exchange that fails, but not spuriously, means that another thread took a slot, or one was given back, since this thread's last access |
| Routing.NewTable | src/routing.rs:106-133 | the construction loop computes the specified result |
| Routing.ScanFindsFirstFault | src/routing.rs:113-126 | the loop stops at the first route at fault, a repeated id being noticed before an overflow, and otherwise has the whole usable weight |
| Routing.BuildReportsFirstFault | src/routing.rs:106-133 | which error construction reports, for all inputs |
| Routing.TableIsBuiltWhenValid | src/routing.rs:106-133 | a table is built if and only if routes are non-empty, ids distinct and the usable weight is within 1..u64::MAX |
| Routing.SelectWith | src/routing.rs:152-173 | the cursor loop computes the specified selection, fails exactly on a draw out of range, never underflows and never falls through |
| Routing.PickLandsInOwnSpan | src/routing.rs:161-172 | a draw below the total falls into the span of the route picked, and only such a draw picks one |
| Routing.SpanIsPicked | src/routing.rs:161-172 | every draw in a route's span picks that route |
| Routing.SelectionIsExactPartition | src/routing.rs:161-172 | each candidate receives exactly `weight` consecutive draws, in table order, and any other route none |
| Routing.TableSelectionIsExact | src/routing.rs:152-173 | in a table each enabled positive-weight route receives exactly the draws from the usable weight before it up to its own weight more, every other none, and a draw fails exactly if out of range |
| Routing.RouteTableStore.constructor | src/routing.rs:187-191 | the store starts with the given table |
| Routing.RouteTableStore.Snapshot | src/routing.rs:193-195 | a snapshot is the table published last |
| Routing.RouteTableStore.Replace | src/routing.rs:197-206 | a replacement publishes the next generation or, rejected, changes nothing |
| Routing.ReplacementMeaning | src/routing.rs:197-206 | exactly which batches are published, that they are published as they are under the next generation, and otherwise which error is reported |
| Routing.BatchIsPublishedIff | src/routing.rs:197-206 | over every run, one batch more is published, unchanged, after the tables so far exactly if it is fit and a generation is left; otherwise nothing changes |
| Routing.GenerationsCountPublications | src/routing.rs:197-206 | over every run published tables are valid and their generations rise by exactly one |
| Routing.GenerationIdentifiesTable | src/routing.rs:197-206 | among one store's tables equal generations mean equal tables |
| Eligibility.EligibleIffAccepted | src/eligibility.rs:18-32 | an id is eligible if and only if the table has an enabled positive-weight route of that id that the predicate accepts |
| Eligibility.SelectWeightedWith | src/eligibility.rs:78-121 | the selection loop computes the specified selection and offers the specified bound to the draw |
| Eligibility.CheckedTotalIsWeight | src/eligibility.rs:92-97 | the checked total is the candidates' weight unless that exceeds u64 |
| Eligibility.SelectionMeaning | src/eligibility.rs:78-121 | exactly when each error, the empty answer and the panic arise, and that a selected route is eligible, not excluded and weighted |
| Eligibility.OfferMeaning | src/eligibility.rs:92-104 | a draw is asked for exactly if generations agree and the candidates' weight is a positive u64, and that weight is its bound |
| Eligibility.JustifiedNeverOverflows | src/eligibility.rs:92-97 | with a justified eligibility the panic is impossible for any exclusion set |
| Eligibility.GenerationJustifiesEligibility | src/eligibility.rs:88-97 | among one store's snapshots, passing the generation check makes the eligibility hold only usable routes, so the `expect` cannot fire |
| Eligibility.HandBuiltTablesCanOverflow | src/eligibility.rs:92-97 | two hand-built tables of one generation can make it fire |
| Failover.RouteFailover.FromPrimary | src/failover.rs:141-161 | a failover starts at ordinal 0 with the primary attempted |
| Failover.RouteFailover.FromPrimaryEligibility | src/failover.rs:129-139 | it starts exactly if the eligibility is of this generation and holds the primary |
| Failover.RouteFailover.ClassifyWith | src/failover.rs:176-213 | the in-place update and the decision are the specified ones, on every path |
| Failover.OnlyMovesChangeState | src/failover.rs:176-213 | only a move changes state, to an untried eligible route with the next ordinal; retries, terminal outcomes and bad draws change nothing |
| Failover.DecisionMeaning | src/failover.rs:176-213 | for every state, outcome and draw, exactly when each answer is given, the inconsistent and panicking ones included, and which attempt a move leads to |
| Failover.JourneysAreConsistent | src/failover.rs:129-213 | in every run the visits are a duplicate-free log of eligible routes of one generation, as long as the ordinal plus one and at most `max_routes` |
| Failover.FailoverAnswer | src/failover.rs:176-213 | with a draw in range, exactly when a failover moves, is out of budget, or has no route left |
| Failover.FailoverExhausts | src/failover.rs:176-213 | with draws in range, among any other outcomes, each failover asked for visits one route more up to min(max_routes, eligible routes), and then none |
| Failover.NoRemainingMeansAllTried | src/failover.rs:188-213 | in any run, "no remaining eligible route" means that every eligible route was tried |
| FailoverSampling.ExtendSize | src/failover.rs:188-211 | choices of independent draws multiply |
| FailoverSampling.VectorsForMeaning | src/failover.rs:108-122 | the vectors counted for an order are exactly those of offered draws that visit it |
| FailoverSampling.OrdersAreWeightedByProduct | src/failover.rs:188-211 | the number of draw vectors behind a visit order is the product of the visited routes' weights |
| FailoverSampling.VisitsExtend | src/failover.rs:188-211 | one more offered draw visits one more of the routes that remain |
| FailoverSampling.FailoverFollowsVector | src/failover.rs:108-213 | the failover machine fed a draw vector visits exactly the routes the counting is about |
| FailoverSampling.OfferedIffInRange | src/failover.rs:108-213 | a draw vector is among those counted if and only if there are routes enough and the machine it drives meets only draws in range |
| FailoverSampling.FailoverSamplesWithoutReplacement | src/failover.rs:108-213 | the draw vectors that drive the machine, always in range, along an order of distinct eligible routes are exactly those counted, and number the product of the routes' weights |
| Shadow.SampleMeaning | src/shadow.rs:65-82 | exactly the draws below parts_per_million sample; one out of range is an error unless sampling is off or complete |
| Shadow.SampledMeaning | src/shadow.rs:159-164 | planning samples on a draw in range below parts_per_million or when sampling is complete; a draw out of range does not sample |
| Shadow.SamplingIsExact | src/shadow.rs:65-82 | exactly `parts_per_million` of the million draws sample, the extremes included |
| Shadow.ShadowTotalIsCheckedTotal | src/shadow.rs:240-251 | the shadow loop's total is the eligible total without the primary |
| Shadow.SelectShadowWith | src/shadow.rs:239-270 | the shadow selection loop computes the specified selection |
| Shadow.PlannersAgree | src/shadow.rs:148-222 | with every route eligible the two planners give the same plan or corresponding errors, and offer the same ranges to the same draws |
| Shadow.PlanMeaning | src/shadow.rs:191-237 | exactly when each error or the panic arises; the primary and the shadow are the eligible routes their draws select, the shadow sampled and never the primary; and exactly when a shadow is missing |
| Shadow.OffersMeaning | src/shadow.rs:191-222 | exactly which of its three draws planning asks for, and the bound of each |
| Shadow.PlainPlanFailsIff | src/shadow.rs:148-158 | the unfiltered planner fails exactly on a primary draw out of range, with that error |
| Shadow.PrimaryIsSelectedAlone | src/shadow.rs:191-222 | once the primary is selected nothing after it can fail or change it |
| Shadow.ShadowCannotTouchPrimary | src/shadow.rs:148-222 | in neither planner does the primary, or its error, depend on the sampling or the shadow draws |
| Retry.SaturatingPowIsCappedPow | src/retry.rs:79-82 | saturating at each multiplication is saturating once at the end |
| Retry.CapClosedForm | src/retry.rs:79-82 | the delay before jitter in closed form, for every jitter and for attempt zero |
| Retry.BackoffClosedForm | src/retry.rs:79-92 | without jitter the delay is min(initial * min(factor^(attempt-1), 2^32-1), maximum), monotone in the attempt |
| Retry.BackoffIsExponentialIff | src/retry.rs:79-86 | it is the unsaturated exponential for all attempts if and only if factor = 1 or maximum <= initial * (2^32-1) |
| Retry.JitterStaysBounded | src/retry.rs:86-114 | full jitter stays in [0, cap], equal jitter in [floor(cap/2), cap], and cap within the maximum |
| Retry.DrawnIff | src/retry.rs:79-114 | exactly which delays each jitter can draw |
| Retry.FullJitterReaches | src/retry.rs:79-114 | every delay in [0, cap] is drawn if and only if cap is at most u64::MAX nanoseconds |
| Retry.EqualJitterReaches | src/retry.rs:79-114 | every delay in [floor(cap/2), cap] is drawn if and only if the upper half is at most u64::MAX nanoseconds |
| Retry.NextDelayMeaning | src/retry.rs:139-157 | a delay is granted if and only if the failure is retryable, an attempt is left and the delay fits the elapsed budget (or that is Duration::MAX); it is the scheduled one |
| Retry.LongestBudgetIsNoBudget | src/retry.rs:139-157 | an elapsed budget of Duration::MAX suppresses nothing |
| Retry.PatientSleepsTwice | src/retry.rs:139-157 | a loop under a budget of Duration::MAX that sleeps twice that long |
| Retry.BudgetHoldsIff | src/retry.rs:139-202 | an elapsed budget bounds the total sleep of every loop if and only if it is below Duration::MAX |
| Retry.RetryLoop | src/retry.rs:176-202 | the loop computes the specified run; its attempt counter never passes `max_attempts` |
| Retry.RetryFollowsSchedule | src/retry.rs:176-202 | every call but the last failed, had a retry granted at the time it failed, and was followed by its scheduled delay; the last succeeded or had none granted; and when each call ended |
| Retry.SleepsFitElapsedBudget | src/retry.rs:139-157 | elapsed time plus all scheduled delays stay within `max_elapsed`, if that is below Duration::MAX |
| Retry.RetryIsBounded | src/retry.rs:176-202 | at most `max_attempts` calls, one sleep fewer than calls, total delay within (max_attempts-1) * maximum and within `max_elapsed` |
| Deadline.BudgetIsADeadline | src/deadline.rs:55-84 | the four questions describe one deadline: waiting ends strictly before it, a clamped child ends by it and gets all that is left, and how much is left |
| Deadline.ShadowRetryMeaning | src/shadow_policy.rs:87-96 | a shadow retry is granted if and only if retries are enabled, the retry policy grants it and it fits the shadow deadline (or that is Duration::MAX) |
| Deadline.ShadowRetriesAreTightenedRetries | src/shadow_policy.rs:87-96 | a shadow retry is admitted exactly when the retry policy with the tighter elapsed budget admits it |
| Deadline.ShadowDeadlineHoldsIff | src/shadow_policy.rs:87-96 | the shadow deadline bounds the total sleep of every shadow retry loop if and only if it is below Duration::MAX |
| Deadline.EffectiveDeadlineIsShorter | src/shadow_policy.rs:70-72 | the effective deadline is the shorter of the two |
| Deadline.ShadowEndsWithPrimary | src/shadow_policy.rs:70-72 | the effective shadow deadline never reaches past the primary's |
| TowerRetry.Call | src/tower_adapter.rs:186-241 | the retry loop computes the specified run |
| TowerRetry.OneAttempt | src/tower_adapter.rs:203-226 | one pass through its body: factory and call, classification, policy |
| TowerRetry.RecoverFrom | src/tower_adapter.rs:226-238 | the rest of the pass: backoff and readiness |
| TowerRetry.TimeoutMeaning | src/tokio_runtime.rs:78-103 | exactly when work is refused, finishes, is stopped by the logical deadline or by its own timeout, and when that is |
| TowerRetry.SleepMeaning | src/tokio_runtime.rs:131-143 | exactly when a backoff is suppressed, ends too late or succeeds, and when that is |
| TowerRetry.ReadinessMeaning | src/tower_adapter.rs:228-238 | exactly how and when the wait for readiness ends, with and without a deadline |
| TowerRetry.AttemptMeaning | src/tower_adapter.rs:203-240 | the result, trail and time of every attempt in terms of the clock, the limits and what the world does |
| TowerRetry.RunsTellTheirStory | src/tower_adapter.rs:194-240 | every run is the story of its attempts, each begun where the last one ended |
| TowerRetry.LastAttemptDecides | src/tower_adapter.rs:194-240 | over every run, a response is the result exactly if the last call finished with success, its error exactly if it finished with one for which no retry is granted, a child timeout exactly if it was stopped before the deadline |
| TowerRetry.TimeoutStops | src/tokio_runtime.rs:78-103 | work is refused exactly when the budget is exhausted |
| TowerRetry.ReadinessStopsAtDeadline | src/tower_adapter.rs:230-238 | the wait for readiness is stopped by the logical deadline only |
| TowerRetry.AttemptIsWell | src/tower_adapter.rs:203-240 | what each attempt does, in which order, and how it may end |
| TowerRetry.RunsAreWell | src/tower_adapter.rs:194-240 | every run: at most `max_attempts` calls, one request made for each, each begun before the deadline, readiness between consecutive calls, runtime stops and readiness errors neither classified nor retried |
| TowerRetry.SleepEndsByDeadline | src/tokio_runtime.rs:131-143 | an admitted backoff ends by the deadline, but for the lateness of its timer, and if it succeeds leaves time |
| TowerRetry.CallEndsByDeadline | src/tower_adapter.rs:194-240 | if the world never takes more than `most` extra at a time, a bounded request is over by its logical deadline plus 2 * most; with ideal timers, by its deadline |
| RetryBudget.SharedRetryBudget.constructor | src/retry_budget.rs:53-60 | the bucket starts full |
| RetryBudget.SharedRetryBudget.TryAcquireRetry | src/retry_budget.rs:62-72 | takes a token and tells how many remain, or suppresses the retry and changes nothing |
| RetryBudget.SharedRetryBudget.RecordSuccess | src/retry_budget.rs:74-81 | adds the replenishment, up to the capacity |
| RetryBudget.RequestMeaning | src/retry_budget.rs:62-72 | a request is admitted if and only if a token is left, takes it and is told what remains; a suppressed one changes nothing |
| RetryBudget.SuccessMeaning | src/retry_budget.rs:74-81 | a success adds its tokens up to the capacity |
| RetryBudget.RunAnswers | src/retry_budget.rs:53-81 | at every point of every run, a request's answer tells whether a token was left then, and how many remain |
| RetryBudget.TokensAreConserved | src/retry_budget.rs:53-81 | retries admitted plus tokens left never exceed tokens at the start plus refills, with equality below the capacity |
| RetryBudget.WindowsAreBounded | src/retry_budget.rs:53-81 | in every window of every run, admitted retries are at most the tokens at its start plus replenishment times successes |
| RetryBudget.GreedyStaysAhead | src/retry_budget.rs:62-81 | passing over requests gains at most the tokens it saved |
| RetryBudget.GreedyIsOptimal | src/retry_budget.rs:62-81 | no other choice of requests under the same bucket admits more in any prefix |
| Registry.NamespaceResources.constructor | src/resource_registry.rs:56-63 | a namespace is built from newly allocated objects, unused, under its policy |
| Registry.RouteResources.constructor | src/resource_registry.rs:119-125 | primary and shadow share no mutable object, and each follows its own policy |
| Registry.RouteResourceRegistry.constructor | src/resource_registry.rs:151-160 | the registry starts empty, with both policies |
| Registry.RouteResourceRegistry.Get | src/resource_registry.rs:180-182 | looks up without creating |
| Registry.RouteResourceRegistry.GetOrInsert | src/resource_registry.rs:167-176 | the second critical section looks again, and only then publishes one new set |
| Registry.RouteResourceRegistry.GetOrCreate | src/resource_registry.rs:162-177 | returns the registered set, or registers a fresh one that shares nothing with any existing object |
| Registry.RouteResourceRegistry.Retire | src/resource_registry.rs:188-190 | removes and returns the registered set, and nothing else |
| Registry.StepIsAtomic | src/resource_registry.rs:162-190 | each critical section is a whole atomic operation or changes no registration |
| Registry.StepReplies | src/resource_registry.rs:162-190 | every operation is answered, in the critical section in which it takes effect and for its own thread and route |
| Registry.RunsAreAtomic | src/resource_registry.rs:162-190 | every interleaving with the read and the write section apart linearises to an atomic map |
| Registry.HistoriesAreKept | src/resource_registry.rs:162-190 | a set handed out by any operation is registered exactly until its route is next retired, and no set serves two routes |
| Registry.LookupsConvergeWithinAPeriod | src/resource_registry.rs:162-190 | two operations, whether `get_or_create`, a `get` that finds something or a retirement, hand out the same set if and only if they are for one route with no retirement between them |
| Registry.AnswersFindWhatIsThere | src/resource_registry.rs:180-190 | a `get` or a retirement finds a set if and only if a lookup handed one out that was not retired since |
| Isolation.AllocationSeparates | src/resource_registry.rs:119-125 | creating a set keeps all namespaces of all sets on cells of their own |
| Isolation.ActionStaysInside | src/resource_registry.rs:56-97 | an operation through a namespace leaves every other namespace as it was |
| Isolation.NamespacesAreIndependent | src/resource_registry.rs:56-125 | sharing one heap, every namespace answers and evolves as a breaker, bulkhead and budget that are alone in the world |
| Isolation.NamespacesAreTheirParts | src/resource_registry.rs:56-125 | in every interleaving each namespace's breaker, bulkhead and budget are in the state, and have given the answers, of their own runs under their own policy |
| Isolation.OthersAreInvisible | src/resource_registry.rs:56-125 | deleting all operations of any group of namespaces from any interleaving leaves all states and answers of the others unchanged |
| Isolation.ShadowIsInvisible | src/resource_registry.rs:56-125 | erasing all shadow work leaves every primary state and answer on every route unchanged |

## Left out

- `ShadowExecutionPolicy::new`, which rejects a deadline of zero: the lemmas hold for that deadline too.
- Mutex and RwLock poisoning, and weak memory orderings: a locked section or an atomic access is one step.
- Overflow of `Instant::now() + timeout` in `transition_open`: time is unbounded.
- The representation of `Duration` in seconds and nanoseconds: a duration is a number of nanoseconds up to Duration::MAX, and measured spans are capped there.
- Panics of caller-supplied operations, classifiers and predicates: they are values or functions. A predicate that excludes routes is a set of ids.
- The statistical quality of `fastrand`, and the entry points that draw from it (`select`, `plan`, `plan_eligible`, `classify`, `sample`): each passes a draw in range to the `_with` form modelled here.
- `retry_async`: the same loop as `retry`.
- Tokio and Tower internals, `timeout_or_cancel`, `ready_for`, `poll_ready` and the exchange of `inner` for its clone in `call`: clock readings, waits, calls and readiness answers are what remains.
- `CircuitBreaker::call` and `Bulkhead::call`: an acquisition, the operation, and the completion modelled here.
- Metrics, tracing and observability adapters, `Display` and `Error` implementations, accessors, `ShadowOutcome` and `ShadowObservation`: no policy.
- Interleavings are state machines on values, not threads on the classes: the classes give the effect of each step, the machines (`BreakerRuns`, `BulkheadRuns`, `Registry`, `Isolation`) every order of the steps.
- BreakerRuns.StepKeepsAccounts: stated of the breaker whose generation never wraps; `BreakerErasure.StepWraps` carries it to the wrapping one.
- BreakerRuns.RunKeepsAccounts: likewise; `BreakerErasure.WrappingBreakerIsAccounted` carries it over.
- BreakerRuns.CurrentCompletionsAreExact: likewise; `BreakerErasure.WrappingCompletionsAreExact` carries it over.
- BreakerRuns.RejectionHasACause: likewise; `BreakerErasure.WrappingRejectionHasACause` carries it over.
- BreakerHistory.RunsAreFaithful: likewise; `BreakerHistory.WrappingStateIsAFunctionOfHistory` carries it over.
- BreakerHistory.StateIsAFunctionOfHistory: likewise, by the same lemma.
- Bulkhead.TryReserve: interference by other threads is a finite list of turns, after which the counter is left alone; unbounded interference is covered by `BulkheadRuns`, where the loop is lock-free (`BulkheadRuns.FailedExchangeMeansProgress`) but need not end.
- Eligibility.SelectWeightedWith: the total, an iterator chain in the source, is a function.
- Bulkhead.Bulkhead.constructor: a capacity of zero, which the source's type excludes, is allowed.
