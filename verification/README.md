# A proof model of go-proxator

go-proxator sends requests through pools of rotating proxies. Each endpoint owns a fixed set of transport
sessions, lent to one borrower at a time; it goes into an escalating cooldown when requests or probes keep
failing; selection is a weighted random choice that remembers which domains blocked an endpoint lately; and
a retry loop drives all of it. This project models that core in Dafny and proves what it promises.

Two kinds of model stand side by side.

*Protocols.* Where the source is raced by goroutines, the model is a transition system whose steps are the
single atomic operations of the source, one program counter per goroutine, and a run is any interleaving:
`SessionProtocol` with `SessionCalls` and `SessionProgress` (acquire, release and Close on one session channel),
`HealthProtocol` with `HealthCalls`, `HealthOutcomes` and `HealthClose` (state, failure counter, cooldown tier,
recovery goroutines), `RequestAccounting` (counters and the compare-and-swap loop of the latency average) and
`TrackerProtocol` (the domain map). Their theorems hold in every reachable state, for any number of goroutines.

*Classes.* The same objects, one call at a time: `Endpoints.Endpoint`, `Tracker.BlockTracker`, `Pools.Pool`,
`Clients.Client`, with methods proved against functions on values, and the lemmas about those functions; a whole
request is such a function of what the world does during it (`Requests`). `SessionCalls` says what whole calls make of
the session channel when they run alone. `HealthCalls` connects the two kinds: run
without interference, the atomic steps of a blocked or successful attempt, a recovery, a retirement and a reset
have exactly the effect that `Vitals` states, and the classes and the timed runs of `CooldownRuns` are written with
the same functions.

Findings where the code and its documentation part ways; the model follows the code.

- `MarkEndpointDead` is documented as permanent until `ResetEndpoint` (client.go:354-355), but markFailed
  overwrites any state (endpoint.go:242). `DeadIsFinalIff` gives the exact condition under which a retirement
  lasts, `RetirementUndone` a run in which it does not.
- A superseded recovery is meant not to recover (endpoint.go:277-278). One that is past its timer, or reaches its
  select so late that timer and cancellation are both there, still wakes the endpoint: `EndsEarlyIff` says exactly
  when a cooldown can end before its own recovery, under all interleavings, and `SupersededRecoveryWakes` is a run in
  which it does.
- A cooldown need not last its documented time. `CooldownLasts` and `UnbreakableIff` say exactly when it does: no
  superseded recovery that has not seen its cancellation may come due before, and a success still in flight must
  not reset the tier, unless the cooldown is the first or the maximum leaves no room to escalate.
- Close is documented to cancel any pending recovery (endpoint.go:161-162), but a markFailed it has overtaken starts
  another. `CloseIsFinalIff` says, from where the goroutines are when Close cancels, exactly when no live recovery
  can follow without a further request, probe or reset; `RecoveryOutlivesClose` is a run in which one does.
- The floor of 0.001 keeps a starved endpoint selectable (pool.go:128-130) and can lift it over one with
  successes; `FloorKeepsOrderIff` says exactly when it does, `FloorReversesOrder` is an instance.
- The round-robin of scan origins is fair except when the 64-bit counter wraps inside the window and the
  number of endpoints does not divide 2^64 (`FairWindowIff`).

Assumptions. The session factory returns a new session each time it does not fail, as its documentation asks
(transport.go:59-64), and a borrower releases once per acquire. Retry settings are those after defaults are
applied, so thresholds, durations and MaxAttempts are positive. Counters stay below 2^31 (failures, tier) and
2^63 (requests). Clocks do not run backwards. Weights are exact reals and the latency average is
`floor((7*old + 3*new)/10)`: nothing is claimed about IEEE rounding. `RequestAccounting` holds for any
blending function. What the world decides enters as parameters: which factory calls fail, the random draw, clock
readings, also those within one scan, whether the rate limiter passes, whether the context has ended, which ready
case a `select` takes, what the callback returns and how the detector classifies it (`Requests.Weather`,
`Retry.Detector`).

| file | contents |
|---|---|
| Basics.dfy, Runs.dfy | shared definitions; transition systems, runs and invariants |
| SessionProtocol.dfy, SessionProgress.dfy | session ownership under all interleavings; that every operation ends |
| SessionCalls.dfy | calls on the session channel that nothing interleaves with |
| HealthProtocol.dfy | endpoint health under all interleavings |
| HealthCalls.dfy, HealthOutcomes.dfy | calls that nothing interleaves with; how cooldowns and retirements can end |
| HealthClose.dfy | which recoveries Close stops |
| RequestAccounting.dfy, MovingAverage.dfy | request counters, the compare-and-swap loop, the latency average |
| Cooldown.dfy, CooldownRuns.dfy | cooldown durations in int64, and over timed runs |
| Tracker.dfy | domain blocks: class, plain log, and the concurrent protocol |
| Weighting.dfy, Selection.dfy | the weight formula and its floor; the weighted choice over exact reals |
| Vitals.dfy, Endpoint.dfy, Pool.dfy | endpoint and pool as classes; building and closing a pool |
| Fleet.dfy, Names.dfy, Construction.dfy | closing all pools; sorting their names; building a client and undoing it |
| Retry.dfy, Requests.dfy, Client.dfy | attempts as traces; a request as a function; the retry loop |
| Health.dfy | rounds of background probes |

## Model

| member | source | states |
|---|---|---|
| SessionProtocol.ExactlyOnePlace | endpoint.go:101-185 | in every reachable state each session the factory made is in exactly one place: one slot of the channel, one thread's hands, or closed once |
| SessionProtocol.StepInv | endpoint.go:57-185 | every atomic step of construction, acquire, release or Close keeps ownership, the lock discipline, the close-once gate and what each program point knows |
| SessionProtocol.Conservation | endpoint.go:101-185 | idle, carried and closed sessions always add up to the sessions created |
| SessionProtocol.OpenCapacity | endpoint.go:101-159 | while the endpoint is open, idle plus carried sessions make up the whole pool |
| SessionProtocol.PoolNeverFull | endpoint.go:152-158 | a borrower that releases once never finds the pool full: its session always goes back into the channel |
| SessionProtocol.NothingReturnsAfterClose | endpoint.go:141-185 | from the moment `closed` is closed the channel only loses sessions from its front, and no further acquire succeeds |
| SessionProtocol.AllClosedAtTheEnd | endpoint.go:163-185 | once Close is done and no thread carries a session, every session has been closed exactly once |
| SessionProtocol.NoDeadlock | endpoint.go:101-185 | without any context ending and without a new call, every thread inside an operation can step, or waits for a lock or gate whose holder can, or waits for a session while some other thread carries one and it, or the holder of sessionMu, can step |
| SessionProtocol.HolderFinishes | endpoint.go:145-184 | the holder of sessionMu unlocks in a known number of its own steps, and a closing holder leaves the channel empty and Close done |
| SessionCalls.SoloAcquire | endpoint.go:101-138 | an acquire on an open endpoint with a session idle, run alone, gets the session idle longest and takes only that |
| SessionCalls.ClosedRefuses | endpoint.go:102-106 | on a closed endpoint an acquire ends with its first step and touches nothing |
| SessionCalls.LimiterRefuses | endpoint.go:108-122 | a limiter error ends an acquire, which touches nothing |
| SessionCalls.WaitEnds | endpoint.go:124-137 | a wait for a session can end with the context, and with the closing exactly once the endpoint is closed, and touches nothing |
| SessionCalls.LateClose | endpoint.go:127-133 | an acquire that finds the endpoint closed after taking a session closes that session, once |
| SessionCalls.SoloRelease | endpoint.go:141-159 | a release run alone puts the session at the back of the open channel, or closes it once on a closed endpoint |
| SessionCalls.SoloBorrowing | endpoint.go:101-159 | acquire and release together move one session from the front of the channel to its back |
| SessionCalls.SoloClose | endpoint.go:163-185 | the first Close run alone closes the endpoint and exactly the idle sessions, each once |
| SessionCalls.CloseReturnsDone | endpoint.go:163-185 | no Close returns before the channel has been emptied |
| SessionCalls.CloseTwice | endpoint.go:163-185 | a later Close does nothing |
| SessionCalls.SoloBuild | endpoint.go:57-97 | construction run alone hands out an open endpoint with all the sessions made idle, in order |
| SessionCalls.SoloBuildFails | endpoint.go:85-90 | when the factory fails, every session made before is closed once and nobody gets the endpoint |
| SessionProgress.StepLowers | endpoint.go:57-185 | every step of an operation already begun lowers one measure of all threads, the channel and the sessions still to be made |
| SessionProgress.OperationsEnd | endpoint.go:57-185 | without a new acquire or Close, no run from a reachable state is longer than the measure, and it can go on only by a context ending exactly when every operation has returned; then every session is idle in the open endpoint or closed exactly once |
| SessionProgress.EverythingReturns | endpoint.go:57-185 | and every reachable state has such a run to the point where all have returned, in which no context ends |
| HealthProtocol.StepInv | endpoint.go:187-285 | every atomic step of a request, probe, recovery, markFailed, markDead, reset or Close keeps the health invariant |
| HealthProtocol.ThresholdIsOwed | client.go:238-244 | an alive endpoint at its threshold always has a goroutine that owes a threshold read, a markFailed or a reset of the counter |
| HealthProtocol.QuiescentBelowThreshold | client.go:238-244 | with no operation in flight, an alive endpoint is below its threshold |
| HealthProtocol.NeverStranded | endpoint.go:237-280 | an endpoint in cooldown has a markFailed in progress under mu, or an unfinished newest recovery that is not superseded, or was cancelled by Close; every delay is at most min(16*base, max) |
| HealthProtocol.HolderFinishes | endpoint.go:163-170 | the holder of mu unlocks within five of its own steps without disturbing another goroutine |
| HealthOutcomes.RecoveryWakes | endpoint.go:267-274 | any recovery that can get mu brings the endpoint out of cooldown by itself, even a superseded one |
| HealthOutcomes.CooldownEnds | endpoint.go:237-280 | until Close is called, steps of the lock holder followed by steps of the recovery that is then the newest bring an endpoint in cooldown back |
| HealthOutcomes.EndsEarlyIff | endpoint.go:244-280 | without a step of the newest or a later recovery and without a new reset, a cooldown can end exactly when an older recovery is past its select or has not reached it and the newest does not hold mu, or a reset has begun |
| HealthClose.LiveAfterCloseIff | endpoint.go:161-170 | after Close has cancelled, in every continuation, a recovery that is not cancelled exists exactly when a markFailed has started one since and no markFailed is about to replace it |
| HealthClose.CloseIsFinalIff | endpoint.go:161-170 | when Close cancels, no continuation without a new request, probe or reset has a live recovery exactly when no markFailed is under way and the failures still to come, from attempts at their availability check too if the endpoint is or can become alive, cannot reach the threshold |
| HealthClose.StirringStarts | endpoint.go:237-280 | in every other case a continuation without such calls starts a live recovery |
| HealthClose.RecoveryOutlivesClose | endpoint.go:161-170 | a run from the initial state in which Close overtakes a markFailed, and the recovery that one starts is live after Close has returned |
| HealthOutcomes.DeadIsFinalIff | endpoint.go:237-285 | a dead endpoint stays dead in every continuation without reset exactly when no goroutine is about to store a state and the failures still pending cannot reach the threshold |
| HealthOutcomes.DeadIsFinalWhenQuiet | client.go:354-368 | in particular it stays dead when no attempt or probe is past its availability check and no recovery or reset is past its test |
| HealthOutcomes.RestlessRevives | endpoint.go:237-280 | in every other case there is a continuation without reset in which the endpoint leaves the dead state |
| HealthOutcomes.FailuresRevive | client.go:238-244 | pending attempts that can add up to the threshold can put a dead endpoint into cooldown |
| HealthOutcomes.LockRevives | endpoint.go:237-242 | so can a markFailed still waiting for mu |
| HealthOutcomes.RetirementUndone | client.go:354-368 | a run from the initial state in which an attempt in flight ends a retirement |
| HealthOutcomes.SupersededRecoveryWakes | endpoint.go:244-280 | a run from the initial state in which a superseded recovery ends a newer cooldown while the newest recovery still waits |
| HealthCalls.SoloMarkFailed | endpoint.go:237-280 | markFailed without interference: one tier more, in cooldown, one new live recovery with the delay of that tier, the older one superseded |
| HealthCalls.SoloPenalise | client.go:238-244 | a blocked attempt or an unanswered probe without interference counts one failure, and at the threshold ends in the cooldown of the next tier |
| HealthCalls.SoloSuccess | client.go:203-205 | and so has a successful one |
| HealthCalls.SoloAnswer | health.go:67-86 | an answered probe clears the failures and leaves the tier |
| HealthCalls.SoloAdmission | client.go:150-162 | an attempt or probe that finds the endpoint alive goes on |
| HealthCalls.OnlyAliveAdmits | endpoint.go:187-192 | and one that does not ends, touching nothing |
| HealthCalls.HarmlessEnd | client.go:171-187 | an endpoint not chosen and a callback error that is no block change nothing |
| HealthCalls.CancelledEnds | endpoint.go:276-279 | a recovery whose context has ended before its timer fires can end without touching anything |
| HealthCalls.LiveParks | endpoint.go:266-279 | one that reaches its select before either blocks there |
| HealthCalls.SoloRecovery | endpoint.go:266-279 | a recovery from its timer to its end |
| HealthCalls.SoloRetire | client.go:354-368 | MarkEndpointDead |
| HealthCalls.SoloReset | client.go:370-383 | ResetEndpoint |
| HealthCalls.SoloClose | endpoint.go:163-170 | Close: the recovery the handle names is cancelled and forgotten, state, counter and tier stay |
| Cooldown.NoOverflowIff | endpoint.go:248-250 | the shifted product is exact at every tier if and only if sixteen times the base fits an int64 |
| Cooldown.DelayByTier | endpoint.go:248-253 | the durations by tier are 1, 2, 4, 8 and then 16 bases, each up to the maximum if there is one |
| Cooldown.DelayIsDocumentedIff | endpoint.go:248-253 | the duration is the documented one (doubling, 16x cap, maximum) exactly when the product fits or wraps onto a value the maximum cuts |
| Cooldown.DelayMonotone | endpoint.go:248-253 | durations are positive and never decrease in the tier |
| Cooldown.DelayBounded | endpoint.go:248-253 | no duration exceeds min(16*base, max), overflow or not |
| Cooldown.OverflowWitness | endpoint.go:249-250 | just above the bound on the base the duration is negative while the documented one is positive |
| CooldownRuns.TierIsStreak | endpoint.go:214-218 | over any run the tier counts the failures since the last success or reset |
| CooldownRuns.CooldownLasts | endpoint.go:237-280 | the k-th markFailed since the last success or reset makes the endpoint unselectable for the documented time of k, in every continuation without success or reset, exactly when no recovery already loose, nor the superseded one unless it sees that, comes due before |
| CooldownRuns.UnbreakableIff | endpoint.go:214-218 | with successes allowed, that holds for every continuation exactly when, besides, the tier was zero or the maximum is at most the base |
| CooldownRuns.LateSuccessShortensCooldown | endpoint.go:214-218 | the run that breaks it otherwise: a late success, one more failure, back after the first tier's time |
| CooldownRuns.RecoversOnTime | endpoint.go:266-274 | left alone, the newest recovery can run exactly when the documented time has passed, and the endpoint is then alive |
| CooldownRuns.RetirementLasts | client.go:354-368 | one call at a time, a retirement lasts until a failure or a reset, whatever recoveries are still to come |
| CooldownRuns.ManualControl | client.go:354-383 | MarkEndpointDead changes the state alone, ResetEndpoint gives a clean record, neither touches a recovery |
| CooldownRuns.OverdueStaysLoose | endpoint.go:244-246 | a superseded recovery whose timer has fired stays able to wake the endpoint |
| CooldownRuns.LooseOnce | endpoint.go:266-279 | a superseded recovery takes effect at most once, and only on an endpoint in cooldown |
| RequestAccounting.NoSampleLost | endpoint.go:196-212 | in every reachable state the average is the left fold of the update rule over the samples in order of their successful swaps, each call counts once, and a sample not yet folded is still in its thread's hands |
| RequestAccounting.SuccessesWithinRequests | client.go:164-205 | successes counted plus successes about to be counted never exceed the requests counted |
| RequestAccounting.QuiescentTotals | client.go:164-205 | with no attempt in flight, requests summed over the pool are the callbacks that returned, and successes those with nil error and no block, however probes interleave |
| RequestAccounting.SoloAttempt | client.go:164-205 | an attempt run alone is counted once, its latency enters its endpoint's average, and it is credited exactly if good |
| RequestAccounting.SoloProbe | health.go:88-107 | a probe run alone touches no counter |
| MovingAverage.StaysWithin | endpoint.go:196-212 | the average of samples from an interval stays in it |
| MovingAverage.SampleMoves | endpoint.go:196-212 | the first sample is the average; every later one moves it by three tenths of its distance, rounded down |
| MovingAverage.SampleApproaches | endpoint.go:196-212 | one more equal sample brings the average nearer to the band [s-3, s] without jumping over it, and never out of it |
| MovingAverage.Converges | endpoint.go:196-212 | from any start equal samples reach that band within its distance in steps and stay |
| Tracker.BlockTracker.constructor | internal/domain/tracker.go:30-38 | non-positive settings select the defaults, and nothing is blocked |
| Tracker.BlockTracker.RecordBlock | internal/domain/tracker.go:52-58 | appends to the block log unless the domain is empty, and replaces at most one record |
| Tracker.BlockTracker.PenaltyFor | internal/domain/tracker.go:62-88 | answers what the plain log answers, and removes at most the expired record it read |
| Tracker.BlocksAreIsolated | internal/domain/tracker.go:20-22 | a block for one endpoint and domain changes the penalty of no other pair, now or later |
| Tracker.BlockLastsTtl | internal/domain/tracker.go:79-87 | a block counts for exactly ttl, and for nothing afterwards |
| Tracker.NeverBlocked | internal/domain/tracker.go:62-88 | what was never blocked has full weight |
| TrackerProtocol.LiveBlocksStay | internal/domain/tracker.go:52-88 | however readers and writers interleave, the newest block of a key is in the map until it has expired |
| TrackerProtocol.DeletesOnlyWhatItLoaded | internal/domain/tracker.go:67-82 | a step that removes an entry is a reader removing the very entry it loaded, expired |
| TrackerProtocol.SoloRecord | internal/domain/tracker.go:52-60 | a block run alone is stored with the time it is recorded |
| TrackerProtocol.SoloQuery | internal/domain/tracker.go:62-88 | a lookup run alone removes its key exactly if the record has expired, and nothing else |
| Weighting.OneFormula | endpoint.go:291-312 | warm-up and afterwards are one formula, (1/L)*(1 - c*(1 - s/t)) with L in seconds and c = min(t, 10)/10, so there is no jump at ten requests |
| Weighting.WeightWithoutData | endpoint.go:226-232 | an endpoint out of service weighs nothing, one without data weighs one |
| Weighting.WeightBounds | endpoint.go:291-312 | the weight lies between sr/L and 1/L |
| Weighting.WeightMonotone | endpoint.go:291-312 | more successes or a lower latency never weigh less |
| Weighting.WeightZeroIff | endpoint.go:291-312 | an endpoint with data scores zero exactly when it has had no success by the end of the warm-up |
| Weighting.FloorKeepsOrderIff | pool.go:127-130 | with the floor, more successes or a lower latency still never weigh less, except exactly when the worse endpoint scores zero and the better one between zero and 0.001 |
| Weighting.FloorReversesOrder | pool.go:127-130 | a case in which it happens |
| Selection.CandidatesAreTheAvailable | pool.go:120-136 | a full scan from any origin finds exactly the available endpoints, each once, with its own weight |
| Selection.OriginIsIrrelevant | pool.go:112-136 | the total weight does not depend on the origin |
| Selection.WalkInterval | pool.go:145-155 | the walk ends at a candidate exactly when the draw lies in its stretch of the cumulative sum, and never falls through |
| Selection.ChosenInterval | pool.go:112-155 | the draws from [0, 1) that choose an endpoint form one interval as long as its share of the total weight, from any origin |
| Selection.SharesAreProportional | pool.go:127-155 | the shares are in proportion to the weights |
| Selection.ZeroTakesFirst | pool.go:112-155 | the intervals follow the scan: the draw 0 takes the first available endpoint from the origin on |
| Selection.AlwaysChooses | pool.go:138-155 | every draw chooses an available endpoint; none is chosen only when none is available |
| Selection.LowerWeightShifts | pool.go:127-155 | lowering one of several weights strictly lowers its share, strictly raises every other share and leaves all positive |
| Selection.FairWindowIff | pool.go:112-113 | n consecutive scans start at n different origins exactly when the counter does not wrap strictly inside the window or n divides 2^64 |
| Pools.Pool.SlotAt | pool.go:120-133 | what the scan makes of one endpoint: nothing, or its weight, 0.001 if that is zero, times the domain penalty |
| Pools.Pool.BuildCandidates | pool.go:112-136 | the loop builds exactly the candidates of the rotated scan and the sum of their weights |
| Pools.Pool.PickCandidate | pool.go:138-155 | the switch and the cumulative loop compute the specified choice |
| Pools.Pool.GetNextEndpointForDomain | pool.go:98-156 | scans from (counter + 1) mod n, keeps the block log, reads the clock once per lookup, and returns the specified choice: an available endpoint, or none exactly when none is available |
| Pools.Pool.FindEndpoint | pool.go:166-176 | finds the endpoint of every index from 1 to the pool's size, and nothing else |
| Pools.DomainBlockShifts | pool.go:122-155 | a block with penalty below 1 strictly lowers the endpoint's share for that domain while it lasts and strictly raises every other; a repeated block changes none |
| Pools.OtherDomainsUnmoved | pool.go:122-155 | for any other domain the same draw from the same origin still chooses the same endpoint |
| Endpoints.Endpoint.constructor | endpoint.go:57-97 | either the channel holds exactly the sessions made, in order, or some factory call failed and every session made has been closed once |
| Endpoints.Endpoint.AcquireSession | endpoint.go:101-138 | which of the outcomes occurs, waiting included, and that exactly the front session leaves the channel on success |
| Endpoints.Endpoint.ReleaseSession | endpoint.go:141-159 | the session goes back, or is closed when the endpoint is closed or full |
| Endpoints.Endpoint.Close | endpoint.go:163-185 | closes every idle session once, in order, and cancels the recovery; a second call changes nothing |
| Endpoints.Endpoint.RecordLatency | endpoint.go:196-212 | one more request, and the average updated by the sample |
| Endpoints.Endpoint.Penalise | client.go:238-244 | one more failure; at the threshold, cooldown with the delay of the next tier |
| Endpoints.Endpoint.MarkFailed | endpoint.go:237-265 | cooldown whatever the state was, one tier more, the new recovery's delay |
| Endpoints.Endpoint.Recover | endpoint.go:266-279 | the effect that the atomic steps of an undisturbed recovery have, and no recovery left |
| Pools.CloseAll | pool.go:77-87 | closes every endpoint in turn: the log of closings grows by exactly the idle sessions, in order |
| Pools.NewPool | pool.go:30-66 | a pool exactly when the configuration is valid and no factory call failed; then every endpoint is alive and open with the configured number of sessions, 15 by default, and nothing was closed, otherwise every session made was closed once |
| Fleets.CloseFleet | client.go:339-343 | in whatever order the map yields the pools, exactly all idle sessions are closed, once |
| Fleets.RestWithout | client.go:339-343 | taking one pool out of those still open takes out exactly its sessions |
| Clients.Client.Close | client.go:339-343 | closes every endpoint of every pool and every idle session once, and leaves nothing for a second call |
| Construction.AddPool | client.go:61-73 | one more pool: refused as a duplicate exactly for a taken name, else for an invalid configuration or a failed factory call, and then nothing built before changes; otherwise it joins the others |
| Construction.New | client.go:29-77 | a client exactly when there are pools, a detector, valid configurations with distinct names and no failed factory call; then the pools are as configured, the names are sorted, and all channels together hold the sessions made, otherwise each of those was closed once |
| Construction.CompleteIdle | client.go:61-77 | the sorted names find the same sessions idle as the configurations do |
| Names.SortedIsOrdered | client.go:75 | sorting rearranges the names into lexicographic order |
| Names.PrecedesIff | client.go:75 | which is decided where two names first differ, a prefix coming first |
| Retry.NilErrorMeansGood | client.go:151-233 | a nil error comes exactly with the last callback's non-nil unblocked response after retryable failures alone |
| Retry.FailureReportsLastCall | client.go:218-233 | the response is always the last callback's; on failure the error is the one the loop ended on, or the last callback's own when that returned an error and no response |
| Retry.LastCallIsLast | client.go:137-140 | the last callback is the one after which no attempt ran any |
| Retry.AttemptEffect | client.go:171-205 | a good callback clears its endpoint's failures and tier, a blocking one counts and at the threshold sends it into cooldown, everything else leaves every endpoint alone |
| Retry.PotentialUpdate | client.go:238-244 | how one endpoint's change moves the pool's sum of remaining failures |
| Retry.ControlMovesPotential | client.go:354-383 | retiring an endpoint takes exactly its own remaining failures from that sum, a reset gives it the whole threshold |
| Retry.NoPotentialIffNone | pool.go:138-140 | the sum is zero exactly when no endpoint is in service |
| Retry.BlockedAttemptCostsOne | client.go:171-195 | each blocked attempt lowers the sum by exactly one, whatever endpoint was drawn |
| Retry.BlockedRequestLength | client.go:151-216 | a trace of blocked attempts has exactly min(MaxAttempts, sum) callbacks, and ends with ErrAllProxiesBlocked exactly when the sum is the smaller |
| Clients.Client.Visit | client.go:158-205 | one attempt on an endpoint: refused by the closed flag, the limiter or the context, in that order, or run; every exit leaves the idle sessions as they were, and counters, average, health and recovery move as the callback's result says |
| Clients.Client.CallMeaning | client.go:171-205 | what that is: a blocking result counts a failure and at the threshold starts the cooldown of the next tier, a good one clears failures and tier, another error changes nothing |
| Clients.Client.TryOnce | client.go:152-206 | one attempt: the endpoint the weighted choice of this draw gives, or none, its effect on all endpoints, their recoveries and the scan origin, and a domain block recorded exactly when it was blocked |
| Clients.Client.DoOnPool | client.go:144-234 | the retry loop makes exactly the attempts that the pool and the world determine, stops where they say, returns what the trace means, and leaves health, books, domain log and scan origin as the trace tells; no session is lost or closed |
| Clients.Client.DoForDomain | client.go:133-234 | the same behind the pool lookup; an unknown or ambiguous name changes nothing |
| Clients.Client.ResolvePool | client.go:99-111 | every configured name finds its pool, the empty name the only one; otherwise the error says whether the name is unknown or the choice ambiguous |
| Clients.Client.MarkEndpointDead | client.go:356-368 | retires exactly the endpoint with that index of the named pool; an unknown pool or index changes nothing |
| Clients.Client.ResetEndpoint | client.go:371-383 | gives exactly that endpoint a clean record; an unknown pool or index changes nothing |
| Requests.RequestDetermined | client.go:144-216 | pool, world and settings determine a request: its attempts one by one, their number and the error it ends on |
| Requests.RequestEnds | client.go:144-216 | every request ends as the retry contract allows, and on the context exactly when that has ended before the first attempt or ends behind a retryable one that is not the last |
| Requests.RetriesIff | client.go:207-216 | an attempt is followed by another exactly when it is not the last allowed, the context goes on, and it was refused without a cancellation or its callback returned a blocking response or an error that is no cancellation |
| Requests.EndsOn | client.go:152-205 | the error of a request that the context does not end is that of its last attempt |
| Requests.ChoiceSuits | pool.go:98-156 | each attempt's weighted choice is an endpoint in service, and none only if there is none |
| Requests.TraceMeaning | client.go:152-206 | what a trace tells: health is the replay of its attempts; requests, successes and latency average are those of its callbacks per endpoint; sessions are unchanged; the origin has moved once per attempt |
| Requests.LogMeaning | client.go:238-240 | and for the domain, in order, one block for each attempt whose callback was blocked, of its endpoint and at its time; none without a domain |
| Requests.BlockLowersShare | client.go:240 | such a block strictly lowers the endpoint's share of the next draws for the domain and raises every other, unless one was in force already |
| Requests.StaysReady | endpoint.go:101-159 | open endpoints with a session to lend still have one after every attempt, so no attempt is held up for want of a session |
| Requests.BlockedRequest | client.go:133-234 | a request whose callbacks all return blocking responses or errors runs its callback exactly min(MaxAttempts, sum of threshold - failures) times, and fails with ErrAllProxiesBlocked exactly when that sum is below MaxAttempts, with no endpoint left in service |
| HealthChecks.PingEndpoint | health.go:88-107 | succeeds exactly with a session and an answer from 200 to 399, and gives the session back on every exit |
| HealthChecks.CheckMeaning | health.go:67-86 | an answered probe clears the failures and keeps the tier, an unanswered one counts, an endpoint out of service is left alone |
| HealthChecks.CheckAll | health.go:62-86 | a round probes exactly the endpoints in service, resets or counts their failures, starts the recoveries of those it sends into cooldown, and leaves sessions and request counts as they were |
| HealthChecks.SilentRoundCosts | health.go:67-81 | a round nobody answers lowers the sum of remaining failures by one per endpoint in service |
| HealthChecks.AnsweredRoundRestores | health.go:84 | a round everybody in service answers restores it to the threshold for each |
| HealthChecks.RoundOnlyRetires | health.go:62-86 | a round brings nobody back, touches nobody out of service and leaves nobody in service at the threshold |
| HealthChecks.SilenceEmptiesPool | health.go:62-86 | as many silent rounds as the threshold leave nobody in service, after exactly as many probes as blocked attempts would have taken |
| HealthChecks.SilenceRetires | health.go:62-86 | silence sends an endpoint into cooldown in exactly the rounds its failure count leaves, and only once |

## Left out

- transport.go, transport_http.go and transport_azuretls.go: a session is a number that can be closed, and the factory may fail.
- detector.go and transient.go: pattern matching; IsBlocked, IsBlockedError and what RetryIf makes of a callback's error are arbitrary classifications.
- golang.org/x/time/rate: the limiter passes or fails before a session is taken.
- github.com/avast/retry-go: a loop with its stop conditions (unrecoverable or final error, MaxAttempts, context); backoff and jitter are left out.
- Clients.Client.DoOnPool: the endpoints' pending recoveries; TryOnce states them for each attempt.
- Clients.Client.Visit: a wait for a session ends with the context, since in the class nobody else gives one back; waiting beside other threads is in SessionProtocol.
- Interleaving in the classes: the classes run one call at a time; the protocols cover the interleavings of one endpoint each, and no model interleaves whole requests with pool construction.
- Callback panics: a panic would run the deferred release; not modelled.
- successRate as a concurrent snapshot: its two loads are read together in Weighting; under interleaving the quotient can pass 1.
- PenaltyFor as one atomic operation: an entry can expire between load and test; the model states what is deleted and what stays instead.
- Floating point: weights are reals and the average a floor; the code's rounding may differ in the last unit, and the fall-through of pool.go:155 can happen there.
- Construction.New: builds pools whose health checks are disabled; enabling them starts a ticker goroutine, which cannot fail and is not modelled.
- Filling objects in place during construction: lists and maps are built first and stored in the pool or client when complete; nobody else has the object yet.
- Requests.BlockedRequest: requests whose context does not end during the wait between attempts.
- HealthChecks.CheckAll: one round over one pool; the ticker and the cancellation of a round by Close are left out.
- Ping, Get, Post and their variants: they add a callback around the same borrow and return.
- Config defaults and validation of URLs and health-check settings, StickyEndpoints, FromURL, headers, logging and Stats: string handling or reporting only.
