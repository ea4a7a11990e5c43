# Verified model of AK Switch

AK Switch is a proxy that rotates API keys over retrying upstream requests. This
project models the state machines at its core in Dafny and proves what they
guarantee over whole runs.

- `Backoff`, `KeyBreaker`, `KeyBreakerRuns`: the breaker of one key, from the
  arithmetic of its backoff to the exact failure that gives the key up.
- `UpstreamBreaker`, `UpstreamBreakerRuns`: the breaker of the upstream, its event
  history and the spacing of its probes.
- `Rotation`, `Polling`, `Window`, `PoolModel`, `KeyPool`, `PoolEffects`,
  `PoolRuns`: the key pool over parallel slices, what each of its operations means
  for the keys, its selection strategies, fairness, reservations, the sliding
  request window and lasting disablement.
- `Executor`, `ExecutorRuns`, `ExecutorInterleaving`: the retry loop that composes
  pool and breakers against an arbitrary sequence of replies, alone and among
  other requests that change the shared state.
- `RequestRuns`: what becomes of a key over a sequence of requests.
- `Sse`: line-by-line streaming and truncation detection.
- `KeyEntries`, `KeyStore`, `Provider`, `Lifecycle`: saving, merging and reloading
  keys, the periodic key probe and the health check.
- `Decimal`, `Naming`: numbering and de-duplication of imported keys.
- `Calibration`: the sliding-window median that scales token estimates.

Each object of the program is a class with the program's fields; `Value()` is its
abstract value, and every method states its whole new value in terms of the old one
and of a transition function. The modules ending in `Runs` prove properties of those
transitions over arbitrary sequences of operations, against definitions that speak
of the history alone (streaks, logs, traces, replays).

## How the program is read

- Every operation receives the clock as a parameter. Nothing is assumed about it
  except where a lemma says so. An operation protected by a lock is one step.
- Random numbers, replies of the upstream and the success of a save are parameters.
- Durations are whole nanoseconds, unbounded; `BackoffFitsInt64` gives the condition
  under which the backoff arithmetic is exact in 64 bits. The rotation counter wraps
  at 64 bits.
- Powers and ratios are exact reals; conversions truncate and rounding is half away
  from zero, as in the program.

## Where the code and its comments differ

The model follows the code.

- `internal/circuitbreaker/upstream.go:71-72` announces one probe granted in half
  open; half open is only ever entered with that probe already used
  (`RefinesHistory`), so the grant happens on leaving the open state and half open
  itself refuses everything (`UsedProbeWaits`, `UsedProbeBlocks`).
- `internal/keypool/keypool.go:74` asks callers to release a selected key, but
  `SelectKey` reserves nothing, and `SelectionsCoincide` says when two selections
  pick the same key; exclusivity is proved of `Next`.
- The index of a selected key is used again when its reply arrives
  (`internal/server/proxy_executor.go:128-159`). If an earlier key was removed in
  between, the reply is charged to another key (`WrongKeyDisabled`), or to none, and
  then the request may end in a run-time error without an answer
  (`ReplyBehindTheEnd`); `MarkFallsOnSelected` and `AmidOthers` give the exact
  conditions.
- The probe also asks about keys with the reason "preserved"
  (`internal/server/lifecycle.go:319-321`), which never occurs in a reachable pool
  (`PoolStaysCoherent`), so only exhausted quota is ever probed.
- The strategy called random (`internal/keypool/keypool.go:108`) is deterministic.
- `internal/cli/key.go:1014-1018` promises unique names; this fails for names that
  are not repeated in the batch (`ClashWithUnnumbered`), and `NamesDistinctIff` gives
  the exact condition.
- `internal/server/provider_manager.go:97` promises to preserve the disabled state;
  it is preserved by name, as `PersistThenReload` says exactly, so that of two keys
  without a name one takes the other with it (`UnnamedShareDisablement`). The reason
  is not preserved (`ReloadForgetsReason`), and the probe is not restarted on the new
  pool (`TickAfterReload`, `ReloadEndsProbing`).
- A deleted key stays deleted only while the store remembers it: saving the pool
  forgets it, and a plaintext copy then brings it back (`KeysAfterSaveAndReload`,
  `DeletedComesBackEnabled`). In an import a deleted entry hides a later undeleted
  one with the same key (`DeletedFirstHidesKey`).

## Model

| member | source | states |
|---|---|---|
| `Backoff.FirstTripExists` | internal/circuitbreaker/key.go:54-61 | a first attempt whose backoff reaches the cap exists exactly when the multiplier exceeds one or the base already reaches the cap |
| `Backoff.GrowthTrips` | internal/circuitbreaker/key.go:55-61 | with a multiplier above one, an attempt that reaches the cap can always be named |
| `Backoff.RawNext` | internal/circuitbreaker/key.go:54-55 | one more attempt multiplies the raw backoff by less than the multiplier times (itself plus the base), truncation included |
| `Backoff.TruncCuts` | internal/circuitbreaker/key.go:55 | the conversion to an integer cuts towards zero, for negative numbers too |
| `Backoff.PowAdds` | internal/circuitbreaker/key.go:55 | powers multiply as exponents add, and the first power is the multiplier itself |
| `Backoff.WholeBackoff` | internal/circuitbreaker/key.go:54-55 | with a whole multiplier the raw backoff is the base at the first attempt and is multiplied at each further one, with nothing lost |
| `KeyBreaker.DefaultJitter` | internal/circuitbreaker/key.go:222-233 | the random jitter is never negative and at most half of a positive raw cooldown |
| `KeyBreaker.KeyCircuitBreaker.constructor` | internal/circuitbreaker/key.go:30-41 | a new breaker is closed, has no attempts and no reason, and treats a negative threshold as zero |
| `KeyBreaker.KeyCircuitBreaker.RecordFailure` | internal/circuitbreaker/key.go:46-84 | the whole new state and the reported cooldown: ignored when permanent, permanent when the raw backoff reaches the cap, else open for the capped, jittered backoff |
| `KeyBreaker.KeyCircuitBreaker.RecordAuthFailure` | internal/circuitbreaker/key.go:89-104 | counts the failure, says whether the threshold asks for disablement, and otherwise blocks for ten seconds |
| `KeyBreaker.KeyCircuitBreaker.RecordPerma` | internal/circuitbreaker/key.go:107-112 | permanent, with the given reason, whatever the state was |
| `KeyBreaker.KeyCircuitBreaker.ForceCooldown` | internal/circuitbreaker/key.go:117-128 | never shortens a cooldown and never touches a permanent key |
| `KeyBreaker.KeyCircuitBreaker.RecordSuccess` | internal/circuitbreaker/key.go:132-143 | closes and clears all counters unless permanent |
| `KeyBreaker.KeyCircuitBreaker.Reset` | internal/circuitbreaker/key.go:148-156 | closes and clears everything, permanent disablement included |
| `KeyBreaker.KeyCircuitBreaker.Allow` | internal/circuitbreaker/key.go:159-173 | closed, or open and strictly after the end of the cooldown |
| `KeyBreaker.KeyCircuitBreaker.CooldownRemaining` | internal/circuitbreaker/key.go:205-221 | minus one exactly for permanent keys; positive exactly while an open key is cooling, and then it ends exactly at the recorded instant |
| `KeyBreakerRuns.TripsExactly` | internal/circuitbreaker/key.go:46-84 | over every run without explicit disablement, for every jitter: permanent exactly when some streak of failures since the last reset exceeded the first tripping attempt, always for exhausted quota; otherwise the attempt counter is the current streak |
| `KeyBreakerRuns.TripsOnFailureNumber` | internal/circuitbreaker/key.go:46-62 | without successes, failure number n + 1 is the one that gives the key up, whatever else happens in between |
| `KeyBreakerRuns.NeverTrips` | internal/circuitbreaker/key.go:46-62 | with a multiplier of at most one and a base below the cap no run of operations other than disablement ever makes the key permanent |
| `KeyBreakerRuns.CanTrip` | internal/circuitbreaker/key.go:46-62 | some run makes the key permanent exactly when the multiplier exceeds one or the base reaches the cap |
| `KeyBreakerRuns.RawBounded` | internal/circuitbreaker/key.go:54-61 | in every reachable state the raw backoff is below multiplier * (cap + base) |
| `KeyBreakerRuns.AttemptNotTripped` | internal/circuitbreaker/key.go:60-83 | the attempt counter only ever moves past attempts that stayed below the cap |
| `KeyBreakerRuns.BackoffFitsInt64` | internal/circuitbreaker/key.go:55 | when that bound fits a signed 64-bit integer, neither the truncated power nor its product with the base overflows |
| `KeyBreakerRuns.CooldownBounds` | internal/circuitbreaker/key.go:60-83 | a failure that does not trip blocks the key for at least the raw backoff and at most the cap and one and a half times the raw backoff, up to and including the last instant |
| `KeyBreakerRuns.FailureBlocks` | internal/circuitbreaker/key.go:46-84 | for every breaker and every jitter: how long a failure blocks the key, what it reports, and when it gives the key up |
| `KeyBreakerRuns.JitterReaches` | internal/circuitbreaker/key.go:63-71 | the random jitter takes every value below half of the raw cooldown, and an override decides instead, from the attempt |
| `KeyBreakerRuns.ForcedCooldownBlocks` | internal/circuitbreaker/key.go:117-128 | a forced cooldown blocks every key that is not permanent, a closed one too, until exactly the later of its end and the recorded one |
| `KeyBreakerRuns.SuccessStartsOver` | internal/circuitbreaker/key.go:132-156 | after a success (unless permanent) or a reset the key is allowed at once, without failures, and its next cooldown counts alone |
| `KeyBreakerRuns.DisablementBlocks` | internal/circuitbreaker/key.go:107-112 | an explicit disablement blocks at every time, with the reason given |
| `KeyBreakerRuns.CooldownHolds` | internal/circuitbreaker/key.go:117-128 | a cooldown survives every mix of availability checks, forced cooldowns and disablements |
| `KeyBreakerRuns.ReasonIffPermanent` | internal/circuitbreaker/key.go:107-112 | over every run a reason is recorded exactly while the key is permanent, and a key is never half open |
| `KeyBreakerRuns.PermanentIsFrozen` | internal/circuitbreaker/key.go:89-143 | a permanent key is not changed in any field by failures, successes or cooldowns |
| `KeyBreakerRuns.AuthLimitAtThreshold` | internal/circuitbreaker/key.go:86-104 | the next authentication failure asks for disablement exactly when it is the threshold-th in a row, the first if no threshold is set |
| `UpstreamBreaker.UpstreamCircuitBreaker.constructor` | internal/circuitbreaker/upstream.go:24-30 | a new breaker is closed without failures |
| `UpstreamBreaker.UpstreamCircuitBreaker.RecordFailure` | internal/circuitbreaker/upstream.go:36-54 | counts while closed and opens at the threshold; reopens from half open with one failure; no effect while open |
| `UpstreamBreaker.UpstreamCircuitBreaker.RecordSuccess` | internal/circuitbreaker/upstream.go:58-64 | closes from every state; the probe flag is left as it is |
| `UpstreamBreaker.UpstreamCircuitBreaker.Allow` | internal/circuitbreaker/upstream.go:72-95 | grants when closed, once when the reset timeout has strictly passed, and in half open only if the probe is unused |
| `UpstreamBreaker.UpstreamCircuitBreaker.SetThreshold` | internal/circuitbreaker/upstream.go:113-117 | changes the threshold and nothing else |
| `UpstreamBreaker.UpstreamCircuitBreaker.SetResetTimeout` | internal/circuitbreaker/upstream.go:121-125 | changes the timeout and nothing else |
| `UpstreamBreaker.UpstreamCircuitBreaker.Reset` | internal/circuitbreaker/upstream.go:129-135 | closes and clears failures and the probe flag |
| `UpstreamBreakerRuns.RefinesHistory` | internal/circuitbreaker/upstream.go:36-64 | closed exactly while no failure since the last success or reset met the threshold then in force; while closed the counter is the number of those failures; half open only with the probe used |
| `UpstreamBreakerRuns.OpensAtThreshold` | internal/circuitbreaker/upstream.go:38-44 | with a fixed threshold: closed exactly while fewer than that many failures followed the last success or reset |
| `UpstreamBreakerRuns.OpenSinceFailure` | internal/circuitbreaker/upstream.go:36-54 | over every run, an open breaker was opened by a failure recorded while it was closed or half open, has been open ever since, and grants exactly when more than the timeout in force has passed since that failure |
| `UpstreamBreakerRuns.OpenGrantsExactly` | internal/circuitbreaker/upstream.go:78-84 | with a fixed timeout: it grants exactly when more than the timeout has passed since the failure that opened it |
| `UpstreamBreakerRuns.FailureCounts` | internal/circuitbreaker/upstream.go:36-64 | the count goes up by one while closed, is one after a failed probe, stays while open, and is cleared by successes and resets |
| `UpstreamBreakerRuns.GrantsFarApart` | internal/circuitbreaker/upstream.go:72-95 | two grants with no closed state in between have a recorded failure between them, and the later comes more than a reset timeout after that failure and after the earlier grant |
| `UpstreamBreakerRuns.ProbeRate` | internal/circuitbreaker/upstream.go:72-95 | in a stretch that is never closed, the time between a first and a last grant exceeds the number of grants less one times the reset timeout |
| `UpstreamBreakerRuns.UsedProbeWaits` | internal/circuitbreaker/upstream.go:86-91 | a used probe blocks every request until an outcome is recorded or the breaker is reset, whatever the time and the parameters |
| `Rotation.CyclicFirstNearest` | internal/keypool/keypool.go:97-105 | the scan finds nothing exactly when nothing is allowed, and otherwise the allowed slot nearest after the start |
| `Rotation.CyclicScanOrder` | internal/keypool/keypool.go:253-261 | the scan lists exactly the allowed slots, each once, nearest first |
| `Rotation.RotationIsScan` | internal/keypool/keypool.go:214-240 | filtering in index order and rotating by slice copies gives exactly the cyclic scan, for every start and every pattern |
| `Rotation.LowestIsFirstLeast` | internal/keypool/keypool.go:270-279 | the strict comparison keeps the first of the candidates with the least rate |
| `Polling.ServedWithinN` | internal/keypool/keypool.go:88-106 | a key that stays available is chosen within n selections of any point of a run, whatever patterns the other keys show |
| `Polling.LeadIsPosition` | internal/keypool/keypool.go:88-106 | the difference between the counts of two always available keys is a function of the scan position alone |
| `Polling.FairShare` | internal/keypool/keypool.go:88-106 | two always available keys are chosen equally often, give or take one |
| `KeyPool.KeyPool.constructor` | internal/keypool/keypool.go:40-62 | one row per key, missing names empty, breakers without parameters |
| `KeyPool.KeyPool.SetSelectionMode` | internal/keypool/keypool.go:66-70 | changes the strategy and nothing else |
| `KeyPool.KeyPool.SelectKey` | internal/keypool/keypool.go:75-84 | dispatches to the configured strategy, polling by default; reserves nothing |
| `KeyPool.KeyPool.SelectKeyPolling` | internal/keypool/keypool.go:88-106 | hands out the first allowed key from the polling position and moves the position past it |
| `KeyPool.KeyPool.SelectKeyRandom` | internal/keypool/keypool.go:112-138 | hands out the first least loaded allowed key and changes nothing |
| `KeyPool.KeyPool.AdvanceCounter` | internal/keypool/keypool.go:200-202 | the counter goes up by one with 64-bit wrap-around |
| `KeyPool.KeyPool.AvailableKeys` | internal/keypool/keypool.go:207-241 | the filter-and-rotate code returns the plain cyclic scan from the counter position |
| `KeyPool.KeyPool.Next` | internal/keypool/keypool.go:246-282 | reserves and hands out the first least loaded free key in rotation order, and counts the call |
| `KeyPool.KeyPool.RequestsInLastMinute` | internal/keypool/keypool.go:286-295 | the number of recorded times strictly within the last sixty seconds |
| `KeyPool.KeyPool.CleanupOldRequests` | internal/keypool/keypool.go:298-307 | drops exactly the older times of that key |
| `KeyPool.KeyPool.IncrementRequestCount` | internal/keypool/keypool.go:572-578 | drops the older times, appends the current one and notes the last use |
| `KeyPool.KeyPool.Cooldown` | internal/keypool/keypool.go:311-328 | forces a cooldown on one key; an index out of range is an error and changes nothing |
| `KeyPool.KeyPool.Disable` | internal/keypool/keypool.go:332-347 | one key becomes permanent for the reason "manual" |
| `KeyPool.KeyPool.Enable` | internal/keypool/keypool.go:352-368 | one key is cleared of disablement and cooldown |
| `KeyPool.KeyPool.RecordFailure` | internal/keypool/keypool.go:413-419 | a rate limit changes the breaker of that key only; out of range, nothing |
| `KeyPool.KeyPool.RecordAuthFailure` | internal/keypool/keypool.go:422-428 | an authentication failure changes the breaker of that key only |
| `KeyPool.KeyPool.RecordSuccess` | internal/keypool/keypool.go:431-437 | a success changes the breaker of that key only |
| `KeyPool.KeyPool.Release` | internal/keypool/keypool.go:442-448 | clears the reservation of that key only; out of range, nothing |
| `KeyPool.KeyPool.IsDisabled` | internal/keypool/keypool.go:372-379 | permanent disablement; false out of range |
| `KeyPool.KeyPool.CountActive` | internal/keypool/keypool.go:451-461 | the number of keys that are not permanent |
| `KeyPool.KeyPool.AnyActive` | internal/keypool/keypool.go:464-473 | some key is not permanent |
| `KeyPool.KeyPool.ConfigureCBs` | internal/keypool/keypool.go:384-399 | every breaker is new with the given parameters; only permanent disablement and its reason survive |
| `KeyPool.KeyPool.AddKey` | internal/keypool/keypool.go:581-598 | appends one row; all other rows keep key, name, breaker, history and reservation together |
| `KeyPool.KeyPool.RemoveKey` | internal/keypool/keypool.go:601-624 | removes one row from every slice; all other rows stay aligned |
| `PoolRuns.NextPicksLeastLoaded` | internal/keypool/keypool.go:253-281 | Next fails exactly when every allowed key is reserved; otherwise its key has the least rate among the free ones and comes first in rotation order among ties |
| `PoolRuns.RandomPicksLeastLoaded` | internal/keypool/keypool.go:108-138 | the "random" strategy picks the allowed key with the least rate, the lowest index among ties |
| `PoolRuns.SelectFindsAllowed` | internal/keypool/keypool.go:72-138 | in either mode a selected key allows a request, and selection fails exactly when none does |
| `PoolRuns.SelectionsCoincide` | internal/keypool/keypool.go:72-106 | two selections with nothing in between pick the same key always in "random" mode at one instant, and in polling mode exactly when the key allows a request the second time and no other key does |
| `PoolRuns.AvailableKeysOrder` | internal/keypool/keypool.go:207-241 | after a Next, AvailableKeys lists exactly the allowed keys in the order in which that Next scanned |
| `PoolRuns.NextRotates` | internal/keypool/keypool.go:253 | each Next starts one slot further on, exactly as long as the 64-bit counter does not wrap around or the number of keys divides its range |
| `PoolRuns.NextIsExclusive` | internal/keypool/keypool.go:243-282 | without release or resizing in between, two calls of Next never hand out the same key, whatever else happens |
| `PoolEffects.SelectPicks` | internal/keypool/keypool.go:75-138 | which key a selection picks, mode by mode, in terms of what the keys allow, their rates and the polling position |
| `PoolEffects.SelectMoves` | internal/keypool/keypool.go:75-138 | a selection moves the polling position behind its pick and changes nothing else; in "random" mode nothing at all |
| `PoolEffects.NextReserves` | internal/keypool/keypool.go:246-282 | Next counts its call with 64-bit wrap-around, reserves the key it hands out and changes no other key |
| `PoolEffects.BreakerOperations` | internal/keypool/keypool.go:311-437 | each operation reaches the breaker of the key named, as its own operation, and nothing else; without such a key nothing happens |
| `PoolEffects.ReleasedIsAvailable` | internal/keypool/keypool.go:442-448 | a release gives back one reservation, and the key can be handed out again: it is what Next picks if nothing else was available |
| `PoolEffects.CountingRequests` | internal/keypool/keypool.go:298-307 | counting a request raises the rate of one key by one and notes its use; pruning changes no rate and keeps no time sixty seconds old |
| `PoolEffects.ReconfiguredKeys` | internal/keypool/keypool.go:384-399 | every key gets base, cap and multiplier in their places and starts over, unless permanently disabled |
| `PoolEffects.AddedKey` | internal/keypool/keypool.go:581-598 | the new key comes last, unused and ready; the others stay |
| `PoolEffects.RemovedKey` | internal/keypool/keypool.go:601-624 | all that belongs to a later key moves down with it |
| `PoolEffects.NewPoolKeys` | internal/keypool/keypool.go:40-62 | the keys in order, ready and unused, with their names if they have one |
| `PoolEffects.ActiveCountIs` | internal/keypool/keypool.go:451-461 | the count is the number of keys that are not permanent |
| `PoolRuns.PollingRefinesScan` | internal/keypool/keypool.go:88-106 | a run of the pool polls exactly as the abstract ring scan over the availability it saw |
| `PoolRuns.AlwaysAllowedIsServed` | internal/keypool/keypool.go:88-106 | in every run with n selections over n keys, a key allowed at each of them is chosen |
| `PoolRuns.PollingIsFair` | internal/keypool/keypool.go:88-106 | in every run, two keys allowed at each selection are chosen equally often, give or take one, whatever the other operations do |
| `PoolRuns.PoolStaysCoherent` | internal/keypool/keypool.go:384-399 | in every reachable pool a key has a reason exactly while permanent, and then "manual" or "quota_exhausted", is never half open and has no authentication threshold |
| `PoolRuns.ManualDisablementStays` | internal/keypool/keypool.go:332-399 | a key disabled as "manual" stays so, with its key and name, through every run, tracked through the removal of others, until it is enabled or removed itself; probes and reconfigurations do not revive it |
| `PoolRuns.DisablementStays` | internal/keypool/keypool.go:332-399 | a key disabled for any reason stays disabled through every run without a successful probe, until enabled or removed; its reason survives reconfiguration unless it is disabled by hand |
| `PoolRuns.PlaceHoldsKey` | internal/keypool/keypool.go:601-624 | over every run a key keeps its name, at the position that the removal of others moves it to |
| `PoolRuns.PlaceKeptExactly` | internal/keypool/keypool.go:601-624 | a key keeps its position through a run exactly when the run removes no key at or before that position; otherwise it moves down or is gone |
| `PoolRuns.AddedKeyTripsAtOnce` | internal/keypool/keypool.go:581-586 | a key added at run time is given up by its first rate limit |
| `PoolRuns.PruningKeepsLastMinute` | internal/keypool/keypool.go:286-307 | over every run with non-decreasing history times, additions and removals of keys included, the pruned history gives the same last-minute count as the full log of increments |
| `Decimal.AtoiOfItoa` | internal/cli/key.go:1029-1064 | parsing a printed number gives the number back |
| `Window.RecentAppend` | internal/keypool/keypool.go:298-307 | pruning is a filter that looks at each time alone and keeps the order |
| `Window.RecentOne` | internal/keypool/keypool.go:298-307 | a single time stays exactly when it is strictly after the cutoff |
| `Window.LastMinuteCounts` | internal/keypool/keypool.go:286-295 | the count is the number of requests made less than sixty seconds ago |
| `Decimal.ItoaShape` | internal/cli/key.go:1062 | a printed number has no leading zero |
| `Decimal.MagnitudeSnoc` | internal/cli/key.go:1030 | each further digit multiplies the value by ten and adds its own |
| `Decimal.AtoiAccepts` | internal/cli/key.go:1030 | exactly an optional sign and digits are accepted, with their value |
| `Naming.LastIndexByte` | internal/cli/key.go:1029 | the last position of the byte, or minus one |
| `Naming.NumberingOfWithNumber` | internal/cli/key.go:1029-1036 | a generated name splits at its last dash into exactly its base and number |
| `Naming.ScanStore` | internal/cli/key.go:1022-1038 | for every base, the largest number that the store gives it |
| `Naming.CountNames` | internal/cli/key.go:1040-1046 | for every non-empty name, how often it occurs in the batch |
| `Naming.StartNumbers` | internal/cli/key.go:1049-1056 | repeated names start from the largest number in the store, in whatever order the map is walked |
| `Naming.AutoNumberNames` | internal/cli/key.go:1019-1067 | rewrites the batch in place: same length, every key and flag kept; a name that is empty or occurs once stays; the k-th of several gets its name, a dash and k plus the largest number that the store has for it, an attained maximum or zero |
| `Naming.NumberingIs` | internal/cli/key.go:1029-1036 | a store name counts for a base exactly when it is the base, a dash and a numeral without a dash |
| `Naming.MaxSuffixIsLargest` | internal/cli/key.go:1022-1038 | the number found is an upper bound of the numbers of the base, and one of them or zero |
| `Naming.NumberedIsRight` | internal/cli/key.go:1057-1066 | the numbering that the array ends up with is right, stated through the batch and the store alone |
| `Naming.GeneratedNotInStore` | internal/cli/key.go:1049-1066 | no generated name occurs in the store |
| `Naming.GeneratedDistinct` | internal/cli/key.go:1057-1066 | generated names are pairwise distinct over the whole batch |
| `Naming.NamesDistinctIff` | internal/cli/key.go:1014-1067 | all names of the numbered batch are distinct exactly when no name left as it is takes one of the numbers about to be given out |
| `Naming.ClashWithUnnumbered` | internal/cli/key.go:1048-1066 | a batch of three keys in which a generated name equals a name left as it is |
| `Naming.DedupEntries` | internal/cli/key.go:993-1012 | keeps the first occurrence of every key that the store does not hold live; kept and skipped add up to the batch |
| `Naming.FirstNewSound` | internal/cli/key.go:991-1012 | what is kept comes from the batch, is new to the store and has distinct keys |
| `Naming.FirstNewCovers` | internal/cli/key.go:1004-1011 | the entries kept are exactly, for each key of the batch that is not live in the store, the first entry with that key |
| `Naming.FirstNewInOrder` | internal/cli/key.go:1004-1011 | the entries kept stay in the order of the batch |
| `Naming.ImportKeepsKeysDistinct` | internal/cli/key.go:301-302 | an import never makes two live keys of the store equal |
| `Naming.ImportMakesKeysLive` | internal/cli/key.go:301-302 | an import adds exactly the keys that are not live yet and whose first entry in the batch is undeleted; all keys of store and batch are live exactly when no such first entry is deleted |
| `Naming.DeletedFirstHidesKey` | internal/cli/key.go:1004-1011 | a batch whose deleted first entry hides a later undeleted one: no key is live after its import |
| `Sse.StreamSSE` | internal/server/proxy_executor.go:433-494 | forwards the delivered lines; exactly when none had a marker and something was forwarded, the error event and then the stop event follow, with their literal text |
| `Sse.CheckComplete` | internal/server/proxy_executor.go:526-534 | a body is complete exactly when it is not empty and contains a terminal marker anywhere |
| `Sse.ForwardsLine` | internal/server/proxy_executor.go:441-463 | line by line: below one mebibyte a line is forwarded without its carriage return and with a newline; from a longer one on nothing is |
| `Sse.StreamedIs` | internal/server/proxy_executor.go:486-520 | what an event stream becomes: the forwarded lines, completed by the literal error and stop events exactly when needed |
| `Sse.CompleteMeans` | internal/server/proxy_executor.go:526-534 | a stream is complete when one of the two literal markers occurs in it |
| `Sse.FlagIsMarkerInDelivered` | internal/server/proxy_executor.go:446-452 | the line-by-line flag equals the whole-body test applied to the part of the body that the scanner delivers |
| `Sse.InjectsIffIncomplete` | internal/server/proxy_executor.go:486-494 | when all lines fit the buffer, events are appended exactly when the body is non-empty and the buffered test would reject it |
| `Sse.DisagreesOnLongLinesOnly` | internal/server/proxy_executor.go:441-442 | streaming gives up on a complete body exactly when all its markers lie at or behind the first line that does not fit |
| `Sse.ClientStreamIsComplete` | internal/server/proxy_executor.go:486-494 | whatever the upstream sends, a client that receives anything receives a stream that is complete |
| `Sse.ForwardsVerbatim` | internal/server/proxy_executor.go:463-469 | a body without carriage returns whose lines fit reaches the client unchanged, up to a final newline |
| `Calibration.Calibrator.constructor` | internal/tracker/calibration.go:31-39 | a window below three becomes three |
| `Calibration.Calibrator.Record` | internal/tracker/calibration.go:44-67 | skips samples that are not positive; otherwise appends and trims that model only |
| `Calibration.Calibrator.Ratio` | internal/tracker/calibration.go:71-88 | one below three samples, else the upper median of the ratios |
| `Calibration.Calibrator.Apply` | internal/tracker/calibration.go:92-102 | the rounded product, never negative once a ratio other than one applies |
| `Calibration.Calibrator.ResetModel` | internal/tracker/calibration.go:105-109 | forgets one model only |
| `Calibration.SortedIsSort` | internal/tracker/calibration.go:81-85 | the sorted ratios are the ascending rearrangement of the ratios |
| `Calibration.WindowIsLastAccepted` | internal/tracker/calibration.go:44-67 | over every run the window of each model is exactly its last accepted samples since its last reset, in order |
| `Calibration.MajorityHoldsRatio` | internal/tracker/calibration.go:69-88 | any interval holding more than half of at least three ratios holds the calibration ratio |
| `Calibration.AppliedNearProduct` | internal/tracker/calibration.go:92-102 | for non-negative estimates the result is within one half of the exact product |
| `Calibration.AppliedMonotone` | internal/tracker/calibration.go:92-102 | a larger estimate never gets a smaller result, for all integers |
| `Calibration.RatioIsUpperMedian` | internal/tracker/calibration.go:71-88 | the ratio of some sample, with more than half of all at or below it and at least half at or above it; one below three samples |
| `Calibration.SampleRatio` | internal/tracker/calibration.go:48-54 | the ratio of a sample turns its estimate into its actual count |
| `Calibration.LastNIsSuffix` | internal/tracker/calibration.go:60-64 | trimming keeps the last samples |
| `Calibration.AppliedIs` | internal/tracker/calibration.go:92-102 | exactly: the nearest integer of the product, a half up, zero for a negative product, and the estimate itself for a ratio of one |
| `Calibration.CalibrationIsRobust` | internal/tracker/calibration.go:44-102 | end to end: after any run, a majority of ratios between two bounds confines every scaled estimate to those bounds, up to one half |
| `KeyStore.KeysFromStore` | internal/keypool/store.go:287-297 | keys and names of the entries that are not deleted, in order |
| `KeyStore.LoadDisabledNames` | internal/keypool/store.go:322-335 | names of the disabled entries, deleted ones included, in order |
| `KeyStore.DisabledNamesAre` | internal/keypool/store.go:328-334 | a name is listed exactly when some disabled entry has it |
| `KeyStore.StoreIndexToPoolIndex` | internal/cli/key.go:459-467 | the number of live entries before the index |
| `KeyStore.PoolIndexFindsEntry` | internal/cli/key.go:456-467 | a live entry is loaded at the position that its store index maps to |
| `KeyStore.PoolIndexOntoOnce` | internal/cli/key.go:456-467 | every pool position belongs to exactly one live store entry |
| `KeyStore.MergeInsecureKeys` | internal/keypool/store.go:300-319 | appends the plaintext entries whose key the growing store lacks |
| `KeyStore.MergeAddsMissing` | internal/keypool/store.go:298-319 | merging keeps the store as a prefix, adds every missing key once and nothing else |
| `KeyStore.MergedIsLive` | internal/keypool/store.go:300-319 | a merge leaves exactly these keys live: those live in the store, and those the store lacks altogether whose first plaintext entry is undeleted |
| `KeyStore.MergeInOrder` | internal/keypool/store.go:300-319 | entries are merged one after another, in their order |
| `KeyStore.DisabledInOrder` | internal/keypool/store.go:328-334 | the names of disabled entries are listed in the order of the entries |
| `KeyStore.DeletedStaysOut` | internal/keypool/store.go:300-319 | one merge does not revive a key that the store has deleted |
| `Provider.ProviderState.constructor` | internal/server/router.go:36-81 | breakers are set up from the configuration, with defaults for parameters that are not positive; the base cooldown has none |
| `Provider.ProviderState.PersistKeys` | internal/server/router.go:94-104 | saves one entry per key of the pool with its disabled state; a failed save changes nothing |
| `Provider.ProviderState.ReloadConfig` | internal/server/provider_manager.go:109-126 | the pool is rebuilt from the merged store and configured, and every key whose name the store marks disabled is disabled again |
| `Provider.PersistedIs` | internal/server/router.go:94-104 | what a save writes, entry by entry |
| `Provider.ConfigAfterReload` | internal/server/provider_manager.go:104-110 | the new configuration is taken over whole, except that stored keys replace its keys and names |
| `Provider.ReloadedAsConfigured` | internal/server/provider_manager.go:109-126 | the pool of a reload selects as configured; its keys have no past and breakers with the configured base, cap and multiplier in their places |
| `Provider.DefaultsReplace` | internal/server/router.go:36-81 | a default replaces every setting that is not positive, and no other |
| `Provider.PersistThenReload` | internal/server/provider_manager.go:98-126 | saving and reloading keeps every key and name in its place and every disabled key disabled, now as "manual"; the disabled set is the same exactly when no enabled key shares its name with a disabled one |
| `Provider.ReloadPlacesEntry` | internal/cli/key.go:456-467 | the pool of a reload holds every live entry of the store, key and name, at the position its store index maps to, whatever is merged behind; it is disabled exactly when its name is a disabled one |
| `Provider.UnnamedShareDisablement` | internal/server/provider_manager.go:118-125 | of two keys without a name one is disabled; after saving and reloading both are |
| `Provider.KeysAfterSaveAndReload` | internal/server/router.go:94-104 | after a save and a reload a key is in the pool exactly when it was in the saved pool or its first plaintext entry is undeleted |
| `Provider.DeletedComesBack` | internal/server/router.go:94-104 | a key that the store has deleted is absent after one reload, and back after the next save and reload exactly when its first plaintext entry is undeleted |
| `Provider.DeletedComesBackEnabled` | internal/server/router.go:94-104 | a deleted key with a plaintext copy: absent after the first reload, present and enabled after the second |
| `Provider.DistinctNamesRoundTrip` | internal/server/provider_manager.go:98-126 | with distinct names and one store, saving after the reload writes what was saved before it |
| `Provider.EmptyPoolRevives` | internal/server/provider_manager.go:103-111 | a pool saved empty comes back with the keys of the configuration, all enabled |
| `Lifecycle.ProbeTick` | internal/server/lifecycle.go:311-339 | one tick clears exactly the keys disabled for exhausted quota or a lost reason that answered 200, and touches nothing else |
| `Lifecycle.HealthCheck` | internal/server/lifecycle.go:230-242 | any answer below 500 is a success of the upstream, everything else a failure |
| `Lifecycle.HealthCheckResolvesProbe` | internal/server/lifecycle.go:230-242 | a health check always ends half open: closed, or open and granting again exactly after the reset timeout |
| `Lifecycle.ProbeMeans` | internal/server/lifecycle.go:311-339 | an answer of 200 lets a key disabled for exhausted quota or for a lost reason start over; nothing else changes anything |
| `Lifecycle.TickRevivesExhausted` | internal/server/lifecycle.go:315-337 | from every reachable pool a tick re-enables exactly the keys that were disabled for exhausted quota and answered 200 |
| `Lifecycle.TickAfterReload` | internal/server/router.go:264 | a probe keeps the pool it was started with: its tick after a reload changes the old pool and leaves the new one as the reload built it |
| `Lifecycle.ReloadEndsProbing` | internal/server/provider_manager.go:114-126 | a key of a reloaded pool that is disabled at any point of any later run stays disabled until enabled by hand or removed, also when it was given up for exhausted quota |
| `Lifecycle.ReloadForgetsReason` | internal/server/lifecycle.go:315-321 | a permanent key that was saved and reloaded would be skipped by a probe of the new pool too, in any later run, until enabled or removed |
| `Executor.BackOff` | internal/server/proxy_executor.go:189-199 | records the failure and cools for the longer of the own cooldown and the requested delay plus two seconds |
| `Executor.HandleRateLimited` | internal/server/proxy_executor.go:183-212 | penalises the key and answers ALL_KEYS_INVALID exactly when it was the last active one and is now permanent |
| `Executor.HandleAuthRejected` | internal/server/proxy_executor.go:217-237 | disables and saves at the limit, and answers ALL_KEYS_INVALID exactly when no key is active |
| `Executor.HandleSuccess` | internal/server/proxy_executor.go:285-374 | commits, credits and counts, or asks for a retry of an incomplete buffered stream with no effect at all |
| `Executor.HandleTransportError` | internal/server/proxy_executor.go:112-126 | releases the key; counts against the upstream unless the client has given up |
| `Executor.HandleResponse` | internal/server/proxy_executor.go:129-159 | dispatches on the status in the order of the source |
| `Executor.HandleReply` | internal/server/proxy_executor.go:112-159 | a transport error or a response: the whole new state and what is written to the client |
| `Executor.SelectAndSend` | internal/server/proxy_executor.go:86-112 | without a key answers invalid or cooling by whether any key is active; otherwise sends |
| `Executor.RunRound` | internal/server/proxy_executor.go:78-84 | a refused round does nothing else |
| `Executor.Retry` | internal/server/proxy_executor.go:78-175 | the loop over objects refines the round-by-round semantics on values |
| `Executor.Execute` | internal/server/proxy_executor.go:38-175 | the whole request: state of pool, upstream breaker and store, and everything written to the client |
| `ExecutorRuns.OneAnswer` | internal/server/proxy_executor.go:38-175 | exactly one answer per request, none exactly when the client aborts; at most one round per retry; EXHAUSTED_RETRIES only after using all of them |
| `ExecutorRuns.SendsAreLicensed` | internal/server/proxy_executor.go:78-112 | every send happens in a round that the upstream breaker granted, with a key whose breaker allowed it |
| `ExecutorRuns.KindsAre` | internal/server/proxy_executor.go:129-159 | the dispatch as ranges of status codes |
| `ExecutorRuns.KeysAnswerForTheirOwn` | internal/server/proxy_executor.go:128-160 | the key breakers end exactly as a replay of only the 429s, the 401s and 403s and the committed successes would leave them |
| `ExecutorRuns.UpstreamAnswersForItself` | internal/server/proxy_executor.go:78-160 | the upstream breaker ends exactly as a replay of only its Allow calls, transport errors, server errors other than 501 and committed successes would leave it |
| `ExecutorRuns.CodesAreSound` | internal/server/proxy_executor.go:86-98 | ALL_KEYS_INVALID exactly when the request ends on the keys with all of them permanent; ALL_KEYS_COOLING exactly when a selection failed with some key active, and then none allows a request |
| `ExecutorRuns.AnswerIs` | internal/server/proxy_executor.go:38-175 | the whole answer of a request, with status, error code and body, as a function of its last event and of whether every key is then permanent |
| `ExecutorRuns.PlainResponsesArePassed` | internal/server/proxy_executor.go:320-359 | a response below 400 that is no event stream reaches the client with its status and body, empty if it could not be read |
| `ExecutorRuns.ClientErrorsArePassed` | internal/server/proxy_executor.go:258-264 | a client error other than 401, 403 and 429, and a 501, reaches the client with its status and body |
| `ExecutorRuns.RoundTouches` | internal/server/proxy_executor.go:78-160 | what a round changes about reservations, last use, the store and the polling position, and that key and name stay |
| `ExecutorRuns.ReservationsGivenBack` | internal/server/proxy_executor.go:112-115 | a request gives back the reservations of exactly the keys whose sends broke off, and takes none |
| `ExecutorRuns.StoreKept` | internal/server/proxy_executor.go:222-230 | a request without a rejection leaves the store as it was |
| `ExecutorRuns.RejectedKeysAllTried` | internal/server/proxy_executor.go:214-237 | with closed active keys, a closed upstream and only 401 or 403 replies, each active key is sent exactly one request and no other key any, and then ALL_KEYS_INVALID is answered |
| `ExecutorRuns.GoodKeyIsFound` | internal/server/proxy_executor.go:78-160 | with closed active keys, a closed upstream and as many retries as active keys, one key that the upstream takes is enough for the request to be answered by the upstream, when every other key used gets a 401 or 403 |
| `ExecutorRuns.PollingReachesGoodKey` | internal/server/proxy_executor.go:78-160 | in polling mode with a closed upstream, one closed key that commits whenever it is used is enough, whatever the states of the others, when all other replies are 401, 403, 429 or incomplete buffered streams: the upstream answers within one round more than the slots between the polling position and that key |
| `ExecutorRuns.PermanentNeverUsed` | internal/server/proxy_executor.go:86-112 | no round of a request uses a permanently disabled key |
| `ExecutorRuns.RejectedKeyNotReused` | internal/server/proxy_executor.go:214-230 | within one request a key rejected with 401 or 403 is never sent again |
| `ExecutorRuns.OnlyCommitsCount` | internal/server/proxy_executor.go:292-374 | a request counts towards a key's rate at most once, and exactly when it ends in a response committed with that key |
| `ExecutorRuns.RejectionsAreSaved` | internal/server/proxy_executor.go:222-230 | when saving works, every key rejected during a request is disabled, and marked so in the store, once the request is over |
| `ExecutorRuns.RateLimitRests` | internal/server/proxy_executor.go:189-199 | exactly when a rate-limited key that was not given up allows requests again |
| `ExecutorRuns.RateLimitedKeyRests` | internal/server/proxy_executor.go:189-199 | within one request a rate-limited key is not used by a round that selects before the delay the upstream asked for, plus two seconds, is over |
| `ExecutorRuns.UsedProbeBlocks` | internal/server/proxy_executor.go:80-84 | while the upstream probe is used up a request sends nothing, changes nothing and exhausts its retries |
| `ExecutorRuns.ProbeLeftUsed` | internal/server/proxy_executor.go:80-159 | a request that finds the upstream breaker closed or open leaves it half open with its probe used exactly when some round is granted the probe of an open breaker and reports neither a failure nor a success |
| `ExecutorRuns.CommittedStreamsAreComplete` | internal/server/proxy_executor.go:285-362 | a client whose request ends in a committed event stream receives a complete one, or an empty one outside buffer mode |
| `RequestRuns.ServedReplays` | internal/server/proxy_executor.go:128-160 | over any sequence of requests the key breakers end as a replay of the counted sends of all of them |
| `RequestRuns.LimitsGiveUpExactly` | internal/server/proxy_executor.go:183-211 | end to end over any sequence of requests: a fresh key that is never rejected is given up exactly when it was limited with 429 more often between two of its commits than the first attempt that reaches the cap; nothing else matters |
| `ExecutorInterleaving.UndisturbedRound` | internal/server/proxy_executor.go:78-160 | a round that nobody disturbs is the sequential round |
| `ExecutorInterleaving.CourseEndsWithFirstDone` | internal/server/proxy_executor.go:78-162 | the rounds that take place are the first ones up to and including the first that is done; that one answers, or the retries are exhausted |
| `ExecutorInterleaving.AmidOthers` | internal/server/proxy_executor.go:38-175 | with other requests and administrators changing the shared state between the points of every round, removals and reloads included: one answer, or none exactly on a client abort or on a run-time error after a 429, 401 or 403; such an error exactly when a reply that counts for a key finds its position gone; licensed sends; each round marks at most the position it selected, and the upstream, as its reply deserves; the answer is the one due to the last event; error codes hold of the state that decided them |
| `ExecutorInterleaving.MarkFallsOnSelected` | internal/server/proxy_executor.go:112-160 | for every run of pool operations between selection and reply: the selected key, if still there, receives the mark of the reply exactly when no key at or before its position was removed meanwhile, and otherwise its breaker is not touched by the reply; a position is only gone after such a removal |
| `ExecutorInterleaving.WrongKeyDisabled` | internal/server/proxy_executor.go:217-224 | a key is removed between selection and reply, and the 401 disables a key that was never used |
| `ExecutorInterleaving.ReplyBehindTheEnd` | internal/server/proxy_executor.go:224-229 | a key is removed between selection and reply, the position is gone, and the 401 ends in a run-time error without an answer |

## Left out

- Finer interleaving than in `ExecutorInterleaving`: selecting a key and, when there is none, asking whether any is active is one step, and so is handling one reply. The replays and the reuse lemmas of `ExecutorRuns` speak of one request alone.
- After a run-time error: the model records what was written before it; what the HTTP server makes of the connection is not modelled.
- ExecutorInterleaving.AmidOthers: when a reload replaces the pool during a request, a transport error is modelled as a release in the new pool, where the program releases in the old one.
- Runtime changes of MaxRetries and of buffer mode while a request is running.
- Several clock readings within one operation: an operation has one instant, except that a 429 has one for the failure and one for the forced cooldown.
- Floating-point rounding in `math.Pow` and in the ratios; infinities and overflow of `time.Duration` beyond the bound of `BackoffFitsInt64`, and of a Retry-After delay.
- Overflow of name numbers beyond 64 bits, where the parser of the program gives up.
- Breakers with a test jitter installed inside a pool: the override exists on a single breaker, and pools only hold breakers without one.
- A client that stops reading in the middle of a stream; writes to the client succeed.
- Executor.Execute: does not model headers, metrics, log lines, error dumps, the rectifier or token accounting; the text of error messages is reduced to status and code.
- Sse.StreamSSE: a last line of exactly the buffer size without a newline counts as too long, although a reader that reports the end of the input together with its last bytes would deliver it.
- KeyStore.MergeInsecureKeys: returns the merged entries instead of growing the store object in place, so sharing of the underlying array is not captured.
- KeyPool.KeyPool.RemoveKey: the slices are values, so the program's in-place shift of an array that the configuration may share is not captured.
- KeyPool.KeyPool.ConfigureCBs: the new breakers are collected and then installed, instead of being replaced one by one.
- Provider.ProviderState.ReloadConfig: one provider with one store and one plaintext file; the order of storage backends, encryption and the keyring are not modelled.
- Lifecycle.ProbeTick: each key's turn is atomic; the program holds no lock between reading the reason, asking the upstream and enabling the key.
- Calibration.Sorted: stands for the library sort; it is an insertion sort, proved to be the ascending rearrangement.
- The startup probe and the periodic calibration request: they only combine operations modelled here.
- TimeUntilAvailable and status labels: a key whose cooldown ends exactly now is skipped by the first, so what its comment says is not true at that instant.
- Masking of sensitive data, URL building, JSON, TOML and CSV parsing, token estimation, command line and dashboard.
