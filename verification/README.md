# Traffic control of a reverse proxy: model and proofs

A reverse proxy decides, for every request, which route serves it, which backend of the route it
is sent to, what URL goes out, whether to try again, and whether the client may be served at all.
This project models that part of the proxy in Dafny and proves what it guarantees over whole runs.

The parts that work by updating state step by step (the pool, the breaker, the retry loop, the
limiter, the statistics collector, the transport cache, the SOCKS5 client, the normaliser of the
configuration) are classes and methods whose loops follow the Go code. Each method is proved
against a function of its inputs, and the theorems are lemmas about those functions over every
history. What runs concurrently (requests, response bodies and probes on one route; reloads and
health checkers) is a state machine over atomic steps, with an invariant of every reachable state.

| file | what it is about |
|---|---|
| `Text.dfy` | the string helpers of Go that the rest relies on |
| `Breaker.dfy`, `Backends.dfy`, `HealthChecks.dfy` | the breaker in a backend as a counter machine and as a reading of its history; the backend itself; one round of active checks |
| `Weighted.dfy`, `ChangingCandidates.dfy`, `Pools.dfy` | smooth weighted round robin as a theory of cursor maps, and its fairness while the candidates change; the pool, its candidates and its strategies |
| `RoundTrips.dfy`, `Traffic.dfy` | the retry loop of one request, on objects; many requests, bodies and probes interleaved |
| `Paths.dfy` | the URL rewrite, what retries make of it, and the domain carried in a path |
| `HotReload.dfy` | reloads side by side, their old limiters and the generations of the health checker |
| `Limiters.dfy`, `LimiterSteps.dfy` | token bucket, limiter per client, garbage collection of idle clients; the two steps of a call with sweeps in between |
| `Routes.dfy`, `Normalize.dfy`, `Dispatch.dfy` | the order of routes, the in-place normalisation, the choice of a route |
| `RingLog.dfy`, `SlidingWindow.dfy`, `RouteStats.dfy`, `Collectors.dfy` | access log, requests per second, counters per route, and the collector that keeps them |
| `TransportCache.dfy` | the proxy key and the reuse of transports |
| `Socks5.dfy` | the bytes of the SOCKS5 client and its handshake |

`dafny verify dfyconfig.toml` checks everything.

## Where the code does less than one would expect

Each of these is proved, with the exact condition under which the code does meet the expectation.

- A retry rewrites the URL that the attempt before it has already rewritten. Every attempt sends
  what a first attempt would send exactly when each earlier rewrite is *forgotten*, a test on
  route and base path (`Paths.RetryTrailPaths`); two base paths pile up (`Paths.BasePathsPileUp`).
- The route comparator is not asymmetric: it contradicts itself exactly on two routes of one
  priority where the one without a host has the longer path (`Routes.AsymmetricExactly`). Sorting
  or normalising a table again leaves its order alone exactly when no two of its routes are such a
  pair (`Routes.ResortingIsIdleExactly`, `Normalize.RenormalizingOnlyStampsExactly`). A table of
  just such a pair is turned round each time (`Routes.ClashingPairSwaps`).
- Collecting idle clients is invisible exactly when the burst is at most ten minutes' refill
  (`Limiters.CollectionInvisibleExactly`), as long as a call is one step. In the code it is two, and
  a sweep in between makes the limiter forget the draw exactly when the bucket was idle
  (`LimiterSteps.DrawIsRememberedExactly`); so a new client can be admitted once more than the burst
  at one moment (`LimiterSteps.OneTooMany`).
- Slots of the per-second window are cleared by arrivals only, so a reader after a quiet spell
  sees counts that are a minute old (`SlidingWindow.SnapshotExactly`, `SlidingWindow.StaleSlotShows`).
- A request reads the clock before it takes the collector's lock, so seconds can arrive out of order
  and counts get lost (`SlidingWindow.OvertakenReadingLosesCounts`); the window agrees with its
  history all along exactly when every arrival is harmless (`SlidingWindow.WindowAgreesExactly`).
- The health checker is reset outside the lock that swaps the routes. Once quiet, the checked
  pools are the served ones exactly when the reload that swapped last also renewed last, or neither
  of the two has anything to check (`HotReload.CheckedAreServedExactly`); two reloads side by side can miss that
  (`HotReload.OvertakenReload`), reloads one after the other cannot.
- The key of the transport cache leaves out the proxy timeout and joins fields with an unescaped
  `|` (`TransportCache.ReuseIsFaithfulExactly`, `TransportCache.KeyIdentifiesExactly`).
- With checks off, dead backends stay dead over a run exactly when every answer comes from a
  backend that is still alive when it answers (`Traffic.DeadStayDeadExactly`). Requests one by one
  always meet that (`Traffic.DeadStayDead`); a slow success of one request revives a backend that
  three others have just seen fail (`Traffic.LateSuccessRevives`).
- A domain carried in a path is split off again exactly when the route prefix is not the bare
  slash, for which the joining slash must not be doubled (`Paths.SplitUndoesJoin`).

Where code and documentation disagree the model follows the code:

- `internal/config/config.go:159` calls a larger route priority "more preferred" and
  `internal/config/config.go:479` says high priority matches first. Sorting does put it first,
  clashes or not (`Routes.SortGoesByPriority`), but dispatch goes by specificity: a catch-all route
  of priority 10 loses to `/api` of priority 0 (`Dispatch.PriorityLoses`). The highest priority wins
  exactly when some matching route has at once the highest priority and the highest specificity
  (`Dispatch.PriorityWinsExactly`).
- Section 2 of RFC 1929 asks for a user name and a password of at least one byte; the client sends
  an empty one when the server picks the method that was not offered, or when no password is
  configured (`Socks5.AuthMeetsStandardExactly`). The version byte of the server's answer is not
  checked either.

## Model

| member | source | states |
|---|---|---|
| Breaker.RunMeansHistory | internal/proxy/upstream.go:180-215 | over any history: alive exactly when the unforgiven failures are below the threshold, `fails` counts them, `okStreak` counts the good probes since the last failure |
| Breaker.StaysConsistent | internal/proxy/upstream.go:180-215 | every mark keeps "alive if and only if failures are below the threshold" |
| Breaker.Recovers | internal/proxy/upstream.go:197-206 | from any history, `passes` good probes with no failure among them revive the backend with a clean record |
| Breaker.Trips | internal/proxy/upstream.go:180-195 | from any history, as many failures in a row as the threshold kill the backend, and each is counted |
| Breaker.ThresholdsAgree | internal/proxy/engine.go:343-346 | retry loop and health checker kill at the same count exactly when the configured count is positive; with checks off the retry loop counts to 3, whatever is configured |
| Backends.Backend.constructor | internal/proxy/upstream.go:131-154 | a new backend is alive with level cursor and a positive weight |
| Backends.Backend.MarkFail | internal/proxy/upstream.go:180-195 | one more failure, the streak gone, dead from the threshold on; the error text is kept, cut to exactly its first 200 characters, and stays if there is no error |
| Backends.Backend.MarkOK | internal/proxy/upstream.go:197-206 | one more good probe in the streak; once it suffices the backend is alive with a clean record, and before that nothing else changes |
| Backends.Backend.MarkSuccess | internal/proxy/upstream.go:209-215 | one success clears failures and error text and leaves the streak alone |
| HealthChecks.Accepts | internal/proxy/upstream.go:396-405 | a status is accepted if it is listed, or below 400 when none is listed |
| HealthChecks.CheckOne | internal/proxy/upstream.go:365-411 | one backend of a round: a built-in one is cleared; without an answer or with an unwanted status one more failure is counted; a wanted status counts as a good probe; a probe that could not be made changes nothing |
| HealthChecks.Check | internal/proxy/upstream.go:364-412 | one round judges every backend of the pool exactly once, by its own probe |
| HealthChecks.RoundsAreEvents | internal/proxy/upstream.go:364-412 | a run of rounds is the breaker's run over the events those rounds amount to |
| HealthChecks.ChecksRevive | internal/proxy/upstream.go:364-412 | whatever the history, `passes` accepted rounds in a row leave a backend alive with a clean record, and one round does so for a built-in one |
| HealthChecks.ChecksKill | internal/proxy/upstream.go:390-410 | whatever the history, every round without an answer or with an unwanted status is counted, and `fails` of them in a row leave the backend dead |
| HealthChecks.NoRequestChangesNothing | internal/proxy/upstream.go:384-387 | a round in which no request could be made changes nothing |
| Weighted.LoopStep | internal/proxy/upstream.go:286-292 | one turn of the loop extends cursors, total and first-greatest candidate by exactly one candidate |
| Weighted.BestIsFirstMax | internal/proxy/upstream.go:289-291 | the chosen candidate has the greatest cursor, and every candidate before it a smaller one |
| Weighted.PickIsGreatest | internal/proxy/upstream.go:286-297 | the picked candidate has the greatest cursor after every candidate got its weight |
| Weighted.PickConserves | internal/proxy/upstream.go:281-298 | a pick keeps the sum of the cursors, over its candidates and over any pool around them |
| Weighted.PickKeepsFloor | internal/proxy/upstream.go:281-298 | a pick keeps every floor under the cursors that is low enough for the average candidate to pay a whole turn |
| Weighted.WinnerCanPay | internal/proxy/upstream.go:286-297 | under such a floor the picked candidate has a whole turn to spare before it pays |
| Weighted.LevelIsFloored | internal/proxy/upstream.go:281-298 | for candidates whose cursors sum to zero, one above minus the total weight is such a floor |
| Weighted.UnlevelSinks | internal/proxy/upstream.go:281-298 | without a zero sum a pick can take a cursor down to minus the total weight |
| Weighted.PlayConserves | internal/proxy/upstream.go:236-298 | over any run in which the candidates change from call to call, the cursors of the pool keep their sum |
| Weighted.PlayLedger | internal/proxy/upstream.go:236-298 | over any such run, a cursor is what it was plus what the backend earned as a candidate minus what it paid when picked |
| Weighted.FixedLedger | internal/proxy/upstream.go:281-298 | for k calls over one candidate set from any cursors: W times the picks of x is k times its weight plus its cursor before minus after |
| Weighted.FixedFloor | internal/proxy/upstream.go:281-298 | over k calls over one candidate set the cursors keep their sum and every such floor |
| Weighted.FixedCeiling | internal/proxy/upstream.go:281-298 | over k calls no cursor rises above the sum of the cursors less n-1 floors |
| Weighted.FairFromAnywhere | internal/proxy/upstream.go:281-298 | from any cursors, as a change of the candidates leaves them, W times the picks of a backend stays for ever within fixed bounds of k times its weight |
| Weighted.FairAtEveryPrefix | internal/proxy/upstream.go:281-298 | at every prefix of k calls from level cursors, a backend is less than one turn ahead of its share k*w/W, by a margin that grows as W/n, and boundedly behind it |
| Weighted.ExactOverOneRound | internal/proxy/upstream.go:281-298 | W calls from level cursors pick every backend exactly as often as its weight and level all cursors again |
| ChangingCandidates.GroupAfterPick | internal/proxy/upstream.go:281-298 | if every group of k of the n backends has cursors that add up to at least minus W*k*(n-k), a pick among any candidates keeps that for every group |
| ChangingCandidates.StaysSpread | internal/proxy/upstream.go:236-298 | over any run from level cursors, however the candidates change, every group keeps that bound |
| ChangingCandidates.FairUnderChange | internal/proxy/upstream.go:236-298 | over any such run, what a backend earned as a candidate and what it paid when picked differ by at most W*(n-1), for ever |
| Pools.CandidatesMeaning | internal/proxy/upstream.go:237-260 | a candidate is alive and not excluded, and a backup only when no living primary is left; there is none exactly when all living backends are excluded |
| Pools.CandidatesLocal | internal/proxy/upstream.go:237-260 | the health of excluded backends does not matter |
| Pools.SelectInOrder | internal/proxy/upstream.go:238-255 | candidates stand in the order of the pool |
| Pools.WellPickedMeaning | internal/proxy/engine.go:351-360 | along a retry trail every backend is alive and new, and a backup only after every living primary |
| Pools.WellPickedDistinct | internal/proxy/engine.go:351-384 | a well-picked trail visits no backend twice and has at most as many entries as there are backends |
| Pools.OneTurnEach | internal/proxy/upstream.go:276 | a full turn of round robin is a rotation of the candidates, wherever the counter stood |
| Pools.TurnsGoOn | internal/proxy/upstream.go:276 | each call of round robin goes on where the one before left the counter |
| Pools.Fnv32 | internal/proxy/upstream.go:300-307 | the loop folds the 32-bit FNV-1a step over the bytes, within 32 bits |
| Pools.MixIsInjective | internal/proxy/upstream.go:302-305 | a step of the hash tells all bytes apart |
| Pools.KnownHashes | internal/proxy/upstream.go:300-307 | the published FNV-1a values of the empty text and of "a" |
| Pools.LoadsCompare | internal/proxy/upstream.go:264-266 | loads compare as connections times the other backend's weight |
| Pools.Pool.CandidatesByFields | internal/proxy/upstream.go:237-257 | candidates in terms of the fields: alive, not excluded, and a backup only if no living primary is left |
| Pools.Pool.constructor | internal/proxy/upstream.go:226-231 | an unnamed strategy becomes round robin, and the counter starts at zero |
| Pools.Pool.Scan | internal/proxy/upstream.go:238-256 | one pass lists, in pool order, exactly the living backends that are not excluded, and of those only the primaries if asked to |
| Pools.Pool.Gather | internal/proxy/upstream.go:237-257 | the two passes yield the candidates: alive, not excluded, and a backup only if no living primary is left |
| Pools.Pool.RaiseAll | internal/proxy/upstream.go:284-292 | the loop on real cursors computes total, raised cursors and first greatest |
| Pools.Pool.SmoothWeighted | internal/proxy/upstream.go:281-298 | the objects' cursors move exactly as the cursor map of the theory does: each candidate gains its weight, the greatest is picked and pays the total, no other cursor moves |
| Pools.Pool.LeastLoaded | internal/proxy/upstream.go:262-270 | the first candidate of least connections per weight, also by cross-multiplication |
| Pools.Pool.Next | internal/proxy/upstream.go:236-278 | null exactly when every living backend is excluded, otherwise alive, not excluded and a backup only without a living primary; which candidate each strategy names; cursors and counter move only for the strategies that use them |
| RoundTrips.CountBody.Close | internal/proxy/engine.go:411-415 | gives the connection back on the first call and never again |
| RoundTrips.Limit | internal/proxy/engine.go:332-335 | one attempt with a body, otherwise one more than the retries, and never none |
| RoundTrips.RouteHandler.SelfTest | internal/proxy/engine.go:337-340 | the built-in upstream is cleared and holds no connection |
| RoundTrips.RouteHandler.Attempt | internal/proxy/engine.go:370-383 | a failed attempt counts once against its backend and gives the connection back; a success clears it and keeps one connection; no other backend changes |
| RoundTrips.RouteHandler.Another | internal/proxy/engine.go:353-356 | the next backend is a candidate by the health at the start of the request, and there is none exactly when every backend then alive was tried |
| RoundTrips.RouteHandler.Attempts | internal/proxy/engine.go:351-388 | the loop visits no backend twice and stays within the budget and the size of the pool; it fails only with the budget spent or all living backends tried, returning the last error; health, connections and path after it |
| RoundTrips.RouteHandler.RoundTrip | internal/proxy/engine.go:320-389 | one attempt with a body and at most one more than the retries without; without a body it fails only with that spent or every living backend tried; retries go to living backends, to backups only after all living primaries; the fields of every backend, and path, host and scheme of the request, afterwards; no backend is an error that touches nothing, a built-in first backend echoes |
| Traffic.ProbesCountAlike | internal/proxy/engine.go:343-346 | with checks on, probes and requests count failures against one threshold; with checks off it is 3 |
| Traffic.ProbeEffects | internal/proxy/upstream.go:391-410 | what a good and a bad probe do to the counters of a backend |
| Traffic.StepCounts | internal/proxy/engine.go:370-382 | every step keeps connections equal to running attempts plus open bodies |
| Traffic.EveryReachableState | internal/proxy/engine.go:320-389 | in every interleaving of requests, closes and probes: connections are exactly running attempts plus open bodies, so never negative; no request visits a backend twice or overruns its budget; alive if and only if failures are below the threshold |
| Traffic.AttemptsBounded | internal/proxy/engine.go:332-335 | no request makes more attempts than its budget or than there are backends |
| Traffic.PickRule | internal/proxy/upstream.go:236-257 | a request is handed to a living backend that has not failed it, a backup only after every living primary |
| Traffic.GiveUpRule | internal/proxy/engine.go:351-388 | a request fails only with its budget spent or no living backend left that has not failed it |
| Traffic.HealthIsHistory | internal/proxy/upstream.go:180-215 | in every interleaving, the breaker of a backend stands where the events of that backend lead |
| Traffic.HealthOverRuns | internal/proxy/upstream.go:180-215 | over every run, a backend is alive exactly when its unforgiven failures are below the threshold, and `passes` good probes since any step with no failure among them revive it, whatever else goes on |
| Traffic.DeadStayDeadExactly | internal/proxy/engine.go:337-384 | without probes, however requests overlap: no step of a run brings a dead backend back exactly when every answer, be it an echo or a transport's, comes from a backend that is alive when it comes |
| Traffic.OffMeansNoProbes | internal/proxy/upstream.go:342-346 | with checks off no run has probes |
| Traffic.NeverRevivesMeaning | internal/proxy/engine.go:351-384 | if no step does, the living set at the end is within that of every earlier moment |
| Traffic.DeadStayDead | internal/proxy/engine.go:351-384 | with checks off and requests one by one that condition holds, so the living set only shrinks along a run |
| Traffic.LateSuccessRevives | internal/proxy/engine.go:343-379 | a run with checks off in which a slow success brings back a backend that three overlapping requests have just seen fail |
| Paths.OutRequest.ApplyOutURL | internal/proxy/engine.go:82-110 | scheme and host of the backend, its base path in front of the route's rewrite of the path it finds, no raw path |
| Paths.OutRequest.RewriteDynamic | internal/proxy/engine.go:173-192 | the request goes to the domain named in the incoming path, with the rest of that path |
| Paths.RestIsKept | internal/proxy/engine.go:82-110 | a first attempt keeps what follows the route's path, or all of a path that does not begin with it, behind base path and rewrite, whose trailing slashes do not matter |
| Paths.SecondAttemptPath | internal/proxy/engine.go:352-360 | a second rewrite sends what a first attempt would exactly when the first rewrite is forgotten |
| Paths.RetryTrailPaths | internal/proxy/engine.go:352-360 | for a trail of any length: every attempt sends what a first one would exactly when all rewrites but the last are forgotten |
| Paths.BasePathsPileUp | internal/proxy/engine.go:105-108 | a retry after base path `/v1` sends `/v2/v1/x` |
| Paths.SplitUndoesJoin | internal/proxy/engine.go:116-144 | prefix, slash, domain and rest come apart again exactly when the prefix is not the bare slash, and always when its slash is not doubled |
| Paths.JoinUndoesSplit | internal/proxy/engine.go:130-144 | a path is accepted exactly when what the prefix leaves is a valid domain followed by a valid rest, and it is split into that pair |
| Paths.InnerExactly | internal/proxy/engine.go:116-128 | the inner path for every prefix and path |
| HotReload.StepHandlers | internal/proxy/engine.go:597-608 | every step keeps the ownership of retired handler sets |
| HotReload.StepChannels | internal/proxy/upstream.go:330-341 | every step keeps all stop channels but the current one closed |
| HotReload.StepCheckers | internal/proxy/upstream.go:343-361 | every step keeps on the current channel exactly the checkers its owner has started |
| HotReload.EveryReachableState | internal/proxy/engine.go:508-616 | in every interleaving of reloads: routes and configuration come from one reload; a handler set is current, held by one reload in flight, or has all limiters stopped; every stop channel but the current one is closed |
| HotReload.StuckOnlyWhenQuiet | internal/proxy/upstream.go:330-362 | no interleaving of reloads gets stuck: in every reachable state nothing but a new reload can happen exactly when all is quiet |
| HotReload.QuietChecks | internal/proxy/upstream.go:330-362 | once quiet, the checked pools are those of the reload that renewed the channel last |
| HotReload.CheckedAreServedExactly | internal/proxy/engine.go:597-609 | once quiet, checked and served pools agree exactly when the last swap and the last renewal of the stop channel belong to one reload, or neither of their reloads has anything to check |
| HotReload.SerialReloadsCheckWhatTheyServe | internal/proxy/engine.go:508-616 | with reloads one at a time, once quiet every served pool that wants checks is checked and no other |
| HotReload.SerialCheckersAreOneGeneration | internal/proxy/upstream.go:337-339 | with reloads one at a time, checkers of two generations never run side by side |
| HotReload.OvertakenReload | internal/proxy/engine.go:597-609 | a run of two reloads after which the retired pool is checked and the served one is not |
| Limiters.TakeLedger | internal/proxy/middleware.go:95-115 | one call, on a bucket used or not: tokens stay between zero and the burst, and nothing is lost but what overflows |
| Limiters.GainMeans | internal/proxy/middleware.go:104 | `rps` tokens come in every second |
| Limiters.TokensConserved | internal/proxy/middleware.go:95-115 | over any run from a bucket in any state, clock readings in any order: tokens left, admissions and overflow add up to the tokens before (a full bucket, if nobody has used it) plus the refill up to the latest reading |
| Limiters.AdmissionBound | internal/proxy/middleware.go:95-115 | no run from a bucket in any state admits more than the tokens before plus rps times its time span, nor than the burst plus rps times the time since its first call |
| Limiters.AfterDenial | internal/proxy/middleware.go:95-115 | after a denial the next call is admitted exactly when the refill completes a token; 1/rps of quiet suffices |
| Limiters.CollectionInvisible | internal/proxy/middleware.go:150-189 | with a burst of at most ten minutes' refill, every interleaving of calls and sweeps on a forward clock is answered as if nothing were collected |
| Limiters.CollectionVisible | internal/proxy/middleware.go:168-189 | with any larger burst there is a run that a client can tell apart |
| Limiters.CollectionInvisibleExactly | internal/proxy/middleware.go:150-189 | collection is invisible over all runs if and only if the burst is at most 600*rps |
| Limiters.ClientIsABucket | internal/proxy/middleware.go:150-166 | without collection, level and admissions of a client are those of one bucket under its own calls, whatever the others do |
| Limiters.ClientBound | internal/proxy/middleware.go:150-189 | over every run a client is admitted at most as often as the burst plus rps times the time since its first call, with collection too if the burst is at most 600*rps |
| Limiters.Configured | internal/proxy/middleware.go:128-137 | positive settings are kept; otherwise 10 per second, and a burst of two seconds, but at least 1 |
| Limiters.DefaultBurst | internal/proxy/middleware.go:132-137 | with the default burst, collection is invisible exactly from one request in ten minutes upwards |
| Limiters.Bucket.Take | internal/proxy/middleware.go:95-115 | answer and new level are those of the ledger's step |
| Limiters.Limiter.constructor | internal/proxy/middleware.go:128-148 | starts with no client and an unused shared bucket |
| Limiters.Limiter.Allow | internal/proxy/middleware.go:150-166 | touches the bucket of its own key alone, `_` standing for the empty key, made on first use; without the per-client mode only the shared one |
| Limiters.Limiter.Admit | internal/proxy/middleware.go:158-165 | finds the bucket of one client and draws from it |
| Limiters.Limiter.Find | internal/proxy/middleware.go:158-164 | the client's bucket, made if there is none; no other bucket changes |
| Limiters.Limiter.Sweep | internal/proxy/middleware.go:176-186 | keeps exactly the buckets used in the last 600 seconds, as they are |
| Limiters.Limiter.DropIdle | internal/proxy/middleware.go:178-185 | the loop keeps exactly the buckets used in the last 600 seconds |
| LimiterSteps.FindThenTakeIsAsk | internal/proxy/middleware.go:150-166 | finding a bucket and drawing from it with nothing in between is one call |
| LimiterSteps.DrawIsRememberedExactly | internal/proxy/middleware.go:158-185 | with a sweep in between, the draw is remembered exactly when the bucket was not idle; a new client's always is |
| LimiterSteps.OneTooMany | internal/proxy/middleware.go:150-189 | whatever the burst, a run in which such a sweep lets a new client in once more than the burst at one moment |
| Routes.AsymmetricExactly | internal/config/config.go:481-487 | two routes are each less than the other exactly when they clash |
| Routes.SortIsStableSort | internal/config/config.go:480-488 | on a list without clashes the result is in order by priority, named host and path length, and equal ranks keep their order |
| Routes.SortedByFields | internal/config/config.go:481-487 | in a sorted table without clashes: higher priority first, then routes that name a host, then longer paths |
| Routes.StableSortIsUnique | internal/config/config.go:480-488 | any stable sort leaves the same list |
| Routes.SortOrdered | internal/config/config.go:480-488 | a sorted list without clashes stays as it is |
| Routes.ClashingPairSwaps | internal/config/config.go:481-487 | a table of just two clashing routes is turned round each time it is sorted |
| Routes.ClashBetweenEquals | internal/config/config.go:481-487 | in a table of three, a clashing pair can keep its places |
| Routes.SortedStaysExactly | internal/config/config.go:480-488 | sorting leaves alone exactly the tables in which no route is less than the one before it |
| Routes.ResortingIsIdleExactly | internal/config/config.go:480-488 | for every table: sorting it again changes nothing exactly when no two of its routes clash |
| Routes.SortGoesByPriority | internal/config/config.go:480-488 | clashes or not, a sorted table goes by priority |
| Routes.UniformHostsAreClean | internal/config/config.go:481-487 | lists whose routes of one priority all name a host, or none does, have no clash |
| Normalize.FilledIsUsable | internal/config/config.go:427-467 | afterwards weights, thresholds and intervals are positive and names and paths are set |
| Normalize.FilledExactly | internal/config/config.go:428-466 | every field of a route that is set is kept, every missing one gets its default |
| Normalize.FilledHealthExactly | internal/config/config.go:446-457 | the same for the health settings: 10, 3, 3 and 2 |
| Normalize.FilledPartsExactly | internal/config/config.go:446-462 | the same for the weights: positive ones are kept, others become 1 |
| Normalize.RenormalizingOnlyStampsExactly | internal/config/config.go:427-488 | for every table: normalising it again changes nothing but the update times exactly when no two of its routes clash |
| Normalize.TrimAgain | internal/config/config.go:396 | the admin path is trimmed once and for all |
| Normalize.SettingsFilledExactly | internal/config/config.go:390-426 | every setting present is kept, every missing one gets its default |
| Normalize.AdminPathExactly | internal/config/config.go:393-396 | the admin path is one slash and what is configured, or `/__admin`, without the slashes at its ends |
| Normalize.RefillingSettings | internal/config/config.go:390-426 | a second normalisation changes no setting, whatever fresh secrets it is offered |
| Normalize.RefillingProxy | internal/config/config.go:468-478 | a second normalisation changes no proxy |
| Normalize.ProxyFilledExactly | internal/config/config.go:468-478 | every field of a proxy that is set is kept, every missing one gets its default |
| Normalize.InsertAt | internal/config/config.go:480-488 | moving one route left in place is one insertion, and nothing behind it moves |
| Normalize.SortInPlace | internal/config/config.go:480-488 | the array ends as the sorted list of its contents |
| Normalize.Config.Fill | internal/config/config.go:428-466 | one route gets exactly its missing defaults |
| Normalize.Config.FillWeights | internal/config/config.go:458-462 | every weight below one becomes one, the others stay |
| Normalize.Config.FillRoutes | internal/config/config.go:427-467 | every route of the array is filled in its place |
| Normalize.Config.FillProxies | internal/config/config.go:468-478 | every proxy of the array is filled in its place |
| Normalize.Config.Normalize | internal/config/config.go:389-489 | settings, routes and proxies end filled, and the routes sorted |
| Dispatch.Match | internal/proxy/engine.go:825-861 | nothing exactly when no route matches, otherwise the earliest of the greatest score; the chosen route is enabled, its host fits and its path, prefix or pattern does, and if there is none no enabled route is like that |
| Dispatch.MatchesExactly | internal/proxy/engine.go:60-79 | a route serves a request exactly when it is enabled, its host fits, and the path is its own, is found by its pattern, or begins with its path |
| Dispatch.HostMatchExactly | internal/proxy/middleware.go:209-223 | a host fits the empty pattern, a wildcard whose proper subdomain it is, or a host that is the same, ignoring case |
| Dispatch.MostSpecificWins | internal/proxy/engine.go:829-861 | with paths shorter than 2^30: exact beats all, a longer prefix beats a shorter one, a pattern is served only when no prefix route with a path matches |
| Dispatch.EarlierWinsTies | internal/proxy/engine.go:855-858 | with paths shorter than 2^30, an earlier match is passed over only for a more specific one |
| Dispatch.PriorityBreaksTies | internal/proxy/engine.go:825-861 | in a table in order of priority no equally specific match has a higher priority than the chosen route, and in one without clashes none precedes it |
| Dispatch.PriorityWinsExactly | internal/proxy/engine.go:829-861 | in a table in order of priority, no match has a higher priority than the chosen route exactly when some match has at once the greatest priority and the greatest score |
| Dispatch.PriorityLoses | internal/proxy/engine.go:829-861 | a sorted table and a request for which a match of priority 10 loses to one of priority 0 |
| Dispatch.WildcardMatchesExactly | internal/proxy/middleware.go:209-223 | a wildcard host matches exactly the proper subdomains, ignoring case, and never the bare domain |
| RingLog.PushRetains | internal/stats/stats.go:147-153 | one more entry drops the oldest only when the log is full |
| RingLog.RetainsNewest | internal/stats/stats.go:115-154 | after any run of entries and clears the log holds the newest entries since the last clear, as many as fit |
| RingLog.NewestAt | internal/stats/stats.go:197 | the index formula finds the i-th newest entry |
| RingLog.ListingAt | internal/stats/stats.go:191-200 | entry i of the listing is the i-th newest kept one, and there are as many as the limit allows |
| RingLog.LogsAreNewestFirst | internal/stats/stats.go:188-201 | entry i of the listing is the i-th newest since the last clear; there are `limit` of them if that is positive and less than are kept, and else all kept ones |
| SlidingWindow.SlotsCountRequests | internal/stats/stats.go:93-112 | on a forward clock every slot holds the number of requests of its second, for each of the last sixty seconds up to the latest request |
| SlidingWindow.ArrivalAgreesExactly | internal/stats/stats.go:96-110 | one more request of any second keeps the window in agreement with its history exactly when it is harmless |
| SlidingWindow.WindowAgreesExactly | internal/stats/stats.go:96-110 | in whatever order the clock readings come, the window agrees after every request exactly when all arrivals are harmless |
| SlidingWindow.OvertakenReadingLosesCounts | internal/stats/stats.go:96-110 | three requests in two seconds, one reading overtaken, and a count is lost |
| SlidingWindow.ShownFor | internal/stats/stats.go:214-234 | a reader sees exact counts up to the latest request, and past it the count of sixty seconds earlier |
| SlidingWindow.SnapshotExactly | internal/stats/stats.go:211-234 | a snapshot is exact exactly when no request of the minute up to the latest one is sixty seconds old or older; in the second of that request it always is |
| SlidingWindow.RecentSum | internal/stats/stats.go:225-233 | the sum over the last seconds, read in the second of the latest request, counts the requests of those seconds |
| SlidingWindow.SumOfFive | internal/stats/stats.go:225-233 | the reported sum is that of the slots of the last five seconds |
| SlidingWindow.SeriesShows | internal/stats/stats.go:216-224 | whenever it is read, each entry of the series is the number of requests in the one second of the minute up to the latest request that shares its slot |
| SlidingWindow.StaleSlotShows | internal/stats/stats.go:217-224 | one request and a quiet minute, and the old request is reported again |
| RouteStats.CountersDescribeHistory | internal/stats/stats.go:119-145 | after any history, a route's counters (below 300, 400, 500 and the rest), byte and time sums, longest duration, latest error with its time, and gauge are exactly those of its entries |
| RouteStats.ClassesAddUp | internal/stats/stats.go:125-135 | requests always equal the sum of the four status classes |
| Collectors.Collector.constructor | internal/stats/stats.go:74-90 | starts as the empty history, with a capacity of 500 if none is given |
| Collectors.Collector.ClearPassed | internal/stats/stats.go:102-107 | clears exactly the slots of the seconds passed since the latest request |
| Collectors.Collector.ClearAll | internal/stats/stats.go:100-101 | after a minute, clearing all slots is clearing those of the seconds passed |
| Collectors.Collector.Begin | internal/stats/stats.go:93-112 | window and totals move as one arrival in the history |
| Collectors.Collector.Update | internal/stats/stats.go:125-145 | one entry is noted in its status class, sums, maximum, gauge, error and time of the error |
| Collectors.Collector.Keep | internal/stats/stats.go:147-153 | the ring takes one more entry |
| Collectors.Collector.End | internal/stats/stats.go:115-154 | the entry goes to its route's counters alone and to the ring |
| Collectors.Collector.Clear | internal/stats/stats.go:204-209 | the log starts anew with its capacity |
| Collectors.Collector.Logs | internal/stats/stats.go:188-201 | the i-th newest kept entry at place i, as many as the limit allows |
| Collectors.Collector.SeriesNow | internal/stats/stats.go:216-224 | the loop over sixty seconds |
| Collectors.Collector.SumNow | internal/stats/stats.go:226-233 | the loop over five seconds |
| Collectors.Collector.Snapshot | internal/stats/stats.go:211-234 | sixty slots by their seconds, oldest first, and the sum of the last five, for seconds of either sign |
| TransportCache.ProxyIsNotDirect | internal/socks/socks5.go:36-53 | the key is `direct` exactly when no proxy is needed |
| TransportCache.PlainKeysIdentify | internal/socks/socks5.go:48-53 | without a pipe character in type, address and user name, keys agree exactly when connections are dialled alike but for the timeout |
| TransportCache.ShiftedShares | internal/socks/socks5.go:52 | every proxy with a pipe character in its user name shares its key with a different plain proxy |
| TransportCache.KeyIdentifiesExactly | internal/socks/socks5.go:48-53 | among plain proxies a key stands for one proxy exactly when its user name has no pipe character |
| TransportCache.BuiltExactly | internal/proxy/upstream.go:52-96 | timeouts, limits, verification and dialling of a transport in terms of its options and their defaults |
| TransportCache.KeysAgreeExactly | internal/proxy/upstream.go:52-69 | two requests have one key exactly when they ask for the same, missing values being their defaults |
| TransportCache.ReuseIsFaithfulExactly | internal/proxy/upstream.go:61-98 | options with one key ask for the same transport exactly when their proxy timeouts agree, and differ in nothing else |
| TransportCache.Transport.constructor | internal/proxy/upstream.go:75-96 | a transport has the settings its options ask for |
| TransportCache.TransportManager.Get | internal/proxy/upstream.go:51-99 | a known key gives the cached transport, a new one a fresh build; the cache forgets nothing |
| TransportCache.SharedExactlyByKey | internal/proxy/upstream.go:70-73 | over any run, two requests share a transport exactly when their keys are equal |
| TransportCache.ServedAsBuilt | internal/proxy/upstream.go:51-99 | over any run of plain requests a transport has the settings of a fresh build, except the proxy timeout, which is that of the first request with its key |
| Socks5.ConnectRoundTrip | internal/socks/socks5.go:134-151 | reading the CONNECT request by section 4 of RFC 1928 recovers host and port, whatever follows |
| Socks5.ParsedConnectIsEncoded | internal/socks/socks5.go:134-151 | every request the standard's reader accepts is one that is sent for its host and port |
| Socks5.AuthRoundTrip | internal/socks/socks5.go:196-199 | reading the credentials by section 2 of RFC 1929 recovers them, whatever follows |
| Socks5.ParsedAuthIsEncoded | internal/socks/socks5.go:196-199 | every message the reader accepts is the one sent for its credentials |
| Socks5.AuthMeetsStandardExactly | internal/socks/socks5.go:191-199 | the message meets the length rules of RFC 1929 exactly when neither field is empty |
| Socks5.GreetingOffers | internal/socks/socks5.go:100-106 | a reader of section 3 of RFC 1928 finds the methods offered: none at all always, user name and password exactly when there is a user name |
| Socks5.TargetsExactly | internal/socks/socks5.go:126-145 | which targets can be asked for, and the error for each that cannot |
| Socks5.RefusalsAreReported | internal/socks/socks5.go:161-182 | the error for each reply that is not positive |
| Socks5.Conn.Write | internal/socks/socks5.go:104-106 | all of the message is sent, or some front of it and an error |
| Socks5.Conn.ReadFull | internal/socks/socks5.go:107-110 | exactly the bytes asked for, or all there is and an error |
| Socks5.Conn.Auth | internal/socks/socks5.go:190-211 | bytes sent, bytes read and error of the sub-negotiation |
| Socks5.Conn.SelectMethod | internal/socks/socks5.go:100-123 | bytes sent, bytes read and error of the negotiation |
| Socks5.Conn.ReadReply | internal/socks/socks5.go:157-185 | bytes read and error of the reply, skipping the bound address of any kind |
| Socks5.Conn.Negotiated | internal/socks/socks5.go:99-187 | the whole dialogue in the order of the code, the target being examined only after the negotiation |
| Socks5.Conn.Dial | internal/socks/socks5.go:90-188 | the whole dialogue, and the connection is left open exactly on success |
| Socks5.TunnelIsUntouched | internal/socks/socks5.go:99-187 | a server that accepts makes the handshake succeed, whatever follows stays unread for the tunnel, and exactly greeting, credentials if asked for, and request were sent |
| Socks5.ScriptDecodes | internal/socks/socks5.go:99-187 | a server reading by the standards recovers credentials and target from what was sent, with nothing left over |
| Socks5.OnlyAcceptedSucceeds | internal/socks/socks5.go:99-187 | success means a usable target and that exactly a negotiation and a section 6 reply were consumed |
| Socks5.TruncationFails | internal/socks/socks5.go:99-187 | every strict prefix of an accepting server's bytes fails, with a short read if nothing else is wrong |

## Left out

- Real networking: sockets, TLS, deadlines, the internals of Go's HTTP transport and reverse proxy. An attempt is a success or a failure given as an input; a connection is a stream of bytes, a number of writes that succeed and a number of bytes that the first failing one gets through.
- HTTP CONNECT dialling, headers, error and default pages, the echo handler and templates: plumbing and string building.
- The admin API, login, the embedded interface, the command line, persistence, file watching and subscriptions.
- Parsing of addresses, URLs, networks and regular expressions: their results are inputs.
- Choosing the proxy and the scheme of a dynamic request from lists of rules (`resolveProxyFn`, `resolveDynProxy`, `dynSchemeOf`): a first match each, which would only add easy members; the scheme is a parameter.
- Building handlers from a configuration in `Reload`; the model starts with how many limiters and checked pools the new set has.
- `Engine.Stop` and `HealthChecker.Stop`, and a reuse of the checker's wait group while it is waited for.
- Float rounding, and the wrap-around of 64-bit counters; rates are real numbers and counters are unbounded.
- The strategy `random` picks by a clock reading, which is an input.
- Pools.Pool.Next: one atomic step; in the code the candidates are gathered before the pool's lock is taken for the weighted strategy.
- Limiters.Limiter.Allow: one step; what a sweep between its two steps does is stated apart, in `LimiterSteps`.
- Routes.SortIsStableSort: the sort is modelled as the insertion sort that Go uses on up to twenty routes; for longer lists without clashes any stable sort gives the same result, for lists with clashes nothing is said.
- Normalize.SortInPlace: the same holds for the loop in place; more than twenty routes with clashes may be left in another order.
- Dispatch.WildcardMatchesExactly: lower-casing covers ASCII letters only.
- SlidingWindow.SlotsCountRequests: for clock readings in order; the others are the matter of `SlidingWindow.WindowAgreesExactly`.
- That active requests return to zero: the early answer to a dynamic request without a domain, and every request when access logging is off, begin without ending.
- Bytes of header text: paths, hosts and error texts are sequences of characters, not of UTF-8 bytes.
