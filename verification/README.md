# Protocols of the admission and artifact services, modelled and proved in Dafny

The API keeps several small protocols whose promises hold only over whole runs: many calls, timers
and deliveries interleave, and each `await` is a point where anything else may happen. This project
models them and proves those promises for every run.

- **Version-fenced authority reads.** `Authority` is a timeline of authority states whose versions
  are never reused. `Activation` cuts `activate` at its awaits and proves an ordering theorem over
  every interleaving of any number of calls with a moving authority. `Grants` gives renewal, reader
  adaptation and ticket exchange as clients of one fenced-read lemma, with the real-time bound on a
  renewed grant (expiry as in section 4.1.4 of RFC 7519).
- **Admission synchronisation.** `Snapshot` (preference, construction, canonical form), `Admission`
  (the ingest transaction), `Jit` (login-time linking), `AdmissionRuns` (mirror agreement and
  convergence over runs of atomic steps) and `Linking` (logins interleaved statement by statement).
- **Deadline-raced transaction.** `WriteTransaction`: timer, cancellation and coroutine share flags
  and one lease; `WriteOutcomes` gives the outcome of every interleaving.
- **Pruned windows that agree with the full history.** `Windows` is the log that never forgets;
  `Budgets`, `GeoBudget` and `Limiter` are three stores that prune it; `LimiterRuns` says when the
  limiter's purge and cap show.
- **Tile cache.** `TileCache` (bounds), `TileProxy` (the object, segment by segment), `TileRuns`
  (every interleaving), `TileOutcomes` (what decides each segment).
- **Smaller loops with hard specifications.** `JsonKeys` (duplicate-key scanner), `Paging`
  (byte-capped pages) and `Poll` / `PollRuns` / `PollOutcomes` (the page follow-up and its persisted
  budget). `Text` is the string order that all sorting rests on.

How the proofs are laid out: an object of the program is a class whose methods change its fields as
the code does; each method is proved equal to a function on values (`Segment`, `Ingested`, `Statement`,
`Decided`, `Walk`, `Ticked`, ...). A run is a sequence of those functions (`Machine.Run`, or a
recursive function where the steps are deterministic), an invariant is proved for every step, and the
main results are lemmas over every run. What a step does is also stated a second time, without those
functions, over the rows and fields it reads and writes (`IngestedExactly`, `LoginExactly`,
`HoldsBestRows`, `BeginsExactly`, `FailsAt`, ...), and the two are proved to agree. History that the program does not keep (logs, what was sent,
what was answered) is part of the run, not of the object.

Where the code and its own comments disagree, or a promise has a limit, the model follows the code and
says exactly what holds:

- `tile-proxy.ts:484-487` says a miss is remembered when every tried upstream answered 404, and that
  an error leaves no negative entry. The code remembers it when at least one upstream said 404 and none
  produced a tile. `TileRuns.MissesAreWitnessed` states the exact condition,
  `TileRuns.ErrorDoesNotPreventTheNote` the input that separates the two.
- `tile-proxy.ts:650-655` says readers whose window is empty are purged on each check. A refusal queues
  an older key behind a younger one, and the purge stops at the first live key: `LimiterRuns.IdleKeyStays`
  is such a run, `LimiterRuns.AlwaysPurgesWhen` the exact condition over all runs.
- The cap on tracked readers makes the limiter forget: `LimiterRuns.CapIsHarmlessWhen` says for which
  sets of readers it never does, `LimiterRuns.TrackedExactly` when a key is forgotten.
- `snapshot.ts:100-106` calls the preference total and independent of input order. Role, and the status
  of rows that are not approved, are not compared: `Snapshot.RowOrderMatters` says for which lists of
  rows the snapshot is independent of their order.
- Mirror agreement is safe for logins that run without interruption. For single statements
  `Linking.StatementAgreement` and `Linking.AgreementInEveryInterleaving` give the exact condition, the
  admission that a login read being still in force when it writes; `Linking.AgreementNeedsAtomicLogins`
  is a run in which it is not.
- The budget store remembers one hour: `Budgets.HorizonIsTight` shows that this is exactly the longest
  window it can serve faithfully.

## Model

| member | source | states |
|---|---|---|
| Authority.FencedRead | api/src/artifacts/reader-profile.ts:33-43 | two equal versions mean that neither the version nor any covered answer changed at any moment in between |
| Activation.ActivationRegistry.Begin | api/src/artifacts/release-activation.ts:29-31 | a call captures the stored record before its first await |
| Activation.ActivationRegistry.Resume | api/src/artifacts/release-activation.ts:31-57 | the code between two awaits, with its refusals, the fresh record and the final compare-and-set on the Map |
| Activation.ActivationRegistry.Matches | api/src/artifacts/release-activation.ts:60-63 | true exactly when the active record has that release and policy revision |
| Activation.ActivationRegistry.CanUpgrade | api/src/artifacts/release-activation.ts:64-67 | true exactly when an active record of another release exists |
| Activation.ActivationIsOrdered | api/src/artifacts/release-activation.ts:29-57 | in every interleaving each stored record carries the release and the profile that the authority's tables hold for its artifact throughout the life of one version, and for one artifact a record validated at an older version is never stored after one validated at a newer one |
| Activation.ActiveWasAuthorised | api/src/artifacts/release-activation.ts:56-63 | whatever is active in a reachable state is a release, with a profile, that the authority's tables held together at some moment |
| Activation.AloneActivates | api/src/artifacts/release-activation.ts:29-57 | seven answers from seven moments activate exactly when the first and last versions agree and the tables of that one state point at this release of this artifact and hold its profile; the record's fields are those of that state |
| Grants.MintedLifetime | api/src/artifacts/preview-grant.ts:45-110 | a minted grant verifies for its bindings exactly from its second of issue for 55 seconds, and then returns the claims it was minted with |
| Grants.VerifiedExactly | api/src/artifacts/preview-grant.ts:63-110 | which tokens verify, field by field: signed and short enough, of that issuer, audience and tier, every claim present and bound, issued not later than now, not expired, at most 55 s long |
| Grants.RenewalExact | api/src/artifacts/preview-renewal.ts:41-74 | for all moments of its reads, renewal succeeds exactly when the presented grant verifies, the two versions are equal, the tables of that one state hold the reader's approved rights, the profile and the release the grant names, and the session is live and unexpired at the end |
| Grants.RenewalKeepsBindings | api/src/artifacts/preview-renewal.ts:68-74 | a renewed grant carries the presented claims and expires at most 55 s after the last version read |
| Grants.WithdrawalCutsOff | api/src/artifacts/preview-renewal.ts:41-74 | after a withdrawal at time t no renewed grant verifies at t + 55 s or later, however the renewal interleaved with it |
| Grants.RightsWithdrawalCutsOff | api/src/artifacts/preview-renewal.ts:47-60 | the same when, from some state on, the reader's rights are gone or no longer approved |
| Grants.AdaptationExact | api/src/artifacts/reader-context.ts:33-62 | a context is granted exactly when the tables of one state approve the grant; every field comes from the grant and that state, and its capabilities are those shared by the profile and rights of that one state |
| Grants.ExchangeExact | api/src/artifacts/preview-exchange.ts:14-35 | a ticket is returned exactly when the tables of one state approve its binding, and then unchanged |
| Snapshot.PreferenceIsStrictWeakOrder | api/src/admission/snapshot.ts:107-117 | irreflexive, asymmetric, transitive; two entries are tied exactly when all compared fields agree |
| Text.LessExactly | api/src/admission/snapshot.ts:115-116 | the string order, position by position: a proper prefix is smaller, otherwise the first difference decides |
| Snapshot.StableSortFacts | api/src/admission/snapshot.ts:160-179 | the stable sort is ordered, a permutation, and keeps the order of the entries of each email |
| Snapshot.BuildAdmissionSnapshot | api/src/admission/snapshot.ts:129-152 | one entry per email of a usable row, strictly ascending; each is, column by column, the first row of its email that no other beats: approved if any is, then the latest approval, the latest creation, the least address and the least name |
| Snapshot.ShapedIsEmailLike | api/src/admission/snapshot.ts:119-121 | an address passes exactly when it is three non-empty pieces without blanks or @, joined by an @ and a dot |
| Snapshot.BuildIgnoresRowOrder | api/src/admission/snapshot.ts:100-152 | permuting the rows changes no email and no compared field of any winner |
| Snapshot.RowOrderMatters | api/src/admission/snapshot.ts:100-152 | for every list of rows, the snapshot is the same in every order if and only if, for each email, the rows that no other beats carry one entry |
| Snapshot.TwoRowsOfOneEmail | api/src/admission/snapshot.ts:107-117 | for two rows of one email: the order shows exactly when all compared fields agree and the entries differ |
| Snapshot.SortedIsCanonical | api/src/admission/snapshot.ts:150-166 | what was built in order is its own canonical form |
| Admission.AdmissionStore.NewestApplied | api/src/admission/ingest.ts:92-96 | the maximum over the per-kid rows decides staleness for every instant |
| Admission.AdmissionStore.UpsertEntries | api/src/admission/ingest.ts:100-135 | the loop stages and mirrors the first entry of each email and counts emails and rows once each |
| Admission.AdmissionStore.MarkAbsent | api/src/admission/ingest.ts:137-156 | rejects exactly the staged emails a full snapshot does not name and that are not rejected yet, each once |
| Admission.AdmissionStore.PropagateToMirrorRow | api/src/admission/ingest.ts:176-193 | writes the prod_sync rows of that email and no other, and counts them |
| Admission.AdmissionStore.PropagateRevocationToMirrorRow | api/src/admission/ingest.ts:195-207 | revokes the prod_sync rows of that email and no other, and counts them |
| Admission.AdmissionStore.ApplyAdmissionSnapshot | api/src/admission/ingest.ts:85-168 | the whole new state of the three tables and the counters, row by row, or no change for a stale snapshot; unnamed emails are rejected by full snapshots only |
| Admission.AdmissionStore.Receive | api/src/admission/ingest.ts:67-97 | applied exactly when the version, the key and the signature over the sorted payload are good; otherwise no table changes |
| Admission.IngestsExactly | api/src/admission/ingest.ts:85-207 | for every email its first entry, a rejection or no change in staging; the mirrored rows of that email and no other follow; no row appears or vanishes among the accounts; the counters are the numbers of emails named, emails left out and rows reached |
| Admission.CanonicalDecidesEffect | api/src/admission/snapshot.ts:160-179 | payloads of equal canonical form change the tables alike and count alike |
| Admission.CanonicalDecidesVerdict | api/src/admission/snapshot.ts:289-308 | a signature is accepted for one exactly when it is for the other |
| Admission.FullSnapshotDecidesApproval | api/src/admission/ingest.ts:105-156 | an applied full snapshot leaves approved exactly its approved first-per-email entries |
| Admission.NewestIsRemembered | api/src/admission/ingest.ts:88-98 | after a delivery, under any key, an instant is stale exactly when it was or the payload is as new |
| Jit.Reconciler.Reconcile | api/src/admission/jit.ts:91-225 | an uninterrupted login ends in the state and outcome of its statements run in turn, which are exactly those its claims, the staged admission and the account rows call for |
| Jit.LogsInExactly | api/src/admission/jit.ts:91-225 | linked exactly when the email is verified by a trusted issuer, staged as approved, and the subject's own row and those of others allow it, with the mode of each case; otherwise exactly one reason; the row written, and no other row changes |
| Jit.WritesExactly | api/src/admission/jit.ts:128-224 | what a writing statement answers whatever happened since the call read its row: a lost race is refused, except that a subject whose own row holds the email by then is told it was created |
| Jit.Reconciler.WithRow | api/src/admission/jit.ts:119-189 | the branches for a subject that has a row: link kept, re-approved, blocked, conflicting or adopted |
| Jit.Reconciler.WithoutRow | api/src/admission/jit.ts:191-212 | the branches for a subject without a row |
| Jit.Reconciler.FindRow | api/src/admission/jit.ts:62-89 | true exactly when another subject's row of that source holds the email |
| AdmissionRuns.MirrorHoldsInEveryRun | api/src/admission/ingest.ts:137-207 | over every run of deliveries and logins each prod_sync row has a staged profile of its email with the same status, is admin only if the staged role is, and exactly then when approved |
| AdmissionRuns.ReapprovalNeedsInterleaving | api/src/admission/jit.ts:127-135 | in such a run no login finds a link to re-approve |
| AdmissionRuns.IngestRestoresAgreement | api/src/admission/ingest.ts:103-156 | from any state, an applied snapshot leaves an email in agreement exactly when it names it, marks it absent, or found it in agreement: skipping rejected rows is safe only under the invariant |
| AdmissionRuns.NothingAfterNewest | api/src/admission/ingest.ts:88-98 | after it arrived every delivery leaves all tables as they are |
| AdmissionRuns.Convergence | api/src/admission/ingest.ts:88-164 | whatever the order, repetition and key of the others, with logins anywhere, once the newest and full snapshot is delivered the approved staging set is exactly its approved first entries and later deliveries change nothing |
| AdmissionRuns.ReplicasAgree | api/src/admission/ingest.ts:88-164 | two databases with different histories that both received it approve the same emails |
| Linking.LinksAreForever | api/src/admission/jit.ts:91-225 | in every interleaving of statements and ingests a link keeps its subject and email, non-pending local rows are never written, no email has two links, and every login told it is linked is |
| Linking.OneLinkPerEmail | api/drizzle/0030_admission_sync.sql:27-28 | two logins newly linked with one email are the same subject |
| Linking.LinksComeFromVerifiedLogins | api/src/admission/jit.ts:91-212 | in every interleaving each new link, each answer and each row a login writes belongs to a login that began with that email verified by a trusted issuer, and the link to an admission that was staged as approved when it was read |
| Linking.StatementAgreement | api/src/admission/jit.ts:104-212 | from an agreeing state a login statement keeps mirror agreement if and only if it writes nothing or the admission its login read is still staged, approved and of the same role |
| Linking.AgreementInEveryInterleaving | api/src/admission/jit.ts:91-225 | a run of statements and deliveries agrees in every state if and only if no login in it writes a link after the admission it read has changed |
| Linking.AgreementNeedsAtomicLogins | api/src/admission/jit.ts:104-212 | a concrete run that is not timely: agreement fails, and no snapshot that still omits the email restores it |
| WriteTransaction.WriteIntentTransaction.Expire | api/src/artifacts/write-intent-transaction.ts:22-28 | the timer sets the flag and starts the cancellation |
| WriteTransaction.WriteIntentTransaction.Cancelled | api/src/artifacts/write-intent-transaction.ts:29-32 | the cancellation releases a held lease as destroyed and rejects the deadline |
| WriteTransaction.WriteIntentTransaction.Lease | api/src/artifacts/write-intent-transaction.ts:36-44 | a lease that arrives late is given back at once and never used |
| WriteTransaction.WriteIntentTransaction.CommitOrRefuse | api/src/artifacts/write-intent-transaction.ts:54-66 | the last look at the deadline, the cleared timer and the commit point |
| WriteTransaction.WriteIntentTransaction.Continue | api/src/artifacts/write-intent-transaction.ts:35-68 | the coroutine from one await to the next |
| WriteTransaction.WriteIntentTransaction.Settle | api/src/artifacts/write-intent-transaction.ts:69-72 | the race, its mapping of errors, and the cleared timer |
| WriteTransaction.WriteIntentTransaction.Release | api/src/artifacts/write-intent-transaction.ts:73-75 | the lease is released unless the cancellation did it |
| WriteTransaction.WriteIntentTransaction.Close | api/src/artifacts/write-intent-transaction.ts:76-77 | a failing close of the control connection replaces the outcome |
| WriteTransaction.RefusalMeansNoCommit | api/src/artifacts/write-intent-transaction.ts:50-77 | in every interleaving, once the caller got write_fence_unavailable COMMIT was never issued and never will be |
| WriteTransaction.ReturnMeansCommitted | api/src/artifacts/write-intent-transaction.ts:54-77 | a returned value was acknowledged by COMMIT; an acknowledged value is returned unless closing the control connection fails |
| WriteTransaction.LeaseReleasedOnce | api/src/artifacts/write-intent-transaction.ts:36-77 | at most one lease, never released twice, released exactly once when the caller is done, and never used after it went back to the pool |
| WriteOutcomes.OutcomeIsExact | api/src/artifacts/write-intent-transaction.ts:35-77 | in every interleaving the value of the work is returned exactly when all eight answers were good and in time and the control connection closed; after the deadline the refusal; otherwise the error of the first bad answer, or of a failing ROLLBACK |
| Windows.AgreeOnWait | api/src/artifacts/reader-budgets.ts:98-106 | a pruned list that agrees with the log from the horizon on asks for the same wait over all windows |
| Windows.CappedAtEveryInstant | api/src/artifacts/reader-budgets.ts:14-20 | if each hit was within the limit when recorded, no window ending at any instant ever holds more |
| Windows.RetryAfterIsExact | api/src/artifacts/reader-budgets.ts:99-110 | over all windows together, a call x whole seconds later is accepted exactly when x is at least the announced wait |
| Windows.AcceptedExactly | api/src/artifacts/reader-budgets.ts:99-108 | a call is accepted exactly when every window holds fewer hits than its limit, and refused for ever exactly when some window never lets anything through |
| Budgets.BudgetStore.Sweep | api/src/artifacts/reader-budgets.ts:86-94 | at most once a minute, keeps for every key exactly its hits of the last hour and drops empty keys |
| Budgets.SweepExactly | api/src/artifacts/reader-budgets.ts:86-94 | a sweep is due a minute after the last one, and leaves exactly the hits of the last hour and the keys that have one |
| Budgets.KeysStayRecent | api/src/artifacts/reader-budgets.ts:77-97 | after every run each tracked key has a hit of the last hour and a minute |
| Budgets.BudgetStore.RetryAfter | api/src/artifacts/reader-budgets.ts:99-106 | the loop over the windows computes the longest wait any of them asks for, none when all have room |
| Budgets.BudgetStore.Decide | api/src/artifacts/reader-budgets.ts:95-116 | the decision and the whole new store, including the lists kept or deleted on refusal |
| Budgets.BudgetStore.Check | api/src/artifacts/reader-budgets.ts:118-118 | the same decision, recording nothing |
| Budgets.BudgetStore.Consume | api/src/artifacts/reader-budgets.ts:122-122 | the same decision, recording one hit for all windows when accepted |
| Budgets.StoreAnswersAsLog | api/src/artifacts/reader-budgets.ts:82-122 | over every run with a nondecreasing clock the pruning, sweeping store answers exactly as a log that never drops a hit |
| Budgets.HorizonIsTight | api/src/artifacts/reader-budgets.ts:77-94 | any single window is served as the log does on all runs if and only if it is at most one hour long, or lets nothing through |
| Budgets.BudgetsHold | api/src/artifacts/reader-budgets.ts:14-30 | after every run, at every instant, every window of every key holds at most its limit of recorded hits |
| Budgets.RetryAfterIsHonoured | api/src/artifacts/reader-budgets.ts:99-110 | a refused key that asks again x seconds later, with anything else in between but no hit recorded for it, is accepted exactly when x is at least the announced wait |
| GeoBudget.GeoReaderBudget.Consume | api/src/artifacts/reader-geo-budget.ts:30-47 | decision, wait and new map, with the refused list kept |
| GeoBudget.GeoReaderBudget.DropIdle | api/src/artifacts/reader-geo-budget.ts:41-45 | above ten thousand keys, exactly the keys with no hit in the window go |
| GeoBudget.CleansUpExactly | api/src/artifacts/reader-geo-budget.ts:30-47 | a call drops keys exactly when it is accepted and leaves more than ten thousand, then those without a hit in the window, and touches no other list |
| GeoBudget.GeoAnswersAsLog | api/src/artifacts/reader-geo-budget.ts:24-49 | on every run it answers as the log that never forgets |
| GeoBudget.RetryAfterIsHonoured | api/src/artifacts/reader-geo-budget.ts:33-37 | its Retry-After is exact, whatever other readers do in between |
| GeoBudget.GeneralStoreAbsorbsGeo | api/src/artifacts/reader-geo-budget.ts:12-13 | call by call it answers as the general budget store would, for windows that store remembers |
| Limiter.SlidingWindowLimiter.PurgeIdle | api/src/artifacts/tile-proxy.ts:689-695 | drops the leading keys up to the first one with a hit in the window |
| Limiter.SlidingWindowLimiter.Check | api/src/artifacts/tile-proxy.ts:670-687 | the answer and the whole new table: recency order, refusal, cap |
| Limiter.PurgeRemovesOnlyIdle | api/src/artifacts/tile-proxy.ts:689-695 | a purged key has no hit in the window, and every lookup inside the window is unchanged |
| Limiter.PurgeIsCompleteWhen | api/src/artifacts/tile-proxy.ts:689-695 | no idle key stays in a table exactly when none is queued after a live one |
| Limiter.LimiterFollowsTheLog | api/src/artifacts/tile-proxy.ts:656-696 | after every run at most maxKeys keys are tracked, and a key the cap never evicted is answered as over the full log of its accepted hits, none of whose windows exceeds maxRequests |
| Limiter.RetryAfterIsHonoured | api/src/artifacts/tile-proxy.ts:675-678 | a refused key that was never evicted and had no hit accepted since is accepted x seconds later exactly when x is at least the announced wait |
| LimiterRuns.AlwaysPurgesWhen | api/src/artifacts/tile-proxy.ts:650-655 | over all runs the purge of the next check leaves no idle key behind if and only if the window is at most one millisecond or at most one key is tracked |
| LimiterRuns.PurgesCompletelyUntilRefused | api/src/artifacts/tile-proxy.ts:670-695 | until a check is refused, every purge drops every idle key |
| LimiterRuns.IdleKeyStays | api/src/artifacts/tile-proxy.ts:675-678 | from the empty table, for every limit, longer window and cap of at least two: a refusal queues an older key behind a younger one, and one window later the purge leaves it |
| LimiterRuns.TrackedExactly | api/src/artifacts/tile-proxy.ts:679-685 | after every run a key with a hit that still counts is tracked if and only if fewer than maxKeys other keys were checked since its own last check |
| LimiterRuns.EvictedMeansCrowded | api/src/artifacts/tile-proxy.ts:681-685 | a key is evicted only after at least maxKeys other keys were checked since its own last check |
| LimiterRuns.UncrowdedFollowsTheLog | api/src/artifacts/tile-proxy.ts:656-696 | a key to which that never happened is answered as over its full log, and none of its windows exceeds maxRequests |
| LimiterRuns.UncrowdedRetryAfter | api/src/artifacts/tile-proxy.ts:675-678 | and its Retry-After is exact |
| LimiterRuns.CapIsHarmlessWhen | api/src/artifacts/tile-proxy.ts:681-685 | every run of a set of readers is answered as over the full logs if and only if they are at most maxKeys or the window is empty |
| LimiterRuns.EvictionForgets | api/src/artifacts/tile-proxy.ts:681-685 | from the empty table, maxKeys other keys are enough for a key that used up its limit to be accepted again at once |
| TileCache.KeepsLongestSuffix | api/src/artifacts/tile-proxy.ts:326-340 | a suffix satisfies both bounds exactly when it is no longer than the one kept |
| TileProxy.RetryAfterMs | api/src/artifacts/tile-proxy.ts:155-165 | bounded between one second and fifteen minutes, and exact inside the bounds for seconds and dates (section 10.2.3 of RFC 9110) |
| TileProxy.MaxAgeMs | api/src/artifacts/tile-proxy.ts:242-247 | freshness is positive and capped at seven days |
| TileOutcomes.ClassifiesExactly | api/src/artifacts/tile-proxy.ts:370-394 | which answers count as a tile, not modified, missing, throttled or an error, with the freshness and the pause each carries |
| TileProxy.TileProxy.Store | api/src/artifacts/tile-proxy.ts:326-340 | the new entry is youngest, the oldest bindings beyond the bounds are dropped and counted, and bytes is the sum of the stored lengths |
| TileProxy.TileProxy.RememberNegative | api/src/artifacts/tile-proxy.ts:342-350 | the key becomes youngest and the oldest notes beyond the bound go |
| TileProxy.TileProxy.BreakerOpenUntil | api/src/artifacts/tile-proxy.ts:312-320 | the closing time of an open breaker; an expired one is deleted |
| TileProxy.TileProxy.InFlightFetch | api/src/artifacts/tile-proxy.ts:396-404 | joins the running fetch of the key or starts one |
| TileProxy.TileProxy.Serve | api/src/artifacts/tile-proxy.ts:412-424 | the negative cache, then the upstream loop up to the first await |
| TileProxy.TileProxy.TryUpstreams | api/src/artifacts/tile-proxy.ts:433-455 | fresh hit, open breaker with or without a stale copy, or a fetch to await |
| TileProxy.TileProxy.Resume | api/src/artifacts/tile-proxy.ts:455-483 | what each fetch outcome does to cache, breaker and loop |
| TileProxy.TileProxy.Conclude | api/src/artifacts/tile-proxy.ts:484-506 | remembered 404, 503 with a Retry-After of at least a second, or 502 |
| TileProxy.TileProxy.Settle | api/src/artifacts/tile-proxy.ts:399-401 | a settled fetch leaves the in-flight map before its waiters run |
| TileRuns.TilesComeFromTheirUpstream | api/src/artifacts/tile-proxy.ts:412-506 | in every interleaving a 200 carries a JPEG or PNG of at most one mebibyte that an upstream sent for that same layer and tile: the one the call was fixed to, otherwise the federal one, or for the base map the provincial one |
| TileRuns.OneFetchPerKey | api/src/artifacts/tile-proxy.ts:396-404 | at most one fetch per cache key is in the air |
| TileRuns.ThrottlesAreHonoured | api/src/artifacts/tile-proxy.ts:447-482 | after an OSM throttle until T is processed, every later OSM fetch belongs to a serve that started at T or later |
| TileRuns.MissesAreWitnessed | api/src/artifacts/tile-proxy.ts:419-493 | a call that consulted an upstream ends in 404 exactly when some upstream said 404 and none gave a tile; a 404 from the negative cache falls within the time to live of a note left by such a call for the same tile and upstream choice |
| TileRuns.NotesAreExact | api/src/artifacts/tile-proxy.ts:455-493 | a call that ends after an await gives a tile exactly when one was just sent, its cached copy may be used, or the next upstream has a fresh one; otherwise it ends in 404 exactly when some upstream said 404, and then and only then the note is added |
| TileRuns.ErrorDoesNotPreventTheNote | api/src/artifacts/tile-proxy.ts:484-490 | a run from the empty proxy in which an error followed by a 404 is remembered as a miss |
| TileRuns.CacheStaysBounded | api/src/artifacts/tile-proxy.ts:326-350 | in every reachable state bytes is the sum of the stored lengths and all three bounds hold |
| TileOutcomes.ServesExactly | api/src/artifacts/tile-proxy.ts:412-455 | in every interleaving the first segment of a call is decided, in this order, by a note in force, a missing template, a fresh copy, an open OSM breaker with or without a stale copy, and the fetch it joins or starts |
| TileOutcomes.ResumesExactly | api/src/artifacts/tile-proxy.ts:455-505 | in every interleaving the segment after an answer gives the tile just sent or the copy, raises the OSM breaker and never shortens it, falls back to the federal upstream, or ends in 404, 503 with the least Retry-After, or 502 |
| JsonKeys.HasDuplicateJsonKeys | api/src/artifacts/write-intent-binding.ts:25-42 | the loop over the tokens with its stack of sets computes the scan |
| JsonKeys.QuoteIsFound | api/src/artifacts/write-intent-binding.ts:28-28 | the string pattern ends exactly at the quote that closes the literal, escapes included |
| JsonKeys.TokensOfValue | api/src/artifacts/write-intent-binding.ts:28-28 | the matches of the pattern on a written value, whatever follows, are its tokens |
| JsonKeys.DecodeUndoesWrite | api/src/artifacts/write-intent-binding.ts:35-35 | decoding a written literal gives the characters it stands for (section 7 of RFC 8259) |
| JsonKeys.ClashesMeans | api/src/artifacts/write-intent-binding.ts:36-38 | a set that grows name by name meets a member again exactly when two names are equal |
| JsonKeys.ScanValue | api/src/artifacts/write-intent-binding.ts:29-40 | for any stack the scan of a value reports its duplicates and then goes on as if it were not there |
| JsonKeys.DuplicatesAreFound | api/src/artifacts/write-intent-binding.ts:25-42 | on every well-formed text the answer is true exactly when some object at some depth has two members of equal decoded name (section 4 of RFC 8259) |
| Paging.BoundReaderFeatures | api/src/artifacts/reader-geo.ts:452-460 | the longest prefix within the byte cap |
| Paging.LiveIsLocal | api/src/artifacts/reader-geo.ts:381-400 | an upstream that returns at least the slice asked for and the true count gives the local page |
| Paging.PageFacts | api/src/artifacts/reader-geo.ts:412-426 | a page starts at its offset, is not empty unless the next feature is too big alone, and never passes such a feature |
| Paging.PageIsLongest | api/src/artifacts/reader-geo.ts:412-426 | a page holds the features from its offset on, as many as the limit, the facade's own limit and the byte cap allow together, with the true count, next offset and flag |
| Paging.BytesAreLength | api/src/artifacts/reader-geo.ts:456-456 | the size of a page is the length of its serialised array |
| Paging.WalkVisitsOnce | api/src/artifacts/reader-geo.ts:224-227 | from a reached offset, following nextOffset returns each remaining feature once and in order, up to the first that alone exceeds the cap |
| Paging.WalkIsComplete | api/src/artifacts/reader-geo.ts:224-227 | the walk from 0 returns the whole list exactly when no feature alone exceeds the cap |
| Paging.TruncatedMeansPartial | api/src/artifacts/reader-geo.ts:419-426 | truncated is set exactly when the page is not the whole list |
| Poll.PollPage.CheckpointBudget | api/src/artifacts/write-intent-page-budget.ts:10-18 | writes the counters of the followed intent, or marks the budget unavailable |
| Poll.PollPage.RestoreBudget | api/src/artifacts/write-intent-page-budget.ts:19-43 | adopts a valid stored budget, opens a new one, or gives up |
| Poll.PollPage.StopPoll | api/src/artifacts/write-intent-page.ts:190-194 | stopped, unarmed, written |
| Poll.PollPage.StartPoll | api/src/artifacts/write-intent-page.ts:307-320 | a switch raises the version, stops the old intent and follows the new one unless stopped or spent |
| Poll.PollPage.Tick | api/src/artifacts/write-intent-page.ts:268-288 | when it reschedules, stops, or counts and sends |
| Poll.PollPage.Click | api/src/artifacts/write-intent-page.ts:323-341 | when a manual check is refused, or stamped and sent |
| Poll.PollPage.Send | api/src/artifacts/write-intent-page.ts:280-288 | nothing is sent unless the budget is written first |
| Poll.PollPage.HandleStatus | api/src/artifacts/write-intent-page.ts:219-267 | what each status does to the poll |
| Poll.PollPage.Respond | api/src/artifacts/write-intent-page.ts:288-305 | an answer or a failure, with the version checks around it |
| Poll.PollPage.EndFlight | api/src/artifacts/write-intent-page.ts:299-305 | the flight is cleared only if it is still this one, and the pacing is written only for the current version |
| Poll.PollPage.BecomeVisible | api/src/artifacts/write-intent-page.ts:355-357 | re-arms a running, idle poll |
| PollRuns.AutomaticRequestsAreBounded | api/src/artifacts/write-intent-page.ts:186-355 | over every run with switches, reloads and storage failures, an intent gets at most 60 automatic requests, all within 120 s of its first start, and storage counts every one |
| PollRuns.StartsNeverMove | api/src/artifacts/write-intent-page-budget.ts:19-43 | a stored first start never changes and a stored count never goes down |
| PollRuns.ManualRequestsAreSpaced | api/src/artifacts/write-intent-page.ts:323-341 | manual requests for an intent are at least 30 s apart |
| PollRuns.OneRequestInTheAir | api/src/artifacts/write-intent-page.ts:268-354 | at most one request of the page is outstanding |
| PollRuns.SwitchesOvertake | api/src/artifacts/write-intent-page.ts:307-312 | a switch overtakes every request then in the air |
| PollRuns.LateAnswersChangeNothing | api/src/artifacts/write-intent-page.ts:286-305 | the answer of an overtaken request, whenever it comes and whatever happened since, changes nothing but the mark of its own flight |
| PollOutcomes.AnswersAreExact | api/src/artifacts/write-intent-page.ts:210-305 | in every run a pending or rate-limited automatic answer keeps the poll going, at the time it announces; every other one stops it; a manual one never starts it |
| PollOutcomes.TimerSendsExactly | api/src/artifacts/write-intent-page.ts:268-288 | the timer sends exactly when the poll runs, nothing is in the air, the page is visible, window and budget are not spent, and the budget could be written first |
| PollOutcomes.ClickSendsExactly | api/src/artifacts/write-intent-page.ts:323-341 | a click sends exactly when a budget is at hand, nothing is in the air, no announced pause runs, the last click is 30 s ago, and both writes succeed |
| PollOutcomes.FollowingStartsExactly | api/src/artifacts/write-intent-page.ts:307-320 | another intent is followed exactly when storage works and holds no budget of it or one neither stopped nor spent, and then from where that one stood |
| PollOutcomes.NeverStalls | api/src/artifacts/write-intent-page.ts:268-357 | in every reachable state a poll that is not stopped has its timer armed or a request in the air whose answer it will take, so the visibility handler has nothing to repair |

## Left out

- Grants.MintedLifetime: the HS256 signature, the header and the JSON of a token are one abstract `authentic` flag, and the serialised length an abstract size.
- Admission.CanonicalDecidesVerdict: Ed25519 and the bytes of the canonical form are an abstract predicate over the sorted payload; `unsupported_version` is not a case of its own, because the envelope schema already fixes the version.
- Snapshot.BuildAdmissionSnapshot: trimming and lower-casing are abstract; an address carries its normalised key beside its text, one function for both JavaScript and SQL.
- Admission.AdmissionStore.ApplyAdmissionSnapshot: the clock columns `syncedAt` and `appliedAt`, row ids and `createdAt` of accounts; the advisory lock and rollback are taken as one atomic step.
- AdmissionRuns.MirrorHoldsInEveryRun: logins are atomic here; for single statements Linking.AgreementInEveryInterleaving says exactly when agreement survives.
- Linking.LinksAreForever: administrator edits and other login code, which also write account rows, are not steps of the run.
- WriteTransaction.RefusalMeansNoCommit: the drizzle wrapper is BEGIN, body, COMMIT, with ROLLBACK and rethrow on an error; socket errors on the two connections are answers like any other.
- Budgets.StoreAnswersAsLog: whole milliseconds, a clock that does not go back, one fixed list of windows per key; one process, since every replica has its own store.
- Budgets.BudgetStore.Decide: `tryEnter`, `leave` and `size`, a counter with no harder property.
- Limiter.LimiterFollowsTheLog: nothing is promised for a key the cap has evicted; LimiterRuns says which keys those are.
- Grants.AdaptationExact: capabilities are sets, so a profile list with a repeated capability, which has another fingerprint in the code, is not told apart from the list without it.
- TileProxy.TileProxy.Serve: metrics, events, URL templates, headers and `clear`; the clock is read once per segment; a body is read as one value.
- JsonKeys.DuplicatesAreFound: nothing is stated for texts that are not well-formed JSON, which the parser refuses afterwards.
- Paging.WalkIsComplete: the bound of 100000 on `offset` in the parameter schema; feature sizes are abstract, with the array's brackets and commas counted.
- PollRuns.AutomaticRequestsAreBounded: storage that another script or the reader clears or edits, and a tab duplicated with its storage.
- Poll.PollPage.Respond: the note texts, the buttons revealed and the receipt shown; the length of timer delays.
- HTTP routing, cookies, pages and their policies, content serving, write-intent storage, receipts, PostgreSQL itself and the configuration are not modelled.
