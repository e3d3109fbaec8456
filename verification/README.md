# Activity Relay Directory: verified model

This project models the directory's durable store as a state machine, the paged readers over
it, the maintenance runs that mutate it while paging through it, and six self-contained
algorithms that carry bounds: admission limiting, signature replay protection, database growth
admission, source-scoped profile history, actor path canonicalization and the CSV list codec.
`dafny verify dfyconfig.toml` checks everything.

## How the model is laid out

| module | what it holds |
|---|---|
| Keyset | the total order of paged reads, ordered enumeration of a set, bounded first rows, cursors |
| Evidence | health boundaries, the four tiers, the consistency check of a public row |
| Store | the tables as one record per actor, the append-only logs, every transaction as a function |
| Repository | the same transactions as methods that update a copy of the rows and commit or return early |
| StoreInvariant, StoreRuns | what every transaction keeps, over every run from the empty database |
| PurgeSafety | optimistic revalidation of purge candidates |
| Details, Presence | how stored rows become a public row; ageing; invisibility of soft pruning; who is listed after which transaction |
| Projection, Pages, EmptyPages, Consumers, Export | tier scans, page links, walks, reverse pages without a relay, the HTTP page checks, the export budget |
| RetentionRules, RetentionStore, RetentionRun | purge pages and batches, the audit row, the bounded run |
| Reachability, ReachabilityRun | the due queue, the worker's page checks and its bounded pass |
| Buckets, Limiter | the evicting bucket pool against a reference that never evicts; permits |
| Profile, ProfileRuns | source-scoped profile values and their history, and what whole runs of it leave |
| Growth, GrowthAlerts, GrowthAdmission | pressure and states; the alert row, its mail and restarts over whole runs; the guard object |
| Replay, ActorPath, ProfileCsv | the remaining algorithms |

## What is assumed

- A transaction is one atomic step: the write lease and an immediate transaction make it so. An
  SQL query is its set or order specification; the per-source limits followed by a merge are
  modelled, because paging depends on them.
- Every table is keyed by the canonical actor, so the store is one record of rows per actor. The
  four event logs draw identifiers from one increasing counter and never reuse one. Gaps are allowed.
- A relay's public base URL is a function of its actor (internal/protocol/v1/identity.go:41-49), so
  it is not stored separately and the branches that compare a different base are unreachable.
- Text order is bytewise. Seconds, nanoseconds and counts are unbounded integers; the growth
  arithmetic states separately that no 64-bit product overflows.
- Paging statements fix one store snapshot and one observation time not before the recorded
  writes. A page lists positions (tier, actor); the evidence at a position is the actor's assembled row.
- Enrollment policy, prober answers, clock readings, cancellation, storage failures and other
  writers' transactions are parameters, quantified over.

## Findings

- A growth warning level of 1 to 5 percent is never recovered from: the recovery test compares
  pressure with the level minus five, which is then never positive. `Growth.WarningRecovers` gives
  the exact condition.
- The replay reservation is long enough exactly up to 270 seconds between verification and
  reservation; `Replay.LongerDelayReplays` accepts one signature twice at one nanosecond more.
- A current profile value can be lost while its history still asserts it: deleting the actor's
  last identity drops the values and keeps the events
  (internal/storage/sqlite/migrations/0010_relay_profiles.sql:161-176). Over every run,
  `ProfileRuns.ValueIsFold`: value and history agree if and only if no such deletion followed the
  slot's last set. `ProfileRuns.ValueCanBeLost` is a run where they differ.
- Promotion sets the observation row's update time to the probe's time, so the table's own check
  aborts it when authenticated evidence is newer. `Presence.PromotesUnlessVerifiedLater`: a promotion
  that passes every guard of its own succeeds if and only if no verification is later than the
  probe; `Presence.PromotionCanFail` reaches the failure in three transactions.
- A reverse page can be empty and still offer links. `Pages.NoLinksIff`: it has no link if and only
  if no public relay and fewer than 400 scan positions lie below its cursor.
  `EmptyPages.EmptyPageLinks`: in a reachable store of 134 relays, a page with nothing public below
  it offers both links, and both are the same position.

## Model

| member | source | states |
|---|---|---|
| StoreRuns.StepKeeps | internal/storage/sqlite/relay.go:69-353 | every committed transaction of all thirteen kinds keeps the table checks, log order, ownership and the replay property |
| StoreRuns.ExecuteAllKeeps | internal/storage/sqlite/relay.go:363-380 | any sequence of transactions on any actors keeps the invariant of the whole database |
| StoreRuns.StateIsReplayOfLogs | internal/storage/sqlite/relay.go:428-492 | in every reachable state the lifecycle row is the replay of its events and the suspension the replay of moderation, also across purge and re-registration; times never run back inside the relay, moderation and discovery logs, nor across the first two; nothing signed falls inside a suspension; every observation has an owner |
| StoreRuns.RegisterKeeps | internal/storage/sqlite/relay.go:69-201 | a registration keeps the invariant of its actor |
| StoreRuns.HeartbeatKeeps | internal/storage/sqlite/relay.go:203-275 | a heartbeat keeps the invariant of its actor |
| StoreRuns.UnregisterKeeps | internal/storage/sqlite/relay.go:277-361 | an unregistration keeps the invariant, whether or not a relay was there |
| StoreRuns.ModerateKeeps | internal/storage/sqlite/moderation.go:42-141 | suspension and restoration keep the invariant, changed or not |
| StoreRuns.SoftPruneKeeps | internal/storage/sqlite/pruning.go:131-229 | a prune keeps the invariant |
| StoreRuns.AddDiscoveryKeeps | internal/storage/sqlite/discovery.go:34-96 | adding a discovery keeps the invariant |
| StoreRuns.RemoveDiscoveryKeeps | internal/storage/sqlite/discovery.go:98-146 | removing a discovery keeps the invariant |
| StoreRuns.RecordActorKeeps | internal/storage/sqlite/discovery.go:268-338 | an actor observation keeps the invariant |
| StoreRuns.RecordInboxKeeps | internal/storage/sqlite/discovery.go:340-379 | an inbox observation keeps the invariant |
| StoreRuns.VerifyKeeps | internal/storage/sqlite/discovery.go:515-542 | authenticated evidence never invalidates an observation row nor its check time |
| StoreRuns.RecordReachabilityKeeps | internal/storage/sqlite/reachability.go:193-364 | a worker write keeps the invariant, with the next check one hour to seven days ahead and well-formed diagnoses |
| StoreRuns.RetainCandidateKeeps | internal/storage/sqlite/discovery_candidate.go:34-113 | retaining a private candidate changes nothing the invariant speaks of |
| StoreRuns.PromoteKeeps | internal/storage/sqlite/discovery_candidate.go:463-628 | a promotion, which writes discovery, observation and candidate at once, keeps the invariant |
| StoreRuns.PurgeKeeps | internal/storage/sqlite/retention.go:253-321 | a purge keeps the invariant: the observation goes with its last owner |
| Repository.RelayRepository.Register | internal/storage/sqlite/relay.go:69-201 | the method commits exactly the registration transaction, and rolls back on every refusal |
| Repository.RelayRepository.Heartbeat | internal/storage/sqlite/relay.go:203-275 | the method commits exactly the heartbeat transaction |
| Repository.RelayRepository.Unregister | internal/storage/sqlite/relay.go:277-361 | the method commits exactly the unregistration transaction |
| Repository.RelayRepository.Moderate | internal/storage/sqlite/moderation.go:42-141 | the method commits exactly the moderation transaction, with the outcome of the case table |
| Repository.RelayRepository.SoftPrune | internal/storage/sqlite/pruning.go:131-229 | the method commits exactly the prune transaction, or changes nothing |
| Repository.RelayRepository.AddDiscovery | internal/storage/sqlite/discovery.go:34-96 | the method commits exactly the addition: created, reactivated or confirmed |
| Repository.RelayRepository.RemoveDiscovery | internal/storage/sqlite/discovery.go:98-146 | the method commits exactly the removal, logging it also when nothing was there |
| Repository.RelayRepository.RecordActorObservation | internal/storage/sqlite/discovery.go:268-338 | the method commits exactly the actor observation, refused when a newer check is retained |
| Repository.RelayRepository.RecordInboxObservation | internal/storage/sqlite/discovery.go:340-379 | the method commits exactly the inbox transaction, refused unless that inbox is still the declared one |
| Repository.RelayRepository.RecordReachabilityObservation | internal/storage/sqlite/reachability.go:193-364 | the method commits exactly the worker transaction with both diagnoses, skipped when the actor is no longer eligible or was checked since; a failed actor check keeps the inbox diagnosis |
| Repository.RelayRepository.ScheduleNextCheck | internal/storage/sqlite/reachability.go:294-357 | the branches compute the capped streak, the next check and the stored diagnoses of one worker result |
| Repository.RelayRepository.RetainDiscoveryCandidate | internal/storage/sqlite/discovery_candidate.go:34-113 | the method commits exactly the candidate transaction: created, or updated with one more failure, and one private event |
| Repository.RelayRepository.PromoteDiscoveryCandidate | internal/storage/sqlite/discovery_candidate.go:463-628 | the method commits discovery, observation, candidate and both events together or nothing |
| PurgeSafety.PurgedIffUndisturbed | internal/storage/sqlite/retention.go:369-467 | after any run of other transactions a candidate is purged if and only if it is old enough and no committed write disturbed it, also when the row was deleted and recreated |
| PurgeSafety.BasisOrStale | internal/storage/sqlite/retention.go:369-447 | along any run the rows keep the candidate's basis until the first disturbing write and are stale ever after |
| PurgeSafety.StepVersions | internal/storage/sqlite/retention.go:60-88 | no transaction moves a decision version back; each disturbing one removes the row or raises a version |
| PurgeSafety.MatchesIff | internal/storage/sqlite/retention.go:449-467 | revalidation accepts exactly rows on the same basis and refuses every stale one |
| Details.SoundRowsProject | internal/storage/directory_projection.go:218-328 | any row a sound store holds is shown exactly when publicly eligible, and every shown row passes the evidence check |
| Details.EveryReachableRowProjects | internal/storage/sqlite/directory_projection.go:650-926 | after any run of transactions no actor makes the reader fail |
| Details.TiersOnlyAge | internal/storage/directory_projection.go:164-200 | with no new evidence a relay's tier number never decreases as observation time grows |
| Details.PruningIsInvisible | internal/storage/sqlite/pruning.go:143-228 | a prune that applies changes neither tier nor presence in either listing, at every read from the prune and the last write on, also when another write of the actor is later than the prune |
| Presence.DiscoveryIsReplayOfLog | internal/storage/sqlite/discovery.go:34-146 | in every reachable state the discovery row is the replay of the discovery log; where a purge took the row the log ends in its removal |
| Presence.CandidateIsReplayOfLog | internal/storage/sqlite/discovery_candidate.go:34-113 | in every reachable state the private candidate is the replay of its log and passes its table's checks; its failure count is the number of failed checks, and it is resolved strictly after every earlier check |
| Presence.PrunesExactlyTheOffline | internal/storage/sqlite/pruning.go:143-196 | a prune applies if and only if the relay is registered, unseen for thirty days, without a newer lifecycle or moderation entry, and shows neither online signal at the prune's time or later |
| Presence.SignedIsListed | internal/storage/directory_projection.go:164-200 | after an accepted registration or heartbeat the relay is listed at every read from the last write on, in tier one or two exactly until 36 hours after it or while its actor check is fresh |
| Presence.PromotedIsListed | internal/storage/sqlite/discovery_candidate.go:463-628 | after a promotion the actor is listed at every read from the last write on, in tier one or two exactly until six hours after it or while a heartbeat is current, unless it is suspended |
| Presence.PromotionSettlesPending | internal/storage/sqlite/directory_summary.go:60-72 | a promotion takes exactly its actor off the pending candidates and onto the directory, unless it is suspended |
| Presence.PromotesUnlessVerifiedLater | internal/storage/sqlite/discovery_candidate.go:463-628 | a promotion its guards admit goes through if and only if no authenticated evidence is later than the probe; otherwise it is a storage failure |
| Presence.PromotionCanFail | internal/storage/sqlite/discovery_candidate.go:571-592 | a candidate retained at 10, its actor registered at 30, and the probe of 20 is admitted and then aborted |
| Presence.RestoreUndoesSuspend | internal/storage/sqlite/moderation.go:42-141 | suspension hides the actor and restoration brings back exactly the public row it would have had |
| Projection.SoundIsReadable | internal/storage/sqlite/directory_projection.go:650-926 | every reachable database can be read completely at any time from its last write on |
| Projection.MergeActors | internal/storage/sqlite/directory_projection.go:596-648 | the two-index merge of two bounded lists is the first rows of their union, each once, in either direction |
| Keyset.MergeLimit | internal/storage/sqlite/directory_projection.go:556-594 | bounding two sources separately and merging under the same bound loses no row of the bounded union |
| Keyset.SourceRowsBelow | internal/storage/sqlite/directory_projection.go:556-594 | a row its own source cut off lies after the whole merged page |
| Keyset.SortedIs | internal/storage/sqlite/directory_projection.go:596-621 | an ordered enumeration of a set is its only one |
| Keyset.PartCursor | internal/storage/sqlite/retention.go:30-184 | what lies beyond the last row of a first part is exactly the rest of it, so no row is skipped or read again |
| Keyset.PartExtends | internal/retention/run.go:148-209 | a first part followed by a first part of the rest is a first part |
| Projection.ReadCandidates | internal/storage/sqlite/directory_projection.go:462-594 | the candidates of a tier scan are the first public identities beyond the boundary |
| Projection.Scan | internal/storage/sqlite/directory_projection.go:102-197 | the tier scan passes scan positions in order, keeps exactly the relays of each tier, and stops only when full, out of its 400 identities, or done |
| Projection.StoppedSegment | internal/storage/sqlite/directory_projection.go:102-197 | a stopped scan's page is exactly the listing between its start and its continuation |
| Projection.HasRelay | internal/storage/sqlite/directory_projection.go:336-460 | the look-ahead never answers no while a relay is ahead, and answers yes without one only when its budget ran out |
| Pages.ReverseRelays | internal/storage/sqlite/directory_projection.go:948-952 | the in-place reversal mirrors the page |
| Pages.ReversedSorted | internal/storage/sqlite/directory_projection.go:623-648 | the descending listing reversed is the ascending one |
| Pages.ListAfter | internal/storage/sqlite/directory_projection.go:102-215 | a forward page is the listing from its cursor to its link, full or out of budget whenever it has one |
| Pages.ListBefore | internal/storage/sqlite/directory_projection.go:217-334 | a reverse page is the mirrored listing below its cursor, with its links; an empty one links by how many scan positions lie below |
| Pages.NoLinksIff | internal/storage/sqlite/directory_projection.go:286-334 | a reverse page has no link either way if and only if nothing public and fewer than 400 scan positions lie below its cursor |
| EmptyPages.NothingBelow | internal/storage/sqlite/directory_projection.go:336-460 | n relays registered at zero and read sixty days later: all readable, none listed above tier four, three scan positions each below its top |
| EmptyPages.NamesAreCanonical | internal/storage/directory_projection.go:97-107 | the paths of these relays and of the cursor are their own normal form |
| EmptyPages.EmptyPageLinks | internal/storage/sqlite/directory_projection.go:286-309 | with 134 of them every reverse page from there is empty and offers both links, to the same position |
| Pages.ListDirectoryRelays | internal/storage/sqlite/directory_projection.go:79-100 | which queries are refused, and what every accepted one returns |
| Pages.WalkListsEverything | internal/storage/sqlite/directory_projection.go:102-334 | following links from any cursor in either direction lists exactly the public relays beyond it, sorted, each once |
| Pages.ForwardWalkIsTheListing | internal/storage/sqlite/directory_projection.go:102-201 | from the zero cursor the concatenated pages are all public relays in (tier, actor) order, for every page limit |
| Pages.LinksRunOut | internal/storage/sqlite/directory_projection.go:117-197 | every walk ends: each link leaves fewer scan positions |
| Pages.WalkForward | internal/storage/sqlite/directory_projection.go:102-215 | following the forward links of the page reader, from any cursor and with any limit, ends with exactly the public relays beyond the cursor in order; it never fails on a readable store |
| Pages.WalkBackward | internal/storage/sqlite/directory_projection.go:217-334 | following the backward links ends with exactly the public relays below the cursor, and put together they are in forward order |
| Pages.SummaryCountsTheListing | internal/storage/sqlite/directory_summary.go:15-99 | known is the length of the complete walk, online the number of its relays in tiers one and two, offline that of tiers three and four, and pending the open candidates whose actor is not in it |
| Pages.OnlineIsTierOneOrTwo | internal/storage/sqlite/directory_summary.go:26-71 | the summary's online condition is tier one or two |
| Consumers.CheckPage | internal/httpapi/directory_projection.go:114-172 | the HTTP layer's loop decides exactly its order, cursor and row conditions |
| Consumers.ForwardPageAccepted | internal/httpapi/directory_projection.go:114-172 | no forward page the repository can return is rejected |
| Consumers.ReversePageAccepted | internal/httpapi/directory_projection.go:114-172 | no reverse page the repository can return is rejected |
| Export.Render | internal/directoryexport/export.go:70-128 | the export of a scope is exactly its public relays in order; with N at most 10000 it completes within 2(N/100)+1 pages and never reports its limit; unrestricted, it is refused exactly beyond 10000 |
| Export.Collect | internal/directoryexport/export.go:100-121 | collecting a page never meets a repeated actor and stops exactly at the relay ceiling |
| Export.NextBudget | internal/directoryexport/export.go:83-128 | every page that is not the last returned 100 relays or used 400 of the 4N scan positions, and its cursor advances |
| RetentionRules.QuietBatch | internal/storage/sqlite/retention.go:243-321 | with no interleaved writer a batch skips nothing and removes exactly the positions of its page |
| RetentionRules.SkippedIffDisturbed | internal/storage/sqlite/retention.go:243-252 | inside a batch a candidate is skipped exactly when another writer, or an earlier purge of the batch, disturbed it |
| RetentionRules.BatchConserves | internal/storage/sqlite/retention.go:253-321 | the totals a batch reports are exactly the relay, discovery, observation and event rows that are gone |
| RetentionRules.BatchAccounts | internal/storage/sqlite/retention.go:242-321 | every candidate is either purged or skipped, and observations removed never exceed primary rows removed |
| RetentionRules.SoundCandidateValid | internal/storage/retention.go:89-110 | every candidate of a sound store is a valid snapshot |
| RetentionStore.RetentionRepository.PurgeCandidates | internal/storage/sqlite/retention.go:30-184 | the page is the first candidates of both sources beyond the cursor, with a link exactly when more remain |
| RetentionStore.RetentionRepository.PurgeBatch | internal/storage/sqlite/retention.go:191-355 | the batch is its purges in order plus one checkpoint of the audit row; any failure at any candidate leaves store and audit untouched |
| RetentionStore.CheckpointFits | internal/storage/sqlite/retention.go:324-350 | a checkpoint passes the audit table's checks exactly while the run stays within 1000 attempts |
| RetentionStore.RetentionRepository.BeginRetentionRun | internal/storage/sqlite/retention.go:471-520 | an audit row is opened exactly for a consistent policy and cutoff and a well-formed backup digest |
| RetentionStore.RetentionRepository.FinishRetentionRun | internal/storage/sqlite/retention.go:526-668 | finalization is accepted exactly when it invents and loses no committed effect |
| RetentionStore.FinishOnce | internal/storage/sqlite/retention.go:569-584 | an accepted finish is final: only its own repetition is accepted again, and no batch |
| RetentionStore.UpdatesAllowed | internal/storage/sqlite/migrations/0008_discovery_reachability.sql:298-319 | every audit write of a batch or a finish passes the update trigger: identity fixed, only a running row, no counter back |
| RetentionRun.ValidatePage | internal/retention/run.go:250-298 | the runner's page loop decides exactly its ordering and validity conditions |
| RetentionRun.ReadPageFits | internal/retention/run.go:250-298 | the runner never rejects a page of the store |
| RetentionRun.FinishAccepted | internal/storage/sqlite/retention.go:526-668 | the store accepts the totals the run reports, however the run ended |
| RetentionRun.QuietRead | internal/storage/sqlite/retention.go:30-184 | undisturbed, the next page is the first positions still left |
| RetentionRun.QuietStep | internal/storage/sqlite/retention.go:243-350 | undisturbed, one batch advances the attempted part and keeps the totals conserved |
| RetentionRun.PurgePages | internal/retention/run.go:148-209 | at every exit the running audit row agrees with the counters, attempts are ordered and at most 1000, and the totals are the journal of committed batches; undisturbed, it stops only when nothing is left or the attempts are used up |
| RetentionRun.Summarize | internal/retention/run.go:41-102 | on an unchanged store the dry run counts exactly the positions an undisturbed run attempts, with the same bounds and truncation |
| RetentionRun.DryPage | internal/retention/run.go:64-101 | each page read beyond the last continues the ordered first part of the candidates |
| RetentionRun.Run | internal/retention/run.go:107-248 | at most 1000 attempts, none twice, totals equal to what its batches removed, its own audit row with exactly these totals and its backup digest, every other audit row as other runs wrote it; undisturbed, the first 1000 eligible positions are gone, none skipped, and truncation is reported exactly when some remain |
| Reachability.StreakCountsFailures | internal/storage/sqlite/reachability.go:294-327 | in every reachable state the streak is min(consecutive worker failures, 4), and the next check is one hour to seven days after its check |
| Reachability.ReachabilityCandidates | internal/storage/sqlite/reachability.go:36-179 | the page is the first due actors beyond the cursor, never checked first, then oldest check, then actor |
| Reachability.SoundDueKey | internal/storage/sqlite/reachability.go:158-165 | no due actor was checked within the last hour, so the read never fails on one |
| Reachability.ValidatePage | internal/reachability/run.go:240-301 | the worker's page loop decides exactly its ordering and time conditions |
| Reachability.ReadDueFits | internal/reachability/run.go:240-301 | the worker never rejects a page of the store |
| Reachability.ProbeOne | internal/reachability/run.go:163-238 | every result the worker would write is one the store accepts, a failed actor with a diagnosis; local and unclassified failures yield none |
| Reachability.RecordDue | internal/storage/sqlite/reachability.go:193-364 | recording a due actor is applied and makes it not due at that time |
| Reachability.SweptStep | internal/reachability/run.go:83-113 | one undisturbed write takes exactly its actor off the queue and leaves every other row alone |
| ReachabilityRun.RecordPage | internal/reachability/run.go:82-114 | every completed write is counted once; undisturbed, the whole page is recorded in candidate order and leaves the queue |
| ReachabilityRun.Run | internal/reachability/run.go:43-125 | at most 96 attempts, whatever fails in between; alone, the first 96 due actors are each recorded once, nothing is skipped, no page refused, no other row changed, and truncation is reported exactly when somebody is still due |
| Buckets.IdleCoversRefill | internal/admission/limiter.go:218-244 | a configuration is accepted exactly when its idle time covers a full refill; the overflow guard loses nothing |
| Buckets.AdmitKeeps | internal/admission/limiter.go:281-321 | every admission of the evicting pool decides as a reference that never forgets a key, capacity refusals aside |
| Buckets.CleanedMatches | internal/admission/limiter.go:323-336 | eviction is invisible: an evicted bucket was full |
| Buckets.RefilledExact | internal/admission/limiter.go:338-358 | a refilled bucket states its level exactly, remainder included |
| Buckets.WindowBound | internal/admission/limiter.go:27-33 | in every window a key is allowed at most burst + floor(window / interval) requests |
| Buckets.RefusalIsExact | internal/admission/limiter.go:360-369 | a refused key is refused before now + delay and allowed from that instant on |
| Buckets.CapacityMeansBusy | internal/admission/limiter.go:290-300 | a capacity refusal means no pooled bucket is idle and nothing was evicted |
| Buckets.MovedToBack | internal/admission/limiter.go:301-312 | the list stays in last-seen order and in bijection with the map |
| Buckets.BucketPool.Cleanup | internal/admission/limiter.go:323-336 | the loop removes idle buckets from the front, at most its limit |
| Buckets.BucketPool.Refill | internal/admission/limiter.go:338-358 | the branches compute the refilled bucket |
| Buckets.BucketPool.Take | internal/admission/limiter.go:281-321 | the steps of one admission in place |
| Buckets.BucketPool.Admit | internal/admission/limiter.go:281-321 | every admission is appended to a history that stays the reference's |
| Limiter.KeysSeparate | internal/admission/limiter.go:246-248 | buckets of different operations or identities never share a key |
| Limiter.AdmissionLimiter.AdmitSource | internal/admission/limiter.go:112-156 | refusal at the ceiling touches no bucket; a permit exists exactly when admitted, and in-flight counts it |
| Limiter.AdmissionLimiter.AdmitActor | internal/admission/limiter.go:161-196 | one actor admission per permit, only while held and for its operation |
| Limiter.AdmissionLimiter.Release | internal/admission/limiter.go:200-216 | gives the slot back once; in-flight stays the number of active permits, at most the ceiling |
| Limiter.AdmissionLimiter.CurrentTime | internal/admission/limiter.go:250-257 | the clock never runs back |
| Replay.NoSignatureTwice | internal/protocol/v1/replay.go:164-200 | no signature is accepted twice in any interleaving of requests and cleanups if verification to reservation takes at most 270 seconds |
| Replay.LongerDelayReplays | internal/protocol/v1/rfc9421.go:278-289 | a concrete run one nanosecond slower accepts a signature twice |
| Replay.SecondIsLate | internal/storage/sqlite/replay.go:62-127 | a second acceptance commits no earlier than the first reservation's expiry |
| Replay.ReservationStays | internal/storage/sqlite/replay.go:81-98 | a reservation survives every transaction until a clock reading reaches its expiry |
| Replay.CleanupIsBounded | internal/storage/sqlite/replay.go:202-234 | cleanup removes only expired reservations, exactly as many as its bound and their number allow |
| Replay.DurableReplayStore.Reserve | internal/storage/sqlite/replay.go:62-127 | the transaction drops the expired key, cleans one batch and inserts if absent |
| Replay.DurableReplayStore.CleanupExpired | internal/storage/sqlite/replay.go:133-176 | which requests are refused and how many reservations the others remove |
| Replay.MemoryReplayStore.Reserve | internal/protocol/v1/replay.go:94-144 | the steps of one reservation; full exactly when the key is free and live entries fill the store; expired entries never matter |
| Replay.StoresAgree | internal/protocol/v1/replay.go:94-144 | from agreeing live reservations the durable and the in-memory store answer alike and keep agreeing, except that the latter is full exactly when the former would reserve and its live reservations number the capacity |
| Replay.RunsAgree | internal/protocol/v1/replay.go:94-144 | over every run from empty stores, with cleanups of the durable one in between, all answers are alike if and only if the live reservations always leave room |
| Growth.ThresholdIsReportedPercent | internal/storage/sqlite/growth.go:803-822 | the ceiling test agrees with the floored reported percent for every threshold |
| Growth.ProductsFit | internal/storage/sqlite/growth.go:803-822 | no product leaves the 64-bit range within the configured byte bounds |
| Growth.CheckedMultiplyExact | internal/storage/sqlite/growth.go:824-829 | the overflow guard refuses exactly products outside the range |
| Growth.ClassIsPressure | internal/storage/sqlite/growth.go:738-755 | the class of the raw byte counts is a function of the reported pressure |
| Growth.NextStateMeaning | internal/storage/sqlite/growth.go:757-786 | upward at once, downward exactly below threshold minus five, one hundred percent always hard |
| Growth.WarningRecovers | internal/storage/sqlite/growth.go:776-783 | warning returns to normal for some pressure if and only if the configured level is at least six |
| Growth.NoFlapping | internal/storage/sqlite/growth.go:757-786 | over every sample sequence six times the downward changes is at most the total fall of pressure |
| Growth.Measure | internal/storage/sqlite/growth.go:652-695 | which readings are refused and what the others measure |
| Growth.ChangesPaidByFalls | internal/storage/sqlite/growth.go:757-786 | from normal, three times the state changes of any sample sequence is at most twice the total fall of pressure plus nine |
| GrowthAlerts.RunOk | internal/storage/sqlite/migrations/0007_database_growth_guard.sql:2-35 | over any run of samples, deliveries, failed writes and restarts the row in memory and the stored one pass the table's checks, and a pending alert is about the state in force |
| GrowthAlerts.NoMailStorm | internal/storage/sqlite/growth.go:409-603 | over any such run deliveries started number at most four for each state change, each restart and each reminder interval (or day, if shorter) that passed |
| GrowthAlerts.MailsFollowPressure | internal/storage/sqlite/growth.go:409-603 | with every write saved, the same bound in terms of how far pressure fell, restarts and time |
| GrowthAlerts.RestartsForgetNothing | internal/storage/sqlite/growth.go:883-971 | with every write saved, the state and its changes are those of all pressures sampled, restarts or not |
| GrowthAlerts.RemindersAreSpaced | internal/storage/sqlite/growth.go:486-497 | with every write saved, no delivery starts within a reminder interval of a recorded one while the state stays, also across restarts |
| GrowthAlerts.AdministratorIsTold | internal/storage/sqlite/growth.go:471-497 | with mail on, once sampled, a state that is not normal has an alert scheduled within a day or a mail less than a reminder interval old at the last sample |
| GrowthAdmission.GrowthGuard.SampleLocked | internal/storage/sqlite/growth.go:409-511 | one sample moves the state by its pressure and schedules its alert, also when persisting fails; it fails exactly when unread or when a needed write was lost; growth is against the last measured size |
| GrowthAdmission.GrowthGuard.Schedule | internal/storage/sqlite/growth.go:445-501 | the branches compute the alert a change, a state never mailed or a due reminder leaves |
| GrowthAdmission.GrowthGuard.BeginDelivery | internal/storage/sqlite/growth.go:523-543 | a delivery starts exactly when mail is on and the pending alert's time has come |
| GrowthAdmission.GrowthGuard.EndDelivery | internal/storage/sqlite/growth.go:546-590 | the outcome is recorded unless a newer alert superseded it; a failure is retried after 5, 15 and 60 minutes, then daily |
| GrowthAdmission.GrowthGuard.AcquireWrite | internal/storage/sqlite/growth.go:279-302 | a lease exactly when sampled and not hard, with the state the sampled pressure leads to; one hundred percent pressure admits no write |
| GrowthAdmission.GrowthGuard.Ready | internal/storage/sqlite/growth.go:318-331 | ready exactly when the last sample was healthy and not hard |
| Profile.RevisionIsCount | internal/storage/sqlite/profile.go:330-361 | the latest revision of a slot is the number of its events: no gap and no restart |
| Profile.ReplaceFieldKeeps | internal/storage/sqlite/profile.go:83-140 | replacing one field keeps values and history together |
| Profile.ReplacementMeaning | internal/storage/sqlite/profile.go:67-146 | the source then asserts exactly the intent, no other source changes, the summary accounts for twelve fields, one event per change |
| Profile.RepeatIsUnchanged | internal/storage/sqlite/profile.go:111-114 | repeating a replacement is all unchanged and appends nothing |
| Profile.NeverMismatched | internal/storage/sqlite/profile.go:75-81 | the revision check never fails in a reachable state |
| ProfileRuns.ValueIsFold | internal/storage/sqlite/profile.go:67-146 | after every run of replacements and identity deletions a current value is the fold of its events if and only if no deletion followed the slot's last set; where one did, the value is gone |
| ProfileRuns.ReplacementsFold | internal/storage/sqlite/profile.go:67-146 | after replacements alone every value is the fold of its events |
| ProfileRuns.RunRevisions | internal/storage/sqlite/profile.go:330-361 | after every run revisions count the events without a gap, and the revision check of the next replacement cannot fail |
| ProfileRuns.ValueCanBeLost | internal/storage/sqlite/migrations/0010_relay_profiles.sql:161-176 | one replacement and one identity deletion: the history asserts a value that is gone |
| Profile.BestIsHighest | internal/storage/profile.go:58-69 | the effective value is the one of the highest-priority source that asserts any |
| Profile.ReadEffective | internal/storage/sqlite/profile.go:182-259 | the first row of each field decides it, which is the highest priority |
| Profile.ProfileStore.ReplaceProfileSource | internal/storage/sqlite/profile.go:25-146 | the loop over twelve fields is the replacement, all or nothing |
| Profile.ProfileStore.WriteField | internal/storage/sqlite/profile.go:83-140 | one round of that loop: cleared, kept, created or updated, with the next revision |
| Profile.ProfileStore.CleanUpAfterIdentityDelete | internal/storage/sqlite/migrations/0010_relay_profiles.sql:161-176 | deleting the last identity drops current values and keeps the history |
| ActorPath.NormalizeActorPath | internal/protocol/v1/identity.go:236-301 | the index loop computes the canonical path or refuses |
| ActorPath.NormalForm | internal/protocol/v1/identity.go:236-301 | canonicalization is idempotent and preserves the decoded bytes |
| ActorPath.NormalFormDecidesSame | internal/protocol/v1/identity.go:250-279 | two accepted paths have the same result exactly when they differ only by hexadecimal case and escaping of unreserved characters |
| ActorPath.NoDotSurvives | internal/protocol/v1/identity.go:291-299 | no empty or dot segment survives, neither in the text nor after decoding |
| ActorPath.ReadRender | internal/protocol/v1/identity.go:257-279 | rendering canonical tokens and reading them back loses nothing |
| ProfileCsv.ListRoundTrip | internal/profilecsv/csv.go:196-254 | decoding an encoded normalized list returns it, whatever backslashes and semicolons it holds |
| ProfileCsv.ProtectionRoundTrip | internal/profilecsv/csv.go:256-282 | unprotecting a protected cell returns every value, and no protected cell starts a formula |
| ProfileCsv.CellRoundTrip | internal/profilecsv/csv.go:89-95 | with protection and trimming the list still returns |
| ProfileCsv.ImportIsNormal | internal/profilecsv/csv.go:113-131 | whatever an import accepts is normalized, and exporting it again loses nothing |
| ProfileCsv.ItemsOfList | internal/profilecsv/csv.go:196-254 | splitting the joined escaped items returns the items |
| ProfileCsv.DecodeCellList | internal/profilecsv/csv.go:196-246 | the byte loop with its escape flag computes the items, then normalizes them |
| ProfileCsv.NormalizeProfileList | internal/storage/profile.go:291-315 | the loop collects the distinct trimmed items and returns them sorted |
| ProfileCsv.NormalizeIsNormal | internal/storage/profile.go:291-315 | a normalized list is bounded, trimmed, strictly ascending |
| ProfileCsv.EncodedIsTrimmed | internal/profilecsv/csv.go:247-254 | an encoded list of trimmed items has no space to trim |

## Left out

- Cryptography, key parsing, structured-field and JSON parsing, HMAC and base64 cursors: verification is an oracle and decoded values are inputs.
- URL, host and address parsing, and CSV quoting: only the path, list and cell functions are modelled.
- HTTP handlers beyond the page checks, HTML, the text and transport of mail, command line, configuration, backup verification, network probing and probe concurrency.
- SQLite itself: WAL, pragmas and indexes; triggers and checks appear where a property depends on them.
- The compatibility listing's own paging, the soft-prune candidate pages, the candidate re-check schedule: the same keyset reading as the modelled pages.
- Store writes do not go through the growth guard's lease, and a released lease is not an object; the guard is modelled by itself. Setting the page-count limit is not part of this model.
- Operator identifiers, reason codes and source labels of moderation, discovery and candidate events.
- Details.SoundRowsProject: does not model the profile and telemetry joined to a public row, nor their checks.
- Details.EveryReachableRowProjects: the same joined columns, and a row whose actor is not canonical, are not among the reader's failures.
- Saturation of time differences, and time values before the zero time of the limiter.
- Profile normalization of scalars, mail addresses and URLs: an intent arrives normalized and encoded, keyed by field.
- Repository.RelayRepository.Register: the submitted actor and base URL are taken as already validated.
