# Eventloom's stateful protocols, modelled and verified

This project models the parts of Eventloom's API layer and command line where a guarantee spans several functions or
several interleaved callers, and proves those guarantees. Time is a number that only grows; SQL statements, cache
operations and renames are atomic steps with other actors and crashes between them; hashes and JSON texts are injective.
Runs are arbitrary sequences of steps: a step that is not enabled changes nothing.

| modules | what they cover |
|---|---|
| `AgendaCache`, `AgendaCacheTier`, `AgendaFeed`, `AgendaFreshness`, `AgendaWorkerTier`, `AgendaMarkLimit`, `AgendaRevisions`, `AgendaContents` | the published-agenda cache: bounded memory tier, worker tier with queued puts, deletions and invalidations |
| `SpeakerCache`, `SpeakerFeed`, `SpeakerRevisions`, `SpeakerContents` | the published-speaker cache |
| `CrmRules`, `CrmMerge`, `CrmReport`, `CrmRepository` | reconciling a CRM contact merge without a transaction, resumable by its audit id |
| `Idempotency`, `LeaseExclusion` | idempotency leases over conditional SQL statements |
| `AgendaLock`, `AgendaLockProgress` | the in-process chain of the agenda mutation lock |
| `Outbox`, `OutboxPayloads`, `Reminders` | staging outbox jobs beside a consumer; retry keys of review reminders |
| `AssignmentModel`, `AssignmentOverlay`, `AssignmentGenerations`, `AssignmentLineage`, `AssignmentStore`, `AssignmentGuards`, `DistributionGuards` | reviewer assignments: snapshot overlay, replacement, bulk distribution |
| `Invitations`, `InvitationSetups` | member invitations as a compare-and-swap over one row |
| `SkillManifest`, `SkillInstaller` | the skill manifest and the staged replacement of an installed skill |
| `Concurrent`, `Briefing`, `BriefingOrder` | bounded concurrent mapping and the canonical briefing |
| `CivilDate` | the civil date range of an agenda, over the day arithmetic of section 21.4.1 of ECMA-262 |
| `Base64Url`, `Base64Bits` | the base64url codec of section 5 of RFC 4648 |
| `Basics`, `OrderedMap`, `Ascending`, `Text` | optional values, insertion-ordered maps, ascending sequences, text order |

Where the source changes fields or tables in place, a class or a method with loops does the same and its contract ties the
new state to a specification function; the lemmas are about those functions and about runs of them. What the functions
themselves do is told again without them, from the events, rows and fields: in the modules `...Revisions`, `...Contents`,
`...Guards`, `CrmReport`, `LeaseExclusion`, `OutboxPayloads`, `InvitationSetups`, `BriefingOrder` and `Base64Bits`.

## What turned out false, and exactly when it holds

- A cached response may be stale when two served manifests of a path agree in the compared revisions and render
  differently; `CachedFeedRefinesFreshFeed` and `CachedSpeakersRefineFresh` prove that this is the only case.
- A worker-cached agenda may outlive an invalidation when the bypass mark of its path was pushed out while its put was
  under way. `ManyPathsAreUnsafe` gives the run, and `SafeUpToTheMarkLimit` proves that a site is safe in every run if and
  only if its invalidations can cover at most 256 paths.
- A re-run merge may report other counts when an affected record carries a source contact of another merge, and a
  segment that already carries the audit id keeps its retired references; both are proved as equivalences.
- Getting an assignment by id and listing its plan disagree exactly when the row's event is not the plan's and no snapshot
  decides (`GetAgreesWithList`).
- A replacement that stops between its two writes leaves a link to a missing assignment, and every later
  replacement of it is refused (`InterruptedReplacement`, `InterruptedReplacementIsStuck`).
- The assignments a distribution reports as active include abstained ones, which its own preview check does not count as
  active (`DistributionReports`).
- `revokePendingInvitations` checks the status when it lists, but the update it then makes does not. `AcceptedIsRevoked`
  gives the run in which an accepted invitation is revoked, and `RevokesAcceptedExactly` proves that this happens if and
  only if a claim's write landed between the list and the read, with no other revocation.
- `agendaDate` rejects the years 0 to 99, because `Date.UTC` counts them from 1900.

## Assumptions

- Agenda cache: one isolate and one engine, cache calls that succeed or have no effect, each path belongs to one event.
  `WorkerTierSafety` assumes in addition that no invalidation pushes a mark out of the 256. `SafeUpToTheMarkLimit` is about
  sites whose cacheable paths are listed by their invalidations.
- CRM merge: all identifiers are already trimmed and non-empty; nobody else changes the records during the merge.
- Idempotency: a lease id is never used twice; the clock never goes back.
- Assignments: replacements and distributions do not overlap; timestamps have one fixed format; the write theorems are for
  plans without a committed snapshot and for distributions that carry no lineage fields of their own.
- Outbox: job ids join tenant, topic and key with colons, and identify their slots exactly when no tenant and topic's text
  begins another's (`RefusedExactlyByPrefixes`). The outbox functions do not check this; where organization ids enter,
  their patterns allow no colon (`apps/api/src/features/members/routes.ts:89-94`,
  `packages/contracts/src/domain/ids.ts:3-8`), and then it holds (`ColonFreeIsPrefixFree`).
- Outbox: the consumer claims a job only on a message of it. The reminder query finds only attempts of its own reminder.
- Invitations: a password hash verifies exactly its own credential, and emails are compared in folded form.
- Skill installer: renames are atomic and follow POSIX; the random names of the staging and backup directories are unused.
- Briefing: deadlines parse, loading is a function of the profile, and names and ids hold no NUL character.

## Model

| member | source | states |
|---|---|---|
| `AgendaCacheTier.AgendaCacheState.RemoveExpired` | apps/api/src/routes/agenda.ts:1297-1303 | drops exactly the expired entries and their index rows, in place |
| `AgendaCacheTier.AgendaCacheState.Remember` | apps/api/src/routes/agenda.ts:1305-1322 | stores an entry and evicts oldest first down to 128, ending in the specified memory |
| `AgendaCacheTier.AgendaCacheState.Read` | apps/api/src/routes/agenda.ts:1342-1397 | the memory part of a read: bypassed paths miss, a mismatching entry is dropped, a matching one is served |
| `AgendaCacheTier.AgendaCacheState.Write` | apps/api/src/routes/agenda.ts:1444-1459 | the statements of a write end in the specified memory; which writes are stored is `AgendaRevisions.StoredExactly` |
| `AgendaCacheTier.AgendaCacheState.Invalidate` | apps/api/src/routes/agenda.ts:1461-1511 | forgets the event's entries, marks every covered path, raises its generation and minimum, trims marks to 256 |
| `AgendaCache.RememberKeepsNewEntry` | apps/api/src/routes/agenda.ts:1305-1322 | a new entry survives the eviction its own insertion causes; whatever else remains is unchanged |
| `AgendaCache.WriteKeepsInvariant` | apps/api/src/routes/agenda.ts:1444-1459 | a write keeps the memory invariant; a stored one leaves exactly its entry at its path, unbypassed, at the latest revision; another changes nothing |
| `AgendaCache.InvalidateKeepsInvariant` | apps/api/src/routes/agenda.ts:1461-1511 | an invalidation keeps the memory invariant and leaves no covered path cached |
| `AgendaCache.InvalidateOnlyForgets` | apps/api/src/routes/agenda.ts:1468-1493 | an invalidation changes no entry: it only forgets, no entry of the event stays, and at most 256 marks remain |
| `AgendaCache.InvalidateMarks` | apps/api/src/routes/agenda.ts:1494-1505 | exactly the covered paths get the next generation and a minimum raised to the floor; no other path gets a mark |
| `AgendaCache.ReadOnlyForgets` | apps/api/src/routes/agenda.ts:1297-1303 | a read only forgets entries, and what it serves is an unexpired stored entry that matches the wanted manifest |
| `AgendaFeed.MemoryInvariant` | apps/api/src/routes/agenda.ts:1297-1511 | in every run: at most 128 entries and 256 marks, cached and bypassed paths are disjoint, each entry is at its path's latest and at least minimum cache revision |
| `AgendaFreshness.FeedInvariantHolds` | apps/api/src/routes/agenda.ts:1810-1854 | in every run each tier and each queued put holds only renderings of served manifests, and all responses are fresh |
| `AgendaFreshness.ConfusedManifestsServeStale` | apps/api/src/routes/agenda.ts:1331-1340 | two served manifests with the same revisions that render differently give a run with a stale response |
| `AgendaFreshness.CachedFeedRefinesFreshFeed` | apps/api/src/routes/agenda.ts:1331-1397 | every response of every run equals a fresh render of the manifest the request read, if and only if the compared revisions determine the rendering |
| `AgendaWorkerTier.TierInvariantHolds` | apps/api/src/routes/agenda.ts:1399-1459 | in every run, path by path: queued puts have rising generations up to the path's; after a write the worker cache holds that write, nothing, or its put is outstanding; after an invalidation of a bypassed path what it holds is due to be deleted |
| `AgendaWorkerTier.MarksKeptHolds` | apps/api/src/routes/agenda.ts:1494-1511 | while marks fit into 256, every path whose newest change is an invalidation keeps its bypass mark |
| `AgendaWorkerTier.StepUpdatesLast` | apps/api/src/routes/agenda.ts:1444-1511 | the history of newest changes is exact: a step changes it at a path exactly when it writes or invalidates the path |
| `AgendaWorkerTier.NewestChange` | apps/api/src/routes/agenda.ts:1444-1511 | finds the step of the run that last wrote or invalidated a path, with nothing after it |
| `AgendaWorkerTier.SettledWorkerHoldsNewestWrite` | apps/api/src/routes/agenda.ts:1422-1442 | once a path has settled, a worker-cached response is the newest write's, or the path was invalidated and its bypass mark is gone |
| `AgendaWorkerTier.WorkerTierSafety` | apps/api/src/routes/agenda.ts:1399-1522 | in every interleaving without mark overflow, a settled worker-cached response was put by the newest accepted write on its path and no write or invalidation of the path came after it |
| `AgendaMarkLimit.FewPathsAreSafe` | apps/api/src/routes/agenda.ts:1494-1511 | over invalidations that can cover at most 256 paths, every run keeps the worker tier safe |
| `AgendaMarkLimit.ManyPathsAreUnsafe` | apps/api/src/routes/agenda.ts:1430-1438 | over more than 256 coverable paths there is a run that ends settled with an invalidated response in the worker cache: a put is under way, its path is invalidated, its mark is pushed out, and the put is not undone |
| `AgendaMarkLimit.SafeUpToTheMarkLimit` | apps/api/src/routes/agenda.ts:1422-1511 | every run over a site's invalidations is safe if and only if they can cover at most 256 paths |
| `AgendaRevisions.StoredExactly` | apps/api/src/routes/agenda.ts:1444-1459 | in every run a rendering offered for a path is stored if and only if its cache revision is not below any stored at the path before nor below the floor of any invalidation that covered it |
| `AgendaRevisions.LatestNeverFalls` | apps/api/src/routes/agenda.ts:1451-1453 | in every run later stored renderings of a path never have a lower cache revision |
| `AgendaRevisions.SettledWorkerIsLatest` | apps/api/src/routes/agenda.ts:1399-1459 | without mark overflow a settled worker-cached response has the greatest cache revision ever stored at its path, with no invalidation of the path since |
| `AgendaRevisions.StoredIsServed` | apps/api/src/routes/agenda.ts:1444-1459 | right after it was stored an unexpired rendering answers every waiting request for its revisions |
| `AgendaRevisions.UndisturbedPutLands` | apps/api/src/routes/agenda.ts:1399-1442 | a put that nothing interferes with settles its path with the stored rendering in the worker cache, and no other path changes |
| `AgendaRevisions.ReadDecides` | apps/api/src/routes/agenda.ts:1342-1362 | a read answers exactly from an unexpired entry of its three revisions, passes the worker cache by exactly under a bypass mark, and else asks it |
| `AgendaRevisions.MatchDecides` | apps/api/src/routes/agenda.ts:1363-1392 | the worker cache answers exactly with an entry of the three revisions, all positive safe integers; another entry is deleted |
| `AgendaContents.RememberLeaves` | apps/api/src/routes/agenda.ts:1305-1322 | a new rendering joins all live entries while there is room among 128, else takes the place of the live one inserted first; nothing else goes |
| `AgendaContents.RememberIndexes` | apps/api/src/routes/agenda.ts:1305-1322 | the path index gains the rendering under its event and loses exactly what expired or was forgotten with its entry |
| `AgendaContents.InvalidateLeaves` | apps/api/src/routes/agenda.ts:1461-1493 | an invalidation forgets exactly the event's entries and index rows |
| `AgendaContents.ReadServesExactly` | apps/api/src/routes/agenda.ts:1342-1362 | what a read serves and what it leaves, both exactly |
| `SpeakerCache.SpeakerCacheState.ReadSpeakerCache` | apps/api/src/routes/public-speakers.ts:294-312 | expires entries in place and serves a matching one |
| `SpeakerCache.SpeakerCacheState.WriteSpeakerCache` | apps/api/src/routes/public-speakers.ts:384-409 | rejects a write below the latest revision, else replaces all entries of the base path by one and evicts down to 128 |
| `SpeakerCache.SpeakerCacheState.InvalidateSpeakerCache` | apps/api/src/routes/public-speakers.ts:411-441 | raises generation and latest revision and forgets the base path |
| `SpeakerCache.WriteKeepsMemory` | apps/api/src/routes/public-speakers.ts:384-405 | a write keeps at most one entry per base path, at its latest revision, and adds nothing but its own entry |
| `SpeakerCache.WriteIsRead` | apps/api/src/routes/public-speakers.ts:397-405 | an accepted entry survives its own eviction and is served by the next read |
| `SpeakerFeed.FeedInvariantHolds` | apps/api/src/routes/public-speakers.ts:294-452 | in every run: at most 128 entries, one per base path at the latest revision, and every stored or queued response is a rendering for the revisions it is stored under |
| `SpeakerFeed.ConfusedManifestsServeStale` | apps/api/src/routes/public-speakers.ts:254-259 | two served manifests with equal revisions and different renderings give a stale response |
| `SpeakerFeed.CachedSpeakersRefineFresh` | apps/api/src/routes/public-speakers.ts:479-525 | every response of every run equals a fresh render for the manifest it read, if and only if revisions determine renderings |
| `SpeakerRevisions.StoredExactly` | apps/api/src/routes/public-speakers.ts:384-409 | in every run a rendering is stored if and only if its cache revision is not below any stored for the base path before nor below that of any invalidation of it |
| `SpeakerRevisions.LatestNeverFalls` | apps/api/src/routes/public-speakers.ts:384-441 | in every run later stored renderings of a base path never have a lower cache revision |
| `SpeakerRevisions.StoredIsServed` | apps/api/src/routes/public-speakers.ts:294-309 | right after it was stored an unexpired rendering answers a waiting request for its revisions |
| `SpeakerRevisions.UndisturbedPutLands` | apps/api/src/routes/public-speakers.ts:345-382 | a put that nothing interferes with lands in the worker cache |
| `SpeakerRevisions.InvalidationStopsPuts` | apps/api/src/routes/public-speakers.ts:345-441 | in every run, after an invalidation of a base path only puts stored after it ever get under way; what was queued before and not under way never reaches the worker cache |
| `SpeakerRevisions.ReadDecides` | apps/api/src/routes/public-speakers.ts:294-308 | a request is answered from memory exactly by an unexpired entry of its revisions, else it asks the worker cache |
| `SpeakerRevisions.MatchDecides` | apps/api/src/routes/public-speakers.ts:309-335 | the worker cache answers exactly with an entry of the wanted revisions, both positive safe integers |
| `SpeakerContents.WriteLeaves` | apps/api/src/routes/public-speakers.ts:384-409 | a stored write replaces all entries of its base path and evicts the live entry inserted first only when 128 others fill the memory; another write changes nothing |
| `SpeakerContents.InvalidateLeaves` | apps/api/src/routes/public-speakers.ts:411-441 | an invalidation forgets exactly the entries of its base path and raises its latest revision, never lowering it |
| `CrmRules.ReplaceRenames` | apps/api/src/runtime/airtable.ts:6510-6538 | replacement renames exactly the retired references at any depth, reports a change exactly when there was one, and leaves none behind |
| `CrmRepository.ParticipantsByEvent` | apps/api/src/runtime/airtable.ts:6480-6500 | collects per event exactly the participants linked to the merged contacts |
| `CrmRepository.ParticipantConflicts` | apps/api/src/runtime/airtable.ts:6480-6508 | reports exactly the events in which two links clash, each with exactly its linked participants and contacts |
| `CrmRepository.FindsParticipantConflict` | apps/api/src/runtime/airtable.ts:6480-6508 | there is a conflict exactly when two links of one event in scope have different participants |
| `CrmRepository.RewireItemRecords` | apps/api/src/runtime/airtable.ts:6153-6189 | rewires notes or pipeline entries one by one; stopped early it leaves a part rewired, finished it leaves all rewired |
| `CrmRepository.Repository.RewireLinks` | apps/api/src/runtime/airtable.ts:6120-6151 | rewires participant links one by one, skipping those already done and refusing one left on a third contact |
| `CrmRepository.Repository.RewireSegments` | apps/api/src/runtime/airtable.ts:6191-6208 | rewires segment rules one by one, skipping those that carry the audit id |
| `CrmRepository.Repository.RewireHistory` | apps/api/src/runtime/airtable.ts:6153-6189 | notes, then pipeline entries, with a budget after which the process stops |
| `CrmRepository.Repository.RewireAll` | apps/api/src/runtime/airtable.ts:6120-6208 | all record updates in order; where it stops the store is a part of the full rewiring |
| `CrmRepository.Repository.ReconcileContactMerge` | apps/api/src/runtime/airtable.ts:6007-6224 | the whole reconciliation under a crash budget: a merge with mismatched contacts or distinct participants is refused and writes nothing; a report means the finished store and counts, table by table, the records changed or changed by it before; with enough budget an admitted merge always reports |
| `CrmMerge.RewiredLinkIsStable` | apps/api/src/runtime/airtable.ts:6127-6150 | rewiring a link again changes nothing, and keeps its event, participant and membership in the merged contacts |
| `CrmMerge.PartialKeepsVerdict` | apps/api/src/runtime/airtable.ts:6067-6077 | rewiring any part of the records does not change the participant-conflict verdict |
| `CrmMerge.MergeIsResumable` | apps/api/src/runtime/airtable.ts:6120-6208 | from any partly rewired store a re-run is admitted and ends in the very records of an uninterrupted run |
| `CrmMerge.MergeSurvivesInterruptions` | apps/api/src/runtime/airtable.ts:6007-6224 | the same after any number of interrupted attempts |
| `CrmMerge.TraceableCountsMatch` | apps/api/src/runtime/airtable.ts:6210-6222 | where every affected record is traceable, a re-run reports the counts of an uninterrupted run |
| `CrmMerge.CountsSurviveExactlyWhenTraceable` | apps/api/src/runtime/airtable.ts:6079-6118 | the reported counts survive every interruption if and only if no affected record carries a source contact from another merge; where one does, they are lost when the process stops after the last update and before the saved result |
| `CrmMerge.FinishedRecordsNameNoRetiredContact` | apps/api/src/runtime/airtable.ts:6120-6189 | after a finished merge no link, note or pipeline entry of the organisation names a retired contact |
| `CrmMerge.FinishedRulesNameNoRetiredContact` | apps/api/src/runtime/airtable.ts:6191-6208 | after a finished merge no rule of the organisation names a retired contact if and only if none of a segment that already carried the audit id did |
| `CrmMerge.FinishedSegmentsRiseByOne` | apps/api/src/runtime/airtable.ts:6201-6207 | each segment that named a retired contact rises by exactly one version with exactly those references renamed, and every other segment is unchanged |
| `CrmReport.MergeReportCounts` | apps/api/src/runtime/airtable.ts:6210-6222 | each count of the report is the number of ids of its own table whose record the merge changed or that carried the merge before |
| `CrmReport.FirstReportCountsChanges` | apps/api/src/runtime/airtable.ts:6210-6222 | where no record carried the audit id before, links, notes, pipeline entries and segments are counted by the ids that differ between the old and the new table of each |
| `CrmReport.ReportCountsCarriers` | apps/api/src/runtime/airtable.ts:6079-6118 | in general each count is the number of records that carry the merge in the final table |
| `CrmReport.FinishedLinkFields` | apps/api/src/runtime/airtable.ts:6127-6150 | field by field, what a merge leaves of a link of a retired contact; every other link is untouched |
| `CrmReport.FinishedItemFields` | apps/api/src/runtime/airtable.ts:6153-6189 | the same of notes and pipeline entries |
| `CrmReport.AdmitsExactly` | apps/api/src/runtime/airtable.ts:6007-6077 | a merge is admitted exactly when its contacts are merged under its audit id, no two links of an event stand for different participants, and no link it rewired earlier has moved on to a third contact |
| `CrmReport.CarriersAreOnSurvivor` | apps/api/src/runtime/airtable.ts:6120-6151 | after an admitted merge every link that carries it is on the survivor |
| `Idempotency.RunKeeps` | apps/api/src/runtime/airtable.ts:4034-4232 | every statement of begin, complete, release and polling, and every tick and crash, keeps the lease invariant; what a lease excludes is in `LeaseExclusion` |
| `Idempotency.EachLeaseAnswersOnce` | apps/api/src/runtime/airtable.ts:4108-4139 | in every run a lease is completed at most once, completions of one key are a day apart, and every response returned or replayed was written for that key and fingerprint |
| `Idempotency.CompletedRowIsStable` | apps/api/src/runtime/airtable.ts:4108-4162 | until it expires nothing any caller does changes or deletes a completed row |
| `Idempotency.LateCallersOnlyReplay` | apps/api/src/runtime/airtable.ts:4059-4081 | whoever calls after completion replays for the same fingerprint and conflicts for another, and never runs the operation before expiry |
| `Idempotency.LostLeaseIsLostForGood` | apps/api/src/runtime/airtable.ts:4121-4161 | a holder whose row is gone or taken over never writes a response; its complete fails and its release leaves every row, in every continuation |
| `LeaseExclusion.LeaseExcludesOthers` | apps/api/src/runtime/airtable.ts:4046-4107 | from an insertion captured at `now` until the clock reaches `now + leaseMs`, unless the holder completes or releases, the row stays as inserted and no other caller of the key enters its operation |
| `LeaseExclusion.NewcomersWait` | apps/api/src/runtime/airtable.ts:4059-4081 | a caller that comes in the meantime ends up polling with the same fingerprint and in conflict with another |
| `LeaseExclusion.ReadersWait` | apps/api/src/runtime/airtable.ts:4059-4081 | so does every caller whose read falls in between, also one that came before |
| `LeaseExclusion.HolderSettlesInTime` | apps/api/src/runtime/airtable.ts:4108-4162 | a holder that returns in time gets its response stored for a day and returned, one that throws frees its key, and no other key is touched |
| `LeaseExclusion.TakesOverExactly` | apps/api/src/runtime/airtable.ts:4034-4107 | an undisturbed begin takes a key over exactly when it has no row or one that expired at or before the time captured, and holds it for `leaseMs` from that time; else it replays, conflicts or polls by what the row says |
| `LeaseExclusion.PollsAreAnswered` | apps/api/src/runtime/airtable.ts:4201-4232 | what one poll answers, in each state of the row |
| `AgendaLock.AgendaMutationLock.EnterQueue` | apps/api/src/runtime/airtable.ts:3899-3906 | the call becomes the tail, waits, and may proceed exactly when all earlier calls of its event have ended; keeps the invariant |
| `AgendaLock.AgendaMutationLock.Proceed` | apps/api/src/runtime/airtable.ts:3906-3912 | a call whose predecessor has ended asks for admission; keeps the invariant |
| `AgendaLock.AgendaMutationLock.Admitted` | apps/api/src/runtime/airtable.ts:3907-3943 | an admitted call becomes the event's current operation, a refused one ends and leaves the operations alone; keeps the invariant |
| `AgendaLock.AgendaMutationLock.Settled` | apps/api/src/runtime/airtable.ts:3961-3969 | an operation that returned or threw goes on to close; keeps the invariant |
| `AgendaLock.AgendaMutationLock.Closed` | apps/api/src/runtime/airtable.ts:3986-4015 | the call ends, its event has no current operation, and has a tail exactly while another call is unreleased; keeps the invariant |
| `AgendaLock.AgendaMutationLock.CurrentOperationId` | apps/api/src/runtime/airtable.ts:3887-3891 | returns the one call whose operation or closing is under way, or fails when there is none |
| `AgendaLock.NextKeeps` | apps/api/src/runtime/airtable.ts:3899-4015 | every section between awaits keeps the chain, tail and active-operation invariant |
| `AgendaLock.OneAtATimeInOrder` | apps/api/src/runtime/airtable.ts:3899-3906 | while a call is past its wait and not ended, all earlier calls of the event have ended and all later ones wait |
| `AgendaLock.CurrentOperationIsOwn` | apps/api/src/runtime/airtable.ts:3887-3891 | the current operation id of an event is a call's exactly while that call's operation or closing is under way, whatever earlier calls threw |
| `AgendaLock.TailWhileUnreleased` | apps/api/src/runtime/airtable.ts:4011-4014 | an event has a tail exactly while some call on it is unreleased, and the tail is the last such call |
| `AgendaLock.FirstIsNotBlocked` | apps/api/src/runtime/airtable.ts:3900-3906 | the first unreleased call of an event never waits for another |
| `AgendaLockProgress.FirstFinishes` | apps/api/src/runtime/airtable.ts:3899-4015 | the first unended call of an event gets through by its own steps, and no other call changes |
| `AgendaLockProgress.FirstOperates` | apps/api/src/runtime/airtable.ts:3899-3943 | a waiting call that is first becomes, once admitted, the event's current operation |
| `AgendaLockProgress.EveryCallCanFinish` | apps/api/src/runtime/airtable.ts:3899-4015 | from every reachable state all calls can finish in their order, and then the lock holds nothing |
| `Outbox.IdsAreDistinct` | apps/api/src/runtime/airtable.ts:6746-6746 | over tenants and topics whose texts do not begin one another, a job id belongs to one slot |
| `Outbox.ColonFreeIsPrefixFree` | apps/api/src/runtime/airtable.ts:6746-6746 | tenants and topics without colons are such |
| `Outbox.IdsCollide` | apps/api/src/runtime/airtable.ts:6746-6746 | where one tenant and topic's text begins another's, two slots share a job id |
| `Outbox.SecondIsRefused` | apps/api/src/runtime/airtable.ts:6747-6803 | of two enqueuers of slots that share an id the second is refused by the primary key |
| `Outbox.RefusedExactlyByPrefixes` | apps/api/src/runtime/airtable.ts:6742-6803 | no call is refused in any run over a set of tenants and topics if and only if no one's text begins another's |
| `Outbox.RunKeeps` | apps/api/src/runtime/airtable.ts:6643-6867 | every statement of the enqueuers, consumer, dispatchers and other writers keeps the outbox invariant and only moves jobs on |
| `Outbox.NothingIsQueuedUnsent` | apps/api/src/runtime/airtable.ts:6643-6723 | one job per tenant, topic and key; a job left pending only after a message with its id was sent; no call that ends with its job in hand leaves it unsent, and the one other ending is characterised |
| `Outbox.JobsOnlyMoveOn` | apps/api/src/runtime/airtable.ts:6711-6717 | a job never returns to pending, keeps its slot, keeps its payload once not pending, and is final once delivered, failed or given up |
| `Outbox.EnqueuersOnlyQueuePending` | apps/api/src/runtime/airtable.ts:6711-6717 | an enqueuer changes a state only from pending to queued, and a payload only as a communication on a pending job |
| `Outbox.FenceHoldsBack` | apps/api/src/runtime/airtable.ts:6673-6703 | while its decision is never the current one, a fenced call sends no message and marks no job |
| `Outbox.EnqueueKeepsPayloads` | apps/api/src/runtime/airtable.ts:6725-6803 | without the communication variant no run changes the payload of a job there is; where payloads come from is in `OutboxPayloads` |
| `Outbox.MessagesNameTheirJob` | apps/api/src/runtime/airtable.ts:6704-6710 | over such tenants and topics every message names its own job's tenant and topic, and no call is refused |
| `OutboxPayloads.EveryPayloadHasItsGiver` | apps/api/src/runtime/airtable.ts:6725-6867 | in every run each job holds the payload brought for its own slot by the step that created it or by a communication that found it pending, ever since that step |
| `OutboxPayloads.PayloadsAreOffered` | apps/api/src/runtime/airtable.ts:6725-6867 | in every run each job's payload is one that a call or insertion brought for its own slot |
| `OutboxPayloads.CreatorsPayloadStays` | apps/api/src/runtime/airtable.ts:6747-6776 | without the communication variant it is the payload of the step that created the job |
| `OutboxPayloads.CommunicationLeavesItsPayload` | apps/api/src/runtime/airtable.ts:6806-6845 | the first statement of a communication leaves exactly its own payload in an absent or pending job of its slot, and touches no other |
| `OutboxPayloads.EnqueueStagesItsPayload` | apps/api/src/runtime/airtable.ts:6747-6776 | the first statement of a plain call stages its payload, pending, only into a free slot under a current decision |
| `OutboxPayloads.EnqueueAloneDispatches` | apps/api/src/runtime/airtable.ts:6643-6723 | a plain call on its own sends and queues a new or pending job and leaves one that moved on alone |
| `OutboxPayloads.FencedAloneDoesNothing` | apps/api/src/runtime/airtable.ts:6673-6703 | under a decision that is not current it stages and sends nothing |
| `OutboxPayloads.CommunicationAloneDispatches` | apps/api/src/runtime/airtable.ts:6806-6867 | a communication on its own sends and queues the job of its slot with its own payload, unless the job moved on |
| `Reminders.AttemptKeysDiffer` | apps/api/src/runtime/airtable.ts:6895-6908 | attempts of one reminder have pairwise different keys |
| `Reminders.QueryIsOk` | apps/api/src/runtime/airtable.ts:6895-6908 | the key picked is the first one, or the one after all attempts found, all of which failed for good |
| `Reminders.AttemptsAreNumbered` | apps/api/src/runtime/airtable.ts:6895-6918 | in every run, stale queries included, the attempts are the first key and retries numbered without gap, all but the last failed for good |
| `Reminders.NoAttemptBesideALiveOne` | apps/api/src/runtime/airtable.ts:8206-8216 | a request adds an attempt only when every earlier one failed for good |
| `Reminders.RequestsAddTheNextAttempt` | apps/api/src/runtime/airtable.ts:6895-6908 | in every run an undisturbed request adds the first attempt where there is none, the next `:retry-` number where every attempt failed for good, and nothing else |
| `AssignmentOverlay.LatestRows` | apps/api/src/runtime/airtable.ts:378-405 | the reduction loop leaves the newest wanted row of each id, in first-seen order |
| `AssignmentOverlay.LatestHoldsNewest` | apps/api/src/runtime/airtable.ts:378-405 | it holds exactly the ids with a wanted row, each with a row no other is newer than |
| `AssignmentOverlay.LatestIsLatest` | apps/api/src/runtime/airtable.ts:378-405 | the row kept for an id has the highest version of the wanted rows, and of those the latest update |
| `AssignmentOverlay.LatestIgnoresOrder` | apps/api/src/runtime/airtable.ts:378-405 | the row order never changes ids, versions or times, and without ties not the rows |
| `AssignmentOverlay.OverlaySnapshot` | apps/api/src/runtime/airtable.ts:407-437 | lays newer rows over the committed snapshot of a plan |
| `AssignmentOverlay.OverlayKeepsSnapshot` | apps/api/src/runtime/airtable.ts:407-437 | under a snapshot exactly its ids are shown, never below the committed version, each as committed or as the newest row |
| `AssignmentOverlay.LastEntryWins` | apps/api/src/runtime/airtable.ts:407-437 | where snapshot entries share an id, the last one of the plan counts |
| `AssignmentOverlay.ListAssignments` | apps/api/src/runtime/airtable.ts:1885-1894 | lists one plan's assignments |
| `AssignmentOverlay.GotIs` | apps/api/src/runtime/airtable.ts:1839-1883 | what a read by id returns, told by the plans that committed the assignment |
| `AssignmentOverlay.GetAgreesWithList` | apps/api/src/runtime/airtable.ts:1839-1894 | read by id and listed by plan agree on every plan if and only if the row's event is that of its plan, where no snapshot decides |
| `AssignmentStore.OverlayShows` | apps/api/src/runtime/airtable.ts:1914-1921 | whatever the row order, the writes see the plan's assignments |
| `AssignmentStore.ListingIsShown` | apps/api/src/runtime/airtable.ts:1885-1894 | listing a plan reads exactly the assignments the writes see |
| `AssignmentStore.DistributionIsRelisted` | apps/api/src/runtime/airtable.ts:1885-1894 | after a distribution listing its plan gives exactly the committed generation, whatever the row order |
| `AssignmentStore.ReplacementIsRelisted` | apps/api/src/runtime/airtable.ts:1885-1894 | after a replacement listing its plan gives exactly the committed generation |
| `AssignmentStore.Store.CommitGeneration` | apps/api/src/runtime/airtable.ts:2486-2514 | writes a generation row by row; stopped early it has written a prefix |
| `AssignmentStore.Store.ReplaceAssignment` | apps/api/src/runtime/airtable.ts:1896-2009 | its steps end in the specified table, or in the part written before a crash; what is refused and what is written is in `AssignmentGuards` |
| `AssignmentStore.Store.ExpectedVersions` | apps/api/src/runtime/airtable.ts:2055-2061 | rejects repeated ids and otherwise maps ids to previewed versions |
| `AssignmentStore.Store.PreviewHolds` | apps/api/src/runtime/airtable.ts:2063-2086 | the preview stands exactly when the expected versions are those of the active target assignments |
| `AssignmentStore.Store.AllAssignable` | apps/api/src/runtime/airtable.ts:2088-2125 | accepts exactly distinct desired assignments each of which may be assigned |
| `AssignmentStore.Store.ApplyDistribution` | apps/api/src/runtime/airtable.ts:2011-2187 | its steps end in the specified table, or in the part written before a crash; what is refused and what is written is in `DistributionGuards` |
| `AssignmentLineage.ReplacementWrites` | apps/api/src/runtime/airtable.ts:1957-1994 | a committed replacement changes the replaced row and adds the successor, and nothing else |
| `AssignmentLineage.ReplacementKeepsLineage` | apps/api/src/runtime/airtable.ts:1896-2009 | a replacement keeps links, back links and their order |
| `AssignmentLineage.InterruptedReplacement` | apps/api/src/runtime/airtable.ts:1989-1994 | a replacement stopped part-way leaves the lineage whole if and only if it did not stop between its two writes |
| `AssignmentLineage.InterruptedReplacementIsStuck` | apps/api/src/runtime/airtable.ts:1929-1932 | stopped between its writes, after any later run the assignment is as it was left, its link is still broken, and every replacement of it is refused |
| `AssignmentLineage.DistributionKeepsLineage` | apps/api/src/runtime/airtable.ts:2127-2171 | a distribution keeps the lineage, also when stopped after any part of its writes |
| `AssignmentLineage.GenerationIsReread` | apps/api/src/runtime/airtable.ts:2486-2510 | after a commit the plan's assignments in the table are exactly the committed generation |
| `AssignmentLineage.DistributionIsExact` | apps/api/src/runtime/airtable.ts:2011-2187 | afterwards the active assignments over the target submissions are exactly the desired ones as desired, dropped ones are superseded one version on, and nothing else changed |
| `AssignmentLineage.DistributionReports` | apps/api/src/runtime/airtable.ts:2172-2179 | what a distribution reports as active is the desired assignments and the abstained ones of its target, no more |
| `AssignmentLineage.LineageHoldsInEveryRun` | apps/api/src/runtime/airtable.ts:1896-2187 | over every run in which no replacement stopped between its two writes, other interruptions included: successors exist and point back, only superseded assignments have them, superseded is final, versions never fall, no row is lost |
| `AssignmentLineage.RunsMoveOn` | apps/api/src/runtime/airtable.ts:1896-2187 | over every run, with every interruption: superseded is final, versions never fall, backward links stay, no row is lost |
| `AssignmentLineage.DanglingForGood` | apps/api/src/runtime/airtable.ts:1989-1994 | a broken successor link stays broken in every run |
| `AssignmentLineage.LineageHasNoCycle` | apps/api/src/runtime/airtable.ts:1957-1983 | no chain of successor links returns to its start |
| `AssignmentGuards.AdmittedExactly` | apps/api/src/runtime/airtable.ts:1619-1639 | writes are admitted exactly from the opening of the round, where asked for, until the plan or the round closes, both half open |
| `AssignmentGuards.RefusedExactly` | apps/api/src/runtime/airtable.ts:1896-1955 | a replacement is refused exactly for want of a plan, admission, row, scope or reason, for a superseded row, for another version than the stored one, for an unfit successor, or for a successor id that is taken |
| `AssignmentGuards.RefusedWritesNothing` | apps/api/src/runtime/airtable.ts:1896-1955 | a refused replacement leaves the table as it is |
| `AssignmentGuards.ReplacementLeaves` | apps/api/src/runtime/airtable.ts:1957-1994 | one that is not refused leaves exactly two records, spelled out field by field, and no other change |
| `AssignmentGuards.ReplacementReportsActive` | apps/api/src/runtime/airtable.ts:1985-2007 | it reports the rows of its submission in the new table that are not superseded |
| `AssignmentGuards.StaleReplacementNeverCommits` | apps/api/src/runtime/airtable.ts:1934-1938 | once anything has raised the version after a caller read it, that caller's replacement is refused after any later run |
| `AssignmentGuards.OneReplacementWins` | apps/api/src/runtime/airtable.ts:1929-1938 | once a replacement wrote the row, every other replacement of it is refused after any later run |
| `DistributionGuards.DistributionRefusedExactly` | apps/api/src/runtime/airtable.ts:2011-2125 | a distribution is refused exactly on one of ten grounds, told on the rows: reason, plan, admission, repeated, outdated or incomplete preview, repeated or unfit assignments, ids taken, rows changed |
| `DistributionGuards.StaleDistributionNeverCommits` | apps/api/src/runtime/airtable.ts:2063-2086 | once anything has raised a previewed version, the distribution is refused after any later run |
| `DistributionGuards.DistributionLeaves` | apps/api/src/runtime/airtable.ts:2127-2171 | wherever it stops, each id it wrote holds the desired assignment with the links its row had, or a row retired one version on, field by field; everything else is unchanged |
| `Invitations.RunKeeps` | apps/api/src/runtime/cloudflare.ts:1625-2009 | every read, write and crash keeps the row and success invariant |
| `Invitations.OneCredentialOneSetup` | apps/api/src/runtime/cloudflare.ts:1643-1743 | in every interleaving the setup is finalized at most once and nobody succeeds after it; all successful claims presented one credential, and where the row already held a hash or an older digest, the credential of that hash or digest |
| `Invitations.ClosedForGood` | apps/api/src/runtime/cloudflare.ts:1963-2009 | use and revocation are for good: usedAt is never cleared or moved, revoked stays, and no claim or finalization succeeds any more |
| `Invitations.RetriesNeedTheSameCredential` | apps/api/src/runtime/cloudflare.ts:1662-1704 | after a first claim another is let through exactly with the first one's credential, which the row before the run let in |
| `Invitations.FinalizedAfterClaim` | apps/api/src/runtime/cloudflare.ts:1979-1991 | a setup is finalized only after a successful claim, unless the invitation was accepted before the run |
| `Invitations.RevokesAcceptedExactly` | apps/api/src/runtime/cloudflare.ts:1513-1540 | a listed revocation whose write lands revoked an accepted invitation if and only if a claim's write landed after its list and before its read, and no other revocation's did |
| `Invitations.AcceptedIsRevoked` | apps/api/src/runtime/cloudflare.ts:1791-1827 | a run in which the claim succeeds, its caller is told so, and the invitation is then revoked |
| `InvitationSetups.LandedFinalization` | apps/api/src/runtime/cloudflare.ts:1963-2009 | in every run a finalization that lands presents the token the row holds and the identity and expiry the invitation had from the start, finds it accepted and unused, and records exactly the use |
| `InvitationSetups.LandedWrites` | apps/api/src/runtime/cloudflare.ts:1625-1998 | in every run, what each write needs and leaves when it lands, field by field |
| `InvitationSetups.FinalizesExactly` | apps/api/src/runtime/cloudflare.ts:1963-2009 | an undisturbed finalization goes through if and only if it presents token, identity and expiry of an accepted, unused invitation; otherwise nothing changes |
| `InvitationSetups.RevokesExactly` | apps/api/src/runtime/cloudflare.ts:1513-1540 | an undisturbed revocation revokes exactly an open invitation |
| `InvitationSetups.InvitationGoesThrough` | apps/api/src/runtime/cloudflare.ts:1625-2009 | issued, delivered, claimed and finalized in turn, a pending invitation ends accepted and used |
| `SkillManifest.StreamDecodes` | packages/cli/src/skill-installer.ts:74-92 | the framed stream decodes back to the very list of files |
| `SkillManifest.ListingIsUnique` | packages/cli/src/skill-installer.ts:52-72 | a tree has one sorted listing, whatever order directories are visited in |
| `SkillManifest.DigestsTellTreesApart` | packages/cli/src/skill-installer.ts:80-92 | two trees have equal digests exactly when they are the same tree |
| `SkillManifest.RegularFiles` | packages/cli/src/skill-installer.ts:52-72 | lists every file once, sorted by path |
| `SkillManifest.ManifestDigest` | packages/cli/src/skill-installer.ts:80-92 | hashes the sorted files of the tree without its lock, frame by frame |
| `SkillManifest.CheckUnmodified` | packages/cli/src/skill-installer.ts:168-183 | accepts exactly a tree whose lock names the version and the tree's own digest |
| `SkillManifest.InstalledIsUnmodified` | packages/cli/src/skill-installer.ts:212-222 | a completed installation passes the check of its own version |
| `SkillManifest.UnmodifiedMeansUntouched` | packages/cli/src/skill-installer.ts:168-183 | under an intact lock a tree passes if and only if no file but the root lock was changed, added or removed |
| `SkillManifest.UnmodifiedExactly` | packages/cli/src/skill-installer.ts:168-183 | a tree with a readable lock passes exactly when the lock names the version twice and every other file is one the recorded digest was taken of |
| `SkillManifest.FrameBytes` | packages/cli/src/skill-installer.ts:74-79 | a frame is the length in eight bytes, most significant first, and then the text |
| `SkillInstaller.Installer.CopyTree` | packages/cli/src/skill-installer.ts:114-131 | copies all files into the staging directory, or stops with only the staging directory touched |
| `SkillInstaller.Installer.Stage` | packages/cli/src/skill-installer.ts:209-222 | leaves the bundled files and a lock over their digest in the staging directory |
| `SkillInstaller.Installer.Replace` | packages/cli/src/skill-installer.ts:210-245 | at every point where it may fail or stop, the old tree is at the destination or in the backup, or the new tree is complete at the destination |
| `SkillInstaller.Installer.CleanUp` | packages/cli/src/skill-installer.ts:246-249 | removes the staging directory and restores the backup exactly when nothing is at the destination |
| `SkillInstaller.Installer.InstallOne` | packages/cli/src/skill-installer.ts:185-250 | the installation is never lost; a normal return leaves the new tree and neither staging nor backup; a rejection changes nothing; without faults it returns exactly when forced, when nothing is there or when the old tree is unmodified, and else rejects |
| `Concurrent.EveryScheduleMaps` | packages/cli/src/briefing.ts:118-136 | in every interleaving each index is taken once, in order, and the results are those of a plain map |
| `Concurrent.OneCompletion` | packages/cli/src/briefing.ts:118-136 | never more workers than the limit, and each completion stores its own result and moves the counter by one |
| `Concurrent.EveryMapEnds` | packages/cli/src/briefing.ts:118-136 | some operation is under way until the map has ended, and it ends after exactly as many completions as there are values |
| `Briefing.OrderIsOrder` | packages/cli/src/briefing.ts:68-91 | the comparison chain is a total order up to ties |
| `Briefing.CompareIsOrder` | packages/cli/src/briefing.ts:68-91 | the comparison equals that chain on all items |
| `Briefing.TiesShareKeys` | packages/cli/src/briefing.ts:68-91 | only items of one deduplication key tie |
| `Briefing.KeysTellApart` | packages/cli/src/briefing.ts:361-377 | without NUL characters a key determines its five parts |
| `Briefing.Deduplicate` | packages/cli/src/briefing.ts:361-377 | the loop keeps the first item of each key |
| `Briefing.FirstsKeepKeys` | packages/cli/src/briefing.ts:361-377 | every key is kept, each once |
| `Briefing.ListItems` | packages/cli/src/briefing.ts:401-403 | lists the deduplicated items, sorted |
| `Briefing.BriefingIsCanonical` | packages/cli/src/briefing.ts:401-403 | the list depends only on the set of items collected, where items of one key are equal |
| `Briefing.EveryRunListsTheSame` | packages/cli/src/briefing.ts:379-414 | end to end: profile order, limits and completion order never change the list |
| `BriefingOrder.ListedInOrder` | packages/cli/src/briefing.ts:68-91 | of two listed items the earlier is not less urgent: overdue, then due sooner, then more severe, then organizer before reviewer before speaker, then by organization, event, source and profile |
| `BriefingOrder.ListsFirsts` | packages/cli/src/briefing.ts:361-377 | a briefing lists, once each, exactly the items that no earlier item of their key precedes |
| `CivilDate.CivilOfMadeDay` | apps/api/src/routes/agenda.ts:377-384 | the fields read off a made day are those of the one calendar date with that number |
| `CivilDate.DaysRise` | apps/api/src/routes/agenda.ts:399-405 | calendar order is day-number order |
| `CivilDate.AcceptedAreCalendarDates` | apps/api/src/routes/agenda.ts:373-384 | a text is accepted if and only if it has the form and is a calendar date of the year 100 or later |
| `CivilDate.TextOrderIsDayOrder` | apps/api/src/routes/agenda.ts:395-397 | on accepted dates text order is day order, and each day has one text |
| `Text.TextBeforeExactly` | packages/cli/src/briefing.ts:49-51 | a text is before another exactly when it is a proper prefix or has the smaller code unit where they first differ |
| `CivilDate.IsoDateReadsBack` | apps/api/src/routes/agenda.ts:404-404 | writing a day and reading it back gives the day |
| `CivilDate.DateReadsBack` | apps/api/src/routes/agenda.ts:399-404 | reading a date and writing its day gives the date |
| `CivilDate.DaysBetween` | apps/api/src/routes/agenda.ts:398-405 | the loop by 86,400,000 ms yields exactly the accepted dates whose days lie between |
| `CivilDate.AgendaDateRange` | apps/api/src/routes/agenda.ts:386-407 | the schedule's dates if there is one, else exactly the accepted dates from start to end in text order; each error exactly when its condition holds |
| `Base64Url.EncodeBase64Url` | apps/api/src/runtime/cloudflare.ts:2999-3003 | encodes the bytes of the array |
| `Base64Url.DecodeBase64Url` | apps/api/src/runtime/cloudflare.ts:3005-3014 | decodes into a new array, or fails exactly where `atob` throws |
| `Base64Url.DecodeOfEncode` | apps/api/src/runtime/cloudflare.ts:2999-3014 | decoding an encoding gives the bytes back, for all bytes |
| `Base64Url.EncodingTellsApart` | apps/api/src/runtime/cloudflare.ts:2999-3003 | different bytes have different encodings |
| `Base64Url.EncodingIsUrlSafe` | apps/api/src/runtime/cloudflare.ts:2999-3003 | only the URL-safe alphabet without padding, at the length of unpadded base64 |
| `Base64Bits.EncodesBits` | apps/api/src/runtime/cloudflare.ts:2999-3003 | each character of an encoding is the one RFC 4648 assigns to its six bits of the bytes |
| `Base64Bits.DecodesBits` | apps/api/src/runtime/cloudflare.ts:3005-3014 | text of the alphabet decodes exactly unless its length is one more than a multiple of four, and the bytes are the bits of its characters |

## Left out

- Routing, request validation, authentication headers, CORS, pages, command-line text and scripts: plumbing.
- The transports and engines beneath: Airtable, D1, R2, queues and Durable Objects appear as maps, sequences and atomic
  steps. The agenda coordinator's admission answers are inputs, and its lease renewal is not modelled.
- Agenda engine, program publication, calendar invitations and iCalendar folding: published revisions are inputs.
- The organizer seat limit: its guards admit more than a limit would, so there is no such invariant to prove.
- The fetch limiter of the briefing: its strict bound does not hold in every interleaving.
- Progress of the retry in begin and of polling, timers, and how accurate time-outs are.
- Writes on plans that have a committed snapshot: the methods are modelled and specified, but lineage and exactness are
  stated for plans without one, because a commit leaves the old snapshot in place.
- AssignmentStore.Store.ReplaceAssignment: reports the ids of the active assignments, not the review history and not the
  order by locale the source gives them.
- AssignmentStore.Store.ApplyDistribution: the same, and concurrent writers between its read and its commit are not modelled.
- AssignmentStore.Store.CommitGeneration: the plan record rewritten with its own content after the rows is not modelled, nor
  is the order of the rows by id.
- Outbox.JobsOnlyMoveOn: holds of these functions, the consumer and inserts; modules that reset jobs of their own topics,
  such as report exports and object clean-up, are not modelled.
- SkillInstaller.Installer.CopyTree: nested directories are part of a file's path; making them, and the refusal of links and
  special files, are not modelled.
- SkillInstaller.Installer.InstallOne: trees are maps from path to content; permissions, links inside trees and partly
  created parent directories are not modelled, and other processes do not touch the three directories.
- SkillManifest.RegularFiles: the recursion over directories and the refusal of links and special files are not modelled.
- Invitations.OneCredentialOneSetup: one invitation row; creating it, and the reading of setup links by token, are not modelled.
- Outbox.NothingIsQueuedUnsent: attempt counts, availability times and the consumer's leases are not modelled.
- Briefing.ListItems: the sort is any arrangement that sorts; warnings and trace ids are not modelled.
- SpeakerFeed.CachedSpeakersRefineFresh: headshots, and the matching of projection and manifest, are part of the rendering.
- Simple validators, escaping, option parsing and field decoding: easy members.
