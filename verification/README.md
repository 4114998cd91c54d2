# Civitas back end: a verified model of its stateful core

The project models the parts of the Civitas back end that keep state under concurrency and failure, or that turn
arbitrary graphs and lists into something others rely on, and proves what they guarantee. Each part is written twice
where the source changes state: as a class whose methods update fields the way the source updates rows and maps, and as
a specification function on values. The methods are proved equal to the function; the results are proved about the
function, over every input, every run and every interleaving the model allows.

| files | what they model |
|---|---|
| `Outbox`, `OutboxDispatcher` | leased delivery of outbox events by any number of dispatchers |
| `Inbox`, `Operations`, `ScimLedger` | inbox receipts, compare-and-set operations, and the SCIM producer and consumer that use them |
| `Wrappers`, `Sets`, `Sorting`, `Json`, `OrganizationGraph`, `ReconciliationWork` | canonical JSON, the validated organization graph, and the diff between two of them |
| `Walks`, `ScopeTree`, `ScopeTreeBuilder` | the depth-first projection of the graph to a scope tree with all its paths |
| `Reviewing`, `Publishing`, `PublishTimeline`, `MappingService` | reviews, previews and publications under the advisory locks of the PostgreSQL repository |
| `MemoryTransactions`, `PublishOverlap`, `MappingRepository`, `ReviewService` | the same two services on the in-memory repository, whose locks do nothing and whose failing calls put back their copy of the tables |
| `UnitForest`, `Memberships`, `MembershipOverlap`, `UnitService` | organization units, their hierarchies and memberships, and what overlapping calls do to them |
| `ScopeIdentity`, `ScopeReconciler` | derived scope assignments and the strings that identify them |
| `Provisioning`, `ProvisioningSaga` | resumable provisioning of an organization |
| `RateLimiter` | the fixed-window rate limiter |
| `MassDeprovisionGuard`, `FederationApply`, `FederationRuns`, `FederationOverlap`, `FederationService` | the guard on destructive plans, and carrying plans out against two stores, any number of them at once |
| `ModuleControlPlane`, `ModuleAvailability` | lifecycle and runtime bindings of modules, and when an operation may be executed |

How the source's surroundings appear: a visible SQL statement is one atomic step, and other callers' steps may come
between the statements of a call. Three parts are described for calls that run one after another: `Memberships` with
`UnitService`, whose overlaps are the subject of `UnitForest` and `MembershipOverlap`, and `ScopeReconciler` and
`ProvisioningSaga`, whose overlaps are left out. Remote calls and fallible writes get their outcome from a parameter
that is quantified over; clocks are integers that do not run backwards; a random UUID is a number not used before; a
SHA-256 digest is the content it digests; `localeCompare` is code-unit order.

## What turned out not to hold

Each of these is a lemma with a concrete case or an exact condition.

- Attempts of an outbox row are not bounded by `max_attempts` when dispatchers die (`Outbox.AttemptsAreUnbounded`): the
  bound breaks exactly when a row is claimed with its attempts used up (`Outbox.BoundBreaksExactlyWhenClaimedExhausted`),
  which takes a lapsed lease (`Outbox.ExhaustedRowsAreClaimedOnlyAfterALapse`). A caller that passes no owner is not fenced
  (`Outbox.AnonymousCallsAreNotFenced`). An event that the transport has taken is retried or dead-lettered exactly when
  the transport raised an error all the same, or marking it published raised a database error without effect, and the
  lease holds on (`OutboxDispatcher.DispatchRow`).
- A dead-lettered inbox event is handed out again and can never be completed (`Inbox.DeadLetteredIsLetInInVain`), and an
  owner whose lease has expired may still dead-letter (`Inbox.ExpiredOwnerMayOnlyDeadLetter`).
- Applying a SCIM event whose operation is only queued, which is how enqueueing leaves it, ends in an error although the
  effect took place (`ScimLedger.ApplyScimOperationEvent`); an enqueue cut short after its first statement is lost for good
  (`ScimLedger.EventIsSentUnlessCutShort`); equal keys of two organizations collide (`ScimLedger.SameKeyInAnotherOrganization`).
- The review that counts is the one with the greatest id (`Reviewing.NewestReviewMayReject`). It is the newest exactly when
  that has the greatest id (`Reviewing.NewestDecidesExactlyWhenGreatest`), so a new review takes effect exactly when its
  random id comes out greatest (`Reviewing.NewReviewDecidesIffItsIdIsGreatest`).
- The evidence a publication was checked against may change before its commit, which looks at it no more
  (`PublishTimeline.EvidenceMayChangeBeforeCommit`): it is clean at the commit exactly when the last change in between left
  it so (`PublishTimeline.CleanAtCommitUnlessEvidenceChanged`).
- On the in-memory repository two publishes of one organization that overlap are based on the same predecessor
  (`PublishOverlap.OverlappingPublishesRepeatTheBase`), and two reviews of one evaluation get the same version
  (`ReviewService.OverlappingReviewsRepeatTheVersion`). The exact conditions are
  `PublishOverlap.NumberedExactlyWhenCountIsUnchanged`, `PublishOverlap.RunsAreNumberedExactlyWhenOnLatest`,
  `ReviewService.NumberedExactlyWhenStillHighest`, `ReviewService.RunsAreNumberedExactlyWhenOnHighest` and, where nobody
  rolls back in between, the two lemmas `NumberedExactlyWhenAlone`. A call that fails or is refused there erases what everybody has written since it began
  (`PublishOverlap.RollbackErasesPublications`, `MemoryTransactions.FailureErasesEverythingSince`).
- Archiving a unit id nobody created can make later units share an id and one become its own parent
  (`UnitForest.SkippingBreaksTheForest`); a write is safe exactly when it does not skip ahead of the numbering
  (`UnitForest.ForestStaysExactlyUnlessSkipped`). Two creations that overlap can store a stable key twice
  (`Memberships.OverlappingCreationsRepeatTheKey`), exactly when the key was taken since the check
  (`MembershipOverlap.StepKeepsKeysExactlyWhenFirst`).
- A revoked identity comes back exactly when an assignment checked before is still to be stored
  (`MembershipOverlap.RevocationIsFinalExactlyUnlessPending`); an archived unit gets a current member exactly when an
  archiving or an assignment overtakes the other's check (`MembershipOverlap.StepKeepsVacancyExactlyUnlessOvertaken`,
  `MembershipOverlap.ArchivingMissesAnAssignment`); and a version counts one call less exactly when somebody saved the
  counters since they were read (`MembershipOverlap.SaveCountsExactlyWhenUnchanged`,
  `MembershipOverlap.OverlappingBumpsLoseOne`).
- Two federation runs under one idempotency key whose lookups both come first record two attempts and both carry their
  plans out (`FederationOverlap.OverlappingCallsBothCarryOut`); a key keeps one attempt exactly when every call that
  records one is the first (`FederationOverlap.RunsKeepOneAttemptExactlyWhenFirst`). Runs at opposite steps on one user
  and role can leave the two stores apart with nothing in flight (`FederationOverlap.CrossingStepsDisagree`); they agree
  exactly when the last change of either store was of the same kind
  (`FederationOverlap.PairAgreesExactlyWhenLastChangesDo`).
- A stale reparenting is reported as a conflict and stored all the same (`Memberships.ErrorsLeaveUnitsUnlessStale`);
  a membership assigned ahead of its first day never takes effect (`Memberships.OnlyBegunAssignmentsTakeEffect`); an
  organization can archive another one's unit with current members (`Memberships.ArchivedStayVacant`).
- Scope identities collide unless ten of their eleven components are clean, and being free of the separator is not
  enough (`ScopeIdentity.UncleanPartsCollide`, `ScopeIdentity.FreeOfSeparatorIsNotEnough`).
- Replacing a derived assignment takes two reconciliations, with none active in between
  (`ScopeReconciler.ReplacementTakesTwoRuns`), and a run that expects a policy version creates at most one row
  (`ScopeReconciler.ExpectingAVersionCreatesOneRow`). Reactivating a row does not look at its slot
  (`ScopeReconciler.ReactivationIgnoresTheSlot`): live rows keep distinct slots exactly when no row to be reactivated has
  the slot of another row that will be live (`ScopeReconciler.SlotsStayDistinctExactlyWithoutConflict`).
- The rate limiter admits up to `2 * max - 1` requests in an interval of one window length, and that many are reached
  where `max` is at least 1 and the window at least two milliseconds long
  (`RateLimiter.BoundIsReached`).
- A lifecycle transition whose caller expects a version still to come can leave the table
  (`ModuleControlPlane.ExpectingTheFutureBreaksTheTable`), and only such a one
  (`ModuleControlPlane.TableHoldsExactlyForCarefulStarts`). A module can become active without a binding
  (`ModuleControlPlane.BindingMayGoBeforeActivation`): it has one exactly when one was kept or gained while the transition
  was under way (`ModuleControlPlane.ActiveWithBindingExactlyWhenKeptOrGained`).
- An open circuit does not stop every operation (`ModuleAvailability.OpenCircuitMayBePassed`), and an executable decision
  may not allow the kind of operation asked about (`ModuleAvailability.AllowedKindsMayContradict`).

## Model

| member | source | states |
|---|---|---|
| Outbox.LostLeaseNeverWrites | backend/services/integrationEvents.js:32-37 | fencing over whole runs: a token that does not hold the live lease of an event never changes the database again, whatever the others do and however late its call arrives |
| Outbox.LeaseIsExclusive | backend/services/integrationEvents.js:32-37 | until the lease of a row expires nobody but its holder (or a caller without owner) changes any column of the row, in any run |
| Outbox.TerminalRowsNeverChange | backend/services/integrationEvents.js:32-37 | published and dead-lettered rows are absorbing down to the last column |
| Outbox.NoEventIsLost | backend/services/integrationEvents.js:31-37 | in every reachable database an event is published, or dead-lettered with exactly one dead letter, or claimable exactly from its deadline on; and it stays in the table |
| Outbox.ReleasedRowsAreClaimable | backend/services/integrationEvents.js:37 | a row whose lease lapsed is claimable before and after the release job |
| Outbox.OldestRowsAreClaimed | backend/services/integrationEvents.js:32 | a claimable row that fewer than `limit` unlocked rows precede or tie with is in every batch the query may return, leased to the new token |
| Outbox.AttemptsAreUnbounded | backend/services/integrationEvents.js:32 | for every n there is a run of dying dispatchers after which a row with limit five has n attempts and is claimable |
| Outbox.ClaimKeepsTheBoundExactlyWhenAttemptsAreLeft | backend/services/integrationEvents.js:32 | a claim keeps `attempts <= max_attempts` of a row it takes iff the row has fewer than the maximum |
| Outbox.BoundBreaksExactlyWhenClaimedExhausted | backend/services/integrationEvents.js:32 | in every database grown from an empty one, a row exceeds its maximum iff some claim of the run took it with its attempts used up |
| Outbox.ExhaustedRowsAreClaimedOnlyAfterALapse | backend/services/integrationEvents.js:32-37 | by the time such a row is claimed the lease of its last attempt has lapsed, whether the claim or the release job found it so |
| Outbox.AnonymousCallsAreNotFenced | backend/services/integrationEvents.js:33 | a call without owner publishes under another dispatcher's live lease and takes it away |
| Outbox.RunsKeepRowsAndLettersInStep | backend/db/migrations/0020_integration_events_operations.sql:24-62 | in every run lease columns go with the claimed state, timestamps with their states, and dead letters one-to-one with dead-lettered rows |
| OutboxDispatcher.OutboxRepository.AppendEvent | backend/services/integrationEvents.js:31 | appends a pending row unless the event id is there, which is reported |
| OutboxDispatcher.OutboxRepository.PickOldest | backend/services/integrationEvents.js:32 | finds claimable unlocked rows, as many as the limit allows, none younger than one left behind |
| OutboxDispatcher.OutboxRepository.ClaimBatch | backend/services/integrationEvents.js:32 | leases exactly the picked rows to a fresh token |
| OutboxDispatcher.OutboxRepository.MarkPublished | backend/services/integrationEvents.js:33 | succeeds exactly under the guard of the statement, and is otherwise without effect |
| OutboxDispatcher.OutboxRepository.ScheduleRetry | backend/services/integrationEvents.js:34 | reschedules, or dead-letters with a letter when attempts are used up, exactly under the guard |
| OutboxDispatcher.OutboxRepository.MoveToDeadLetter | backend/services/integrationEvents.js:35 | row and letter together, exactly under the guard |
| OutboxDispatcher.OutboxRepository.ReleaseExpiredClaims | backend/services/integrationEvents.js:37 | releases every claimed row strictly past its expiry, and no other |
| OutboxDispatcher.DispatchRow | backend/services/integrationEvents.js:49 | one turn of the loop, with errors of the transport before or after it took the event and of either database call before or after it took effect: reported published iff accepted and marked in time; reported failed iff validation, the transport, or marking without effect raised an error and the lease was still held; an event whose transport and marking raise no error is never retried or dead-lettered by the call |
| OutboxDispatcher.DispatchBatch | backend/services/integrationEvents.js:49 | the report covers the batch unless an error escapes, and stays true while the rest of the system runs |
| OutboxDispatcher.DispatchOnce | backend/services/integrationEvents.js:49 | every event reported published was handed to the transport first and is published, every failure that is not retryable is dead-lettered, no reported event is still leased, and the whole call is a run of outbox steps |
| OutboxDispatcher.SettledStays | backend/services/integrationEvents.js:49 | a reported outcome remains true in every later run |
| Operations.EveryChangeFollowsTheTable | backend/services/integrationEvents.js:11-12 | in every interleaving of reads and compare-and-sets the states of an operation form a walk along table edges, one version per edge |
| Operations.AtMostThreeChanges | backend/services/integrationEvents.js:44-45 | versions stay within 1 to 4, completion time is set exactly in terminal states, success needs a start |
| Operations.TerminalOperationsNeverChange | backend/services/integrationEvents.js:11-12 | terminal operations are absorbing down to the last column |
| Operations.StaleTicketsNeverWin | backend/services/integrationEvents.js:45 | a worker holding an outdated version changes nothing, however late it comes |
| Operations.SameVersionSameState | backend/services/integrationEvents.js:45 | an unchanged version means an unchanged state |
| Operations.OperationRepository.CreateOperation | backend/services/integrationEvents.js:42-43 | creates unless the organization has the key, and returns the operation holding it |
| Operations.OperationRepository.MarkOperationQueued | backend/services/integrationEvents.js:44 | queues exactly an accepted operation of the organization |
| Operations.OperationRepository.TransitionOperation | backend/services/integrationEvents.js:45 | with arbitrary steps of others between read and update: succeeds iff the version was current at both and the table has the edge, then moves one edge and one version, else changes no operation |
| Inbox.WhoIsLetIn | backend/services/integrationEvents.js:38 | in every reachable database a delivery is granted iff it is the first, its predecessor's lease lapsed, or the receipt is dead-lettered, in which case it gets no lease; it is a duplicate iff processed |
| Inbox.ClosedReceiptsNeverChange | backend/services/integrationEvents.js:38-41 | processed and dead-lettered receipts are absorbing, so a processed event is a duplicate for ever |
| Inbox.AtMostOneCompletion | backend/services/integrationEvents.js:39 | any run has at most one successful completion per consumer and event |
| Inbox.NothingIsGrantedAfterACompletion | backend/services/integrationEvents.js:38-39 | after a run with a completion no claim of any later run is granted for that consumer and event |
| Inbox.LeaseIsExclusive | backend/services/integrationEvents.js:38-41 | until a lease expires the receipt is unchanged by others and every other delivery is turned away |
| Inbox.LostReceiptNeverWritten | backend/services/integrationEvents.js:39-41 | an owner that lost its receipt never changes it again |
| Inbox.ExpiredOwnerMayOnlyDeadLetter | backend/services/integrationEvents.js:39-41 | after expiry and before a re-claim the owner cannot complete but can dead-letter |
| Inbox.DeadLetteredIsLetInInVain | backend/services/integrationEvents.js:38 | every later delivery of a dead-lettered event is granted and can never complete |
| Inbox.InboxRepository.ClaimInbox | backend/services/integrationEvents.js:38 | answers and upserts with SQL's treatment of a NULL lease |
| Inbox.InboxRepository.MarkInboxProcessed | backend/services/integrationEvents.js:39 | succeeds exactly for the owner of a live processing lease |
| Inbox.InboxRepository.MoveInboxToDeadLetter | backend/services/integrationEvents.js:41 | succeeds exactly for the owner of a processing receipt, expired or not |
| ScimLedger.RetriesChangeNothing | backend/scim/scimOperationLedger.js:27-31 | any number of further enqueues under a known key changes nothing |
| ScimLedger.EventIsSentUnlessCutShort | backend/scim/scimOperationLedger.js:32-36 | whatever retries follow, the event reaches the outbox iff the first call got past creating the operation (or the id was taken), and the operation is queued iff it ran through |
| ScimLedger.SameKeyInAnotherOrganization | backend/scim/scimOperationLedger.js:33 | event ids come from the key alone, so a second organization's event is refused and its operation stays accepted |
| ScimLedger.EnqueueScimOperation | backend/scim/scimOperationLedger.js:23-37 | the three statements with a stop after each, equal to the specification |
| ScimLedger.Fail | backend/scim/scimOperationLedger.js:58-61 | dead-letters if still owner and rethrows, else reports the lease conflict |
| ScimLedger.ApplyScimOperationEvent | backend/scim/scimOperationLedger.js:39-62 | with others at work during the adapter call and before the catch block writes: the adapter is called iff the claim is granted; the call returns normally iff the effect succeeded, the lease was still its own and the operation was running and untouched; otherwise what is left behind is stated case by case |
| ScimLedger.ApplyAll | backend/scim/scimOperationLedger.js:39-62 | over any number of deliveries of any events: from the moment an event is processed, whoever completed it, its deliveries never call the adapter and are reported as duplicates |
| ScimLedger.Complete | backend/scim/scimOperationLedger.js:52-61 | after a successful effect: processed iff the lease was still its own, and then applied iff the operation could be moved |
| Json.CanonicalExactlyWhenAlike | backend/organization-mapping/projections.js:4 | two JSON values canonicalize to the same value iff they differ only in object key order |
| Json.CanonicalizeTwice | backend/organization-mapping/projections.js:4 | canonicalization is idempotent |
| Sorting.SortIsOrderBlind | backend/organization-mapping/projections.js:8-10 | sorting by distinct keys gives the same list for every permutation |
| Sorting.SortedIsUnique | backend/organization-mapping/projections.js:8-10 | two sorted lists with the same elements and distinct keys are equal |
| OrganizationGraph.AcceptedGraphs | backend/organization-mapping/projections.js:7-13 | an accepted graph has the normalized nodes and edges, unique ids, and edges of known kind between two different present nodes |
| OrganizationGraph.BuildIsOrderBlind | backend/organization-mapping/projections.js:7-13 | with distinct edge keys the result, error included, is the same for every permutation of nodes and edges |
| ReconciliationWork.WorkItemsAreTheChanges | backend/organization-mapping/projections.js:20 | the work items name exactly the nodes and relationships that were there and are gone or differ in binding, provenance or status, never a new one |
| ReconciliationWork.BuildReconciliationWorkItems | backend/organization-mapping/projections.js:20 | the loops and the final sort yield those items, and none without a previous graph |
| Walks.RepeatsMeansCycle | backend/organization-mapping/projections.js:17 | a walk that meets a node twice contains a cycle |
| ScopeTree.SucceedsExactlyOnTrees | backend/organization-mapping/projections.js:14-17 | on an accepted graph with participants the projection succeeds iff the hierarchy is acyclic and exactly one participant has no incoming edge |
| ScopeTree.FailsWithTheRightError | backend/organization-mapping/projections.js:16-17 | which error is raised, exactly: no unique root, a cycle the root reaches, or only cycles it does not reach |
| ScopeTree.PathsAreExact | backend/organization-mapping/projections.js:17 | the paths are exactly the hierarchy walks from the root, each free of repetition, and every participant has one |
| ScopeTree.OverlaysAndParticipantsPartition | backend/organization-mapping/projections.js:15-17 | overlay ids and participants partition the nodes |
| ScopeTree.VisitedWalksAreSimple | backend/organization-mapping/projections.js:17 | a search that succeeds proves every walk from its node free of repetition and of the nodes being visited |
| ScopeTree.FailedVisitHasReturningWalk | backend/organization-mapping/projections.js:17 | a search that fails exhibits a walk back to a node being visited |
| ScopeTree.TreesAreVisited | backend/organization-mapping/projections.js:17 | in an acyclic hierarchy with one source everything is visited from it |
| ScopeTreeBuilder.TreeBuilder.VisitNode | backend/organization-mapping/projections.js:17 | the recursive search over mutable `visiting` and `visited` ends on every input, cyclic ones included, computes the tree of the specification and restores `visiting` |
| ScopeTreeBuilder.TreeBuilder.CollectPaths | backend/organization-mapping/projections.js:17 | pushes exactly the paths of the tree, in order |
| ScopeTreeBuilder.TreeBuilder.BuildFromGraph | backend/organization-mapping/projections.js:15-17 | the imperative projection of an accepted graph equals the specification |
| ScopeTreeBuilder.TreeBuilder.BuildPrimaryScopeTree | backend/organization-mapping/projections.js:14-18 | the same including graph validation, errors included |
| Reviewing.CleanMeansReviewed | backend/organization-mapping/service.js:16-25 | in a clean state every evaluation of the draft is resolved and free of conflict, every match has an approved review, and no snapshot used is stale |
| Reviewing.NewestReviewMayReject | backend/organization-mapping/service.js:22-23 | a clean state in which the newest review rejects |
| Reviewing.GreatestIdIsNewest | backend/organization-mapping/service.js:22-23 | with distinct versions the review of greatest id is the newest iff it carries the greatest version, and iff the newest has the greatest id |
| Reviewing.NumberedMeansDistinct | backend/organization-mapping/service.js:16-25 | numbered reviews have distinct versions within what the reviewed state of a draft reads |
| Reviewing.NewestDecidesExactlyWhenGreatest | backend/organization-mapping/service.js:22-23 | whether an evaluation counts as approved is what its newest review says, whatever the reviews decided, iff the newest has the greatest id |
| Reviewing.NewestDecidesWhereReviewsAreNumbered | backend/organization-mapping/service.js:16-25 | for numbered reviews and any draft: the newest review decides, whatever the reviews decided, iff the greatest id carries the greatest version |
| Reviewing.CleanMeansNewestApproved | backend/organization-mapping/service.js:22-25 | in a clean state the newest review of a match approves, if its id is the greatest of its evaluation |
| Reviewing.NewReviewDecidesIffItsIdIsGreatest | backend/organization-mapping/service.js:22-23 | a review with a new highest version decides iff its id exceeds every id of its evaluation |
| Reviewing.ReviewVersionsAreGapless | backend/organization-mapping/service.js:47 | with reviews split at the lock of their evaluation into checks and commit, and evidence and other reviews in between, the versions of every evaluation are 1..n in every run |
| Reviewing.ReviewReplayChangesNothing | backend/organization-mapping/service.js:47 | a known key gets its stored response or a conflict, for ever, and saved reviews never change |
| ReviewService.ReviewRepository.CurrentVersion | backend/organization-mapping/service.js:47 | the loop finds the highest version of the evaluation's reviews, or zero |
| ReviewService.ReviewRepository.Review | backend/organization-mapping/service.js:47 | a review call with any steps of any other calls before its checks, its save and each write that follows: answered by replay, answered at its check as the protocol answers on the tables found there, rolled back to its copy, or complete with its response remembered; never rolled back without a failing write |
| ReviewService.ReviewRepository.RollBack | backend/organization-mapping/repository.js:12 | every table is again as it was when the transaction began, whatever others wrote meanwhile |
| ReviewService.ReviewRepository.WriteNext | backend/organization-mapping/service.js:47 | makes the next of the writes that follow the save, the last of which stores the response, or rolls back |
| ReviewService.SaveKeepsNumberingIffStillHighest | backend/organization-mapping/service.js:47 | a saved review keeps the versions 1..n iff the version it was numbered after is still the highest of its evaluation |
| ReviewService.NumberedExactlyWhenStillHighest | backend/organization-mapping/repository.js:15 | with any number of overlapping calls, a save keeps the numbering iff the highest version is the one its check read |
| ReviewService.NumberedExactlyWhenAlone | backend/organization-mapping/repository.js:15 | where nobody rolls back in between, iff no other review of the evaluation was saved between check and save |
| ReviewService.RunsAreNumberedExactlyWhenOnHighest | backend/organization-mapping/repository.js:15 | over any run of overlapping reviews without a rollback the versions of every evaluation are 1..n iff every save found the version it was numbered after to be the highest still |
| ReviewService.OverlappingReviewsRepeatTheVersion | backend/organization-mapping/repository.js:15 | any two acceptable reviews of one evaluation that both check before either saves get the same version |
| Publishing.PublicationsAreSound | backend/organization-mapping/service.js:49-50 | over any interleaving of edits, previews, evidence and overlapping publishes, an organization's publications are 1..n each based on its predecessor, show exactly what their preview showed, which is what their content projects to, and carry the reviewed state of their preview, which is clean |
| PublishTimeline.PublicationsWereCleanWhenChecked | backend/organization-mapping/service.js:50 | every publication of every run was checked at some step of it, and the reviewed state it carries is that of the evidence at that very step, clean |
| PublishTimeline.CleanAtCommitUnlessEvidenceChanged | backend/organization-mapping/service.js:50 | whatever happens between the checks of a call and its commit, the evidence is clean for the draft at the commit iff it did not change or its last change left it clean |
| PublishTimeline.EvidenceMayChangeBeforeCommit | backend/organization-mapping/service.js:50 | any change of evidence to an unclean state between checks and commit leaves the commit to go through |
| Publishing.HistoryIsImmutable | backend/organization-mapping/repository.js:84-86 | stored publications and responses never change |
| Publishing.PublishReplayChangesNothing | backend/organization-mapping/repository.js:13-14 | a replayed key returns its response or is rejected, and changes nothing, at any later time |
| Publishing.CommitIsRemembered | backend/organization-mapping/service.js:50 | a commit adds one row, now the latest, and stores the response every replay returns |
| Publishing.LockHoldsTheBase | backend/organization-mapping/repository.js:57 | while a call holds the lock no other publication of its organization appears, whatever else happens |
| Publishing.ReadsAgreeWithPreview | backend/organization-mapping/service.js:50 | equal digests at commit mean the row shows what the preview showed |
| MappingService.EveryPublishedTreeIsExact | backend/organization-mapping/service.js:50 | in every run every published graph is active and well formed and its scope tree is exactly its one rooted hierarchy with exactly its walks |
| MappingRepository.Repository.UpdateDraft | backend/organization-mapping/repository.js:21 | compare and set on the draft version |
| MappingRepository.Repository.GetLatestPublication | backend/organization-mapping/repository.js:86 | the publication of greatest version |
| MappingRepository.Repository.ProjectDraft | backend/organization-mapping/service.js:50 | graph, tree by the imperative search, and facets equal the projector of the protocol |
| MappingRepository.Repository.CountPublications | backend/organization-mapping/repository.js:42 | the number of the organization's publications, from which a saved row is numbered |
| MappingRepository.Repository.Check | backend/organization-mapping/service.js:50 | lets through exactly the row the protocol would publish |
| MappingRepository.Repository.RollBack | backend/organization-mapping/repository.js:12 | every table and log is again as it was when the transaction began, whatever others wrote meanwhile |
| MappingRepository.Repository.CheckCall | backend/organization-mapping/service.js:50 | inside the transaction: the locked replay, a refusal that rolls back, or the row to save, as the protocol answers on these tables |
| MappingRepository.Repository.SaveCall | backend/organization-mapping/repository.js:42 | appends the row numbered by count, or rolls back |
| MappingRepository.Repository.WriteNext | backend/organization-mapping/service.js:50 | makes the next of the writes that follow the save (work items, audit entry, event, response), or rolls back |
| MappingRepository.Repository.Publish | backend/organization-mapping/service.js:50 | a publish call with any steps of any other calls, publishes of the same organization included, before its checks, its save and each write that follows: answered by replay, answered at its check as the protocol answers there, rolled back, or complete with its response remembered; never rolled back without a failing write |
| PublishOverlap.CallFollowsTheProtocol | backend/organization-mapping/service.js:50 | what a call beside which only edits happen leaves behind is exactly lock, edits and commit of the protocol if it gets past its checks, and nothing otherwise |
| PublishOverlap.CallsKeepTheStoreSound | backend/organization-mapping/service.js:50 | so such calls keep every guarantee of the protocol |
| PublishOverlap.NumberedExactlyWhenCountIsUnchanged | backend/organization-mapping/repository.js:15 | with any number of overlapping calls, the save of a checked call keeps versions 1..n, each based on its predecessor, iff the organization has as many publications as at the check |
| PublishOverlap.NumberedExactlyWhenAlone | backend/organization-mapping/repository.js:15 | where nobody rolls back in between, iff no other publish of the organization saved between its check and its save |
| PublishOverlap.RunsAreNumberedExactlyWhenOnLatest | backend/organization-mapping/repository.js:42 | over any run of overlapping calls without a rollback the numbering holds iff every save found its base to be the latest |
| PublishOverlap.OverlapsStillShowPreviews | backend/organization-mapping/service.js:50 | over any run of overlapping calls without a rollback every publication shows what its preview showed |
| PublishOverlap.OverlappingPublishesRepeatTheBase | backend/organization-mapping/repository.js:15 | any two publishes of one organization that both check before either saves end up as n + 1 and n + 2, both based on n |
| PublishOverlap.RollbackErasesPublications | backend/organization-mapping/repository.js:12 | a failing call takes away every publication and response stored since it began |
| PublishOverlap.QuietCallIsCalled | backend/organization-mapping/service.js:50 | a call beside which only edits happen, before its save and among the writes that follow, leaves what the locked protocol and the later edits leave |
| MemoryTransactions.FailureErasesEverythingSince | backend/organization-mapping/repository.js:12 | for any service on the in-memory transaction: whatever happened since a call began, its failure restores the tables of that moment |
| UnitForest.AlwaysAForest | backend/organization-structure/unitService.js:8-10 | in every run of interleaved create, reparent, activate and archive calls each parent exists in the same tenant and hierarchy, has an allowed type and a strictly lower level, as long as no archive skips ahead of the numbering; units keep their place |
| UnitForest.NumberingKeptUnlessSkipped | backend/organization-structure/unitRepository.js:3 | a write keeps the next id free iff it is not a status for an absent `unit_<n>` beyond the next number |
| UnitForest.SkippingBreaksTheForest | backend/organization-structure/unitRepository.js:3 | from every store, a write that skips ahead of the numbering is followed by some creations, none refused, that leave a unit its own parent |
| UnitForest.ForestStaysExactlyUnlessSkipped | backend/organization-structure/unitRepository.js:3 | no sequence of accepted creations after a write breaks the forest iff the write does not skip |
| UnitForest.ArchivingAnAbsentUnitMaySkip | backend/organization-structure/unitService.js:10 | archiving any absent `unit_<n>` beyond the next number is accepted and skips |
| UnitForest.Chain | backend/organization-structure/managementLevelCatalog.js:5-10 | every chain ends at a root and has at most as many units as its lowest level, at most five |
| UnitForest.LevelsFall | backend/organization-structure/unitService.js:8 | levels fall strictly along a chain, so nobody is their own ancestor |
| UnitForest.OneTree | backend/organization-structure/unitHierarchyService.js:4 | a whole chain lies in one tenant and one hierarchy |
| UnitForest.ClimbFindsTheChain | backend/organization-structure/unitRepository.js:3 | the guard against revisiting never cuts the ancestor walk short |
| UnitForest.CycleCheckFollowsFromLevels | backend/organization-structure/unitHierarchyService.js:4 | in a forest the level rule alone already excludes what the cycle check looks for |
| UnitForest.ReparentMovesTheSubtree | backend/organization-structure/unitService.js:10 | below the moved unit chains keep their lower part and continue with the new parent's chain; all others are untouched |
| Memberships.ErrorsLeaveUnitsUnlessStale | backend/organization-structure/unitService.js:10 | an error changes the units iff it is the version conflict of an accepted reparenting to another parent |
| Memberships.EffectiveUntilNextBoundary | backend/organization-structure/unitMembershipService.js:6-7 | effectiveness is constant until the next boundary and changes at it |
| Memberships.RunsOnlyAppendAndRevoke | backend/organization-structure/unitMembershipService.js:8 | over any run of calls one after another identities stay unique and rows are only appended and revoked |
| Memberships.RevocationIsFinal | backend/organization-structure/unitMembershipService.js:8 | for calls one after another: after a revocation no membership with that identity is ever effective again |
| Memberships.OnlyBegunAssignmentsTakeEffect | backend/organization-structure/unitMembershipService.js:8 | over any run of calls one after another a membership is ever effective iff it had begun when it was assigned |
| Memberships.ArchivedStayVacant | backend/organization-structure/unitService.js:10 | a call beside which no other runs keeps archived units free of current members iff it is not one organization archiving another's occupied unit |
| Memberships.StableKeysStayUnique | backend/organization-structure/unitService.js:9 | over any run of calls one after another a stable key names at most one unit of an organization |
| Memberships.OverlappingCreationsRepeatTheKey | backend/organization-structure/unitService.js:9-10 | for every unit that may be created, two overlapping calls store it twice under one key |
| Memberships.OneCounterPerCall | backend/organization-structure/structureVersionsService.js:3 | for calls one after another: every call that is not refused moves exactly one counter of its organization by one, a refused or stale one none |
| MembershipOverlap.IdentitiesStayDistinctExactlyWhenFirst | backend/organization-structure/unitMembershipService.js:8 | over any run of overlapping calls rows are only appended and revoked, and no identity is stored twice iff every membership that was stored was the first of its identity |
| MembershipOverlap.StepKeepsKeysExactlyWhenFirst | backend/organization-structure/unitService.js:9-10 | however calls overlap, a step keeps stable keys unique iff it does not store a unit whose key was taken since its check |
| MembershipOverlap.RevocationIsFinalExactlyUnlessPending | backend/organization-structure/unitMembershipService.js:8 | no continuation of overlapping calls brings a revoked identity back into effect iff no assignment of it that was checked before is still to be stored in effect |
| MembershipOverlap.StepKeepsVacancyExactlyUnlessOvertaken | backend/organization-structure/unitService.js:10 | however calls overlap, a step keeps archived units free of current members iff neither an archiving nor an assignment has overtaken the other since its check |
| MembershipOverlap.ArchivingMissesAnAssignment | backend/organization-structure/unitService.js:10 | whatever unit may be archived and given a member, both checks before both writes leave it archived with a current member |
| MembershipOverlap.SaveCountsExactlyWhenUnchanged | backend/organization-structure/structureVersionsService.js:3 | saving the counters moves one of them by one and leaves the other iff they are what they were when read |
| MembershipOverlap.OneCountUnlessOvertaken | backend/organization-structure/structureVersionsService.js:3 | over any steps of others in between, and in particular counts for one if nobody of the organization saves meanwhile |
| MembershipOverlap.OverlappingBumpsLoseOne | backend/organization-structure/structureVersionsService.js:3 | of two overlapping bumps of one organization only the later save counts, whichever counters they are |
| UnitService.OrganizationStructure.AncestorsOf | backend/organization-structure/unitRepository.js:3 | the loop ends on every store and in a forest returns the full chain |
| UnitService.OrganizationStructure.AssertPlacement | backend/organization-structure/unitHierarchyService.js:4 | the checks in their order, tied to the specification error by error |
| UnitService.OrganizationStructure.CreateUnit | backend/organization-structure/unitService.js:9-10 | new state and reply of the specification, one event iff saved |
| UnitService.OrganizationStructure.ReparentUnit | backend/organization-structure/unitService.js:10 | writes before it compares the version: new state and reply of the specification |
| UnitService.OrganizationStructure.ActivateUnit | backend/organization-structure/unitService.js:10 | only the caller's own unit |
| UnitService.OrganizationStructure.ArchiveUnit | backend/organization-structure/unitService.js:10 | blocked exactly by active children, the caller's current members, or the impact verdict |
| UnitService.OrganizationStructure.Event | backend/organization-structure/structureVersionsService.js:3 | bumps the version and publishes, unless another version was expected |
| UnitService.OrganizationStructure.FindMembershipIdentity | backend/organization-structure/unitRepository.js:3 | finds a membership with the identity whenever there is one, of any status |
| UnitService.OrganizationStructure.AssignMembership | backend/organization-structure/unitMembershipService.js:8 | the checks in order, then one appended row and a new version |
| UnitService.OrganizationStructure.RevokeMembership | backend/organization-structure/unitMembershipService.js:8 | revokes exactly a membership of the caller's organization |
| ScopeIdentity.RuleIsReadBackUnlessColon | backend/organization-structure/scopeCandidateIntegration.js:26 | for a colon-free source version the rule and its version are read back iff neither contains a colon |
| ScopeIdentity.ColonInVersionMovesTheRule | backend/organization-structure/scopeProjectionReconciler.js:10 | with a colon in the source version the rule read back is a piece of that version |
| ScopeIdentity.ProjectionKeepsIdentity | backend/organization-structure/scopeCandidateIntegration.js:14 | an assignment has the identity of its candidate when its source version has no inner colons |
| ScopeIdentity.CleanPartsAreToldApart | backend/organization-structure/scopeCandidateIntegration.js:14 | identities are injective on lists whose components but the last contain no separator and do not end in a colon |
| ScopeIdentity.UncleanPartsCollide | backend/organization-structure/scopeCandidateIntegration.js:14 | every other list has the same identity as some different list of its length |
| ScopeIdentity.FreeOfSeparatorIsNotEnough | backend/organization-structure/scopeCandidateIntegration.js:14 | a concrete pair free of the separator that collides |
| ScopeReconciler.AgreesAfterRun | backend/organization-structure/scopeProjectionReconciler.js:5-16 | after a run a derived row of the subject is active iff its identity belongs to a valid candidate; explicit and foreign rows are untouched; rows change only their status |
| ScopeReconciler.SecondRunChangesNothingUnlessPending | backend/organization-structure/scopeProjectionReconciler.js:12-13 | a second run with the same inputs changes nothing iff no valid candidate without a row can be given one now |
| ScopeReconciler.ReplacementTakesTwoRuns | backend/organization-structure/scopeProjectionReconciler.js:12-13 | the replacement of a row is refused while that row is still active and created only by the next run |
| ScopeReconciler.NewRowsComeFromCandidates | backend/organization-structure/scopeProjectionReconciler.js:12 | every added row is the active row of a valid candidate that had none and whose governance resolved, for that candidate's own subject |
| ScopeReconciler.ReactivationIgnoresTheSlot | backend/organization-structure/scopeProjectionReconciler.js:12 | for every slot, identity and source: reactivating a revoked row gives it a slot that a live row already has |
| ScopeReconciler.CreatedExactly | backend/organization-structure/scopeProjectionReconciler.js:12 | which candidates are given a row, read off rows and candidates before the run: valid, without a row, of a slot that no live row holds and no earlier candidate was given, and the first if a version is expected |
| ScopeReconciler.SlotsStayDistinctExactlyWithoutConflict | backend/organization-structure/scopeProjectionReconciler.js:5-16 | where live rows have distinct slots, they have after a run iff no row to be reactivated has the slot of another row that stays or becomes live or of a candidate that is given a row |
| ScopeReconciler.ExpectingAVersionCreatesOneRow | backend/authorization/data-scope/dataScopeAssignmentService.js:76 | with an expected policy version other than 0, which counts as none, a run creates at most one row |
| ScopeReconciler.PreparedIsFaithful | backend/organization-structure/scopeCandidateIntegration.js:15-26 | candidates of the run's subject without inner colons and with a real source type meet what the run relies on |
| ScopeReconciler.Reconciler.CreateAssignment | backend/authorization/data-scope/dataScopeAssignmentService.js:73-81 | a row for the candidate's subject iff governance resolves, a version expected (other than 0) is the current one and no live row has its slot |
| ScopeReconciler.Reconciler.Handle | backend/organization-structure/scopeProjectionReconciler.js:12 | what one candidate changes, and which of the four lists it counts in |
| ScopeReconciler.Reconciler.ReconcileScopeCandidates | backend/organization-structure/scopeProjectionReconciler.js:5-16 | the two loops equal the specification, and the rows agree with the candidates |
| ScopeReconciler.Reconciler.Reconcile | backend/organization-structure/scopeProjectionReconciler.js:6-7 | one candidate without exactly one target fails the call before anything is written |
| ScopeReconciler.Reconciler.RevokeSourceDerivedScopes | backend/organization-structure/scopeProjectionReconciler.js:16 | afterwards no row of the organization from those sources is active, and no other row has changed |
| ProvisioningSaga.Saga.Attempt | backend/services/organizationProvisioningCore.js:254-380 | after any earlier attempts: no call is made for a step on record, a returning attempt reports what is on record for every contact in the one recorded organization, and an attempt without failures returns |
| ProvisioningSaga.Saga.AttemptTimes | backend/services/organizationProvisioningCore.js:254-380 | over any number of attempts on one operation all that return report the same organization and, for every contact, the same user and role |
| ProvisioningSaga.ReportsAgree | backend/services/organizationProvisioningCore.js:254-380 | any two reports read off one growing log agree |
| ProvisioningSaga.Saga.RunStep | backend/services/organizationProvisioningCore.js:271-284 | a complete step that is not replayable is answered from the log with no call at all; any returned output is on record |
| ProvisioningSaga.Saga.AssignContact | backend/services/organizationProvisioningCore.js:339-349 | what it returns was really done: membership and role for that very user |
| ProvisioningSaga.Saga.AssignAll | backend/services/organizationProvisioningCore.js:337-362 | every contact is reported with the recorded assignment of its key |
| ProvisioningSaga.Saga.LoadCompletedSteps | backend/services/organizationProvisioningRecorder.js:97 | the map of the last completed record of each step |
| ProvisioningSaga.OwnAssignmentsNeedDistinctKeys | backend/services/organizationProvisioningCore.js:337-341 | every contact has an assignment of its own iff contacts sharing a key are the same contact |
| ProvisioningSaga.RecordedAssignment | backend/services/organizationProvisioningCore.js:348 | a recorded assignment lies in the recorded organization and carries the first contact of its key |
| Provisioning.CompletionKeepsInv | backend/services/organizationProvisioningCore.js:277-278 | recording a completion keeps: one completion per step, one organization, everything recorded really done, nothing done after its completion |
| Provisioning.EffectKeepsInv | backend/services/organizationProvisioningCore.js:276 | so does a call made for a step not yet complete |
| Provisioning.CompletedStepsAreRecorded | backend/services/organizationProvisioningRecorder.js:97 | the resume map has exactly the completed steps, with recorded outputs |
| RateLimiter.FewerThanTwiceTheMaximum | backend/middleware/securityPolicies.js:11-21 | in any chronological trace over many keys, any half-open interval of one window length admits at most `2 * max - 1` requests of a key |
| RateLimiter.BoundIsReached | backend/middleware/securityPolicies.js:72-85 | for every profile with a maximum of at least 1 and a window of at least two milliseconds a trace reaches that bound |
| RateLimiter.WindowAdmitsUpToTheMaximum | backend/middleware/securityPolicies.js:76-83 | each window admits exactly the smaller of its count and the maximum |
| RateLimiter.RateLimit.Increment | backend/middleware/securityPolicies.js:11-21 | new window once the old one has ended, else one more |
| RateLimiter.RateLimit.Reset | backend/middleware/securityPolicies.js:22 | the same as if the key had made no request |
| RateLimiter.RateLimit.Handle | backend/middleware/securityPolicies.js:72-85 | lets through by the count of the trace, and then fewer than twice the maximum passed in the last window length |
| MassDeprovisionGuard.EvaluateMassDeprovisionGuard | backend/identity-federation/massDeprovisionGuard.js:61-92 | allowed iff nothing violates or cools down, or both emergency flags are set; a plan stopped by the cooldown alone is exactly the one refused without preserving access |
| MassDeprovisionGuard.LargerPlansStayBlocked | backend/identity-federation/massDeprovisionGuard.js:35-92 | adding items to any destructive list never gets a blocked plan through |
| MassDeprovisionGuard.AffectedUsers | backend/identity-federation/massDeprovisionGuard.js:64 | each affected user once |
| MassDeprovisionGuard.NormalizeGuardConfig | backend/identity-federation/massDeprovisionGuard.js:21-33 | limits are never negative |
| FederationService.ApplyService.Carry | backend/identity-federation/reconciliationApplyService.js:64-73 | one step with others at work before either call and a failure at either: on success both halves are done, otherwise the call fails after the steps before |
| FederationService.ApplyService.CarryOut | backend/identity-federation/reconciliationApplyService.js:63-73 | with others in between: what is reported is a prefix of the adds followed by the removes, and that many steps are done in both stores, the whole plan unless a call failed |
| FederationService.ApplyService.Apply | backend/identity-federation/reconciliationApplyService.js:43-82 | with any steps of any other calls before each statement and a failure at any: the call is a run of the protocol that ends it with this reply and the record of that reply; a known key is answered at once without touching a table; a refused plan touches neither store; beside others that do nothing both stores are exactly where it got and every key still has one attempt; without a failing statement of its own it is repeated, blocked or done, whatever the others do |
| FederationService.ApplyService.UpdateAttempt | backend/identity-federation/reconciliationApplyService.js:31 | the last status of an attempt, at the end of a plan, of a refusal or of the catch block, as the step of the protocol |
| FederationService.ApplyService.FindApplyAttempt | backend/identity-federation/reconciliationApplyService.js:28 | the first attempt of the organization under the key |
| FederationRuns.RepliesAreOnRecord | backend/identity-federation/reconciliationApplyService.js:43-82 | in every run of any number of calls with any failures: neither store is more than a step ahead of what a call reports, an attempt is on record before either changes, and a call that has replied left exactly the record of its reply, with one dead letter iff it stopped |
| FederationOverlap.OneAttemptExactlyWhenNobodyBegan | backend/identity-federation/reconciliationApplyService.js:47-53 | a call whose lookup found nothing keeps one attempt for its key iff no other call began under it between the lookup and the recording |
| FederationOverlap.RunsKeepOneAttemptExactlyWhenFirst | backend/identity-federation/reconciliationApplyService.js:47-53 | over any run every key has one attempt iff every call that recorded one was the first under its key |
| FederationOverlap.AloneItKeepsOneAttempt | backend/identity-federation/reconciliationApplyService.js:47-53 | a call beside which no other call takes a step keeps one attempt for every key, whatever fails |
| FederationOverlap.OverlappingCallsBothCarryOut | backend/identity-federation/reconciliationApplyService.js:47-73 | for any two plans of one organization that may go ahead and any key: both lookups before both recordings leave two attempts, and both calls end having carried out their whole plans |
| FederationOverlap.PairAgreesExactlyWhenLastChangesDo | backend/identity-federation/reconciliationApplyService.js:64-73 | over any interleaving of any calls with any failures a row and a role that both changed agree iff the last change of the row and of the role are of the same kind |
| FederationOverlap.CrossingStepsDisagree | backend/identity-federation/reconciliationApplyService.js:64-73 | wherever one call comes to adding and another to removing one role and row, an order of their four halves leaves the row without the role and nothing in flight |
| FederationOverlap.PairsOfItsOwnAgree | backend/identity-federation/reconciliationApplyService.js:64-73 | in any run in which no other call's plan touches a pair, however many others run and whatever fails, the pair agrees up to the one step in flight |
| FederationApply.StoresAgreeUpToOneStep | backend/identity-federation/reconciliationApplyService.js:64-73 | wherever an undisturbed run stops, local rows and remote roles agree for every pair whose row key stands for its user and role, if it agreed before or was touched, except for the one step in flight |
| FederationApply.TryingAgainHeals | backend/identity-federation/reconciliationApplyService.js:51 | a stopped run followed by a complete one leaves both stores as the complete run alone would |
| ModuleControlPlane.AtMostOneExecutableBinding | backend/services/moduleControlPlane.js:80-82 | in every run at most one bound executable binding per installation and module, and a retired one never comes back |
| ModuleControlPlane.EveryTransitionFollowsTheTable | backend/services/moduleControlPlane.js:134 | in every run of callers who expect no version still to come, each step moves an installation along one table edge and one version or not at all |
| ModuleControlPlane.StepBreaksTheTableExactlyWhen | backend/services/moduleControlPlane.js:134 | a step breaks the table iff it finishes a move whose expected version is current at a lifecycle without an edge to its target |
| ModuleControlPlane.TableHoldsExactlyForCarefulStarts | backend/services/moduleControlPlane.js:134 | a move that passed its checks follows the table in every continuation by careful callers iff it does not expect a version still to come |
| ModuleControlPlane.ExpectingTheFutureBreaksTheTable | backend/services/moduleControlPlane.js:134 | every start that passes its checks and expects a version still to come has a continuation by careful callers, which leaves every call under way as it is, after which its finish breaks the table |
| ModuleControlPlane.BindingMayGoBeforeActivation | backend/services/moduleControlPlane.js:134 | wherever one executable binding lets a module become active, retiring it in between leaves the module active without one |
| ModuleControlPlane.ExecutableExactlyWhenKeptOrGained | backend/services/moduleControlPlane.js:80-82 | after any run a module has an executable binding iff one it had was not retired or one was inserted and not retired |
| ModuleControlPlane.ActiveWithBindingExactlyWhenKeptOrGained | backend/services/moduleControlPlane.js:134 | over any interleaving, a move to active that goes through leaves an executable binding iff one was kept or gained between its check and its update |
| ModuleControlPlane.ActiveWithBindingUnlessUpdated | backend/services/moduleControlPlane.js:134 | in particular if nobody updates a binding of the module in between |
| ModuleControlPlane.ControlPlane.BindOrganizationModuleRuntime | backend/services/moduleControlPlane.js:132 | with any steps of others between checks and insert: nothing if a check fails; else bound iff the slot is then free |
| ModuleControlPlane.ControlPlane.SuspendOrRemoveRuntimeBinding | backend/services/moduleControlPlane.js:82 | compare and set that leaves the binding not executable |
| ModuleControlPlane.ControlPlane.TransitionOrganizationModuleLifecycle | backend/services/moduleControlPlane.js:134 | with any steps of others between checks and update: nothing if a check fails; else moved iff the expected version is then current; among careful callers along one table edge; active with a binding iff one was kept or gained in between |
| ModuleControlPlane.ControlPlane.ProvisionOrganizationModule | backend/services/moduleControlPlane.js:127 | returns what is there, or installs at version 1 in the given lifecycle |
| ModuleAvailability.ExecutableExactlyWhenReady | backend/services/moduleAvailabilityResolver.js:72-86 | a decision is executable iff the operation is declared as asked, the installation is active or degraded, and the binding is there, compatible, fit and passable where needed |
| ModuleAvailability.ExecutableMeansBoundAndObserved | backend/services/moduleAvailabilityResolver.js:78-83 | then there is a bound executable binding of the module and an unexpired usable snapshot of it that no other is newer than |
| ModuleAvailability.OpenCircuitMayBePassed | backend/services/moduleAvailabilityResolver.js:83-84 | whatever is executable through an open circuit is a read settled by a degraded snapshot under a read-only policy |
| ModuleAvailability.AllowedKindsMayContradict | backend/services/moduleAvailabilityResolver.js:86 | an executable decision excludes the kind asked about iff the lifecycle is degraded and it is not a read |
| ModuleAvailability.AvailabilityState.GetLatestHealthSnapshot | backend/services/moduleAvailabilityResolver.js:67 | the newest snapshot by time, then version |

## Left out

- Collation: `localeCompare` is taken as code-unit order, so nothing is said about locale-dependent sorting.
- Hashes, UUIDs and keys joined with `|` or `:` (idempotency keys, default assignment ids, slots of data scope assignments) are taken as injective; only scope identities are modelled as the strings they are.
- The order of reusable facets: they are compared as a multiset, because their sort key is their own serialization.
- `getLatestPublication` of the in-memory repository sorts by creation time; the model follows the version order of the PostgreSQL query.
- The in-memory repositories hand out row objects that are later changed in place, so audit entries may alias live rows; the model copies values.
- Registry contents, payload and secret patterns, redaction, JWT and route handling, read models and observability: case checks and reshaping.
- `createDraft`, `createRollbackDraft`, `saveDimensionConfiguration` and the idempotency of draft edits and previews: they repeat the replay rule already shown for publish and review.
- The parts of `reviewedState` that are only hashed along (selector sets, dimension configurations, authority keys).
- MappingRepository.Repository.Publish: assignment references looked up in another table are a parameter, and only the number of work items they give is stated.
- Several reads that a call makes before its first write are taken at one moment (the lookups of `transitionOrganizationModuleLifecycle` and `bindOrganizationModuleRuntime`, the checks of `publish` and `review`); the pauses modelled are those between these reads and the write, and between writes.
- Advisory lock keys, which PostgreSQL hashes, are taken as different for different names.
- UnitForest.AlwaysAForest: display names, descriptions, metadata and taxonomy of units are not modelled, except for whether they let a creation through.
- ScopeReconciler.AgreesAfterRun: like the result about slots, needs distinct identities among candidates and among the subject's rows, and candidates whose row is recognised as theirs; what happens without is not described.
- ProvisioningSaga.Saga.Attempt: attempts on one operation run one after another; two at once are not modelled. An effect whose completion was lost before it was recorded is carried out again, so an organization may be created more than once before one is recorded.
- Logs in the in-memory transaction: the source cuts the audit and event logs to the length they had, the model puts back the copy; the two differ only after another call has rolled back in between.
- ScopeReconciler.Reconciler.ReconcileScopeCandidates: runs one after another; two at once, or other changes of assignments during a run, are not modelled.
- UnitService.OrganizationStructure.CreateUnit: the methods of this class, like Memberships, run without other calls in between; overlapping calls are described by the state machines of UnitForest and MembershipOverlap.
- `resolveModuleAvailability` of the control plane and the recording of module versions and compatibility: lookups that the resolver's model covers or takes as given.
- `backend/documents` and `backend/production-handoff`: their stores save without conditions, so there is little to keep.
