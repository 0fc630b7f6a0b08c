# Suchi core: a verified model

A Dafny model of the stateful core of the Suchi document archive (`core/api`), with
machine-checked proofs of what it is meant to guarantee. `dafny verify dfyconfig.toml`
checks the whole project.

| part | files |
|---|---|
| Pending mailbox sign-ins: the in-memory flow table, and the two-lock protocol that keeps it in step with the database | `OAuthFlowStore`, `OAuthFlowProtocol`, `OAuthFlowSafety`, `OAuthFlowStarts`, `OAuthFlowPolls`, `OAuthFlowProgress`, `OAuthMemberUpdate` |
| Document lifecycle: upload, new version, trash, restore, edits, purge, keyed retries, the job outbox | `Documents`, `DocumentStructure`, `DocumentUniqueness`, `UploadReplay`, `DocumentEffects`, `DocumentHandlers`, `UploadFingerprint` |
| Archive chat: the token bucket, match windows, citations | `ChatGate`, `TokenBucket`, `ChatPassages`, `ChatCitations` |
| Lists and cursors against plain specifications | `ApprovalTasks`, `EventFeed`, `LatestVersion`, `LikePrefix` |
| Roles, capabilities and what they stand behind | `Capabilities` |
| Shared vocabulary | `Options`, `Decimal` |

## How the model is built

Code that changes state is a class or a method with loops; each one is proved against
a specification function or relation (`AfterPut`, `UploadStep`, `AfterAsk`, ...), and
the guarantees are lemmas about those specifications and about whole runs of them.

- **Sign-in protocol.** A state holds the database, the flow table, the threads and a log
  of events. A thread's program counter names its next critical section; taking the
  writer, taking the mutex, committing and releasing are separate steps, and a run is any
  interleaving. Who holds a lock is read off the program counters. A request whose context
  ends inside its transaction loses the writer at once (`Cancel`), while its handler goes on.
- **Documents.** A write transaction is one step over the tables, because the database has
  one writer. It reads the clock once. Two readings that the program takes *before* its
  transaction (in `RestoreDocument` and in the retention sweep) are separate parameters,
  not later than the commit. Document ids come from AUTOINCREMENT and are never reused; a
  deleted predecessor becomes NULL, and a deleted document takes its stored upload
  responses, sources and jobs along, as the schema says.
- **Chat gate.** A bucket counts nanoseconds of refill credit: a request costs
  10 s, a full bucket holds 20 s, and time differences saturate like Go durations.
- **What is taken as given.** Visibility and authorization answers, SHA-256, the decoding
  of JSON, float formatting, random handles, tokens and family keys, SQLite's own sorting
  and grouping: they are parameters or hypotheses, named in the contracts.

## Where the guarantees need a condition

- `admit` reads the clock before it takes the lock, so readings can be out of order. Pruning
  is invisible exactly when they never are: any disorder, however small, has a run that
  shows it (`PruningHiddenExactly`). The rate limit of two requests plus one per ten seconds
  holds exactly then too (`RateHoldsExactly`); with disorder d it grows by at most 2d for each
  time the user's bucket is pruned, and not at all while it is not (`RateLimit`). The promise
  behind Retry-After needs no order (`WaitingIsRewarded`).
- Registering a flow under a handle that is still in the table skips the limits. They hold
  exactly when that does not move the handle to an owner who is full (`PutKeepsBoundsExactly`);
  fresh handles never do (`StoreSafety`).
- An unclosed `[` in a model's answer swallows the first marker that is appended, so
  re-reading the answer finds the citations exactly when nothing is missing or no bracket
  is open (`RescanFindsCitations`, `UnclosedBracketExample`).
- Two recoverable copies of the same bytes can arise in exactly two ways: a version upload
  whose bytes are those of a document still in Trash, and a restore that read the clock
  before its document expired and commits after (`ActiveRunExactly`,
  `VersionOfTrashedBytes`, `LateRestore`). Two *live* copies never arise.
- A keyed retry is answered from the stored response exactly as long as the document
  exists; purging it deletes the response, and the same request then inserts again
  (`AnswerLivesWithDocument`, `PurgeForgetsTheKey`).
- The version list selects by family key without the system; it agrees with the search's
  "latest" exactly when no key is shown in two systems (`HeadsAgreeExactly`), and the
  lifecycle keeps that so (`HeadsAgreeOnRuns`).
- The comment above `UploadNewVersion` allows several successors of one document; the code's
  head check does not, and the model follows the code (`StructureRun`).
- A client skips no arrival exactly when no visible id is left between the end of the log and
  its cursor (`NeverSkipsExactly`). A caller's own cursor can run ahead of the log
  (`CursorAheadOfTheLogSkips`); cursors the server hands out never do.

## Model

| member | source | states |
|---|---|---|
| OAuthFlowStore.FlowStore.Put | core/api/emailaccounts.go:98-125 | stores the entry under its handle, drops exactly the expired ones beside it, and refuses only for want of room |
| OAuthFlowStore.FlowStore.Begin | core/api/emailaccounts.go:127-147 | claims a flow exactly when it is the caller's, unexpired, answered and unclaimed, with its result unchanged, and touches no other |
| OAuthFlowStore.FlowStore.Finish | core/api/emailaccounts.go:149-158 | sets result and error of a flow that is still there, each in its own field, and no other field or flow |
| OAuthFlowStore.FlowStore.Release | core/api/emailaccounts.go:160-168 | clears the active mark of a flow that is still there, and no other field or flow |
| OAuthFlowStore.FlowStore.Delete | core/api/emailaccounts.go:170-174 | the table without the handle |
| OAuthFlowStore.FlowStore.InvalidateMemberLocked | core/api/emailaccounts.go:176-184 | exactly the user's flows in the system (0: in all) are gone |
| OAuthFlowStore.FlowStore.SweepExpired | core/api/emailaccounts.go:104-108 | the loop leaves exactly the unexpired entries |
| OAuthFlowStore.FlowStore.CountOwned | core/api/emailaccounts.go:113-118 | the loop counts exactly the owner's entries |
| OAuthFlowStore.PutKeepsBoundsExactly | core/api/emailaccounts.go:98-125 | from a table within both limits, `put` leaves one within them if and only if it does not hand a live handle to another owner who is full |
| OAuthFlowStore.ReusedHandleBreaksBounds | core/api/emailaccounts.go:98-125 | a table where the existing-handle branch breaks the per-owner limit |
| OAuthFlowSafety.RevocationSafety | core/api/systems.go:349-433 | in every interleaving no flow registered before a covering revocation completes after it, even after readmission; invalidation hits only flows registered before its own commit; a result is handed out at most once, to its own user and system |
| OAuthFlowSafety.WhyFlowsVanish | core/api/users.go:355-482 | every way a flow can leave the table; a removal or disable that does not commit deletes none |
| OAuthFlowSafety.StoreSafety | core/api/emailaccounts.go:98-184 | after every run both limits hold and a handle has at most one active completer |
| OAuthFlowSafety.CompletionIsAuthorized | core/api/emailaccounts.go:1113-1196 | when a completion commits, the database at that moment still lets the user into the system |
| OAuthFlowSafety.InvStep | core/api/emailaccounts.go:930-948 | the whole invariant (lock exclusion, handle freshness, doomed flows gone or about to go, one owner, hand-out order, limits) is kept by every step of every thread |
| OAuthFlowStarts.OnlyCommittedStartsComplete | core/api/emailaccounts.go:930-977 | in every interleaving each completion is preceded by the commit of its flow's start; the entry a cancelled start leaves behind never completes |
| OAuthFlowPolls.OnlySuccessfulPollsComplete | core/api/emailaccounts.go:149-158 | in every interleaving each completion is preceded by a successful poll of its flow |
| OAuthFlowPolls.SignInCanSucceed | core/api/emailaccounts.go:886-1196 | from every state without lock holders a user who may sign in, with room in the table, has a run from the start of a sign-in to its completion |
| OAuthFlowPolls.PollCompletes | core/api/emailaccounts.go:1044-1196 | a successful poll of an unexpired flow whose owner is still allowed can be followed by its completion |
| OAuthFlowPolls.StartIsAuthorized | core/api/emailaccounts.go:930-948 | when a start commits, the database at that moment lets the user into the system and have mailboxes |
| OAuthFlowPolls.OnlyUpdatesChangeTheDatabase | core/api/systems.go:355-424 | over every run the database changes only by an update's commit, to exactly what the update calls for on the database it commits to |
| OAuthFlowPolls.UpdatesTakeEffect | core/api/users.go:468-482 | an update that is ready to commit can, and then has changed the database |
| OAuthFlowPolls.FirstChecks | core/api/emailaccounts.go:886-930 | a start or completion goes past its first check exactly when the database allows it then |
| OAuthFlowPolls.SpentFlowsGo | core/api/emailaccounts.go:1072-1085 | a flow is gone after its device code could not be had, its error was claimed or its result was delivered |
| OAuthFlowPolls.ReleaseFrees | core/api/emailaccounts.go:160-168 | a completer that gives up leaves its flow free, with its result |
| OAuthFlowPolls.DeviceCodeLimits | core/api/emailaccounts.go:950-970 | a flow lives as long as its device code and never longer than fifteen minutes from its start |
| OAuthFlowProgress.NoDeadlock | core/api/systems.go:417-433 | whenever a request is unfinished some thread can take a non-failing step |
| OAuthFlowProgress.EveryScheduleEnds | core/api/emailaccounts.go:886-1196 | without new arrivals every schedule is bounded by the steps its threads have left |
| OAuthFlowProgress.AllRequestsCanFinish | core/api/emailaccounts.go:886-1196 | from every state all requests can be driven to their end without an injected failure |
| OAuthMemberUpdate.PutSystemMembers | core/api/systems.go:355-416 | the loops stage exactly the membership and the removed users the protocol's update step uses, or refuse |
| OAuthMemberUpdate.PutMembersMeans | core/api/systems.go:355-416 | the system's members become exactly the wanted, other systems keep theirs, exactly the dropped are targets, and the reasons for refusal |
| OAuthMemberUpdate.InvalidateRemoved | core/api/systems.go:425-433 | one call per removed member invalidates exactly the covered flows |
| OAuthMemberUpdate.PatchStagesAgree | core/api/users.go:355-482 | the protocol's user edit is accepted exactly when the capability model's transaction is, and leaves the same users |
| DocumentHandlers.Archive.UploadDocument | core/api/documents.go:97-329 | the transaction takes the step of the upload decision table, does to the rows what its answer says, and keeps all lifecycle invariants |
| DocumentHandlers.Archive.InsertOrResurrect | core/api/documents.go:129-328 | the four branches in order; what it restores or creates is live and holds the request's bytes |
| DocumentHandlers.Archive.UploadNewVersion | core/api/versions.go:178-443 | the transaction takes the step of the version decision table, does to the rows what its answer says, and keeps all lifecycle invariants |
| DocumentHandlers.Archive.RecoverOrVersion | core/api/versions.go:219-443 | keyed recovery, head check, live-duplicate refusal, unreadable layout, or a new version with the rows a version must have |
| DocumentHandlers.TransferNumber | core/api/versions.go:371-418 | the serial number leaves the predecessor for the new row, the layout goes along exactly when its template prints the number, and no other row changes |
| DocumentHandlers.Archive.SoftDeleteDocument | core/api/documents.go:412-428 | stamps a live row and nothing else; reports whether it did |
| DocumentHandlers.Archive.RestoreDocument | core/api/documents.go:461-482 | revives a row in its window as read before the transaction, unless the unique index refuses |
| DocumentHandlers.Archive.BulkTrashDocuments | core/api/documents_bulk.go:445-451 | stamps exactly the live rows named |
| DocumentHandlers.Archive.BulkRestoreDocuments | core/api/documents_bulk.go:452-478 | all or nothing: applies exactly when no named row is missing or expired and no two live copies result |
| DocumentHandlers.Archive.PatchDocument | core/api/documents.go:703-819 | serial number and layout edits with every refusal: not current, number taken, layout unavailable, layout without its number |
| DocumentHandlers.Archive.BulkSetLayout | core/api/documents_bulk.go:278-360 | layout lookup, missing-number query, changed ids and update apply exactly when the layout belongs to the system and finds its number on every named row |
| DocumentHandlers.Archive.PurgeSelected | core/trash/trash.go:100-330 | an id of zero stops it; otherwise it deletes the trashed named rows of the system with all they own, and links to them become NULL |
| DocumentHandlers.Archive.PurgeOverdue | core/trash/trash.go:125-130 | deletes exactly the rows whose window has ended |
| DocumentHandlers.FamilyHead | core/api/versions.go:265-277 | the maximum equals the predecessor exactly when nothing newer is in its family |
| DocumentHandlers.FindSameVersion | core/api/versions.go:226-263 | the live-first, oldest-first version with the same bytes, or none |
| DocumentHandlers.FindSplitParent | core/api/documents.go:138-152 | the latest trashed row with these bytes that has split children, or none |
| DocumentStructure.StructureRun | core/api/versions.go:178-443 | at every point of every run: no shared predecessor, serial numbers unique per system and on the newest document of the family, layouts that print a number have one, families in one system |
| DocumentStructure.StructureStep | core/api/documents.go:703-819 | each single transaction keeps those facts |
| DocumentStructure.VersionKeeps | core/api/versions.go:265-418 | a version of a family head keeps those facts while the number and layout move |
| DocumentStructure.HeadsAgreeOnRuns | core/api/versions.go:568-585 | on every reachable archive, for every caller, the version list's head is the search's latest |
| DocumentEffects.UploadMeans | core/api/documents.go:97-329 | column by column: what is restored or created is live with the request's system, owner and bytes; a duplicate is the live copy or a retired split; the source is recorded, every other row is unchanged, and an admitted unkeyed upload is refused only for a split child in Trash |
| DocumentEffects.SplitStaysRetired | core/api/documents.go:129-186 | bytes whose scan was split are never inserted or revived while a child exists |
| DocumentEffects.VersionMeans | core/api/versions.go:178-443 | column by column: the new row has the predecessor's system, owner, family and serial number and the uploaded bytes, the predecessor loses the number and otherwise only a layout that prints it; every refusal has its reason |
| DocumentEffects.KeyedVersionIsRecognized | core/api/versions.go:222-263 | a keyed upload of a version that exists inserts no second one, however late |
| DocumentEffects.NumbersGoForAReason | core/api/versions.go:371-418 | over every run a serial number in use goes out of use only by an edit of its holder's number or a purge of its holder |
| DocumentEffects.SoftDeleteMeans | core/api/documents.go:412-428 | stamps that live row and changes nothing else |
| DocumentEffects.RestoreMeans | core/api/documents.go:461-482 | clears the stamp exactly when in the window with no live copy, queues a render job, and changes nothing else |
| DocumentEffects.BulkTrashMeans | core/api/documents_bulk.go:445-451 | stamps exactly the live named rows and changes nothing else |
| DocumentEffects.BulkRestoreMeans | core/api/documents_bulk.go:452-478 | clears the stamps of the named rows or changes nothing |
| DocumentEffects.PatchMeans | core/api/documents.go:703-819 | sets the number and layout the body gives, in their own columns of that row alone, or changes nothing |
| DocumentEffects.PatchAcceptedExactly | core/api/documents.go:728-793 | accepted exactly when a given number is free and the row live and newest, and the layout it ends with is the system's and finds its number |
| DocumentEffects.BulkLayoutMeans | core/api/documents_bulk.go:278-360 | sets the layout of the named rows, queues exactly the changed live ones, or has one of three reasons not to |
| DocumentEffects.PurgeMeans | core/trash/trash.go:163-330 | exactly the purged rows go, with their stored answers, sources and jobs; links to them become NULL and nothing else changes |
| DocumentEffects.PurgedWereTrashed | core/trash/trash.go:163-200 | no step deletes a document that is not in Trash, and the sweep none within its window |
| DocumentUniqueness.OneLiveCopy | core/api/documents.go:187-271 | no run has two live copies of one owner's bytes in a system |
| DocumentUniqueness.OneActiveCopy | core/api/documents_bulk.go:445-478 | without version uploads and late restores, no run has two copies that are live or recoverable |
| DocumentUniqueness.ActiveRunExactly | core/api/documents.go:461-482 | a run stays free of second active copies exactly as long as every step is harmless, which is read off the tables and the request before the step |
| DocumentUniqueness.VersionOfTrashedBytes | core/api/versions.go:279-335 | from a well-formed archive, a step in which a version upload creates a second active copy |
| DocumentUniqueness.LateRestore | core/api/documents.go:461-482 | from a well-formed archive, a step in which a restore with an old clock reading creates one |
| UploadReplay.RetriesAreAnswered | core/api/upload_idempotency.go:117-152 | within 30 days of the first settled keyed upload and while its document exists, an admitted retry conflicts exactly when operation or fingerprint differ, replays exactly when they agree and the document is in sight, is refused otherwise, and writes no document, source or job row |
| UploadReplay.AnswerLivesWithDocument | core/api/upload_idempotency.go:117-180 | up to its 30th day the stored row is there exactly as long as its document |
| UploadReplay.SettledIsStored | core/api/upload_idempotency.go:154-180 | every settled keyed upload leaves its document, operation, fingerprint and time in the table |
| UploadReplay.PurgeForgetsTheKey | core/db/migrations/0001_baseline.sql:557-569 | a run in which a purge lets the same keyed request insert again |
| UploadReplay.EachInsertHasOneJob | core/api/documents.go:300-315 | over a run, with done jobs pruned at will, the modelled transactions add post-ingest jobs for a document exactly as often as they insert it, in the inserting transaction, and insert it at most once |
| UploadReplay.NewRowsAreNew | core/api/versions.go:310-335 | a document row appears only through a transaction that reports it as created, under the next id |
| UploadFingerprint.BuildUploadFingerprint | core/api/upload_idempotency.go:66-115 | the loop over length-prefixed fields computes the specified fingerprint |
| UploadFingerprint.HashedBytesIdentifyRequest | core/api/upload_idempotency.go:74-113 | the hashed bytes are equal exactly when operation, predecessor, blob, base name, optional time and optional device data (digest, normalised confidence, language) are |
| UploadFingerprint.FingerprintIdentifiesRequest | core/api/upload_idempotency.go:66-115 | fingerprints are equal exactly for the same request in the same system, unless the hash collides on the two |
| UploadFingerprint.EncodeInjective | core/api/upload_idempotency.go:107-113 | different field lists of any lengths give different streams |
| UploadFingerprint.BaseIdempotent | core/api/upload_idempotency.go:99 | taking the base name twice changes nothing |
| UploadFingerprint.BaseDropsDirectories | core/api/upload_idempotency.go:99 | directories before a name and slashes behind it do not change its base |
| UploadFingerprint.NormalisedExactly | core/api/upload_idempotency.go:87-91 | confidences are told apart but for the sign of zero |
| UploadFingerprint.FieldOrder | core/api/upload_idempotency.go:74-106 | the ten fields, each in its place |
| ChatGate.Limiter.Admit | core/api/chat_gate.go:59-98 | the answer, delay and buckets of a request |
| ChatGate.Limiter.Refund | core/api/chat_gate.go:85-98 | the refund closure acts once, also on a pruned bucket read as the zero value |
| ChatGate.Limiter.PruneIdleBuckets | core/api/chat_gate.go:101-112 | the loop drops exactly the idle buckets, at most once a minute |
| ChatGate.PruningIsUnobservable | core/api/chat_gate.go:59-112 | for every ordered run the pruning gate and one that never prunes give the same answers and delays |
| ChatGate.PruningHiddenExactly | core/api/chat_gate.go:59-112 | pruning is hidden from all runs whose clock readings are out of order by at most d if and only if d is zero |
| ChatGate.RateLimit | core/api/chat_gate.go:71-98 | in every window of every run whose readings are out of order by at most d, admissions minus refunds of a user cost at most the burst, plus the span of the window's readings, plus 2d for each time the user's bucket is pruned in it |
| ChatGate.RateHoldsExactly | core/api/chat_gate.go:71-112 | the plain bound of 2 plus one per 10 s holds for all runs with disorder at most d if and only if d is zero |
| ChatGate.DeniedExactly | core/api/chat_gate.go:59-98 | in order, a request is denied exactly when some window ending with it would cost more than the burst plus its length, refunds counted back, and the delay announced is the greatest such overdraft and a second |
| ChatGate.RefundUndoesGrant | core/api/chat_gate.go:85-98 | a grant and its refund at one reading leave everyone's credit, at every later time, as if neither had happened |
| ChatGate.WaitingIsRewarded | core/api/chat.go:342-348 | a refused caller who waits the announced seconds is admitted, readings out of order included, unless another request of theirs was granted meanwhile |
| ChatPassages.NewMarkers | core/api/chat.go:62-84 | two different markers of 16 runes from the marker range, for all random bytes |
| ChatPassages.StripMarkers | core/api/chat.go:999-1040 | exactly the unmarked runes remain, and the match reported is exactly the one the leftmost reading of the markers defines, or none |
| ChatPassages.MatchMeans | core/api/chat.go:1008-1039 | no match exactly when the reading takes no start marker; otherwise from the first start marker it takes to the first end marker behind it, or to the end of the text if none follows |
| ChatPassages.TokensAreLeftmost | core/api/chat.go:1008-1030 | the reading takes markers without overlap, and every occurrence of a marker is taken or begins inside one that is |
| ChatPassages.StrippingUndoesHighlighting | core/api/chat.go:998-1040 | stripping a text marked up around any number of stretches gives the text back, with the first stretch as the match |
| ChatPassages.WriteText | core/api/chat.go:1042-1053 | appends exactly the runes outside the marker range and counts them |
| ChatPassages.UnmarkedKeepsTheRest | core/api/chat.go:1042-1053 | stripping loses every marker rune and no other occurrence |
| ChatPassages.BoundedPassage | core/api/chat.go:975-996 | a slice of the stripped text as long as the limit allows that holds the whole match, in the middle as far as the text's ends allow; starts at a match that does not fit; and is the head of the text without a match |
| ChatPassages.PassageIsUnique | core/api/chat.go:975-996 | those conditions leave exactly one passage |
| ChatCitations.CitationMarkers | core/api/chat.go:1358-1377 | the search by offsets finds exactly the numbers that a left-to-right automaton reads |
| ChatCitations.ParseModelAnswer | core/api/chat.go:1290-1356 | the exact outcome of every decoded reply: rejected, ungrounded, or grounded with its full text and its citations in order |
| ChatCitations.GroundedMeans | core/api/chat.go:1340-1356 | a grounded answer cites something, each source once and in range, extends the reply, and shows exactly what it cites unless a bracket was open |
| ChatCitations.OutcomeExactly | core/api/chat.go:1305-1356 | grounded exactly when of the right length, sufficient, sound, citing something and fitting with its markers; ungrounded exactly when of the right length and insufficient or citing nothing |
| ChatCitations.ValueExactly | core/api/chat.go:1371-1373 | a bracket counts for the positive number in it and for nothing otherwise |
| ChatCitations.RescanFindsCitations | core/api/chat.go:1343-1377 | re-reading the returned text finds exactly the citations, if and only if nothing had to be appended or no bracket is open |
| ChatCitations.UnclosedBracketExample | core/api/chat.go:1358-1377 | the answer `[` loses its appended marker |
| ChatCitations.DistinctCitations | core/api/chat.go:1311-1321 | accepted exactly when all listed citations are in range; keeps the first mention of each |
| ChatCitations.FirstMentionsInOrder | core/api/chat.go:1311-1321 | of two citations kept, the one that comes first is mentioned before the other is |
| ChatCitations.CitationsFromMarkers | core/api/chat.go:1332-1339 | the marked sources in ascending order, each once |
| ApprovalTasks.ListPage | core/api/tasks.go:544-589 | batches, offset and cache give exactly the first `limit` tasks of the filtered list, open or claimed ones only; an error exactly when one of the rows read until the page fills fails |
| ApprovalTasks.ActionableIsShown | core/api/tasks.go:541-546 | every open or claimed row that is not hidden has its task in the list the page is cut from |
| ApprovalTasks.WithStatusKeepsOrder | core/api/tasks.go:541-547 | filtering by status keeps exactly the rows of those statuses, each once and in order |
| ApprovalTasks.JudgeSays | core/api/tasks.go:565-581 | a change shows its reviewed variables, a proposal shows while needed, every other task shows |
| ApprovalTasks.CountVisible | core/api/tasks.go:630-694 | plain count plus needed groups is the number of visible tasks with the asked statuses; an error exactly when a counted proposal fails |
| ApprovalTasks.CountIsListLength | core/api/tasks.go:520-596 | where no row of the asked statuses fails, that number is the length of the filtered list |
| ApprovalTasks.ApprovalTasksForUser | core/api/tasks.go:520-596 | page and open count together, sharing one cache, with exactly the errors of the two |
| ApprovalTasks.EligibilityCache.StillNeeded | core/api/tasks.go:441-471 | the cached answer is the one asking would give, when the key decides it |
| ApprovalTasks.FullPageIsFinal | core/api/tasks.go:549-589 | once the page is full, later rows cannot change it |
| EventFeed.ListEvents | core/api/events.go:106-268 | the handler's loop and reversal give the page and the cursor of the specification, as many events as asked for up to 200, 100 if not asked |
| EventFeed.ExactlyOnceInOrder | core/api/events.go:189-268 | over any interleaving of appends and polls from a nonzero cursor, the client holds every visible event up to its cursor once and in id order |
| EventFeed.PollShrinksPending | core/api/events.go:189-200 | a poll takes exactly its page off the front of what is pending |
| EventFeed.CatchesUp | core/api/events.go:106-268 | after any interleaving, as many further polls as events are pending leave the client with every visible event past its start, once and in order |
| EventFeed.TailCall | core/api/events.go:189-265 | without a cursor: the newest visible events up to the limit, ascending, none older than one left out |
| EventFeed.NeverSkipsExactly | core/api/events.go:106-200 | in all runs every visible arrival up to the client's cursor reaches it, if and only if no visible id is left between the end of the log and its starting cursor |
| EventFeed.CursorAheadOfTheLogSkips | core/api/events.go:106-111 | a run with a cursor beyond the log that misses an event |
| EventFeed.ReverseInPlace | core/api/events.go:261-265 | the two-index loop reverses the array |
| LatestVersion.OneLatestPerFamily | core/api/authz_helpers.go:177-196 | latest and older split what is shown, and each family with anything shown has exactly one latest |
| LatestVersion.HeadsAgreeExactly | core/api/versions.go:568-585 | the list's head flag agrees with the search exactly when no family key is shown in two systems |
| LatestVersion.MarkReferenceLatest | core/api/document_references.go:215-271 | grouping and scanning the join rows gives exactly the search's latest for every summary |
| LikePrefix.EscapedPatternIsPrefix | core/api/tasks.go:409-425 | the escaped pattern with a trailing `%` matches exactly the texts that start with the input, up to LIKE's case folding |
| LikePrefix.UnescapedPatternIsNot | core/api/tasks.go:418-425 | without escaping it does not |
| Capabilities.Accounts.PatchUser | core/api/users.go:355-482 | a user edit takes the step of the specification, refuses to lose the last active admin, and keeps the law below |
| Capabilities.PatchTouches | core/api/users.go:395-445 | an edit touches the links and views of the edited user alone: stamps exactly the open links if ShareLinks is lost and unshares exactly the views if ShareViews is lost |
| Capabilities.PatchSets | core/api/users.go:370-420 | role, disabled flag and grants after an edit, with none for an admin and none left over from having been one |
| Capabilities.OnlyAdminsPatch | core/api/users.go:355-362 | only an active admin edits, not to disable themselves, and with known capabilities |
| Capabilities.AdminsCanPatch | core/api/users.go:355-430 | an active admin can always grant and take capabilities and edit anyone else |
| Capabilities.SteppingDown | core/api/users.go:421-430 | an admin can become a member exactly when another active admin is there |
| Capabilities.Removed | core/api/users.go:395-413 | both ways of computing the difference give exactly the known capabilities lost in effect |
| Capabilities.Accounts.RunHooks | core/api/users.go:431-445 | in any order the hooks stamp exactly the user's open links and unshare exactly the user's views they stand for |
| Capabilities.Accounts.CreateShareLink | core/api/share_links.go:269-298 | only an active entitled user gets a link |
| Capabilities.Accounts.RevokeShareLink | core/api/share_links.go:344-376 | stamps the caller's own unrevoked link, and succeeds again without change |
| Capabilities.Accounts.CreateSavedView | core/api/saved_views.go:203-226 | a shared view only for an entitled user |
| Capabilities.Accounts.UpdateSavedView | core/api/saved_views.go:314-342 | sharing only by its entitled owner |
| Capabilities.Accounts.DeleteSavedView | core/api/saved_views.go:375-392 | only by its owner |
| Capabilities.Accounts.RevokeForFormerMember | core/api/systems.go:399-408 | revokes exactly the member's open links in the system |
| Capabilities.LawfulRun | core/api/users.go:360-475 | throughout every run each unrevoked link's creator and each shared view's owner is entitled, and an active admin remains |
| Capabilities.RevokedForever | core/api/users.go:546-595 | a revoked link keeps its first time stamp for as long as it exists, through regrants, promotions and demotions |
| Capabilities.LostOnceLostForGood | core/api/users.go:546-560 | once its creator has been without the capability, no link made by then is ever good again |
| Capabilities.LinksEndForAReason | core/api/users.go:570-582 | over every run an open link becomes revoked only by its creator's revocation, its creator's loss of the capability or its creator's removal from its system |
| Capabilities.LinksDoEnd | core/api/share_links.go:344-376 | each of the three does revoke it |
| Capabilities.WhyViewsChange | core/api/saved_views.go:314-392 | a view changes only by its owner's hand or with its owner's loss of the capability |
| Capabilities.OwnersGetTheirWay | core/api/saved_views.go:314-392 | an owner can share if entitled, and always unshare and delete |

## Left out

- The two semaphores of the chat gate: bounded channels with nothing to relate.
- Floating-point rounding in the chat gate: credit is exact.
- The chat gate within 20 s of Go's zero time: events are assumed later than that.
- ChatGate.RateLimit: assumes disorder below 292 years, where time differences do not saturate.
- ChatGate.WaitingIsRewarded: assumes disorder below 292 years, where time differences do not saturate.
- UploadReplay.EachInsertHasOneJob: rescans and decryption, which enqueue further post-ingest jobs, and the job runner's own states are not modelled.
- HTTP parsing, JSON shapes, status codes, cookies, audit emission, logging.
- Trimming and JSON decoding of a model's answer: `ParseModelAnswer` starts from the decoded fields.
- UTF-8: chat text is a sequence of runes; a rune search finds what a byte search finds on valid text.
- The approvals runner and the document-change review: review variables are a parameter that may fail.
- Approval task choices, deadlines and display columns: carried along unchanged by the source.
- Foreign ranking, snippets and highlighting of SQLite's full-text search.
- Other ingest paths (watcher, mail, scan split, importers) and owner changes by automations: split children are present only as rows of the starting state.
- Edits of layout templates: layouts are fixed, since editing one does not re-check its documents.
- Titles, categories, tags, correspondents, ACL copies and sensitivity of documents: no guarantee here depends on them.
- Several clock readings inside one write transaction: one reading per transaction.
- Mailbox disabling when the mailbox capability goes: the hook's table is not part of this model.
- The limit of 50 saved views and unique view names: checked by the source outside the properties here.
- API tokens and demo principals: part of the authorization answer a request carries.
- Row ids of share links, which SQLite may reuse: links are told apart by token.
- LIKE on text with NUL characters.
- LatestVersion.HeadsAgreeExactly: the page's predecessor column is not modelled.
- DocumentHandlers.Archive.PatchDocument: title, category and other columns appear only as whether they are present, because only rendering depends on them here.
- UploadFingerprint.FingerprintIdentifiesRequest: says nothing about two requests whose streams collide under SHA-256.
