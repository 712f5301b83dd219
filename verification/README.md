# A verified model of the archive's stateful core

Echohoard ingests encrypted chat backups and live events into a private archive. This
project models, in Dafny, the parts whose correctness depends on many steps taken together,
and proves what they promise over every run, every input or every interleaving.

* **Leased import jobs** (`JobLease`, `LeaseLife`, `JobRunner`): one job row, fenced by lease id, expiry
  and status, and any number of workers whose statements may reach the database late.
* **The live receipt inbox** (`LiveInbox`, `ReceiptLife`): receipts that are claimed for a while, failed,
  claimed again, and committed by the import that still holds the claim.
* **The observation ledger** (`ArchiveRows`, `TextImport`, `ImportOrder`, `SourceFilings`,
  `ReplyResolution`, `Arrivals`, `ImportedRows`, `RevisionRows`, `CachedView`, `CachedRevisions`,
  `Materialization`, `Eligibility`, `ArchiveRuns`, `Replay`,
  `ShownBodies`, `ShownDeletions`, `ReintroducedConversation`): imports append observations and
  upsert rows; excluding and re-enabling a job recomputes the rows from the ledger.
* **Refused imports** (`RepeatedKeys`, `ReplyConstraint`, `Refusals`, `ImportRefusals`,
  `BatchWindows`, `RunReplies`, `Participants`): which statements the database refuses, and from
  there which batches, which imports, which cuts into batches and which commands of a run.
* **WhatsApp extraction** (`MessageIdentity`, `WhatsAppMessages`, `NormalizedRecords`, `NormalizedKeys`,
  `LineFraming`, `RecordSpool`): a streaming normalizer against the in-memory one, and the chunked line
  framing and buffered spool underneath.
* **Keyset pagination** (`ReadCursors`, `Keyset`): SQL cursor predicates against their
  ORDER BY, and the walk that follows signed cursors.
* **Grouping, locks and sessions** (`Grouping`, `AsyncLock`, `McpSessions`,
  `AccountPairing`, `Attachments`): audited merges with rollback, promise-chain mutexes and
  what they protect, and attachment rows that keep owned bytes.

How the source is represented: a transaction, and a single conditional UPDATE, is one step.
Generated ids are fresh, hashes and signatures stand for what is hashed or signed, and a
string that is only compared is a rank in one total order (`Basics.Text`). A loop of the
source is a loop here, proved against a function; the theorems are about those functions.
Clocks, files, sockets and the results of foreign calls are parameters.

What the proofs found where code and expectation part, each with its exact condition:

* Releasing a lease orphans a job at work for ever (`JobLease.ReleaseOrphans`,
  `JobLease.FrozenExactly`), and a run of one call gets there (`JobRunner.ACallOrphansItsJob`).
* A call may return false although its import committed: it returns true if and only if it took
  the reply in before it lost the lease and its release did not fail (`JobRunner.ReturnsTrueExactly`).
* A receipt's attempts pass the limit if and only if a poll takes over an expired claim whose
  attempts are used up (`LiveInbox.AttemptsStayWithinExactly`), and then pass every bound.
* A reaction that the in-memory normalizer has rewritten is not found again by its reply
  pass and keeps the literal reply key "pending"; a reaction without a target is applied to
  a row without an id (`WhatsAppMessages.Agreeable` is the exact condition).
* A spooled record with U+2028 or U+2029 in its text is cut by the line reader
  (`RecordSpool.RoundTripExactly`), and so is a spooled row: the streaming normalizer then fails
  where the one in memory succeeds (`WhatsAppMessages.StreamingEndsExactly`).
* Rows of one identity, and refused rows of one conversation and time, share a message key
  (`NormalizedKeys.StreamedKeysAreDistinctExactly`).
* An import is refused, whatever its job, if a reply and its target come to lie in different
  conversations: the foreign key of src/infrastructure/db/text-import.ts's rows
  (prisma/migrations/20260910000300_messages_revisions_reactions/migration.sql:65) holds both in
  one, and nothing in the importer compares them (`ImportRefusals.ReplyAcrossConversations`,
  `RunReplies.RegroupingRefusesReplies`). An eligible import is also refused if one of its batches
  meets a message twice. Nothing else refuses its messages (`ImportRefusals.ImportIsRefusedExactly`),
  and batch boundaries matter only when some message key is repeated
  (`ImportRefusals.BatchBoundariesDoNotMatter`, `BatchWindows.EveryCutIsAcceptedExactly`).
* A participant, too, is refused after its source has moved to a group that lacks the person
  (`Participants.RegroupedIsRefusedExactly`).
* A revision can be shown that no observation backs (`CachedRevisions.ImportStaysShownExactly`).
  It takes a stream that files a conversation under two sources
  (`ReintroducedConversation`): an array is sorted, conversations first
  (src/infrastructure/db/text-import.ts:293-298, 335), and a spool holds its metadata first, so
  neither can do it (`ImportOrder.ArraysAreHome`, `ImportOrder.SpoolsAreHome`).
* A visible message can show the body of an excluded import, and its deletion (`ShownBodies`,
  `ShownDeletions`).
* After a recomputation a deleted message may have no body and still count as available
  (`Materialization.UnavailableMeansDeletedAndEmpty`).
* An `apply` of a key whose last attempt died moves its run from running to running, which the
  transition function of src/application/import-exclusion.ts:76-90 refuses; the code does not call
  it (`ArchiveRuns.TransitionsArePermittedExactly`).

`dafny verify dfyconfig.toml` checks the project.

## Model

| member | source | states |
|---|---|---|
| JobLease.JobRow.Transition | src/infrastructure/db/worker-persistence.ts:174-201 | A status move matches only a row that holds this live lease in the expected status, and otherwise raises the fence error and changes nothing |
| JobLease.JobRow.MarkStatus | src/infrastructure/db/worker-persistence.ts:64-172 | Each `mark*` statement: its source status, its target status and the lease and retryable fields it leaves behind; it answers whether the fence held |
| JobLease.JobRow.AcquireLease | src/infrastructure/db/worker-persistence.ts:206-230 | A lease is granted exactly when the row is queued, or failed and retryable, under no live lease; the row then carries the new lease and its expiry |
| JobLease.JobRow.RenewLease | src/infrastructure/db/worker-persistence.ts:232-246 | A live lease of an active row is extended; any other call answers false and changes nothing |
| JobLease.JobRow.ReleaseLease | src/infrastructure/db/worker-persistence.ts:248-260 | A live lease is cleared whatever the status; a dead one changes nothing |
| JobLease.JobRow.RecoverExpired | src/infrastructure/db/worker-persistence.ts:262-289 | An active row whose lease has run out returns to the queue, and the lease it lost is reported |
| JobLease.JobRow.FinalizeImport | src/infrastructure/db/text-import.ts:937-956 | The importer's last statement completes the job under the same fence, or nothing is committed |
| JobLease.StepKeepsInv | src/infrastructure/db/worker-persistence.ts:174-289 | Every statement of any worker, matching or not, keeps the history of the row well formed |
| JobLease.JobHistoryIsSafe | src/infrastructure/db/worker-persistence.ts:174-289 | Over every interleaving a new job completes at most once, each lease acts in one block that begins with its acquisition, and every move is legal |
| JobLease.LeasesNeverInterleave | src/infrastructure/db/worker-persistence.ts:206-230 | Every success under an old lease precedes the next acquisition |
| JobLease.HistoryIsLegal | src/application/echohoard.ts:95-104 | Every status move of a lease holder is an edge of the transition table; only recovery leaves it |
| JobLease.LeaseHolderEdges | src/application/echohoard.ts:95-123 | The edges lease holders can take are exactly those of the table but three: queued to failed, leased to queued, failed to queued |
| JobLease.DeadLeaseNeverSucceeds | src/infrastructure/db/worker-persistence.ts:174-289 | A lease that has expired, been released or been replaced never succeeds again, in any statement |
| JobLease.LiveLeaseIsUndisturbed | src/infrastructure/db/worker-persistence.ts:174-289 | While a lease is live, statements that do not carry it leave the row alone |
| JobLease.FrozenExactly | src/infrastructure/db/worker-persistence.ts:174-289 | A row can never change again if and only if it is terminal (completed, or failed for good) or orphaned at work without a lease |
| JobLease.ReleaseOrphans | src/infrastructure/db/worker-persistence.ts:248-276 | Releasing a live lease orphans the job if and only if the job is at work; a row that waits can be acquired again at once |
| LeaseLife.GrantLastsExactly | src/infrastructure/db/worker-persistence.ts:206-246 | How long a lease lasts: after a granted acquisition or renewal at `now` for `d`, whatever statements follow that leave it alone, it holds at a moment if and only if that is before `now + d` |
| LeaseLife.HeartbeatsKeepTheLease | src/application/intake.ts:93-94 | A working job is held throughout a run, so that no recovery ever matches and the fence of its next statement does, if and only if each heartbeat comes before the deadline that the one before it set |
| LeaseLife.PeriodBelowDurationSuffices | src/application/intake.ts:93-94 | Heartbeats that reach the row within a period below the lease duration keep a working job held for ever |
| LeaseLife.NoHeartbeatBeforeTheMark | src/infrastructure/db/worker-persistence.ts:232-246 | Until its job is marked leased no heartbeat extends a lease, however many are sent |
| LeaseLife.FailureIsFinalExactly | src/infrastructure/db/worker-persistence.ts:139-172 | A job marked failed is free at once, and may be taken again at any time if and only if it was marked retryable; otherwise nothing ever changes it |
| LeaseLife.CompletionIsFinal | src/infrastructure/db/text-import.ts:937-956 | A job completed by its mark or by the importer stays so, whatever follows |
| JobRunner.LocalKeepsWorker | src/application/intake.ts:107-245 | What a call does between two statements never lets it return true without its own lease's completion on record |
| JobRunner.ArrivalKeepsWorker | src/application/intake.ts:107-191 | A statement in flight that reaches the database late keeps what its call knows true |
| JobRunner.ActKeepsInv | src/application/intake.ts:99-245 | Every action of any number of calls, heartbeats, recoveries and clock ticks keeps leases apart and the job's history safe |
| JobRunner.AtMostOneCallSucceeds | src/application/intake.ts:107-191 | At most one call ever returns true, and then its own lease completed the job |
| JobRunner.EveryRecordIsRight | src/application/intake.ts:167-245 | In every reachable state what a call remembers of its completing operation (not sent, under way, reply taken in, given up, failed) fits what its lease did to the row |
| JobRunner.ReturnsTrueExactly | src/application/intake.ts:167-191 | A finished call whose lease completed the job returns true if and only if it took the reply in, before the lease was lost and instead of an error, and its release did not fail |
| JobRunner.RecordedAsItHappened | src/application/intake.ts:167-191 | That record is the run's own history: some earlier action took the reply in, lost the lease or threw while the call awaited its completing operation |
| JobRunner.CompletedWithoutSuccess | src/application/intake.ts:167-181 | A run of the other kind: the job completes and the call still returns false |
| JobRunner.ACallOrphansItsJob | src/application/intake.ts:183-245 | A run in which one call loses its lease, gives it back and leaves the job orphaned at work |
| JobRunner.CanSucceedExactly | src/application/intake.ts:107-191 | From any reachable state a new call, with an import pipeline or without, can still return true if and only if the job is neither done with for good nor orphaned |
| JobRunner.AHeartbeatCarriesOn | src/application/intake.ts:120-120 | A call at work whose heartbeat reaches the row in time goes on for as long as it asked for, wherever it was, with its lease held |
| LiveInbox.InboxTable.EnqueueReceipt | src/infrastructure/db/prisma-persistence.ts:152-189 | A receipt is accepted, a duplicate, or turned away by the backpressure of its archive and account; only the first adds a pending row |
| LiveInbox.InboxTable.ClaimBatch | src/infrastructure/db/prisma-persistence.ts:191-218 | The claimed rows of the polled scope become processing with a fresh claim, an expiry and one more attempt; no other row changes |
| LiveInbox.InboxTable.ClaimDirectly | src/infrastructure/db/prisma-persistence.ts:298-321 | Normalizing without a claim takes a pending receipt itself |
| LiveInbox.InboxTable.CommitReceipt | src/infrastructure/db/text-import.ts:978-990 | The import of a live receipt commits exactly when its claim still holds, and the receipt is then normalized |
| LiveInbox.InboxTable.FailClaim | src/infrastructure/db/prisma-persistence.ts:234-247 | A failed claim goes back to pending, or to failed when it is not retryable or has used its attempts |
| LiveInbox.NextKeepsInv | src/infrastructure/db/prisma-persistence.ts:152-247 | Pending implies attempts left, processing implies a claim and an expiry, and each receipt was imported exactly as often as it is normalized |
| LiveInbox.ImportsExactlyOnce | src/worker/composition.ts:110-147 | Under any claims, expiries, re-claims and redeliveries a receipt's import commits at most once, and exactly when it becomes normalized |
| LiveInbox.FinishedIsForever | src/infrastructure/db/prisma-persistence.ts:191-247 | Normalized and failed receipts never change again |
| LiveInbox.StaleClaimNeverCommits | src/infrastructure/db/text-import.ts:978-990 | A claim that has been replaced or settled never commits |
| LiveInbox.NeverStranded | src/infrastructure/db/prisma-persistence.ts:191-218 | A poll that comes late enough takes an unfinished receipt, or is full and takes only receipts that come before it |
| LiveInbox.AlwaysDrainable | src/worker/composition.ts:110-147 | From every reachable state some sequence of polls normalizes every open receipt |
| LiveInbox.PassesTheLimitExactly | src/infrastructure/db/prisma-persistence.ts:191-218 | One command takes a receipt's attempts past the limit if and only if it takes over an expired claim whose attempts are used up |
| LiveInbox.AttemptsStayWithinExactly | src/infrastructure/db/prisma-persistence.ts:191-218 | Over any run the attempts stay within the limit if and only if no poll ever takes over such a claim |
| LiveInbox.AttemptsAreUnbounded | src/infrastructure/db/prisma-persistence.ts:191-218 | Runs of the other kind: taken over again and again, attempts pass every bound |
| ReceiptLife.RetriedExactly | src/infrastructure/db/prisma-persistence.ts:234-247 | After a failed claim the receipt is due at every time if and only if the failure is retryable and it was taken fewer than three times; otherwise no continuation ever takes it again |
| ReceiptLife.ClaimLastsExactly | src/infrastructure/db/prisma-persistence.ts:191-218 | A receipt that has been taken belongs to its claim and is due again exactly from the claim's expiry on |
| ReceiptLife.AttemptsCountTakings | src/infrastructure/db/prisma-persistence.ts:191-218 | Over any run a receipt's attempts are the number of times that it was taken |
| ReceiptLife.PollTakesTheFirst | src/infrastructure/db/prisma-persistence.ts:191-218 | A poll takes open receipts of its archive only, at most a hundred, and leaves an open one only when it has taken its fill of receipts that were received before it |
| ReceiptLife.AcceptedExactly | src/infrastructure/db/prisma-persistence.ts:152-189 | A receipt is accepted if and only if it is new and fewer receipts of its account wait than allowed; then one more waits, and otherwise nothing changes |
| ArchiveRows.MergeKeepsTheLaw | src/infrastructure/db/text-import.ts:148-196 | Over any sequence of upserts content is unavailable exactly when the message is deleted and has no body, and the tombstone is the lexicographic maximum of all seen |
| ArchiveRows.ArrivalOrderDoesNotMatter | src/infrastructure/db/text-import.ts:148-196 | Two orders of the same arrivals agree on deletion, tombstone, presence of a body and availability |
| ArchiveRows.HistoryIsKept | src/infrastructure/db/text-import.ts:148-160 | A body once there is never lost, and the first snapshot and the source never change |
| ArchiveRows.LastReplyWins | src/infrastructure/db/text-import.ts:195-195 | The reply shown is that of the last arrival that named one |
| ArchiveRows.LastBodyWins | src/infrastructure/db/text-import.ts:150-150 | The body shown is the last one that arrived |
| TextImport.Importer.PrepareKeys | src/infrastructure/db/text-import.ts:420-450 | The prepared stable keys: a key held by another source conversation, in the table or earlier in the batch, is split |
| TextImport.Importer.BulkUpsertMessages | src/infrastructure/db/text-import.ts:94-197 | New rows are inserted, in the conversation of their source; existing ones are merged by an eligible import, which never moves them, and left alone by an excluded one; a key twice in one eligible statement is refused, and a statement that leaves a reply in another conversation than its target |
| TextImport.Importer.BulkInsertObservations | src/infrastructure/db/text-import.ts:220-271 | Observations are appended once per unique key |
| TextImport.Importer.WakeReplies | src/infrastructure/db/text-import.ts:581-592 | Replies that waited for a message of the batch are pointed at it and stop waiting, until one of them belongs to another conversation and the database refuses it |
| TextImport.Importer.LinkReplies | src/infrastructure/db/text-import.ts:593-608 | Replies of the batch are linked when their target has been seen, unless it belongs to another conversation and the database refuses, and made to wait otherwise |
| TextImport.Importer.PersistMessageBatch | src/infrastructure/db/text-import.ts:409-609 | One batch, from prepared keys to linked replies; it fails exactly when one of its statements is refused |
| TextImport.Importer.ImportConversation | src/infrastructure/db/text-import.ts:696-735 | A conversation record: a source that is known keeps the conversation it belongs to; a new one gets that of the record's key, unless another source is in it; what the import notes of each conversation is what the table says of its source |
| TextImport.Importer.FlushMessageBatch | src/infrastructure/db/text-import.ts:610-615 | The buffer is emptied and persisted |
| TextImport.Importer.ImportRevision | src/infrastructure/db/text-import.ts:737-838 | A revision of a seen message: its row with body, note and sighting times, and its observation, under the source its conversation has by then |
| TextImport.Importer.Import | src/infrastructure/db/text-import.ts:273-335 | The whole record source, an array sorted and a stream as it comes: messages are buffered, everything else flushes first, and a refused statement undoes all |
| ImportOrder.SortIsStable | src/infrastructure/db/text-import.ts:293-317 | The order of an array: a permutation that puts people, identities, conversations, participants, messages, revisions and attachments in this order and keeps the order within a kind |
| RepeatedKeys.RunsAreCutEvenly | src/infrastructure/db/text-import.ts:610-623 | A run of messages is cut, in order, into batches of 250 and one with the rest |
| Arrivals.ImportMerges | src/infrastructure/db/text-import.ts:94-271 | An accepted import is, wherever its batches end, the merge of its arriving messages into the table, one after another, and their record in the ledger |
| ImportedRows.MetExactly | src/infrastructure/db/text-import.ts:409-419 | The messages that arrive are exactly those whose conversation the import has introduced before them, each under the source of the last introduction |
| ImportedRows.ImportExplainsRows | src/infrastructure/db/text-import.ts:94-197 | Every row of an accepted import is explained by its records: the first message of its key fixes source, source type, source key, sending time and first sighting, the last one type and last sighting, each field is that of the last message that has it, and the tombstone is one that was brought or was there |
| ImportedRows.ImportPlacesRows | src/infrastructure/db/text-import.ts:94-122 | A row that was there stays in its conversation; a new one is in that to which its source belongs when the import ends |
| ImportedRows.ImportExplainsObservations | src/infrastructure/db/text-import.ts:220-271 | Every message that arrives is observed, and every observation, old ones apart, is that of the first message that arrived with its key: kind, keys, time, value and eligibility |
| ImportedRows.RecomputationRepeatsInsertExactly | src/infrastructure/db/import-exclusion.ts:391-493 | For a well-formed record, recomputing any row from the one observation that an eligible import appends gives the content that the import inserts, if and only if its body is not the empty string or, for a deletion, it has no body and is dated by the import |
| RevisionRows.ImportExplainsRevisions | src/infrastructure/db/text-import.ts:737-838 | Every revision and every observation of one that an accepted import leaves is what was there or what the first revision record that touched it made, and an eligible import shows each it touched again |
| SourceFilings.FilesExactly | src/infrastructure/db/text-import.ts:1201-1237 | A source keeps the conversation that it has; a new one gets, from its first record, that of the record's key, unless another source is in it by then |
| SourceFilings.SourcesStayApart | src/infrastructure/db/text-import.ts:1201-1237 | Over any run two source conversations come to share a conversation only when one of them is regrouped |
| ReplyResolution.KeysAreResolved | src/infrastructure/db/text-import.ts:433-450 | With distinct message keys the prepared key depends on the table alone, not on the rest of the batch |
| RepeatedKeys.KeysAreDistinctExactly | src/infrastructure/db/text-import.ts:433-450 | The row keys of a batch are distinct if and only if no two of its records have one source conversation and one stable key, whatever the table holds |
| ReplyConstraint.AcceptsExactly | prisma/migrations/20260910000300_messages_revisions_reactions/migration.sql:65-65 | Statement by statement: the database accepts a batch if and only if an eligible import proposes no row twice, and every reply that the upsert writes, that waking points and that linking points stays in the conversation of its row |
| ReplyConstraint.BatchStaysConsistent | prisma/migrations/20260910000300_messages_revisions_reactions/migration.sql:65-65 | After an accepted batch every reply again names a row of its own conversation, and every id that the import remembers names a row |
| Refusals.NextIsRefusedExactly | src/infrastructure/db/text-import.ts:409-609 | A batch is refused if and only if the import is eligible and meets a message twice in it, or some reply that it writes crosses into another conversation, told by the records up to it and the table before the import |
| ImportRefusals.ImportIsRefusedExactly | src/infrastructure/db/text-import.ts:409-623 | An import is refused if and only if one of the batches into which its records fall is, by that condition |
| ImportRefusals.BatchesAreRefusedExactly | src/infrastructure/db/text-import.ts:409-609 | So are messages in any given batches |
| ImportRefusals.CrossingsAreRefusedExactly | src/infrastructure/db/text-import.ts:581-609 | With distinct message keys some batch is refused if and only if a message and the one it replies to are both imported into different conversations: a reply that crosses is always met, inserted, woken or linked |
| ImportRefusals.RepliesAreResolved | src/infrastructure/db/text-import.ts:409-622 | With distinct message keys an import commits if and only if no reply leaves for another conversation, told by the records and the table before; then every reply whose target was imported shows it, and exactly the others still wait |
| ImportRefusals.BatchBoundariesDoNotMatter | src/infrastructure/db/text-import.ts:610-623 | With distinct message keys cutting the same records into other batches changes neither whether they are accepted nor any id, reply or waiting list |
| ImportRefusals.ReplyAcrossConversations | src/infrastructure/db/text-import.ts:593-608 | A reply to a message of another conversation, as the extraction of a quoted row can make it: refused, although no key is repeated, and for an excluded import too |
| BatchWindows.EveryCutIsAcceptedExactly | src/infrastructure/db/text-import.ts:610-623 | Messages are accepted however they are cut into batches of at most the batch size if and only if no batch that can be cut out is refused, by itself or for a reply that it wakes from another batch that can be cut out before it; all other cuts leave no trace |
| BatchWindows.SingleRecordsAreRefusedExactly | src/infrastructure/db/text-import.ts:610-623 | One record to a batch: refused if and only if some reply crosses over |
| RunReplies.RepliesNeverLeave | prisma/migrations/20260910000300_messages_revisions_reactions/migration.sql:65-65 | In every archive reachable by imports, decisions and regroupings a reply and the message that it names belong to one conversation |
| RunReplies.CommandIsRefusedExactly | src/infrastructure/db/text-import.ts:273-335 | After any such run an import commits if and only if none of its batches is refused |
| RunReplies.RegroupingRefusesReplies | src/infrastructure/db/text-import.ts:1202-1237 | A stored message and a new reply to it: the import commits, and the same import is refused once their source conversation has been moved to another group, for the stored row stays behind |
| Participants.ParticipantTable.ImportParticipant | src/infrastructure/db/text-import.ts:771-798 | A participant keeps the row of the person in the conversation, or gets one unless the source lists the person elsewhere; each source lists a person once |
| Participants.UngroupedRunsAreAccepted | prisma/migrations/20260914000200_source_unified_conversations/migration.sql:54-55 | Over any introductions and listings, without regroupings, no participant is refused |
| Participants.RegroupedIsRefusedExactly | src/infrastructure/db/text-import.ts:771-798 | A source that lists a person is refused the same person after a regrouping if and only if it now belongs to another conversation, which does not have the person; moved back it is accepted |
| ReplyResolution.BatchKeepsSettled | src/infrastructure/db/text-import.ts:581-609 | An accepted batch extends the resolved replies and the waiting lists from the records before it to its own |
| ReplyResolution.ImportSource | src/infrastructure/db/text-import.ts:409-419 | The source under which a key is persisted is that of its conversation's last record before it |
| CachedView.NoSharedRows | src/infrastructure/db/text-import.ts:420-450 | Two observations share a message row exactly when they have the same source conversation and the same key |
| CachedView.OccupancyIsTheTable | src/infrastructure/db/text-import.ts:433-450 | The occupancy tracked while keys are prepared is that of the table the batch will produce |
| CachedView.ImportKeepsLedger | src/infrastructure/db/text-import.ts:409-626 | An import keeps every message materialized exactly when an eligible observation backs it, and every observation as eligible as its job |
| CachedRevisions.ImportTouches | src/infrastructure/db/text-import.ts:737-838 | All that an import does to revisions and their observations is told by the pairs of revision and observation key that its revision records touch, and these by the records and the row keys taken before it |
| CachedRevisions.ImportStaysShownExactly | src/infrastructure/db/text-import.ts:737-838 | An import leaves every revision materialized exactly when backed if and only if it is excluded, or each revision it touches was backed before or is the first to use one of its observation keys |
| CachedRevisions.ImportKeepsRevisions | src/infrastructure/db/text-import.ts:737-838 | So does every import in which each revision comes while its message's conversation still has the source under which the message is filed |
| ImportOrder.ArraysAreHome | src/infrastructure/db/text-import.ts:293-335 | Arrays always do: sorted, their conversations come before their messages |
| ImportOrder.SpoolsAreHome | src/adapters/whatsapp/sqlite-adapter.ts:228-292 | So do spools, which hold the metadata before the messages |
| ReintroducedConversation.ReintroducedConversationShowsUnbacked | src/infrastructure/db/text-import.ts:737-838 | Streams for which it fails, in a single import: a conversation introduced again under another source before a revision of its message, and then the message and its revision once more |
| Materialization.SelectsFirstBest | src/application/import-exclusion.ts:102-118 | The reduction returns the first entry that nothing outranks |
| Materialization.OrderIsImmaterialExactly | src/application/import-exclusion.ts:102-118 | The listing order is immaterial if and only if the best entry is unique |
| Materialization.SightingsAreExtremes | src/infrastructure/db/import-exclusion.ts:608-626 | First and last sighting are the extremes by time and key |
| Materialization.TombstoneIsLatest | src/infrastructure/db/import-exclusion.ts:428-430 | The deletion shown is a tombstone that none is later than |
| Materialization.RecomputationTells | src/infrastructure/db/import-exclusion.ts:413-491 | A recomputed row tells the truth about its eligible observations: sightings bound them all, the tombstone is the latest with its own time, key and metadata, the body is that of a leading value with a body, and every plain field that of a leading value, else of the tombstone's record |
| Materialization.HistoryIsOverwrittenExactly | src/infrastructure/db/import-exclusion.ts:433-491 | A recomputation forgets what the row showed before if and only if there is an eligible observation and the shown value is well formed |
| Materialization.PathIndependent | src/infrastructure/db/import-exclusion.ts:391-493 | The row after a recomputation depends only on the set of eligible observations |
| Materialization.UnavailableMeansDeletedAndEmpty | src/infrastructure/db/import-exclusion.ts:464-471 | Unavailable implies deleted and empty; the converse holds if and only if, wherever a tombstone and a value are both eligible, the winning value has text |
| Materialization.DeletedEmptyValueIsAvailable | src/infrastructure/db/import-exclusion.ts:464-471 | A tombstone and a value without text: deleted, empty, and still counted as available |
| Eligibility.ExclusionStore.FindAffected | src/infrastructure/db/import-exclusion.ts:222-255 | Each message and each revision that the job observed, once |
| Eligibility.ExclusionStore.RematerializeMessages | src/infrastructure/db/import-exclusion.ts:391-493 | Each affected message is recomputed from its observations |
| Eligibility.ExclusionStore.RematerializeRevisions | src/infrastructure/db/import-exclusion.ts:495-541 | Each affected revision is recomputed from its observations, with its metadata and sighting times |
| Eligibility.RevisionTells | src/infrastructure/db/import-exclusion.ts:513-540 | A recomputed revision shows body, metadata and time of one best eligible observation and the first sighting of all; without any it is only hidden |
| Eligibility.ExclusionStore.ApplyDecision | src/infrastructure/db/import-exclusion.ts:99-197 | A decision flips the job and its observations, recomputes what they explain and completes its run; a completed run is not repeated |
| Eligibility.DecisionKeepsMessages | src/infrastructure/db/import-exclusion.ts:137-197 | A decision keeps messages materialized exactly when backed, and eligibility equal to the job's |
| ArchiveRuns.EveryReachableArchive | src/infrastructure/db/import-exclusion.ts:312-493 | In every archive reachable by imports, excludes and re-enables a message is materialized exactly when an eligible observation backs it, and rows are not shared between source conversations |
| ArchiveRuns.EveryReachableRevision | src/infrastructure/db/import-exclusion.ts:495-541 | So is every revision, over runs whose imports are arrays, or streams that bring each revision while its message is at home |
| ArchiveRuns.AlwaysShownExactly | src/infrastructure/db/import-exclusion.ts:495-541 | Without any assumption on streams: the runs in which every revision is always materialized exactly when backed are those whose imports each account for the revisions they touch |
| ShownBodies.ImportStaysHonestExactly | src/infrastructure/db/text-import.ts:94-197 | An import leaves every visible body backed by an eligible observation of that body if and only if it is excluded, or each body it leaves on a message it meets is on record for it |
| ShownBodies.NewJobStaysHonestExactly | src/infrastructure/db/text-import.ts:94-197 | For a job that observes nothing twice: if and only if it brings back no hidden message that has a body without one |
| ShownBodies.DecisionStaysHonest | src/infrastructure/db/import-exclusion.ts:391-493 | A decision leaves every visible body backed |
| ShownBodies.AlwaysHonestExactly | src/infrastructure/db/import-exclusion.ts:312-493 | The runs in which every visible body is always backed are those whose imports each account for the bodies they leave |
| ShownBodies.ExcludedBodyIsExposed | src/infrastructure/db/text-import.ts:94-197 | It can fail: an excluded import brings a body, an eligible one brings the message without it, and the excluded body is shown |
| ShownDeletions.ImportStaysTruthfulExactly | src/infrastructure/db/text-import.ts:148-196 | An import leaves every visible deletion that of an eligible tombstone if and only if it is excluded, or the latest tombstone of each message it meets, brought or shown before, is on record for it |
| ShownDeletions.DecisionStaysTruthful | src/infrastructure/db/import-exclusion.ts:391-493 | A decision leaves every visible deletion that of an eligible tombstone |
| ShownDeletions.AlwaysTruthfulExactly | src/infrastructure/db/import-exclusion.ts:312-493 | The runs in which every visible deletion always is are those whose imports each account for theirs |
| ShownDeletions.ExcludedDeletionIsExposed | src/infrastructure/db/text-import.ts:148-196 | It can fail: an excluded import brings a message deleted, an eligible one brings it alive, and it is shown deleted by the excluded tombstone |
| Eligibility.ExcludeThenReEnable | src/infrastructure/db/import-exclusion.ts:99-197 | Excluding and re-enabling restores the ledger and shows every affected message as one recomputation would; other messages are untouched |
| ArchiveRuns.CompletedRunIsFinal | src/infrastructure/db/import-exclusion.ts:101-110 | A completed idempotency key acts once: over any later commands, leaving its repetitions out makes no difference |
| ArchiveRuns.StatusIsOfLastAttempt | src/infrastructure/db/import-exclusion.ts:99-197 | Over any commands a run has the status that the ending of its last attempt left: of the last `apply` of its key, once the job existed, that did not find it completed |
| ArchiveRuns.TransitionsArePermittedExactly | src/application/import-exclusion.ts:76-90 | The commands write only status transitions of the table if and only if none tries again a run whose last attempt died |
| Replay.ImportAdds | src/infrastructure/db/text-import.ts:220-271 | An import adds exactly the message observations that its records determine, and changes none |
| Replay.ImportAddsRevisions | src/infrastructure/db/text-import.ts:803-838 | It adds exactly the revision observations that its records determine, and changes none |
| Replay.LedgerOnlyGrows | src/infrastructure/db/import-exclusion.ts:312-335 | Over any imports and decisions an observation stays for ever; only its eligibility changes |
| Replay.ReplayAddsNothing | src/infrastructure/db/text-import.ts:246-271 | Importing the same records again for the same job and account, after whatever else, leaves both ledgers as they are |
| MessageIdentity.MessageIdentityRegistry.Register | src/adapters/whatsapp/message-identity.ts:106-117 | A key is accepted when it is new or comes with the canonical input on record |
| MessageIdentity.RemembersTheFirst | src/adapters/whatsapp/message-identity.ts:103-117 | The registry keeps the canonical input of the first registration of each key |
| MessageIdentity.AcceptedKeysAreHonest | src/adapters/whatsapp/message-identity.ts:103-132 | Two accepted registrations with one stable key have the same canonical input |
| MessageIdentity.CollidesExactly | src/adapters/whatsapp/message-identity.ts:103-117 | A registration collides if and only if an earlier accepted one has its key and another canonical input |
| WhatsAppMessages.ApplyReactions | src/adapters/whatsapp/messages.ts:134-145 | The reaction pass replaces the found record by a copy that names its target |
| WhatsAppMessages.ResolveReplies | src/adapters/whatsapp/messages.ts:147-155 | The reply pass looks its record up by identity, and misses one that the reaction pass replaced |
| WhatsAppMessages.NormalizeInMemory | src/adapters/whatsapp/messages.ts:56-175 | The in-memory normalizer computes the specified records |
| WhatsAppMessages.PrepareMessage | src/adapters/whatsapp/messages.ts:304-336 | A row is registered in source order; its key and whether it collides |
| WhatsAppMessages.PrepareRows | src/adapters/whatsapp/messages.ts:219-235 | The first pass writes the lines of all rows, or gives up exactly when they outgrow the limit of the spool |
| WhatsAppMessages.ReadRows | src/adapters/whatsapp/messages.ts:280-295 | The spool is read line by line, and fails at a line that does not decode |
| WhatsAppMessages.YieldMessages | src/adapters/whatsapp/messages.ts:237-249 | The rows read back in batches of 1 to the batch size |
| WhatsAppMessages.NormalizeStreaming | src/adapters/whatsapp/messages.ts:185-278 | The streaming normalizer comes to its end exactly when the specified records exist, and yields them in bounded batches, messages before revisions |
| WhatsAppMessages.StreamingEndsExactly | src/adapters/whatsapp/messages.ts:219-295 | It comes to its end if and only if the lines of its rows fit into the spool and none contains a line ending, U+2028 and U+2029 included |
| WhatsAppMessages.MemoryRows | src/adapters/whatsapp/messages.ts:86-155 | What the two passes leave of each row, as a function of that row and the keys of all |
| WhatsAppMessages.RowsAgreeExactly | src/adapters/whatsapp/messages.ts:338-378 | One row comes out alike if and only if its reaction target, kind and quote are agreeable |
| WhatsAppMessages.StreamingRefinesExactly | src/adapters/whatsapp/messages.ts:56-295 | With distinct row ids the streaming normalizer ends with the same multiset of records as the one in memory if and only if its rows fit into the spool, no line of theirs contains a line ending, and every row is agreeable |
| NormalizedRecords.RecordsTell | src/adapters/whatsapp/messages.ts:389-460 | What either normalizer emits for the i-th row, told by the tables: the sender is the row's own, else the raw string of the last jid row with its sender's id, else none; likewise the conversation through the last chat row; the kind is that of the native code, an unknown code is kept; the key is that of the row's identity, and its reply and target are keys of the rows it names |
| NormalizedRecords.EditsTell | src/adapters/whatsapp/messages.ts:156-172 | Behind the messages both normalizers emit exactly one revision for each edit with a positive version of a row that is there, in order, with its message's key, its content and its snapshot |
| NormalizedKeys.RefusedExactly | src/adapters/whatsapp/messages.ts:304-336 | A row is refused its key if and only if an earlier row holds it with another identity |
| NormalizedKeys.KeysPersistExactly | src/adapters/whatsapp/message-identity.ts:34-70 | Two extractions give rows with source ids one key if and only if account, chat and source id are the same: the key survives everything else that an extraction may read differently |
| NormalizedKeys.KeysCoincideExactly | src/adapters/whatsapp/messages.ts:304-336 | Two rows get one key if and only if all their identifying fields agree, or both were refused theirs and agree on conversation and time |
| NormalizedKeys.StreamedKeysAreDistinctExactly | src/adapters/whatsapp/messages.ts:185-278 | The messages handed to the import have distinct keys if and only if no two rows share a row id or such a key |
| LineFraming.FrameOneLine | src/adapters/whatsapp/sqlite-adapter.ts:617-633 | Cutting at a newline and going on with the rest frames the same lines |
| LineFraming.LinesGrow | src/adapters/whatsapp/sqlite-adapter.ts:616-633 | What has been framed is a prefix of the lines of the whole output, and an unfinished line the start of one |
| LineFraming.RowReader.TakeLine | src/adapters/whatsapp/sqlite-adapter.ts:592-604 | One line is counted, measured and parsed, or refused for a reason that holds |
| LineFraming.RowReader.TakeLines | src/adapters/whatsapp/sqlite-adapter.ts:617-633 | The loop takes every complete line out of the buffer and leaves the rest |
| LineFraming.RowReader.TakeChunk | src/adapters/whatsapp/sqlite-adapter.ts:607-636 | A chunk extends what has been read, or fails for a limit that the whole output exceeds |
| LineFraming.RowReader.StreamRows | src/adapters/whatsapp/sqlite-adapter.ts:605-651 | A run ends without error if and only if the output, however chunked, is within its limits and well formed; it yields the parse of the non-empty lines, or a prefix of it |
| RecordSpool.Spool.Append | src/adapters/whatsapp/sqlite-adapter.ts:258-271 | A record is added to file and buffer together, unless that would exceed the limit |
| RecordSpool.Spool.Materialize | src/adapters/whatsapp/sqlite-adapter.ts:248-292 | Metadata and then messages are written in order, never more bytes than the limit, and an empty spool is removed |
| RecordSpool.RoundTripExactly | src/adapters/whatsapp/sqlite-adapter.ts:248-314 | Reader and spool undo each other if and only if no encoded record contains a line ending, U+2028 and U+2029 included |
| RecordSpool.ReadsBackExactly | src/adapters/whatsapp/sqlite-adapter.ts:294-314 | Otherwise the reader fails: the first piece of a record that is cut is no object |
| RecordSpool.ReadBatches | src/adapters/whatsapp/sqlite-adapter.ts:294-314 | The decoded lines in batches of 1 to 1000 |
| ReadCursors.OnlyIssuedCursorsLead | src/application/reads.ts:156-249 | Whatever a reader builds from the cursors handed out, it is led to a position if and only if it returns one of them unaltered, issued at that position for this archive and read, and not expired |
| Keyset.PredicateIsTheOrder | src/infrastructure/db/prisma-persistence.ts:648-738 | Each cursor predicate is exactly the strict order of its ORDER BY, in both directions, null ranks and unknowns included |
| Keyset.SearchIsTheOrder | src/infrastructure/db/prisma-persistence.ts:648-738 | The search predicate is the order by falling score, null rank, time and id |
| Keyset.NullableIsTheOrder | src/infrastructure/db/prisma-persistence.ts:1902-1932 | The people predicate is the order by null rank, name and id |
| Keyset.OrderIsStrictAndTotal | src/infrastructure/db/prisma-persistence.ts:805-808 | Each ORDER BY is a strict order without ties between different ids |
| Keyset.OrderTells | src/infrastructure/db/prisma-persistence.ts:954-981 | Each ORDER BY in terms of its rows: messages by when they were sent, or else received, people and search hits without a value last, scores falling, media before messages of one moment, ids breaking ties |
| Keyset.QueryAfter | src/infrastructure/db/prisma-persistence.ts:891-898 | Asking for the rows after a cursor cuts the sorted listing right behind it |
| Keyset.PageAt | src/application/reads.ts:976-1003 | One page: the next rows, whether there are more, and the cursor of the last one exactly then |
| Keyset.WalkShowsEveryRowOnce | src/application/reads.ts:616-1003 | Following cursors from the first page ends, and shows exactly the sorted rows, each once; backward, their reverse |
| Grouping.GroupingStore.MoveSources | src/infrastructure/db/conversation-grouping.ts:145-153 | Every source of a merge ends in the target |
| Grouping.GroupingStore.RestoreSources | src/infrastructure/db/conversation-grouping.ts:136-144 | The loop of an unmerge succeeds exactly when every source is still in the target, and restores the recorded groups |
| Grouping.GroupingStore.Run | src/infrastructure/db/conversation-grouping.ts:86-184 | One command: accepted, replayed or rejected; a rejected one leaves nothing behind even when a later source fails |
| Grouping.UndoRestores | src/infrastructure/db/conversation-grouping.ts:123-144 | Restoring what a merge recorded undoes it |
| Grouping.BracketsCancel | src/infrastructure/db/conversation-grouping.ts:101-183 | Any well-bracketed sequence of merges and unmerges is the identity on the source-to-group map |
| Grouping.BracketClosesExactly | src/infrastructure/db/conversation-grouping.ts:112-144 | A bracket's unmerge is refused if and only if its key is used, the target is locked or its version is stale |
| Grouping.VersionsCountAudits | src/infrastructure/db/conversation-grouping.ts:155-181 | In every reachable state a target's version is the number of its audits, which number it in order |
| Grouping.ReplaysAnswerAlike | src/infrastructure/db/conversation-grouping.ts:210-238 | A repeated key changes nothing and answers as the first time, or is rejected for another command |
| Grouping.TakesExactly | src/infrastructure/db/conversation-grouping.ts:86-150 | In every reachable state a new command takes effect if and only if it names at least one source, each once, all known and cleared, a target that is not locked and the number of changes that the target has seen, and, to undo, a merge of just these sources that are all still there |
| Grouping.CommandTells | src/infrastructure/db/conversation-grouping.ts:123-181 | What a command leaves: a merge brings its sources into the target, an unmerge takes each back to where the merge found it, every other source stays, and the audit says where the sources were |
| Grouping.OneCommandPerVersion | src/infrastructure/db/conversation-grouping.ts:114-114 | Of the commands that expect one version of a target at most one ever takes effect |
| AsyncLock.PromiseLock.Queue | src/delivery/mcp/index.ts:235-240 | A caller takes the tail it finds and leaves its own promise as the tail |
| AsyncLock.PromiseLock.Release | src/application/account-pairing.ts:222-225 | Leaving resolves the caller's promise and drops the entry that is still its own |
| AsyncLock.EveryRunIsAChain | src/application/account-pairing.ts:211-226 | Every interleaving of arrivals, entries and departures leaves one chain of waiting callers |
| AsyncLock.MutualExclusion | src/delivery/mcp/index.ts:232-247 | At most one caller holds the lock |
| AsyncLock.FirstComeFirstServed | src/delivery/mcp/index.ts:232-247 | Callers enter in the order in which they came |
| AsyncLock.SomeoneCanMove | src/delivery/mcp/index.ts:232-247 | While anyone waits, someone holds the lock or may take it |
| AsyncLock.EntryExistsExactlyWhileUsed | src/application/account-pairing.ts:211-226 | The account's lock entry exists if and only if someone holds or waits |
| McpSessions.SessionTable.EvictIdleSessions | src/delivery/mcp/index.ts:213-218 | Exactly the sessions idle too long are closed |
| McpSessions.SessionTable.EnsureSessionCapacity | src/delivery/mcp/index.ts:220-230 | Room for one session is made by closing the idle ones and then the least recently active, no more than needed; the loop ends |
| McpSessions.NeverOverCapacity | src/delivery/mcp/index.ts:187-230 | Under any interleaving of requests, closes and evictions the table never exceeds its cap and admissions exclude each other |
| McpSessions.EvictionEnds | src/delivery/mcp/index.ts:220-230 | Making room takes no more evictions than there are sessions, whatever happens meanwhile |
| AccountPairing.PairingTable.ExpireSession | src/application/account-pairing.ts:191-207 | A session expires and loses its QR only once its cancellation is confirmed |
| AccountPairing.PairingTable.ReplaceSessions | src/application/account-pairing.ts:80-85 | Every session of the account goes, unless a cancellation fails; others stay as they are |
| AccountPairing.StepKeepsInv | src/application/account-pairing.ts:67-226 | Every step of every operation under way keeps at most one listed session per account |
| AccountPairing.PairingIsExclusive | src/application/account-pairing.ts:67-108 | In every reachable state there is at most one pairing session per account of an archive, and a lock entry exactly while one is used |
| AccountPairing.DroppedQrIsGone | src/application/account-pairing.ts:134-167 | A QR that has been dropped is never sent again |
| AccountPairing.QrBelongsToAwaiting | src/application/account-pairing.ts:134-167 | A session that has connected or expired has no QR |
| AccountPairing.QrIsShownExactly | src/application/account-pairing.ts:110-167 | A beginning shows its QR, and each later status read of the session shows the same one if and only if it has not connected, expired or failed to start its sync in between |
| AccountPairing.StateIsToldByTheRun | src/application/account-pairing.ts:110-167 | A session's state over any run is what its last connection or expiry left; a sync that fails to start takes the QR away but not the state |
| Attachments.AttachmentStore.ImportAttachment | src/infrastructure/db/text-import.ts:996-1048 | The row found by hash, else by key, is updated, or a new one is made; no other row changes, and the result has the observed hash or owned bytes |
| Attachments.RefusedExactly | src/infrastructure/db/text-import.ts:1004-1048 | An observation violates a unique index if and only if its hash belongs to a row without a key and its key to another row |
| Attachments.EverySequenceIsAccepted | src/infrastructure/db/text-import.ts:996-1048 | Any sequence of observations of keyed rows is accepted and keeps hashes unique and available bytes owned |
| Attachments.AvailableForEver | src/application/text-import.ts:76-86 | Available freezes hash, CAS key and state for ever; unsafe is left only for available |
| Attachments.ObservationTells | src/infrastructure/db/text-import.ts:996-1048 | What one observation leaves of its row, field by field: available if and only if it was or the observation brings stored bytes, unsafe until then, otherwise as observed, an available file without a key being unresolved; and of all other rows nothing |
| Attachments.AvailableExactly | src/infrastructure/db/text-import.ts:996-1048 | Over any sequence a row is available in the end if and only if it was, or some observation that concerns it brought stored bytes |

## Left out

- JobRunner.AtMostOneCallSucceeds: models the control flow, the lease monitor and statements in flight; work directories, the phase label of failure reports and the decryption itself are steps that may fail.
- LiveInbox.ImportsExactlyOnce: leaves out `completeClaim`, which the worker loop does not use, and the resolution of account keys.
- TextImport.Importer.Import: leaves out the rows of people, identities and participants, of a conversation all but its key, the sender of a message and the snapshot's lifecycle column.
- ImportRefusals.ImportIsRefusedExactly: speaks of the statements for conversations, messages and revisions; what else can refuse an import is in `Participants`, `Attachments.RefusedExactly` and `JobLease.JobRow.FinalizeImport`, apart from the rows of people and identities, which are left out.
- ImportRefusals.RepliesAreResolved: like `ImportRefusals.ImportIsRefusedExactly`, speaks of the statements for conversations, messages and revisions.
- RunReplies.CommandIsRefusedExactly: like `ImportRefusals.ImportIsRefusedExactly`, speaks of the statements for conversations, messages and revisions.
- Participants.ParticipantTable.ImportParticipant: the person of an identity is looked up before; roles are left out.
- ReplyConstraint.AcceptsExactly: of the message table's foreign keys only that of replies can fail on what an import writes; the others name rows that the same transaction has looked up or made.
- CachedRevisions.ImportKeepsRevisions: covers imports that bring each revision while its message is at home; `CachedRevisions.ImportStaysShownExactly` is the exact condition for all.
- ArchiveRuns.AlwaysShownExactly: of regrouping only its effect on the conversation of a source is a command here; `Grouping` models the rest.
- Eligibility.ExclusionStore.ApplyDecision: leaves out the conversation, reaction and attachment-link parts of a recomputation, the input digest, the run stamp and the decision log. The materialized flag of reactions and links is the same one-line test; that of conversations does not follow the ledger once they are grouped.
- ArchiveRuns.EveryReachableRevision: covers streams that bring each revision while its message is at home; `ArchiveRuns.AlwaysShownExactly` is the exact condition for all.
- Eligibility.ExclusionStore.FindAffected: lists messages and revisions; conversations, reactions and attachment links are left out like their recomputation.
- Materialization.PathIndependent: one order stands for the two string orders of the source (code units in the precedence, locale in the sightings).
- MessageIdentity.MessageIdentityRegistry.Register: source ids arrive trimmed.
- WhatsAppMessages.NormalizeInMemory: leaves out the final sort by key, which keeps the multiset; what a record copies from its own row is one value.
- WhatsAppMessages.StreamingRefinesExactly: row ids are distinct, as the primary key of the source table makes them.
- WhatsAppMessages.NormalizeStreaming: rows are encoded as JSON objects, none of whose proper prefixes is one; batches yielded before a failure are not told apart from none, since the spool that takes them is then discarded.
- LineFraming.RowReader.StreamRows: the process signal and grace period at the end of a run are one outcome.
- Keyset.WalkShowsEveryRowOnce: the table does not change during the walk, and encoded cursors fit their maximal length.
- Grouping.GroupingStore.Run: privacy predicates are the set of ids the sender may see; title and avatar of the target are not modelled.
- AccountPairing.PairingTable.ReplaceSessions: is one operation running alone; what other operations do between its cancellations is in the events of `AccountPairing.StepKeepsInv`.
- AccountPairing.PairingIsExclusive: leaves out the cap on all sessions together, which other accounts' locks do not protect, and the sharing of one cancellation promise by several callers.
- Attachments.AttachmentStore.ImportAttachment: leaves out file metadata and the message link.
- Text ranking, trigram similarity and collation of PostgreSQL: scores and strings are ranks.
- Owner deletion, privacy commands and media playback: versioned single-row updates of the same kind as grouping, without its interplay.
- Snapshot creation and lease-owned work directories: file system steps.
- Health classification, statistics, HTTP, OIDC and user interface: one-branch facts or foreign calls.
