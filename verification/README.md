# Verified model of the academy and company services

This project models, in Dafny, the parts of the repository where correctness depends on
more than one function: the event delivery protocol, the file-clone saga and the
immutability of published course versions, the rich-text transformations, idempotent
mutations, the ordering of sections and lessons, quiz grading, the circuit breaker, the
projection of legacy progress, the amoCRM reconciliation, and the contract checker of the
frontend. `dafny verify dfyconfig.toml` checks all of it.

## How the model is organised

| file | component |
|---|---|
| `Prelude.dfy`, `Strings.dfy`, `Runs.dfy` | options, results, outcomes, powers of two; trimming and case; finite runs of a transition system |
| `Outbox.dfy` | outbox relay: several relays, ambiguous publishes, rollbacks, backoff, dead letters |
| `Consumer.dfy` | delivery to an idempotent handler: ack, nak, term, dead-letter subject |
| `EndToEnd.dfy` | outbox, stream and consumer composed |
| `RichText.dfy`, `Normalize.dfy`, `Documents.dfy`, `Readers.dfy` | TipTap trees as a JSON datatype: readers, id rewriting, video normalisation, lessons; what the readers return |
| `Versions.dfy`, `CloneJobs.dfy` | course versions under concurrent edits, publications, clone workers and replication |
| `Idempotency.dfy` | reserve, execute, complete, commit, in three flows |
| `Ordering.dfy` | order columns of sections and lessons, both renumbering algorithms |
| `Quiz.dfy` | quiz evaluation and attempt numbers |
| `Breaker.dfy` | circuit breaker under interleaved calls |
| `LegacyProjection.dfy`, `ProjectedRows.dfy` | the three projecting SQL statements as relational functions; the rows they write, value by value |
| `AmoSync.dfy` | reconciliation of users with an amoCRM snapshot |
| `PathTemplate.dfy` | template paths, their normalisation and matching |

Protocols are state machines whose steps are single statements or lock-protected sections;
any number of relays, consumers, transactions or calls interleave. An uninterrupted call of
the relay, the consumer, the clone worker, an idempotent mutation or the breaker (the
`class` and `method` members), next to whatever others have open, is proved to be a path of
its protocol; that other calls may interleave between its steps is what the state machine
adds. Randomness, clocks and the answers of the database, the
broker and other services are parameters.

## What does not hold as one might expect

For each of these the exact condition under which the property does hold is proved, and a
concrete failing case is given where the condition does not already name it.

- Normalising a document twice is not the same as normalising it once in three cases: a
  video host that is `.` or ends in two dots, a scoped IPv6 address such as
  `[fe80::1%25en0]`, which is written back without its brackets, and a query that ends in a
  space before a fragment (`Normalize.IdempotentExactlyOnStableSources`, with
  `LoneDotHostIsRejectedSecondTime`, `ScopedAddressIsRejectedSecondTime` and
  `SpaceBeforeFragmentIsLost`).
- A published lesson can change: article replication filters by draft status when its
  statement runs but takes no lock on the version, so it can commit after the publication
  (`Versions.LateReplicationHappens`). From a given state on a published version is immutable
  if and only if no open replication holds a change of it
  (`Versions.PublishedIsImmutableExactly`).
- Replays of the internal enrollment flow are not the first answer stored: they name the
  same attempt but read the enrollment as it is by then
  (`Idempotency.ReviewedAttemptIsReplayedReviewed`); they are the same if and only if the
  enrollment is (`Idempotency.ReplaysAgreeExactly`, `Idempotency.FirstAndReplayAgreeExactly`).
- Not every draft has dense order columns: migrated and copied drafts keep their gaps, and a
  new section or lesson numbered with the count of the others can then share an order
  (`Ordering.GapMakesTie`). Creating keeps a column dense if and only if it was
  (`Ordering.AppendKeepsDensityExactly`); moving and deleting repair it.
- During the breaker's cooldown no call is admitted, but a call admitted earlier may still
  start an operation (`Breaker.InFlightCallStartsInCooldown`). None starts if and only if no
  call has an attempt left (`Breaker.CooldownIsQuietExactly`).
- The amoCRM lookup orders by a comparison that is NULL for local users, and NULL sorts
  first in descending order, so a local user with the e-mail hides the amoCRM user with the
  id (`AmoSync.LocalUserHidesTombstone`); and an amoCRM user whose e-mail now belongs to an
  unknown id is tombstoned and restored in turn by every reconciliation
  (`AmoSync.AdoptedFlips`, `AmoSync.ReissuedIdFlips`). The conditions are
  `AmoSync.LiveExactlyInSnapshot` and `AmoSync.SecondSyncChangesNothing`.
- A legacy course that is overdue and was never opened becomes an enrollment that is not
  started yet active rather than ready (`LegacyProjection.ReadyExactly`).

## Assumptions

- Outbox: `event_order` is unique, and a row becomes visible only with a larger
  `event_order` than the visible rows of its aggregate (guard of `Insert`); the select with
  `FOR UPDATE SKIP LOCKED` is one atomic step on committed rows; `now()` is the start of
  the transaction. The event id in a payload is the id of its row.
- Versions: READ COMMITTED; an update is private until commit, and a row lock lasts until
  the end of its transaction.
- Idempotency: the reserving INSERT waits for a transaction that holds the same key.
- Breaker: the clock read under the mutex does not go back.
- A listing query returns each row once, sorted by its ORDER BY; the model receives the
  listing and a predicate that says so.
- Idempotency: rows of quiz attempts are never deleted.
- Rich text: URL syntax is a parse/render pair that obeys `Normalize.Lawful` on the canonical
  forms of URLs it parsed itself: read back if the host has no colon, rejected otherwise, and
  only the query may end in a space. This is how Go 1.26 treats them; `Normalize.SampleNet`
  is an instance. File ids are strings.

## Model

| member | source | states |
|---|---|---|
| Outbox.StepKeeps | services/academy/internal/outbox/relay.go:63-177 | every step of every relay (select, publish with any outcome, dead-letter, write, commit, rollback, insert, tick) keeps the protocol invariant |
| Outbox.PredecessorsSettledFirst | services/academy/internal/outbox/relay.go:69-152 | in every run, when an event is handed to the bus, under its own subject or as a dead letter, every event of its aggregate that has or will ever have a smaller order is durably published or dead-lettered and never changes again |
| Outbox.BusSeesAggregateInOrder | services/academy/internal/outbox/relay.go:69-171 | the sequence handed to the bus for one aggregate is non-decreasing in event_order, for any relays, rollbacks and ambiguous errors |
| Outbox.OneRowPerAggregateInFlight | services/academy/internal/outbox/relay.go:69-84 | no batch, and no two batches of concurrent relays, hold two rows of one aggregate |
| Outbox.RowKept | services/academy/internal/outbox/relay.go:165-210 | rows are never removed, keep their key, and once settled keep their value |
| Outbox.LateRowIsLater | services/academy/internal/outbox/relay.go:69-84 | a row that appears later has a larger order than the rows of its aggregate that were there |
| Outbox.SettledMeansStored | services/academy/internal/outbox/relay.go:110-195 | a committed published_at means the bus accepted the event under its own subject, or under the DLQ subject after at least five tries |
| Outbox.RollbackLosesNothing | services/academy/internal/outbox/relay.go:63-177 | a rollback at any point of a batch leaves every one of its rows pending, due and unlocked |
| Outbox.BackoffBounds | services/academy/internal/outbox/relay.go:197-210 | the delay function is non-decreasing in the attempt count and lies between 1 and 256 seconds; the row of `Outbox.CommitAdvancesBatch` ties it to next_attempt_at |
| Outbox.CommitAdvancesBatch | services/academy/internal/outbox/relay.go:165-210 | in every run a commit raises the attempts of exactly the rows of its batch by one, and a row left pending gets next_attempt_at = the start of the transaction + least(300, 2^least(attempts before, 8)) seconds, 1 to 256 |
| Outbox.SelectedRowsAreDue | services/academy/internal/outbox/relay.go:69-84 | in every run a batch holds at most 50 rows in event order, each pending, due by the clock, held by no other relay, and with every smaller order of its aggregate settled |
| Outbox.ScheduledIsSum | services/academy/internal/outbox/relay.go:197-210 | in every run the delay scheduled for a row is the sum of next_attempt_at minus transaction start over its failed commits |
| Outbox.FifthAttemptSettles | services/academy/internal/outbox/relay.go:113-163 | while the DLQ accepts, no row survives a fifth committed attempt, and a dead-lettered one had four failed commits whose delays add up to 15 seconds |
| Outbox.Relay.PublishOwn | services/academy/internal/outbox/relay.go:110-146 | the first attempt at one row is a protocol step and succeeds exactly when the payload decodes and the bus says so |
| Outbox.Relay.Deliver | services/academy/internal/outbox/relay.go:110-164 | one row gets the mark it earned, the DLQ being tried from the fifth failure on, through protocol steps only |
| Outbox.Relay.DeliverAll | services/academy/internal/outbox/relay.go:110-171 | the loop over the batch writes for each row, column by column, what its deliveries earned, the retry time included, and stops at the first failing update |
| Outbox.Relay.PublishBatch | services/academy/internal/outbox/relay.go:63-177 | one poll, next to any open transactions of other relays, is a path of protocol steps; a commit that took effect gives every row of the batch the columns it earned (publication time, failure, attempts, now + least(300, 2^least(attempts, 8))) and moves no other, anything else moves none |
| Consumer.StepKeeps | pkg/eventbus/nats.go:238-288 | every step of every worker, including crashes, redeliveries and lost commits, keeps the consumer invariant |
| Consumer.AtMostOnce | services/academy/internal/application/consumers.go:243-279 | an event's effect exists at most once, and exactly when its id is in processed_events |
| Consumer.RepliesAreSafe | pkg/eventbus/nats.go:238-288 | an acked message is processed or in the DLQ; term only for an undecodable message that could not be dead-lettered; nak only for a decodable one |
| Consumer.DeliveryIsARun | pkg/eventbus/nats.go:238-288 | an uninterrupted delivery is a path of the protocol |
| Consumer.Service.HandleOnce | services/academy/internal/application/consumers.go:243-279 | id and effect are recorded together, only for a new event, for each way the transaction can end |
| Consumer.DeadLettersAreEarned | pkg/eventbus/nats.go:238-336 | in every run the dead-letter stream holds exactly the messages for which some delivery with a dead-letter subject did not decode, or failed with a readable count of at least max_deliver, and the broker did not refuse |
| Consumer.EarlyFailureIsRedelivered | pkg/eventbus/nats.go:238-318 | in every run a failed delivery whose count is unreadable or below max_deliver, or without a dead-letter subject, ends in a nak (or a crash) and leaves the dead-letter stream alone |
| Consumer.Bus.ConsumeMessage | pkg/eventbus/nats.go:238-288 | each delivery issues exactly one signal, and signal, dead letters, processed ids and effects are written out for every outcome, with the comparison of count and max_deliver; the new state is the one the protocol path leads to |
| EndToEnd.EffectAtMostOnceAndGenuine | services/academy/internal/application/consumers.go:243-279 | composed: effects are at most once, exactly for recorded ids, and only for decodable rows a relay handed to the bus |
| EndToEnd.NothingLost | pkg/eventbus/nats.go:238-288 | composed: a settled row is on the bus, an acked event is applied exactly once or dead-lettered, and no event of the outbox is ever terminated, because relays hand over only payloads that decode |
| RichText.RenameTwice | pkg/richtext/richtext.go:224-246 | two id rewrites in a row are the rewrite by the composition |
| RichText.RenameAgree | pkg/richtext/richtext.go:224-246 | two rewrites do the same to a tree if and only if they agree on the ids stored in it |
| RichText.RenameRawIds | pkg/richtext/richtext.go:224-246 | the stored ids of the result are the images of the stored ids |
| RichText.RewrittenAt | pkg/richtext/richtext.go:224-246 | node by node, said of the trees alone: a rewrite visits every node, replaces attrs.fileId and attrs.file.id by their images and leaves every other key and value as it was |
| RichText.FileIdsRenamed | pkg/richtext/richtext.go:188-206 | FileIDs after a rewrite is the image of FileIDs before, as a simultaneous substitution |
| RichText.FileIdsAreRawIds | pkg/richtext/richtext.go:301-332 | on well-typed trees with trimmed ids FileIDs finds every id a rewrite would touch |
| RichText.MentionsUnchanged | pkg/richtext/richtext.go:273-299 | mentions do not depend on file ids |
| RichText.TextUnchanged | pkg/richtext/richtext.go:248-271 | text does not depend on file ids |
| RichText.CollectFileIds | pkg/richtext/richtext.go:301-332 | the walk adds exactly the tree's file ids to those seen |
| RichText.CollectMentions | pkg/richtext/richtext.go:273-299 | the walk adds exactly the tree's mentions to those seen |
| RichText.CollectText | pkg/richtext/richtext.go:248-271 | the walk appends exactly the tree's text to the builder |
| RichText.ReplaceInAttrs | pkg/richtext/richtext.go:224-238 | fileId and file.id are replaced by their images under the mapping as it was, every other attribute stays |
| RichText.ReplaceInNode | pkg/richtext/richtext.go:224-246 | the recursive walk is the simultaneous substitution, so swaps work |
| Normalize.FailsExactlyOnInvalidNodes | pkg/richtext/richtext.go:70-102 | normalisation fails if and only if some node reachable through content is no object or is a video with attributes that are not acceptable, in the terms of `Normalize.VideoAcceptedExactly` |
| Normalize.VideoAcceptedExactly | pkg/richtext/richtext.go:104-148 | said of attributes and URL alone: a video is accepted if and only if src is a string that parses to https with a host and no user, there is no html attribute, the port is empty or 443, the host in lower case without its last dot is not local and no IP, and the host is a listed one or the path ends in one of three extensions with a fitting mimeType; and what src, provider and mimeType then are |
| Normalize.ExtensionExactly | pkg/richtext/richtext.go:124-133 | the extension of a path is .mp4, .webm or .ogv, in any case, exactly when the path ends in it |
| Normalize.KeepsShape | pkg/richtext/richtext.go:55-102 | the tree keeps its shape, and at every position only src, provider and mimeType of video nodes differ |
| Normalize.VideoTwice | pkg/richtext/richtext.go:104-148 | a second pass over one video reproduces the first if and only if the source was stable: host, colon and query as below |
| Normalize.IdempotentExactlyOnStableSources | pkg/richtext/richtext.go:55-148 | normalising twice equals normalising once if and only if no video host is a lone dot, ends in two dots or has a colon, and no query ends in a space |
| Normalize.LoneDotHostIsRejectedSecondTime | pkg/richtext/richtext.go:104-141 | a source with a lone dot as host normalises, and its normal form is rejected |
| Normalize.ScopedAddressIsRejectedSecondTime | pkg/richtext/richtext.go:104-148 | a scoped IPv6 address passes the IP check and normalises, and its normal form is rejected |
| Normalize.SpaceBeforeFragmentIsLost | pkg/richtext/richtext.go:104-141 | a query with a space before the fragment normalises to a source that normalises differently |
| Normalize.RenameCommutes | pkg/richtext/richtext.go:70-246 | normalising and rewriting ids can be done in either order, with the same failures |
| Normalize.NormalizeTree | pkg/richtext/richtext.go:70-102 | the recursive walk computes the normal form, and fails if and only if some reachable node is invalid |
| Documents.ReplaceKeepsValid | pkg/richtext/richtext.go:208-222 | a rewritten document is a valid document |
| Documents.ReadersAfterReplace | pkg/richtext/richtext.go:188-222 | FileIDs of a rewritten document is the image of FileIDs under the mapping |
| Documents.TextAndMentionsUnchanged | pkg/richtext/richtext.go:151-186 | PlainText and Mentions of a rewritten document are those of the original |
| Documents.RoundTripExactly | pkg/richtext/richtext.go:208-246 | rewriting by an injective mapping and then by its inverse gives the document back if and only if no target was already stored as an unmapped id |
| Documents.ReplaceTwiceExactly | pkg/richtext/richtext.go:208-246 | rewriting twice equals rewriting once if and only if no stored id is moved twice |
| Documents.ReplaceIsIdentityExactly | pkg/richtext/richtext.go:208-246 | a rewrite is the identity if and only if it moves no stored id |
| Documents.ReplaceInDocument | pkg/richtext/richtext.go:208-222 | accepted if and only if the document is an object with keys type and content, type "doc", a content array and valid nodes; the result is rewritten node by node as in `RichText.RewrittenAt` |
| Documents.RewriteIds | services/academy/internal/application/file_clone_jobs.go:124-130 | the in-place loop replaces ids[i] by its image exactly where it has one, and reports whether any had |
| Documents.RewriteOneLesson | services/academy/internal/application/file_clone_jobs.go:122-144 | one lesson is untouched if no id of its list has an image; otherwise it needs a valid document, every id of the list is replaced, and the tree is rewritten node by node |
| Documents.CloneKeepsAgreement | services/academy/internal/application/file_clone_jobs.go:118-144 | applying a mapping never fails on a lesson whose list and tree agree, and keeps them in agreement on the mapped ids |
| Documents.SkipIsSound | services/academy/internal/application/file_clone_jobs.go:122-134 | a lesson that is skipped would not have changed |
| Documents.CloneTwiceIsCloneOnce | services/academy/internal/application/file_clone_jobs.go:118-144 | with targets disjoint from sources, applying twice equals applying once |
| Readers.ReadersExactly | pkg/richtext/richtext.go:164-206 | FileIDs holds exactly the trimmed, non-empty ids that some node inside a doc names in decodable attrs as fileId or file.id; Mentions exactly those of mention nodes |
| Readers.PlainTextExactly | pkg/richtext/richtext.go:150-162 | the words of the plain text are the words of all text fields in document order, with single spaces between them and no other space |
| Readers.RawIdsExactly | pkg/richtext/richtext.go:224-238 | the stored ids are exactly the strings some node holds where a rewrite looks them up |
| Readers.WordsSplit | pkg/richtext/richtext.go:161 | strings.Fields: a space always separates words |
| Readers.JoinExactly | pkg/richtext/richtext.go:161 | joined words split into the same words again, with one space between neighbours |
| Readers.TextWords | pkg/richtext/richtext.go:248-271 | the builder has the words it had and then those of the text fields in document order; breaks add no word |
| Versions.StepKeeps | services/academy/internal/application/versions.go:184-309 | every statement of every transaction keeps the lock, job and status invariant |
| Versions.OnlyLateReplicationChangesPublished | services/academy/internal/application/version_content.go:531-551 | past draft, the commit of a replication that holds the version writes exactly its lessons into the content, and every other step leaves the content alone |
| Versions.PublishedIsImmutableExactly | services/academy/internal/application/versions.go:184-309 | from any reachable state on, no continuation changes a version past draft if and only if no open replication holds a change of it |
| Versions.PublishedIsImmutable | services/academy/internal/application/versions.go:184-309 | a version past draft that no open replication holds keeps its content for ever |
| Versions.NoChangeArises | services/academy/internal/application/file_clone_jobs.go:86-180 | no edit, clone claim, stale requeue, retry, publication or new replication makes a change of a version past draft pending |
| Versions.PublishedHasNoOpenJob | services/academy/internal/application/versions.go:302-309 | past draft, every clone job of the version is completed |
| Versions.CompletedForever | services/academy/internal/application/file_clone_jobs.go:16-84 | a completed job is never claimed, requeued, retried or applied again |
| Versions.LateReplicationHappens | services/academy/internal/application/consumers.go:40-59 | a run in which replication changes a published lesson |
| Versions.RetryDelayBounds | services/academy/internal/application/file_clone_jobs.go:182-194 | retry delays of the clone worker start at 1, double up to the eighth attempt and stay at 256 units |
| CloneJobs.ApplyToLesson | services/academy/internal/application/file_clone_jobs.go:122-144 | a lesson goes through exactly when it needs no rewrite or is a valid lesson of a draft |
| CloneJobs.Store.RewriteLessons | services/academy/internal/application/file_clone_jobs.go:112-144 | the loop succeeds exactly when every lesson applies, then every lesson is rewritten, and each rewrite is a step of the worker transaction |
| CloneJobs.Store.RecordItems | services/academy/internal/application/file_clone_jobs.go:145-160 | the loop succeeds exactly when every item has a target and is open or already recorded with it, and records each target |
| CloneJobs.Store.ApplyClonedFiles | services/academy/internal/application/file_clone_jobs.go:86-180 | all or nothing, exactly when the state is applicable and the commit succeeds: the cover and every listed file id become their images, trees are rewritten, the outline and the lessons stay, items and job status are recorded; success and every failure are paths of the version protocol |
| CloneJobs.RequireCompleted | services/academy/internal/application/versions.go:302-309 | publication is let through exactly when every job is completed |
| CloneJobs.ApplyKeepsAgreement | services/academy/internal/application/file_clone_jobs.go:86-180 | list and tree of every lesson of a version stay in agreement, and a second application is a no-op |
| CloneJobs.NoSourceLeft | services/academy/internal/application/file_clone_jobs.go:86-180 | after an application with canonical ids and targets disjoint from sources neither the cover nor any lesson, list or tree, names a file of the source version |
| Idempotency.StepKeeps | services/academy/internal/application/external_player.go:166-221 | every step of every flow keeps the reservation invariant |
| Idempotency.CommitsAtMostOnce | services/academy/internal/application/external_token_idempotency.go:47-110 | in every run a key's mutation has committed once if its reservation is stored and never otherwise, and every stored reservation is completed |
| Idempotency.StoredForever | services/academy/internal/application/external_token_idempotency.go:87-110 | a stored reservation and its result never change |
| Idempotency.AnswersAgree | services/academy/internal/application/external_player.go:166-221 | for one key the external flows return the same payload, first or replayed, the internal flow names the same attempt, and the "not completed" error is never given |
| Idempotency.SeenIsCurrent | services/academy/internal/application/enrollments.go:641-683 | an answer of the internal flow shows the enrollment at the time of the read; a replay shows the stored attempt as it is then and always finds it |
| Idempotency.ReplaysAgreeExactly | services/academy/internal/application/enrollments.go:517-538 | two lesson answers or two replays of one key are the same if and only if the enrollment is the same at both reads |
| Idempotency.FirstAndReplayAgreeExactly | services/academy/internal/application/enrollments.go:641-683 | a first quiz answer and a replay are the same if and only if the enrollment is the same at both reads and the attempt is as it was created |
| Idempotency.UntouchedStays | services/academy/internal/application/enrollments.go:868-901 | only steps on an enrollment change what its answers show |
| Idempotency.ReviewedAttemptIsReplayedReviewed | services/academy/internal/application/enrollments.go:608-683 | a run in which a reviewed attempt makes the replay differ from the first answer |
| Idempotency.OtherRequestChangesNothing | services/academy/internal/application/external_player.go:365-394 | a call whose stored request has another hash, or outside the token flow another aggregate, ends refused with a conflict or failed and changes neither table, effects nor progress |
| Idempotency.ResultsGoToTheirRequest | services/academy/internal/application/external_player.go:365-394 | in every run a result, first, replayed or read, is given only to a request with the hash stored under its key and outside the token flow its aggregate, and a conflict only to one that differs |
| Idempotency.SameRequestIsNoConflict | services/academy/internal/application/external_token_idempotency.go:70-86 | a call with the stored hash and aggregate is never answered with a conflict |
| Idempotency.CallIsARun | services/academy/internal/application/external_player.go:248-328 | an uninterrupted call of any flow is a path of the protocol |
| Idempotency.Service.IssueToken | services/academy/internal/application/external_token_idempotency.go:47-110 | the token flow executes only its own reservation, refuses every other hash with a conflict that changes nothing, and otherwise replays the stored token, as the protocol does |
| Idempotency.Service.PlayerMutation | services/academy/internal/application/external_player.go:166-221 | the player flow refuses another hash or aggregate with a conflict that changes nothing, replays a completed row with a payload, and otherwise executes, as the protocol does |
| Idempotency.Service.EnrollmentMutation | services/academy/internal/application/enrollments.go:485-538 | the enrollment flow refuses another hash or aggregate, executes only an uncompleted reservation, and in any case answers with the snapshot read after the commit, as the protocol does |
| Idempotency.Service.EnterEnrollment | services/academy/internal/application/enrollments.go:485-538 | the transaction part: a conflict changes nothing, a replay names the stored attempt, and an executed mutation is stored with its effect |
| Idempotency.Service.ReadSnapshot | services/academy/internal/application/enrollments.go:671-683 | the read after the commit: the created attempt, or the stored one looked up in the snapshot |
| Idempotency.NormalizeKeyTwice | services/academy/internal/application/enrollment_idempotency.go:20-26 | normalising a key again, or a trimmed key, finds the same reservation |
| Idempotency.KeyAcceptedExactly | services/academy/internal/application/enrollment_idempotency.go:20-26 | a key is the value without surrounding space and is accepted exactly with 8 to 255 bytes |
| Ordering.MoveIsPermutation | services/academy/internal/application/version_content.go:588-603 | a move is a permutation that puts the item at the target index and keeps the order of all others |
| Ordering.MovedExactly | services/academy/internal/application/version_content.go:588-656 | row by row, said of the columns alone: after a move the row has the target position, the numbers 0, 1, 2, ... are used once each, and all other rows stand as before, ties in the order of their ids |
| Ordering.RemovedExactly | services/academy/internal/application/version_content.go:146-163 | row by row: after a removal the numbers 0, 1, 2, ... are used once each and the remaining rows stand as before |
| Ordering.ShiftIn | services/academy/internal/application/version_content.go:598-601 | the in-place copy opens a gap at the target and places the item in it |
| Ordering.MoveInSlice | services/academy/internal/application/version_content.go:588-603 | filter, append, copy and place together compute the move |
| Ordering.Renumber | services/academy/internal/application/version_content.go:100-111 | writing each index back makes the column exactly 0..n-1 along the listing |
| Ordering.GroupBySection | services/academy/internal/application/version_content.go:625-631 | the map of lists holds each section's lessons in listing order, without the moved one |
| Ordering.WriteAllOrders | services/academy/internal/application/version_content.go:646-654 | whatever order the sections are visited in, each lesson ends with its index in its section's list |
| Ordering.NormalizeLessons | services/academy/internal/application/version_content.go:612-656 | every section ends dense along its listing, with the moved lesson in its slot, whatever gaps or ties there were |
| Ordering.AppendKeepsDensityExactly | services/academy/internal/application/version_content.go:35-45 | a row numbered with the count of the others leaves its column dense if and only if it was dense |
| Ordering.GapMakesTie | services/academy/internal/application/version_content.go:35-45 | orders 0 and 2: the new row gets 2 as well |
| Ordering.CopyKeepsDensityExactly | services/academy/internal/storage/queries/course_versions.sql:284-297 | a column copied under new ids is dense if and only if its source is |
| Ordering.Draft.Copy | services/academy/internal/application/versions.go:78-98 | a draft copied from a version is dense throughout if and only if the version is |
| Ordering.Draft.CreateSection | services/academy/internal/application/version_content.go:35-45 | from any columns: the new section gets the count, lessons stay, and the draft is dense if and only if it was |
| Ordering.Draft.MoveSection | services/academy/internal/application/version_content.go:89-111 | from any columns: refused exactly when unknown or out of range; otherwise the sections end dense along the move of their listing |
| Ordering.Draft.DeleteSection | services/academy/internal/application/version_content.go:146-163 | from any columns: the section leaves with its lessons and the sections end dense in their order |
| Ordering.Draft.CreateLesson | services/academy/internal/application/version_content.go:220-238 | from any columns: the new lesson gets the count of its section, whose lessons are dense if and only if they were; other sections are untouched |
| Ordering.Draft.DeleteLesson | services/academy/internal/application/version_content.go:341-348 | from any columns: every section's lessons end dense, without the lesson and in their order |
| Ordering.Draft.MoveLesson | services/academy/internal/application/version_content.go:361-423 | from any columns: refused exactly when unknown or past the end; otherwise every section's lessons end dense, the lesson at its position and all others in their order |
| Ordering.ShiftSiblings | services/academy/internal/application/lessons.go:464-480 | the running index gives every sibling its place around the slot and writes exactly the rows that change |
| Ordering.MoveLegacyLesson | services/academy/internal/application/lessons.go:444-480 | the target section ends dense with the lesson at the position, or last if that is past the end, and all others as they stood, whatever gaps the column had |
| Ordering.NormalizeOldSection | services/academy/internal/storage/queries/lessons.sql:99-108 | the section left behind ends dense along what is left |
| Ordering.MoveLegacy | services/academy/internal/application/lessons.go:441-488 | the whole legacy move: target section as above, source section closed up with its rows as they stood, other sections untouched |
| Ordering.SparseEqualsFull | services/academy/internal/application/lessons.go:441-488 | for every position the version path accepts, the sparse and the full renumbering leave the same orders in the section entered and the section left |
| Ordering.PastTheEndMeansLast | services/academy/internal/application/lessons.go:450-456 | a larger position puts the lesson last |
| Quiz.SameStringSet | services/academy/internal/application/enrollments.go:1136-1144 | comparison after sorting holds if and only if the multisets are equal |
| Quiz.Evaluate | services/academy/internal/application/enrollments.go:1082-1134 | accepted if and only if ids are given, none twice, no closed question gets an unknown option and no answer an unknown question; the score is the share of closed questions answered right, rounded down |
| Quiz.Collect | services/academy/internal/application/enrollments.go:1087-1096 | accepted exactly when every answer names a question and none twice; then lookups give what was selected |
| Quiz.CheckQuestion | services/academy/internal/application/enrollments.go:1107-1124 | refused exactly on an unknown option; otherwise right exactly when each id is selected as often as correct options carry it |
| Quiz.FaultExactly | services/academy/internal/application/enrollments.go:1082-1134 | which of the faults an attempt is refused with, said of questions and answers alone, in the order in which they are looked for |
| Quiz.ScoreExactly | services/academy/internal/application/enrollments.go:1105-1134 | the score counts the closed questions and those answered right, and review is pending exactly when there is an open question |
| Quiz.RightOptionsCounted | services/academy/internal/application/enrollments.go:1110-1116 | the collected ids are those of the correct options, each as often as it occurs |
| Quiz.AnswerOrderIrrelevant | services/academy/internal/application/enrollments.go:1082-1134 | permuted answers get the same verdict; only which of the two malformedness faults is reported may differ |
| Quiz.SelectionOrderIrrelevant | services/academy/internal/application/enrollments.go:1107-1124 | the order of selected options within an answer does not matter |
| Quiz.ScoreReaches | services/academy/internal/application/enrollments.go:1130-1133 | the score lies in 0..100, is 100 exactly when all closed questions are right, and reaches p exactly when correct*100 >= p*closed |
| Quiz.NumberInPlace | services/academy/internal/application/enrollments.go:894-901 | each attempt's number counts it and the older attempts of its quiz, stored at its own index |
| Quiz.NumberByAppending | services/academy/internal/application/enrollments.go:989-999 | the same numbers, in order from oldest to newest |
| Quiz.NumbersAreOneToK | services/academy/internal/application/enrollments.go:894-901 | the k attempts of one quiz carry the numbers 1..k, each once, increasing from oldest to newest |
| Breaker.CircuitBreaker.Allow | services/academy/internal/clients/resilience.go:37-50 | admits exactly when closed or past the cooldown, and an admission past the cooldown resets the counter |
| Breaker.CircuitBreaker.Failure | services/academy/internal/clients/resilience.go:59-66 | counts, and from the third failure on moves the end of the cooldown to ten seconds from now |
| Breaker.OpenExactlyAtThreshold | services/academy/internal/clients/resilience.go:37-66 | in every interleaving the counter is the number of failures since the last success or probe, and the breaker is open exactly when it is at least three |
| Breaker.OpeningExactly | services/academy/internal/clients/resilience.go:37-66 | in every run a failure opens the breaker exactly when at least two preceded it in a row, and an admission is a probe exactly after at least three |
| Breaker.ErrorsExactly | services/academy/internal/clients/resilience.go:82-114 | in every run only Unavailable, ResourceExhausted and DeadlineExceeded are retried, once, and those and the deadline of the context are what counts as a failure |
| Breaker.TwoAttemptsOneReport | services/academy/internal/clients/resilience.go:68-105 | every call starts its operation at most twice and reports at most one outcome |
| Breaker.NobodyAdmittedInCooldown | services/academy/internal/clients/resilience.go:37-105 | after an opening, and until some call reports success, nobody is admitted before the ten seconds of cooldown are over |
| Breaker.OnlyInFlightCallsStart | services/academy/internal/clients/resilience.go:37-105 | an operation that starts during the cooldown belongs to a call admitted before the opening |
| Breaker.CooldownIsQuietExactly | services/academy/internal/clients/resilience.go:37-105 | from any reachable state with the cooldown running, no operation starts before its end or a reported success if and only if no call has an attempt left |
| Breaker.InFlightCallStartsInCooldown | services/academy/internal/clients/resilience.go:68-105 | a run in which such an operation starts |
| Breaker.CallWithResilience | services/academy/internal/clients/resilience.go:68-105 | written out for every script of outcomes: the answer, when the second operation follows, and the counter and cooldown afterwards; the retry loop takes only protocol steps |
| LegacyProjection.EarliestIs | services/academy/internal/seed/apply.go:510-519 | the lateral subquery picks an assignment that reaches the user and none that does is earlier |
| LegacyProjection.NextLessonIs | services/academy/internal/seed/apply.go:520-529 | the next lesson is the first that is not done, and there is none exactly when all are done |
| LegacyProjection.ExactlyOneEnrollment | services/academy/internal/seed/apply.go:467-588 | exactly one enrollment for every (course, user) with progress on a course with a first version or with a resolved non-external assignment, and none for anyone else |
| LegacyProjection.TheEnrollment | services/academy/internal/seed/apply.go:474-536 | the enrollment of a progress row is its projection on the first version and no other |
| LegacyProjection.FinishedExactly | services/academy/internal/seed/apply.go:482-504 | completed exactly when lessons exist and none is left, with a completion time exactly then |
| LegacyProjection.CurrentIsFirstOpen | services/academy/internal/seed/apply.go:520-529 | the current lesson is not done and every lesson before it is |
| LegacyProjection.SourceIsEarliest | services/academy/internal/seed/apply.go:479-519 | the source is the earliest assignment that reaches the user, and legacy exactly when there is none |
| LegacyProjection.ReadyExactly | services/academy/internal/seed/apply.go:482-494 | not started and ready coincide if and only if the course is not an untouched overdue one |
| LegacyProjection.OneRowPerLesson | services/academy/internal/seed/apply.go:590-626 | each enrollment gets exactly one row for each lesson the joins and the filter select, and none for any other |
| LegacyProjection.CompletedRowsExactly | services/academy/internal/seed/apply.go:590-626 | the completed lesson rows are exactly the legacy completed lessons of the version |
| LegacyProjection.LessonsBeforeCurrentCompleted | services/academy/internal/seed/apply.go:590-626 | every lesson before the current one has a completed row |
| LegacyProjection.OpenRowsExactly | services/academy/internal/seed/apply.go:590-626 | the one current row is the first lesson not done, and a sequential version has no available rows |
| LegacyProjection.AssignmentEnrollmentIsBlank | services/academy/internal/seed/apply.go:557-580 | an enrollment from an assignment has no lesson rows and stands at the version's first lesson |
| ProjectedRows.ProjectionExactly | services/academy/internal/seed/apply.go:474-536 | the one enrollment of a progress row, value by value and said of the legacy tables alone: source, stage, access, current lesson and all five times |
| ProjectedRows.AssignedExactly | services/academy/internal/seed/apply.go:538-588 | without progress on a first version, the enrollment is that of the first assignment by creation and id that reaches the user, value by value |
| ProjectedRows.LessonRowsExactly | services/academy/internal/seed/apply.go:590-626 | the lesson rows of a progress row, value by value: which lessons get one, status, first opening and completion time |
| ProjectedRows.CurrentExactly | services/academy/internal/seed/apply.go:520-529 | a lesson is current exactly when it is the first by section, position and id that is not done |
| AmoSync.FindUserForAmoSync | services/company/internal/storage/queries/org.sql:189-195 | a local user with the e-mail; else the user with the id, if no local one has the e-mail; else, if nobody has the id, the amoCRM user with the e-mail; nobody exactly if id and e-mail are unknown |
| AmoSync.FoundExactly | services/company/internal/storage/queries/org.sql:189-195 | which amoCRM users some employee of a snapshot resolves to |
| AmoSync.SyncReconciles | services/company/internal/application/amo_users.go:107-272 | row by row, said of ids and e-mails alone: what every reconciliation does to local, live and tombstoned users, and which users it creates |
| AmoSync.LookupAfter | services/company/internal/application/amo_users.go:107-197 | lookups are not disturbed by other employees' creations, and after a reconciliation every employee resolves |
| AmoSync.CreationIsUnique | services/company/internal/application/amo_users.go:184-197 | creating an employee nobody resolves to violates no unique index |
| AmoSync.LiveExactlyInSnapshot | services/company/internal/application/amo_users.go:102-272 | afterwards an amoCRM user is live exactly when its id is in the snapshot, if and only if no tombstoned user was hidden by a local one or adopted by e-mail |
| AmoSync.CreatesNobody | services/company/internal/application/amo_users.go:102-272 | a second reconciliation with the same snapshot creates nobody |
| AmoSync.SecondSyncChangesNothing | services/company/internal/application/amo_users.go:102-272 | it restores and tombstones nobody if and only if nobody outside the snapshot is adopted by e-mail |
| AmoSync.AdoptedFlips | services/company/internal/application/amo_users.go:108-272 | an adopted user outside the snapshot is tombstoned and restored in turn |
| AmoSync.ReissuedIdFlips | services/company/internal/application/amo_users.go:107-272 | a user whose e-mail got a new id is tombstoned by the first reconciliation and restored by the second |
| AmoSync.LocalUserHidesTombstone | services/company/internal/application/amo_users.go:107-272 | a present user stays tombstoned because a local user has the e-mail |
| AmoSync.Directory.Import | services/company/internal/application/amo_users.go:107-228 | the loop over the employees restores whom they resolve to and creates the rest |
| AmoSync.Directory.Tombstone | services/company/internal/application/amo_users.go:229-272 | the loop over the users read before tombstones exactly those who left and takes their sessions, password and link, and nobody else's |
| AmoSync.Directory.SyncNow | services/company/internal/application/amo_users.go:94-276 | the whole reconciliation, as the relation the lemmas are about and row by row; exactly those who left lose their sessions, password and link |
| AmoSync.NormalizeExternalEmployees | services/company/internal/application/amo_users.go:382-416 | accepted exactly when ids are given, addresses well-formed and no id or e-mail occurs twice among the employees the entries become; then those employees in order |
| PathTemplate.TemplateExpressionEnd | tools/sync-contract/main.go:263-277 | the index of the brace that closes the expression, or -1 if none does |
| PathTemplate.EndIsUnique | tools/sync-contract/main.go:263-277 | an expression has one closing brace |
| PathTemplate.NormalizeTemplateExpressions | tools/sync-contract/main.go:240-261 | the cursor loop terminates and writes plain text, "{param}" for an expression after '/', and nothing from a glued or open one |
| PathTemplate.NormalizePath | tools/sync-contract/main.go:229-234 | the query is cut first |
| PathTemplate.RenderedNormalises | tools/sync-contract/main.go:229-261 | a contract path rendered with balanced expressions, with any query appended, is normalised to its template |
| PathTemplate.GluedExpressionDropped | tools/sync-contract/main.go:236-252 | an expression glued to a literal is dropped with all that follows |
| PathTemplate.UnclosedExpressionDropped | tools/sync-contract/main.go:240-261 | an expression that is never closed is dropped with all that follows |
| PathTemplate.SplitJoin | tools/sync-contract/main.go:310-317 | splitting a joined path gives its segments back |
| PathTemplate.MatchSpec | tools/sync-contract/main.go:308-333 | returns a matching key if there is one, and none only if none matches |
| PathTemplate.MatchesExactly | tools/sync-contract/main.go:308-333 | a template matches an operation if and only if verb and path agree up to parameter names |
| PathTemplate.RenderedCallIsFound | tools/sync-contract/main.go:60-99 | a rendered call is found if and only if the contract has such an operation, and what is found is one |

## Left out

- HTTP and gRPC servers, configuration, telemetry, the NATS and PostgreSQL drivers: plumbing around the modelled steps.
- Cryptography: hashes and tokens are uninterpreted values, and two requests are the same when their hashes are.
- Delivery after the broker's last redelivery: only safety is claimed, not that a message is eventually handled.
- JSON and URL bytes: documents are trees with one value per key, so duplicate keys and Go's case-insensitive matching of struct fields are not modelled; URLs are records behind a parse/render pair.
- Idempotency.Service.EnrollmentMutation: what a snapshot holds beyond the attempts is one opaque value, and the access checks before the reservation are not steps.
- In-place mutation of JSON maps: the walks return the new tree instead of updating shared maps.
- Letters outside ASCII in ToLower: hosts, extensions and e-mails are lower-cased on ASCII letters.
- RichText.CollectFileIds: ids and mentions are returned as sets; the sorting of the result lists is not modelled.
- AmoSync.NormalizeExternalEmployees: names, avatars, groups and the wording of refusals are not modelled.
- AmoSync.Directory.SyncNow: departments, section access, audit records and emitted events are not modelled; a failing statement aborts the whole serializable transaction and is not shown as a step.
- The throttle in front of the reconciliation and the check that the account did not change meanwhile: one guard each.
- Ordering.Draft.CreateSection: titles, contents and quizzes of sections and lessons play no part in ordering; sections and lessons of one version only.
- 32-bit orders, attempts and scores: numbers are unbounded.
- Quiz.Evaluate: the stored questions are parsed values; an unreadable list is the one error of parsing.
- Domain aggregates of enrollments, campaigns and personal accesses, availability and role tables, report aggregation, mapping files: case splits, sums and copies with no invariant across calls.
