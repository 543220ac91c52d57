# Verified model of danaus

danaus is an AT Protocol personal data server. This project models its stateful core in Dafny and
proves what that core promises: that a firehose subscriber is sent every event exactly once, that a
batch of repository writes leaves index, blocks and blobs agreeing with the tree, that racing refreshes
of one token agree on one successor, and the laws of the smaller parts (schema crawl, cursors, one-time
codes, second factors).

Check everything with `dafny verify --resource-limit 2000000 dfyconfig.toml` (Dafny 4.11).

## How it is laid out

Code that changes objects in place is a class whose methods are tied, statement by statement, to a
specification function; the theorems are about runs of those functions.

- **Firehose.** `Queue` (linked list on the heap, with a ghost spine), `AsyncBuffer` (class over the
  queue), `Firehose` (the protocol as a transition system over an append-only log), `FirehoseProof` (its
  invariant), `FirehoseLaws` (theorems over all runs), `Outbox` (sequencer and outbox as classes, each
  method one step of the system).
- **Repository writes.** `RepoTypes` (content-addressed values, and what is assumed of the Merkle tree
  library), `BlobRefs` (the record walk), `RepoBatch` (one write at a time, commit ops, inversion),
  `RepoIndex` (record index and blocks), `RepoBlobs` (links, rows, blob store), `RepoRequests` (what the
  request alone tells), `RepoRuns` (whole runs), `Chunks`, and `ActorStore` (the loop and bulk statements as a class).
- **Sessions.** `Sessions` (rotation in separate read, tidy and commit steps by any number of callers),
  `SessionsProof`, `SessionsLaws`, `SessionsRuns` (two concrete runs), `LegacyAuth` (the class).
- **Schema crawl.** `Lexicon`, `LexiconLaws` (over definitions) and the class in `LexiconCache`.
- **Cursors.** `Decimal`, `Keyset`, `Paging`.
- **Second factors.** `Bits`, `Hotp` (byte loop, truncation, printing), `Credentials`, `Naming`, `Mfa`
  (the state machine), `MfaProof`, `MfaLaws`, `MfaManager` (the class).

## What turned out to need a condition

Each of these holds under a condition that is exact: the property holds if and only if the condition does.
Where the failing input is not in the theorem itself a lemma names it. The four conditions on batches are
read off the request (`ConditionsAreOfTheRequest`), one of them together with the current tree; each table
has its own, and a batch that breaks one leaves the theorems about the other tables standing.

- Exactly-once delivery: `cursor <= lastSeq`, which is the endpoint's own guard (`CursorGuardIsExact`,
  `FutureCursorBreaks`).
- A client behind the backfill limit is not sent a row it has seen: all rows it has seen are older than the
  whole second of the limit (`OutdatedStart`, `SameSecondIsResent`); times are stored in whole seconds.
- The bulk index update agrees with the tree: every path the batch deletes is last touched by a delete
  (`RecreatedRecordIsLost`).
- Pruning keeps every reachable block: no record CID the batch drops is still held at some path of the new
  tree (`EqualRecordsDangle`).
- Blob links stay the live mentions: no superseded write of a batch mentions a blob that the last write of
  its path does not (`CreateThenDeleteLeavesLink`).
- Every linked blob has its row and content: every blob a batch mentions had a row, which blob validation
  makes sure of.
- A transaction inserts a successor session a second time: it read a rotated row, the row is still there and
  the successor has gone (`RecreationIsExact`, `FirstRecreation`). That takes `getLegacySession` to have
  removed a row and the transaction to run after the presented session has expired by the clock;
  `LateCommitRecreates` says how it comes about and `SomeRunRecreates` is a whole such run. No code in the
  repository calls `getLegacySession`.
- The retry recursion of a rotation starts over a second time: the session's row has gone
  (`RetriesAreBounded`). `SomeCallerStartsOverTwice` is a run in which it does; it then reports an invalid
  token, and there is no third time.

Two bounds are the best there are: the crawl never gives up with at most ten reachable references, and with
eleven it can (`ElevenReferencesCanFail`), because the depth test comes before the visited test; and a
passkey alone does not set the preferred second factor (`PasskeyAloneIsIgnored`).

## Model

| member | source | states |
|---|---|---|
| Queues.Queue.Enqueue | packages/danaus/src/utils/queue.ts:35-48 | the contents grow by the value at the end; size and tail stay those of the reachable list |
| Queues.Queue.EnqueueFront | packages/danaus/src/utils/queue.ts:55-66 | the contents grow by the value at the front, also on an empty queue |
| Queues.Queue.Dequeue | packages/danaus/src/utils/queue.ts:72-87 | returns and removes the first value, or undefined and no change on an empty queue |
| Queues.Queue.Peek | packages/danaus/src/utils/queue.ts:93-95 | the first value or undefined, changing nothing |
| Queues.Queue.Drain | packages/danaus/src/utils/queue.ts:100-125 | a partial drain returns a prefix and leaves exactly the rest |
| Queues.Queue.Iterate | packages/danaus/src/utils/queue.ts:130-145 | the iterator gives all contents in order and changes nothing |
| Queues.Run | packages/danaus/src/utils/queue.ts:11-146 | any interleaving of the operations on the linked list gives the results it gives on a sequence |
| Queues.FirstInFirstOut | packages/danaus/src/utils/queue.ts:10-146 | without clear and enqueueFront, values out followed by values left are the initial ones followed by those enqueued |
| AsyncBuffers.AsyncBuffer.Push | packages/danaus/src/sequencer/async-buffer.ts:12-23 | a closed buffer ignores the value; a full one takes it and closes; the deferred is resolved |
| AsyncBuffers.AsyncBuffer.PushMany | packages/danaus/src/sequencer/async-buffer.ts:25-39 | the same for several values at once |
| AsyncBuffers.AsyncBuffer.Close | packages/danaus/src/sequencer/async-buffer.ts:41-48 | closes and wakes the consumer once |
| AsyncBuffers.AsyncBuffer.Next | packages/danaus/src/sequencer/async-buffer.ts:50-68 | one turn of the consumer: wait, raise, yield, end or rearm, with the new state |
| AsyncBuffers.RunIsGood | packages/danaus/src/sequencer/async-buffer.ts:12-68 | in every run delivered followed by queued is what was accepted, and a non-empty or closed buffer has its deferred resolved |
| AsyncBuffers.BlockedMeansCaughtUp | packages/danaus/src/sequencer/async-buffer.ts:50-68 | no lost wakeup: a consumer that waits has been delivered everything accepted and the buffer is open |
| AsyncBuffers.PushAtLimitOverflows | packages/danaus/src/sequencer/async-buffer.ts:17-21 | a push overflows exactly when the queue is at its limit |
| AsyncBuffers.OverflowRaises | packages/danaus/src/sequencer/async-buffer.ts:55-57 | after an overflow the next turn raises, and nothing more is ever delivered |
| AsyncBuffers.CloseDrainsThenEnds | packages/danaus/src/sequencer/async-buffer.ts:59-66 | after a plain close the consumer gets exactly the queued values in order and then the end |
| Outboxes.Sequencer.LastSeq | packages/danaus/src/sequencer/sequencer.ts:71-79 | the cached number is that of the last row, or 0 |
| Outboxes.Sequencer.SequenceEvt | packages/danaus/src/sequencer/sequencer.ts:239-260 | appends one valid row with a number above every earlier one and keeps the cache right |
| Outboxes.Publish | packages/danaus/src/sequencer/sequencer.ts:239-268 | the insert and the emit together are the append step of the protocol, for a log and a subscriber |
| Outboxes.Sequencer.RequestSeqRange | packages/danaus/src/sequencer/sequencer.ts:144-167 | the valid rows within the given numbers and time, in order, cut off at the limit |
| Outboxes.SelectedIsRange | packages/danaus/src/sequencer/outbox.ts:48-51 | with a first number only, the selection is the protocol's range |
| Outboxes.SelectedIsExact | packages/danaus/src/sequencer/sequencer.ts:147-158 | a selection holds exactly the valid rows within the bounds given |
| Outboxes.SelectedRises | packages/danaus/src/sequencer/sequencer.ts:158-158 | and in the order of their numbers |
| Outboxes.Outbox.OnEvent | packages/danaus/src/sequencer/async-buffer.ts:109-111 | the emitter's handler pushes the event to the subscriber's buffer |
| Outboxes.Outbox.OnAbort | packages/danaus/src/sequencer/async-buffer.ts:113-121 | the abort signal detaches the handler and closes the buffer |
| Outboxes.Outbox.Fetching | packages/danaus/src/sequencer/outbox.ts:47-55 | one backfill query is the protocol's fetch step |
| Outboxes.Outbox.Yielding | packages/danaus/src/sequencer/outbox.ts:57-72 | sends one row of the page, or decides between the next page and subscribing |
| Outboxes.Outbox.Subscribing | packages/danaus/src/sequencer/outbox.ts:74-75 | starts listening with a fresh buffer, or raises when aborted |
| Outboxes.Outbox.FinalFetching | packages/danaus/src/sequencer/outbox.ts:78-82 | the unlimited query after subscribing |
| Outboxes.Outbox.FinalYielding | packages/danaus/src/sequencer/outbox.ts:83-90 | sends one row of it, or notes the last number and starts tailing |
| Outboxes.Outbox.Tailing | packages/danaus/src/sequencer/outbox.ts:92-115 | one turn of the tail: drop what the backfill sent, send the rest, report a slow consumer |
| FirehoseProof.RangeIsExact | packages/danaus/src/sequencer/sequencer.ts:147-158 | a range holds exactly the valid rows with a higher number |
| FirehoseProof.RangeResumes | packages/danaus/src/sequencer/outbox.ts:47-69 | continuing after the last number of a page gives exactly the rows the page left |
| FirehoseProof.FilterIsExact | packages/danaus/src/sequencer/outbox.ts:95-102 | the number test of the tail drops a buffered row exactly when the backfill has sent it |
| FirehoseProof.RunKeeps | packages/danaus/src/sequencer/outbox.ts:41-116 | the protocol invariant holds after every interleaving of appends, steps and an abort |
| FirehoseLaws.ExactlyOnce | packages/danaus/src/sequencer/outbox.ts:41-116 | at every moment of every run the consumer has been sent a prefix, in order and without gap or duplicate, of the valid rows after its cursor |
| FirehoseLaws.LiveStartsAtTheEnd | packages/danaus/src/sequencer/outbox.ts:43-75 | without a cursor nothing is sent before subscribing, and afterwards always a prefix of the valid rows appended since |
| FirehoseLaws.WaitingIsComplete | packages/danaus/src/sequencer/outbox.ts:92-105 | in every run a consumer waiting in its tail has been sent exactly the valid rows after its cursor |
| FirehoseLaws.Settles | packages/danaus/src/sequencer/outbox.ts:41-116 | from wherever a run has led, when writers pause the consumer comes to rest in finitely many steps, complete unless stopped as too slow |
| FirehoseLaws.StopsOnlyWhenSlow | packages/danaus/src/sequencer/outbox.ts:106-115 | in every run without an abort the stream has ended only because the buffer overflowed, and ends only in its tail |
| FirehoseLaws.AbortStopsDelivery | packages/danaus/src/sequencer/async-buffer.ts:113-121 | nothing appended after a tailing consumer was aborted is ever sent to it |
| FirehoseLaws.AbortEnds | packages/danaus/src/sequencer/outbox.ts:59-86 | from wherever a run has led, an aborted consumer stops in finitely many steps |
| FirehoseLaws.FutureCursorBreaks | packages/danaus/src/sequencer/outbox.ts:41-105 | for a cursor past the end a concrete run sends a row that is not due |
| FirehoseLaws.CursorGuardIsExact | packages/danaus/src/api/com.atproto/sync.subscribeRepos.ts:24-27 | all runs are right for a cursor if and only if it is at most the last number |
| FirehoseLaws.EndpointMeetsGuard | packages/danaus/src/api/com.atproto/sync.subscribeRepos.ts:20-42 | the endpoint refuses exactly the future cursors, and whatever it passes on meets the precondition |
| FirehoseLaws.EndpointServesCursor | packages/danaus/src/api/com.atproto/sync.subscribeRepos.ts:22-44 | endpoint and protocol together: a current cursor gets at every moment a prefix of the valid rows after that very cursor, and all of them once it waits; no cursor gets a live stream |
| FirehoseLaws.OutdatedStart | packages/danaus/src/api/com.atproto/sync.subscribeRepos.ts:29-39 | with rising times, an outdated client is started right before a row of the limit's second or later, if there is one, so that no row within the limit is skipped; seen rows are sent again exactly if one is of the limit's own second |
| FirehoseLaws.SameSecondIsResent | packages/danaus/src/api/com.atproto/sync.subscribeRepos.ts:37-38 | a two-row log on which cursor 1 becomes 0 |
| BlobRefs.FindBlobReferences | packages/danaus/src/actors/blobs/utils.ts:7-47 | the recursion adds to its shared accumulator exactly the blobs the record mentions within the depth left |
| BlobRefs.WalkIsMention | packages/danaus/src/actors/blobs/utils.ts:12-46 | the walk finds a blob if and only if at most 32 steps from an array to an item or from an object to a field's value lead to it |
| BlobRefs.DeepBlobFound | packages/danaus/src/actors/blobs/utils.ts:16-18 | a blob inside arrays and objects, in any order, is found exactly up to 32 of them |
| RepoBatch.BatchIsSound | packages/danaus/src/actors/repo/transactor.ts:193-296 | a batch that succeeds ends with a root, its ops lead from the old tree to the new one, and every new node was put |
| RepoBatch.OperationInversion | packages/danaus/src/actors/repo/transactor.ts:193-289 | one op per write; replayed on the tree of prevData they give the new tree, undone in reverse they give back the old tree and its root |
| RepoRequests.WritesAreJudged | packages/danaus/src/actors/repo/transactor.ts:193-228 | the writes are accepted if and only if each has a key, a matching swapRecord and a free path to create or a record to update or delete, on the tree the writes before it ask for; else the error is the first failing test of the first failing write |
| RepoRuns.BatchIsJudged | packages/danaus/src/actors/repo/transactor.ts:147-296 | a batch goes through if and only if it passes every test, on size, repository, swapCommit, writes and blobs; a refusal names the first that fails, and the new root is the commit of the tree asked for |
| RepoIndex.TreeAt | packages/danaus/src/actors/repo/transactor.ts:193-289 | the new tree holds at each path what the last op on it left |
| RepoIndex.BulkIndexRefinesWrites | packages/danaus/src/actors/repo/transactor.ts:320-322 | all upserts then all deletes leave the index equal to the new tree if and only if every deleted path is last touched by a delete |
| RepoIndex.DistinctPathsAreFinal | packages/danaus/src/actors/repo/transactor.ts:193-289 | a batch whose paths differ always meets that condition |
| RepoIndex.RecreatedRecordIsLost | packages/danaus/src/actors/repo/transactor.ts:320-322 | deleting and creating one path in a batch: the tree has the record and the index does not |
| RepoIndex.EntriesAfterBatch | packages/danaus/src/actors/record/transactor.ts:19-50 | a deleted path has no entry, a written one the batch's rev and its last CID, an untouched one its entry as it was |
| RepoIndex.TakedownSurvivesUpdates | packages/danaus/src/actors/record/transactor.ts:19-38 | the upsert keeps the takedown of an existing entry and gives a new one none |
| RepoIndex.BlocksAfterBatch | packages/danaus/src/actors/repo/transactor.ts:378-427 | a block is there exactly if it was, or was put or written, and is neither a node only the old tree has nor a record at a path that changed |
| RepoIndex.NoDanglingBlocks | packages/danaus/src/actors/repo/transactor.ts:315-318 | after persisting and pruning every reachable node and record has its block if and only if no dropped record CID is still held |
| RepoIndex.EqualRecordsDangle | packages/danaus/src/actors/repo/transactor.ts:409-426 | with equal records at two paths, deleting one removes the block the other still needs |
| RepoBlobs.BlobLinksExact | packages/danaus/src/actors/blobs/transactor.ts:29-35 | links stay exactly the mentions of live records if and only if no superseded write mentions more than the last write of its path |
| RepoBlobs.DistinctPathsAreCovered | packages/danaus/src/actors/blobs/transactor.ts:22-39 | with at most one write per record the condition holds |
| RepoBlobs.CreateThenDeleteLeavesLink | packages/danaus/src/actors/blobs/transactor.ts:29-35 | creating and deleting one record in a batch leaves a link behind |
| RepoBlobs.CollectionIsExact | packages/danaus/src/actors/blobs/transactor.ts:34-38 | a batch removes a blob's row and permanent content if and only if the blob had a link and has none left |
| RepoBlobs.BatchKeepsRows | packages/danaus/src/actors/blobs/transactor.ts:22-39 | a batch fails exactly on a validated mention of a blob without a row, and otherwise leaves no row without its content |
| RepoBlobs.BatchKeepsBlobsBacked | packages/danaus/src/actors/blobs/transactor.ts:22-39 | every linked blob has row and content afterwards if and only if every mentioned blob had a row, as validation makes sure |
| RepoBlobs.BlobAfterBatch | packages/danaus/src/actors/blobs/transactor.ts:126-150 | a mentioned blob ends in permanent storage with its own content and no temporary file, any other keeps row and file, and takedowns are left alone |
| RepoBlobs.LinksAreMentions | packages/danaus/src/actors/blobs/transactor.ts:41-63 | exact links are the pairs of a live record and a blob at most 32 steps inside it |
| RepoBlobs.UploadKeepsBlobsBacked | packages/danaus/src/api/com.atproto/repo.uploadBlob.ts:33-65 | an upload, also of a blob that is already permanent or taken down, keeps rows and links backed |
| RepoBlobs.UploadIsRecorded | packages/danaus/src/api/com.atproto/repo.uploadBlob.ts:33-65 | the blob has a row waiting for its content under the new key unless it is taken down, and nothing else changes |
| RepoBlobs.UploadedIsAccepted | packages/danaus/src/actors/blobs/transactor.ts:65-92 | a validated batch is never refused on account of a blob just uploaded |
| RepoRequests.ConditionsAreOfTheRequest | packages/danaus/src/actors/repo/transactor.ts:193-289 | the batch conditions hold of the commit ops if and only if they hold of the writes as sent |
| RepoRequests.DistinctRequestsQualify | packages/danaus/src/actors/repo/transactor.ts:193-289 | a request with one write per record meets the index and link conditions |
| RepoRuns.StepKeepsIndex | packages/danaus/src/actors/repo/transactor.ts:320-322 | for any action on an exact state: index and tree agree afterwards if and only if its deletes are final |
| RepoRuns.StepKeepsBlocks | packages/danaus/src/actors/repo/transactor.ts:315-318 | for any action: nothing dangles afterwards if and only if it drops no record that is still held |
| RepoRuns.StepKeepsLinks | packages/danaus/src/actors/blobs/transactor.ts:29-35 | for any action: links are the live mentions afterwards if and only if superseded writes are covered |
| RepoRuns.StepKeepsBlobs | packages/danaus/src/actors/blobs/transactor.ts:22-39 | for any action: every linked blob is backed afterwards if and only if every mentioned blob had a row |
| RepoRuns.RunStaysExact | packages/danaus/src/actors/repo/transactor.ts:147-356 | over every run of a new repository, refused and unvalidated batches included, index, blocks, links and blobs are each exact throughout if and only if every batch meets that table's own condition |
| RepoRuns.OrdinaryRunsStayExact | packages/danaus/src/actors/repo/transactor.ts:147-356 | over every run of uploads and validated batches with one write per record, index, links and blob store are exact |
| RepoRuns.CollectionFollowsRecords | packages/danaus/src/actors/blobs/transactor.ts:152-175 | in an exact state a batch collects a blob if and only if it took away the blob's last live mention |
| RepoRuns.PutRecordNeverMisjudges | packages/danaus/src/api/com.atproto/repo.putRecord.ts:51-72 | in an exact state the index-based choice of create or update is never refused as existing or missing |
| RepoIndex.PutRecordChoosesRight | packages/danaus/src/api/com.atproto/repo.putRecord.ts:51-72 | when index and tree agree about the path the record is put there, unless swapRecord does not match; when they disagree the write is refused |
| RepoRuns.RunStaysChained | packages/danaus/src/actors/repo/transactor.ts:333-342 | in every run of a new repository each commit event's since and prevData are the rev and data root of the commit before it, and its ops lead from that tree to its own and back |
| RepoRuns.SwapSucceedsOnce | packages/danaus/src/actors/repo/transactor.ts:166-171 | of two batches naming the same swapCommit at most one succeeds, whatever runs in between |
| Chunks.Chunked | packages/danaus/src/utils/misc.ts:1-9 | the chunks joined are the array, each holds 1 to size elements and all but the last are full |
| ActorStores.LoopOverWrites | packages/danaus/src/actors/repo/transactor.ts:186-289 | the loop with its lists gives the batch meaning, error for error, and the lists are the projections of the ops |
| ActorStores.RunWrites | packages/danaus/src/actors/repo/transactor.ts:186-296 | the loop and the empty root node after it together |
| ActorStores.ActorStore.PersistRepoBlocks | packages/danaus/src/actors/repo/transactor.ts:378-398 | inserting in batches of 50 adds exactly the given blocks |
| ActorStores.ActorStore.PruneRepoBlocks | packages/danaus/src/actors/repo/transactor.ts:400-427 | deletes exactly the nodes only the old tree has and the prior values of changed or deleted records |
| ActorStores.ActorStore.UpsertRecords | packages/danaus/src/actors/record/transactor.ts:19-38 | the upserts in order |
| ActorStores.ActorStore.DeleteRecords | packages/danaus/src/actors/record/transactor.ts:44-50 | an entry is left exactly if it was there and not named, and is left unchanged |
| ActorStores.ActorStore.CollectWriteBlobRefs | packages/danaus/src/actors/blobs/transactor.ts:41-63 | collects exactly the mentioned blobs and the link rows |
| ActorStores.ActorStore.AssertValidBlobReferences | packages/danaus/src/actors/blobs/transactor.ts:65-92 | passes if and only if every mentioned blob has a row |
| ActorStores.ActorStore.RemoveRecordBlobLinks | packages/danaus/src/actors/blobs/transactor.ts:94-108 | no named record keeps a link, no other loses one, and a blob is returned exactly if it lost a link |
| ActorStores.ActorStore.InsertRecordBlobLinks | packages/danaus/src/actors/blobs/transactor.ts:110-124 | adds exactly the given links, in batches, ignoring those present |
| ActorStores.ActorStore.MakePermanent | packages/danaus/src/actors/blob-store/disk.ts:64-95 | an existing permanent file wins, else the temporary one is moved; fails exactly if there is neither |
| ActorStores.ActorStore.MakeBlobsPermanent | packages/danaus/src/actors/blobs/transactor.ts:126-150 | the one-by-one promotion equals the bulk promotion, and fails exactly if some waiting blob's file is in neither place |
| ActorStores.ActorStore.DeleteOrphanedBlobs | packages/danaus/src/actors/blobs/transactor.ts:152-175 | deletes rows and content of exactly those blobs that nothing links any more |
| ActorStores.ActorStore.ApplyBlobWrites | packages/danaus/src/actors/blobs/transactor.ts:22-39 | the blob side of a batch equals its specification, error for error |
| ActorStores.ActorStore.ApplyWritesInternal | packages/danaus/src/actors/repo/transactor.ts:147-356 | a successful batch leaves every table and the event as specified; every refusal is the specified one |
| ActorStores.ActorStore.Transact | packages/danaus/src/actors/repo/transactor.ts:147-356 | as a transaction: one step of a run, accepted and refused exactly by the tests of BatchIsJudged, and a refusal changes nothing |
| ActorStores.ActorStore.UploadBlob | packages/danaus/src/api/com.atproto/repo.uploadBlob.ts:33-65 | refused exactly for a blob taken down, else the row waits under the new key |
| LegacyAuth.LegacyAuthManager.CreateLegacySession | packages/danaus/src/accounts/legacy-auth.ts:182-202 | inserts a session with the full lifetime, or fails on an id in use |
| LegacyAuth.LegacyAuthManager.GetLegacySession | packages/danaus/src/accounts/legacy-auth.ts:217-230 | returns only live sessions and deletes an expired one it meets |
| LegacyAuth.LegacyAuthManager.RevokeSessions | packages/danaus/src/accounts/manager.ts:473-503 | a password change or takedown ends all sessions of the account and no other |
| LegacyAuth.LegacyAuthManager.CommitRotation | packages/danaus/src/accounts/legacy-auth.ts:282-318 | the transaction succeeds exactly if the row is there and not rotated to another id, and then does the commit step |
| LegacyAuth.LegacyAuthManager.RotateLegacyRefresh | packages/danaus/src/accounts/legacy-auth.ts:245-330 | without interference: invalid exactly if session or app password is missing, expired exactly if past its time, else rotated, with the whole table afterwards; these are the steps select, tidy and commit in a row |
| SessionsLaws.RunKeeps | packages/danaus/src/accounts/legacy-auth.ts:245-330 | the rotation invariant holds after every interleaving of any number of callers that is in time |
| SessionsLaws.SelectIsExact | packages/danaus/src/accounts/legacy-auth.ts:246-265 | a caller is turned away as invalid if and only if the session or its app password is missing |
| SessionsLaws.RemovedPasswordRefuses | packages/danaus/src/accounts/legacy-auth.ts:246-265 | once an app password is removed, in every continuation a caller that reads one of its sessions is turned away |
| SessionsLaws.RotationIsWrittenOnce | packages/danaus/src/accounts/legacy-auth.ts:287-302 | in every run, once a row's next_id is written neither it nor the shortened expiry ever changes while the row is there |
| SessionsLaws.RotationAgrees | packages/danaus/src/accounts/legacy-auth.ts:245-330 | all tokens given out for one session are for one successor, no two sessions share one, and a rotated session expires within two hours of its first rotation |
| SessionsLaws.LiveSuccessor | packages/danaus/src/accounts/legacy-auth.ts:270-318 | in every run, while a rotated session is live its successor exists, is of the same account and expires no earlier |
| SessionsLaws.ExpiryGrowsAlongChain | packages/danaus/src/accounts/legacy-auth.ts:282-315 | in every run expiry never decreases along a chain of successors, however long |
| SessionsLaws.GraceReturnsSameSuccessor | packages/danaus/src/accounts/legacy-auth.ts:245-330 | in every run each step of a caller presenting a live rotated token, read, tidying and transaction, leads to the same successor and changes neither row; a caller that read before the rotation starts over |
| SessionsLaws.RetryWins | packages/danaus/src/accounts/legacy-auth.ts:320-322 | a caller that retries wins exactly if the row is there |
| SessionsLaws.RetriesAreBounded | packages/danaus/src/accounts/legacy-auth.ts:320-322 | in every run a caller starts over at most twice, the second time exactly if the row has gone, and then it reports an invalid token |
| SessionsRuns.SomeCallerStartsOverTwice | packages/danaus/src/accounts/legacy-auth.ts:270-322 | a concrete run from empty tables in which a caller reaches its third attempt |
| SessionsLaws.LostRaceShowsSuccessor | packages/danaus/src/accounts/legacy-auth.ts:287-302 | a transaction is lost only by a first attempt to an earlier rotation, or because the row is gone |
| SessionsLaws.RecreationIsExact | packages/danaus/src/accounts/legacy-auth.ts:285-315 | a transaction inserts a successor again if and only if the caller read a rotated row, it is still there and its successor has gone |
| SessionsLaws.FirstRecreation | packages/danaus/src/accounts/legacy-auth.ts:245-330 | after any run that is in time, the next action inserts a successor again exactly under that condition |
| SessionsLaws.RecreationIsLate | packages/danaus/src/accounts/legacy-auth.ts:270-315 | that takes a lookup that removed a row and a transaction past the session's expiry |
| SessionsLaws.LateCommitRecreates | packages/danaus/src/accounts/legacy-auth.ts:223-315 | in every run, looking up an expired successor makes a transaction that is under way insert it anew |
| SessionsLaws.NoLookupIsInTime | packages/danaus/src/accounts/legacy-auth.ts:217-230 | without getLegacySession every run is in time |
| SessionsRuns.SomeRunRecreates | packages/danaus/src/accounts/legacy-auth.ts:223-227 | a concrete run from empty tables in which a late transaction inserts a successor a second time |
| LexiconLaws.DocumentsAreThoseNeeded | packages/danaus/src/lexicon/cache.ts:390-469 | over definitions, an NSID and a name: returned documents are for exactly the schemas of those the main one needs, each as resolved, and at most 50 are needed |
| Lexicon.CrawlIsClosed | packages/danaus/src/lexicon/cache.ts:436-451 | the same over references as the crawl normalises them |
| LexiconLaws.TenDefinitionsSuffice | packages/danaus/src/lexicon/cache.ts:430-468 | with at most ten needed definitions, all resolving, documents are returned |
| Lexicon.CrawlIsComplete | packages/danaus/src/lexicon/cache.ts:430-468 | the same over references |
| LexiconLaws.NullHasAReason | packages/danaus/src/lexicon/cache.ts:400-413 | null means that a needed schema does not resolve, more than 50 definitions are needed, or one is 11 steps away along distinct ones |
| Lexicon.NullIsExcused | packages/danaus/src/lexicon/cache.ts:400-413 | the same over references |
| Lexicon.ElevenReferencesCanFail | packages/danaus/src/lexicon/cache.ts:430-445 | a concrete chain of eleven references, all resolving, on which the crawl gives up |
| LexiconCaches.Crawler.CrawlReferences | packages/danaus/src/lexicon/cache.ts:425-469 | the recursion that mutates visited, docs and count equals the specified crawl, and terminates |
| LexiconCaches.GetRecordDocs | packages/danaus/src/lexicon/cache.ts:390-416 | the method returns exactly the documents of the needed schemas, or null for one of the reasons, and never null while ten definitions suffice |
| Decimal.PrintedIsRead | packages/danaus/src/utils/keyset.ts:36-36 | the printed integer is read back as itself and contains no colon |
| Keyset.UnpackInvertsPack | packages/danaus/src/utils/keyset.ts:22-47 | for every date, unpack after pack gives date and key back exactly if the key is valid, also for keys with colons |
| Keyset.PackIsInjective | packages/danaus/src/utils/keyset.ts:22-24 | different positions have different cursors |
| Keyset.UnpackIsExact | packages/danaus/src/utils/keyset.ts:30-47 | any cursor is taken exactly if a safe integer stands before its first separator and a valid key after it |
| Paging.ListingFacts | packages/danaus/src/accounts/manager.ts:101-116 | the whole listing holds exactly the accounts that fit the pattern and are deactivated or taken down only if asked for, ordered by creation time and DID |
| Paging.PageAt | packages/danaus/src/accounts/manager.ts:93-126 | the page after the first k accounts is the next limit ones, with a cursor exactly if more remain |
| Paging.FollowCursors | packages/danaus/src/accounts/manager.ts:93-126 | following cursors from the start ends and visits every matching account exactly once in order, for every limit of at least 1 |
| Paging.LimitZeroListsNothing | packages/danaus/src/accounts/manager.ts:117-123 | with limit 0 the first page is empty and has no cursor, whatever there is to list |
| Bits.MaskIsRemainder | packages/danaus/src/accounts/totp.ts:119-119 | masking with k low bits is the remainder modulo 2^k |
| Bits.OrOfBytes | packages/danaus/src/accounts/totp.ts:132-136 | the or of shifted bytes is their sum |
| Hotp.CounterBuffer | packages/danaus/src/accounts/totp.ts:117-121 | the loop leaves the last eight base-256 digits of the counter, the highest first |
| Hotp.SafeCountersFit | packages/danaus/src/accounts/totp.ts:116-121 | for every safe non-negative counter the message is its big-endian encoding |
| Hotp.OffsetInside | packages/danaus/src/accounts/totp.ts:131-131 | truncation stays inside the 20-byte digest |
| Hotp.TruncationIsStandard | packages/danaus/src/accounts/totp.ts:130-136 | the shifts and ors give the 31-bit value of section 5.3 of RFC 4226 |
| Hotp.PaddedIsFixed | packages/danaus/src/accounts/totp.ts:140-140 | padding a numeral of at most k digits gives exactly its k digits |
| Hotp.GenerateHotp | packages/danaus/src/accounts/totp.ts:115-141 | the code is always six digits and reads back as the truncated value modulo 10^6 of the HMAC over the counter's encoding |
| Hotp.FirstMatchIsFirst | packages/danaus/src/accounts/totp.ts:163-182 | the match is the first unused counter in the window whose code is the one given, and none means there is none |
| Hotp.VerifyTotpCode | packages/danaus/src/accounts/totp.ts:151-183 | the window loop finds that first match, or null, and refuses a malformed code |
| MfaLaws.WindowIsTime | packages/danaus/src/accounts/totp.ts:162-167 | the window is the present 30-second step and the ones next to it, as section 4.2 of RFC 6238 counts them |
| MfaLaws.VerifyIsExact | packages/danaus/src/accounts/totp.ts:156-182 | a code is accepted for a credential if and only if some unused counter within one step of the clock has it |
| MfaLaws.AcceptanceIsExact | packages/danaus/src/accounts/mfa.ts:160-180 | an account's code is accepted if and only if one of its credentials accepts it, and the counter reported is one it accepts |
| MfaLaws.AcceptedAreAhead | packages/danaus/src/accounts/mfa.ts:168-174 | over any run every accepted counter is above the one stored for the credential at the start, and no deleted credential accepts |
| MfaLaws.CodesWorkOnce | packages/danaus/src/accounts/mfa.ts:160-180 | over every sequential run from empty tables no counter is accepted twice, or after a later one, for a credential |
| MfaLaws.CountersRise | packages/danaus/src/accounts/mfa.ts:160-180 | over any sequential run from a sound state the counters accepted for a credential strictly increase, as section 5.2 of RFC 6238 requires |
| MfaLaws.EnrolmentCodeIsSpent | packages/danaus/src/accounts/mfa.ts:92-112 | the counter a credential was enrolled with, and any older one, is never accepted for it |
| MfaProof.SyncIsSound | packages/danaus/src/accounts/mfa.ts:658-691 | after a sync the preference is sound whatever it was before |
| MfaProof.RunIsSound | packages/danaus/src/accounts/mfa.ts:68-151 | over every run from empty tables a set preference names a kind held, it is set whenever a TOTP credential or security key is held, the caps of 5 and 10 hold, and names and credential ids never clash |
| MfaLaws.PreferenceIsStable | packages/danaus/src/accounts/mfa.ts:673-687 | a set preference stays while its kind is held; then the other kind takes over if held, else it is cleared |
| MfaLaws.FirstCredentialDecides | packages/danaus/src/accounts/mfa.ts:680-690 | without a preference, adding a TOTP credential or a security key makes that kind preferred, also beside passkeys |
| MfaLaws.PasskeyAloneIsIgnored | packages/danaus/src/accounts/mfa.ts:364-367 | an account with a single passkey and nothing else has no preference |
| Mfa.TotpNameIsFree | packages/danaus/src/accounts/mfa.ts:187-203 | the generated name is not in use by the account: the plain one for its first, else the one with the least free number from 2 on |
| Mfa.KeyNameIsFreeInKind | packages/danaus/src/accounts/mfa.ts:454-471 | the generated name is not that of another key of the same kind |
| Naming.TrimIsExact | packages/danaus/src/accounts/mfa.ts:77-77 | trimming takes off exactly the blanks at both ends |
| Naming.FirstFreeIsFree | packages/danaus/src/accounts/mfa.ts:196-202 | the search ends after at most as many steps as there are names, at the first free number |
| MfaLaws.GeneratedNamesAreAccepted | packages/danaus/src/accounts/mfa.ts:68-90 | creating a TOTP credential without a name is refused only at the cap |
| MfaManagers.MfaManager.GenerateTotpName | packages/danaus/src/accounts/mfa.ts:187-203 | the counting loop terminates with that name, unused by the account |
| MfaManagers.MfaManager.SyncPreferredMfa | packages/danaus/src/accounts/mfa.ts:658-691 | the early returns and the update amount to one rule: keep what is backed, else the first kind held, else none; no other account changes |
| MfaManagers.MfaManager.CreateTotpCredential | packages/danaus/src/accounts/mfa.ts:68-112 | accepted exactly with fewer than 5 credentials and a name not taken; then the new row has a fresh id, the trimmed or generated name, the secret and the enrolment counter, and the preference is synced |
| MfaManagers.MfaManager.DeleteTotpCredential | packages/danaus/src/accounts/mfa.ts:144-151 | removes exactly the account's row with that id and syncs the preference |
| MfaManagers.MfaManager.CreateWebAuthnCredential | packages/danaus/src/accounts/mfa.ts:306-370 | accepted exactly with fewer than 10 credentials, a name not taken and a credential id not registered; then the row is added, and only a security key syncs the preference |
| MfaManagers.MfaManager.DeleteWebAuthnCredential | packages/danaus/src/accounts/mfa.ts:431-438 | removes exactly the account's row with that id and syncs the preference |
| MfaManagers.MfaManager.VerifyAccountTotpCode | packages/danaus/src/accounts/mfa.ts:160-180 | true exactly if some credential accepts; then that credential carries the counter and no other row changed |

## Left out

- Merkle tree library: `NodeWrangler`, `NodeWalker`, `mstDiff` and `recordDiff` are not part of this model; a tree is a finite map from path to CID with a canonical root, and the datatype `Mst` lists the four facts assumed of the library (`SomeLibraryIsLawful` shows they can be met).
- Hashing: a CID is modelled as the content it addresses, so it is injective and record, node, commit and raw CIDs never collide; a commit CID is its data root and rev.
- Record URIs are identified with `<collection>/<rkey>` paths, as all belong to one repository.
- Signatures, CBOR, CAR files and the blocks and proofs inside a commit event; the model's event has cid, rev, data, since, prevData and ops.
- TID generation: revs and generated keys are parameters; that revs rise is a hypothesis of `SwapSucceedsOnce` only.
- Random ids: freshness is the enabling condition of the steps that generate them.
- Foreign keys: no pragma turns them on, so cascades do not happen in the model.
- Queues.Queue.Iterate: covers one undisturbed pass; the source's iterator keeps its node across later changes of the queue.
- ActorStores.ActorStore.ApplyWritesInternal: records the commit event whether or not emitSequencer is set, and relies on random temporary keys being different.
- ActorStores.ActorStore.Transact: puts the blob store back on a refusal as well; the real blob store is outside the database transaction and keeps a file that was already moved.
- Timestamps are kept in whole seconds as the database column does, and the mime type, size and creation time of rows are dropped.
- The event emitter serves one subscriber in the model; several have a buffer each and do not interact.
- deleteAllForUser and row invalidation: the log is append-only; rows invalid from the start are skipped as in the code.
- Outboxes.Outbox: the generator is cut at its yields and awaits into methods; which method runs next is the phase field.
- AsyncBuffers.AsyncBuffer: the maximum size is a natural number.
- deleteLegacySession: it cuts a session's successor on purpose, so it is not an action of the runs.
- LegacyAuth.LegacyAuthManager.RotateLegacyRefresh: covers a call nobody interferes with; interleavings and retries are in the transition system.
- SessionsLaws.RotationAgrees: holds for runs in time; see the condition above and `SomeRunRecreates`.
- Token signing, password hashing and privileges of sessions.
- Lexicon: resolver, cache tables, refresh and in-flight maps; the resolver answers consistently during a crawl, as an abstract function.
- Keyset: number conversion beyond plain decimal (blanks, hexadecimal, exponents, fractions) is an arbitrary function parameter; no row counts as after an invalid date, as SQL comparisons with null go.
- Paging: the LIKE pattern is an arbitrary predicate on handle and email, strings are compared by code unit, and the table does not change between pages.
- listInviteCodes: a page filtered to empty gives no cursor, so completeness does not hold there.
- Hotp: HMAC-SHA1 is an arbitrary function to 20-byte digests; base32, QR codes and the constant-time comparison are dropped.
- MfaLaws.CountersRise: speaks of sequential runs; the method awaits between reading and writing a counter, so verifications that overlap are not covered.
- Mfa.KeyNameIsFreeInKind: claims a free name within one credential type only, as the code looks no further.
- MfaProof.RunIsSound: assumes that an account row is inserted before any credential of that DID.
- Recovery codes, WebAuthn challenges and counters, and the MFA status query: single statements with little to prove.
- Web UI, HTTP and XRPC handlers, proxying, identity resolution, configuration, logging and background work.
