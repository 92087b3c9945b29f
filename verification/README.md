# FossLink desktop: model and proofs

FossLink desktop mirrors the SMS store of a phone over an asynchronous link. This project models the logic that
keeps the mirror right, together with a few self-contained algorithms of the application, and proves what they are
for. Code that changes state step by step is modelled by classes and methods with loops; each method is proved
against a function or relation on values, and the lemmas are about those. Every `await` splits an operation: what
runs between two awaits is one step, and runs are arbitrary interleavings of steps.

| part | files |
|---|---|
| tables and their statements | `Wrappers.dfy`, `News.dfy`, `Store.dfy`, `DatabaseService.dfy`, `PhoneMessages.dfy` |
| reconciliation with the phone | `FullThreadSync.dfy`, `SyncConvergence.dfy`, `QuickMessageSync.dfy`, `Addresses.dfy`, `ThreadListSync.dfy`, `EventListener.dfy`, `SmsHandler.dfy`, `SyncRuns.dfy` |
| paginated queries | `QueryClient.dfy`, `QueryClientRuns.dfy`, `QueryPages.dfy` |
| operation queue, offline operations | `SyncOrchestrator.dfy`, `OperationNames.dfy`, `OrchestratorRuns.dfy`, `OfflineReplay.dfy` |
| treemap | `TreemapGeometry.dfy`, `Treemap.dfy`, `TreemapTiling.dfy` |
| bounded resources and transfers | `GalleryCache.dfy`, `AttachmentDownloads.dfy`, `Thumbnails.dfy`, `WebDavTransfer.dfy`, `SendQueue.dfy`, `ExportNames.dfy`, `Decimals.dfy`, `LineFraming.dfy` |

## What turned out not to hold

Each of these is proved as an exact condition or shown by a concrete run.

- A full sync does not converge if the phone deletes or changes a message, or deletes the thread, in the gap, if a message arriving in the
  gap is dated no later than the snapshot, or if an old local row is dated after it (`SyncConvergence.ConvergesIff`).
- The quick sync of a flagged thread sizes its window when it is queued and places it when it runs, so time spent
  waiting is cut off the far end. `docs/PROTOCOL_1_3_REVISIONS.md` line 138 asks for the time since the last sync
  (`QuickMessageSync.FlaggedWindowCovers`).
- A second thread list sync on the same list is quiet only if duplicate entries agree (`ThreadListSync.SecondRunQuietIff`).
- Duplicate pages count as received (`QueryPages.WholeAnswerIff`). The abort handle of a streaming query goes by
  resource, not by query, contrary to its comment (`QueryClientRuns.AbortSparesOthersIff`), and a streaming query reports pages only if
  no query was active when it was issued (`QueryClientRuns.StreamedExactly`).
- An abort strands the queue (`OrchestratorRuns.SettlingStrandsIff`), and closing a thread may abort the sync of another
  (`OrchestratorRuns.ClosingAbortsIff`, `OperationNames.HitsOnlyItselfIff`). A connect keeps
  the threads that are still flagged and loses the flagged syncs that were queued already
  (`OrchestratorRuns.ConnectStartsIff`); nothing else keeps a flagged thread from its sync before ready, apart from a
  disconnect or resync at such a moment (`OrchestratorRuns.EventsSyncedBeforeReady`).
- A request that succeeds at once may be overtaken by an older queued one (`OfflineReplay.ImmediateRequestIff`,
  `OfflineReplay.ReplayedIff`).
- The thread list deletes a conversation made while it was awaited, and brings back one deleted then
  (`SyncConvergence.ThreadListConvergesIff`).
- Callers that join a download are never told of its timeout (`AttachmentDownloads.AbandonedIff`).
- COPY of a file onto itself truncates it (`WebDavTransfer.SelfCopySafeIff`), a GET may
  be cut short exactly if the reported size is too small, as after a change of the stored path
  (`WebDavTransfer.GetWholeIff`), and a media read of no bytes reports the end of the file (`WebDavTransfer`).
- A late status for a send without a ghost stays in the buffer (`SendQueue.SkippedGhostLeavesStatus`). A buffered `sent`
  that is taken back may leave its removal timer armed (`SendQueue.StatusAndResponseCommute`).

## Model

| member | source | states |
|---|---|---|
| `SyncConvergence.ConvergesIff` | src/sync/operations/full-thread-sync.ts:52-139 | full sync with any events (arrivals, deletions, deleted threads) before and after the snapshot is applied: once all events are delivered the local thread equals the phone's if and only if the gap was harmless, a condition on the events in the gap, the answer and the initial rows |
| `SyncConvergence.QuickConvergesIff` | src/sync/operations/quick-message-sync.ts:50-91 | the same for the quick sync: it converges if and only if the answer agrees with what the gap changed, and the thread held the phone's rows from before the window |
| `SyncConvergence.ThreadListConvergesIff` | src/sync/operations/thread-list-sync.ts:71-128 | the same for the thread list: with any events while the list is awaited and afterwards, the local threads end as the phone's if and only if the list agrees with what the gap did last to each thread that no later event concerns |
| `SyncConvergence.FreshArrivalsConverge` | src/sync/operations/full-thread-sync.ts:57-114 | messages that arrive while the query runs, dated after the snapshot, survive; stale rows dated up to it go; the thread converges whatever happens later |
| `SyncConvergence.DeletionInGapIsUndone` | src/sync/operations/full-thread-sync.ts:65-80 | a deletion reported while the query is awaited is undone by the older answer (concrete run) |
| `SyncConvergence.HandlingFollowsThePhone` | src/sync/event-listener.ts:93-204 | the event handlers change the message table exactly as the events changed the phone's, deleted threads included |
| `SyncConvergence.PlayAt` | src/sync/event-listener.ts:93-204 | after any events a thread holds of each message what the last event that concerns it there left |
| `FullThreadSync.FullThreadSync` | src/sync/operations/full-thread-sync.ts:42-147 | everything after the await: the new tables are related to the old by `Step`; returned counts are the answer's size and the number of stale rows |
| `FullThreadSync.ThreadIsReconciled` | src/sync/operations/full-thread-sync.ts:65-119 | afterwards the thread is exactly the answer's rows plus local rows newer than the snapshot that the answer lacks |
| `FullThreadSync.OtherThreadsUntouched` | src/sync/operations/full-thread-sync.ts:103-139 | rows of other threads that the answer does not mention keep their values and attachments; other conversations are unchanged |
| `FullThreadSync.ConversationCoversThread` | src/sync/operations/full-thread-sync.ts:121-139 | an existing conversation is dated no earlier than any message of the thread or than before, is marked fully synced, and keeps its local read mark |
| `FullThreadSync.OtherColumnsKept` | src/sync/operations/full-thread-sync.ts:121-139 | the row keeps its addresses, read mark and unread count, and without messages its date and preview; no row is made or lost |
| `FullThreadSync.PreviewIsNewest` | src/sync/operations/full-thread-sync.ts:126-137 | the preview is the body of a newest message, unless the row is dated after all of them |
| `FullThreadSync.ReconcileIdempotent` | src/sync/operations/full-thread-sync.ts:52-119 | applying the same answer again changes no message and no attachment |
| `FullThreadSync.StoreAnswer` | src/sync/operations/full-thread-sync.ts:61-101 | the loop stores every row and remembers exactly the ids of the answer |
| `FullThreadSync.Unseen` | src/sync/operations/full-thread-sync.ts:108-114 | delete detection collects each unseen row dated up to the snapshot, once, and no other |
| `FullThreadSync.DeleteUnseen` | src/sync/operations/full-thread-sync.ts:108-119 | exactly the stale rows of the thread are deleted, with their attachments, and counted |
| `FullThreadSync.RefreshFromNewest` | src/sync/operations/full-thread-sync.ts:126-139 | the conversation moves up to a newest stored message; without messages nothing changes |
| `PhoneMessages.StoreMessage` | src/sync/operations/full-thread-sync.ts:65-98 | one message row, then one merged row per attachment |
| `PhoneMessages.ApplyOverlays` | src/sync/operations/full-thread-sync.ts:65-101 | a stored batch overlays the reported rows, last report winning, and touches no conversation |
| `PhoneMessages.ReportedMessage` | src/sync/operations/full-thread-sync.ts:65-80 | a reported message has exactly the columns of its last report, every other row is as before |
| `PhoneMessages.ApplyAttachmentAt` | src/database/database.ts:707-718 | each attachment ends as its stored state merged once with the last report of it |
| `PhoneMessages.ReportedAttachment` | src/database/database.ts:707-718 | a reported attachment has the identity last reported, and every local file, size and flag it had before |
| `PhoneMessages.ApplyIdempotent` | src/sync/operations/quick-message-sync.ts:57-91 | receiving the same batch twice is receiving it once |
| `DatabaseService.Database.UpsertConversation` | src/database/database.ts:658-670 | only the five written columns change; local columns keep their value or start at the schema default |
| `DatabaseService.Database.UpsertMessage` | src/database/database.ts:686-698 | the row replaces any row with its id |
| `DatabaseService.Database.UpsertAttachment` | src/database/database.ts:707-718 | identity from the new row; size, download flag and paths of the stored row win where present |
| `DatabaseService.Database.DeleteConversation` | src/database/database.ts:681 | only the conversation row goes |
| `DatabaseService.Database.DeleteMessagesByIds` | src/database/database.ts:276-288 | the batch loop removes exactly these messages and their attachments |
| `DatabaseService.Database.GetThreadMessages` | src/database/database.ts:700 | every row of the thread once, in ascending date order, ties in any order |
| `DatabaseService.Database.MarkThreadFullySynced` | src/database/database.ts:238-242 | sets flag and date of an existing row, nothing else |
| `DatabaseService.Database.MarkThreadStale` | src/database/database.ts:245-249 | clears flag and date of an existing row |
| `DatabaseService.Database.MarkStaleThreads` | src/database/database.ts:252-259 | clears the flag of rows synced before the cutoff and keeps their date |
| `DatabaseService.Database.MarkThreadLocallyRead` | src/database/database.ts:683 | sets the local read mark of an existing row |
| `DatabaseService.Database.MarkAttachmentDownloaded` | src/database/database.ts:725-727 | sets flag, path and size of an existing attachment |
| `DatabaseService.Database.SetAttachmentThumbnail` | src/database/database.ts:728-730 | sets the thumbnail of an existing attachment |
| `DatabaseService.Database.UpdateAttachmentPath` | src/database/database.ts:731-733 | sets path and type of an existing attachment |
| `EventListener.Listener.HandleNewMessages` | src/sync/event-listener.ts:93-192 | tables change as by the fold over the batch; threads of the batch are flagged exactly if a sync is active |
| `EventListener.Listener.HandleOne` | src/sync/event-listener.ts:100-167 | row and attachments stored; a newer message moves the conversation, the first one creates it |
| `EventListener.Listener.HandleDeleted` | src/sync/event-listener.ts:194-204 | exactly the named messages and their attachments go |
| `EventListener.Listener.HandleThreadDeleted` | src/sync/event-listener.ts:206-215 | the conversation row goes, the messages stay |
| `EventListener.Listener.HandleRead` | src/sync/event-listener.ts:217-232 | an unread conversation becomes read with count zero; nothing else changes |
| `EventListener.Listener.GetAndClearFlaggedThreads` | src/sync/event-listener.ts:59-63 | returns the flagged threads and leaves none |
| `EventListener.NewMessagesOverlay` | src/sync/event-listener.ts:100-115 | a batch overlays exactly its rows on the message table |
| `EventListener.NewMessagesAttachments` | src/sync/event-listener.ts:117-133 | attachments end as after a plain store of the batch |
| `EventListener.NewMessagesDateConversations` | src/sync/event-listener.ts:141-168 | every thread of the batch has a row dated no earlier than its messages; old rows keep local marks and never move back |
| `EventListener.NewMessagesRow` | src/sync/event-listener.ts:141-168 | the row of a thread after a batch: its date is the latest, its unread count grows by exactly the received messages later than the row and all messages of the thread before them, the last of these gives the preview, and all other columns stay, or are those of the first message of a new thread |
| `QuickMessageSync.QuickMessageSync` | src/sync/operations/quick-message-sync.ts:55-112 | rows stored; the conversation follows the last message of the answer if that is not older |
| `QuickMessageSync.CompleteIff` | src/sync/operations/quick-message-sync.ts:50-91 | the sync makes the thread complete exactly when everything older than the window was local |
| `QuickMessageSync.QuickSyncConversation` | src/sync/operations/quick-message-sync.ts:93-108 | an existing conversation never moves back; it takes date and preview of the last message of the answer if that is not older |
| `QuickMessageSync.WindowBounds` | src/sync/sync-orchestrator.ts:674-683 | the window is between one week and ninety days |
| `QuickMessageSync.GuaranteedIff` | src/sync/sync-orchestrator.ts:506-515 | history up to the full sync date plus a quick sync gives everything, for every thread, exactly if the window starts no later than the millisecond after that date |
| `QuickMessageSync.BatchWindowCovers` | src/sync/sync-orchestrator.ts:482-514 | batch sync: that holds exactly for a full sync at most ninety days ago |
| `QuickMessageSync.FlaggedWindowCovers` | src/sync/sync-orchestrator.ts:371-385 | flagged sync: the window is sized when queued and placed when run, so it holds only under the stated condition on the two clock readings |
| `Addresses.DedupeAddresses` | src/sync/operations/thread-list-sync.ts:34-44 | the loop computes the specified list |
| `Addresses.DedupeCovers` | src/sync/operations/thread-list-sync.ts:34-44 | the result carries exactly the non-empty keys of the input |
| `Addresses.DedupeKeepsFirsts` | src/sync/operations/thread-list-sync.ts:34-44 | its elements stand in input order at the first position of their key |
| `Addresses.DedupeDistinct` | src/sync/operations/thread-list-sync.ts:34-44 | no key is repeated |
| `Addresses.PrefixDoesNotMatter` | src/sync/operations/thread-list-sync.ts:26-29 | a country prefix in front of ten or more digits does not change the key |
| `Addresses.PunctuationDoesNotMatter` | src/sync/operations/thread-list-sync.ts:26-29 | a character that is no digit does not change the key |
| `Addresses.DigitsExactly` | src/sync/operations/thread-list-sync.ts:26-29 | exactly the digits of a number count |
| `Addresses.KeyEndsDigits` | src/sync/operations/thread-list-sync.ts:26-29 | the key is the last ten of them, or all of a shorter number |
| `Addresses.NormalizeAddresses` | src/sync/operations/thread-list-sync.ts:47-58 | arrays are deduplicated; other text counts as a one-element array |
| `ThreadListSync.ThreadListSync` | src/sync/operations/thread-list-sync.ts:67-135 | new tables and the three counts, for any list |
| `ThreadListSync.SyncOne` | src/sync/operations/thread-list-sync.ts:83-120 | one list entry: insert, update all, update addresses only, or nothing |
| `ThreadListSync.DeleteAbsent` | src/sync/operations/thread-list-sync.ts:122-128 | exactly the local threads missing from the list lose their row |
| `ThreadListSync.ThreadsMatchPhone` | src/sync/operations/thread-list-sync.ts:75-128 | afterwards the thread ids are the phone's, each row reflects the list, dates never go back, local marks, messages and attachments are untouched |
| `ThreadListSync.ListedRow` | src/sync/operations/thread-list-sync.ts:82-120 | the row of a listed thread: dated by the latest of its date and its entries, showing the last entry that was later than all before, named by the last entry, local columns kept |
| `ThreadListSync.ChangeMeans` | src/sync/operations/thread-list-sync.ts:82-120 | a thread without a row counts as added, a row that changes as updated |
| `ThreadListSync.AddedCountsNewThreads` | src/sync/operations/thread-list-sync.ts:76-102 | the count of added threads is that of listed threads unknown before |
| `ThreadListSync.SecondRunQuietIff` | src/sync/operations/thread-list-sync.ts:82-128 | a second run on the same list adds, updates and removes nothing exactly if entries of one thread agree on their normalized addresses |
| `SmsHandler.HandlePacket` | src/protocol/standard/sms-handler.ts:136-282 | a packet is grouped by thread and stored thread by thread |
| `SmsHandler.StoreBatch` | src/protocol/standard/sms-handler.ts:158-272 | one thread: rows, attachments, then the conversation unless it is newer |
| `SmsHandler.GroupByThread` | src/protocol/standard/sms-handler.ts:143-156 | the grouping loop |
| `SmsHandler.GroupHomogeneous` | src/protocol/standard/sms-handler.ts:143-156 | groups are non-empty and of one thread each |
| `SmsHandler.GroupExact` | src/protocol/standard/sms-handler.ts:143-156 | each thread has one group, of exactly its messages in the order of the packet; a thread without messages has none |
| `SmsHandler.AddToKeepsOrder` | src/protocol/standard/sms-handler.ts:143-156 | the groups stand in the order in which threads first appear |
| `SmsHandler.PacketMessages` | src/protocol/standard/sms-handler.ts:158-222 | every message of the packet is stored; each reported id has exactly the columns of its last report in the order stored, every other row is as before |
| `SmsHandler.PacketAttachments` | src/protocol/standard/sms-handler.ts:176-222 | a reported attachment has the identity of its last report; what was known of its file stays, and a missing thumbnail is the first that came |
| `SmsHandler.PartRowsExact` | src/protocol/standard/sms-handler.ts:176-213 | the attachment rows of a message are its parts, with the thumbnail that came with each |
| `SmsHandler.PacketConversation` | src/protocol/standard/sms-handler.ts:225-272 | a thread is updated by its own messages alone, exactly unless its row is dated after all of them |
| `SmsHandler.MostRecentIsLatest` | src/protocol/standard/sms-handler.ts:229-231 | the message that dates the conversation is the first of the latest |
| `SmsHandler.MergeKeepsAndAdds` | src/protocol/standard/sms-handler.ts:237-254 | known addresses stay in front and each new non-empty one is appended |
| `SmsHandler.BatchShows` | src/protocol/standard/sms-handler.ts:225-272 | the row for a batch: date and text of the first of its latest messages, exactly its unread received messages counted, exactly the known and named addresses with the known ones in front, local columns kept |
| `SmsHandler.GroupsGrow` | src/protocol/standard/sms-handler.ts:158-272 | a packet orphans no attachment, keeps all download state and local marks, moves no conversation back |
| `SmsHandler.DeleteMessage` | src/protocol/standard/sms-handler.ts:784-797 | exactly the message and its attachments go |
| `SmsHandler.DeleteConversation` | src/protocol/standard/sms-handler.ts:802-825 | the conversation, its messages and their attachments go |
| `SmsHandler.NothingLeft` | src/protocol/standard/sms-handler.ts:802-825 | of a deleted conversation no row is left in any table, and every other row stays |
| `SyncRuns.ReachableSound` | src/database/database.ts:276-288 | in every run of syncs, events, packets, downloads and deletions no attachment is orphaned and a downloaded one has a path |
| `SyncRuns.DateNeverDecreases` | src/database/database.ts:658-670 | while a conversation row exists its date never decreases |
| `SyncRuns.DownloadNeverLost` | src/database/database.ts:707-718 | while an attachment row exists a finished download stays finished; receiving phone data does not move its file |
| `SyncRuns.ReadMarkSurvivesSync` | src/database/database.ts:667 | receiving phone data never changes a local read mark |
| `SyncRuns.StaleMarks` | src/database/database.ts:245-259 | the sweep changes the flag of exactly the threads synced before the cutoff, and nothing else; marking one thread stale clears its flag and date |
| `SyncRuns.SweptIff` | src/database/database.ts:252-259 | a thread fully synced at a moment survives a sweep exactly if that moment is not before the cutoff |
| `SyncRuns.ReadMarks` | src/sync/event-listener.ts:217-232 | a read mark set here and reading on the phone change these columns of one row and nothing else |
| `SyncRuns.MarkOutlivesSync` | src/database/database.ts:667 | a read mark set here is still there after any data from the phone |
| `SyncRuns.FilesRecorded` | src/database/database.ts:725-733 | what each statement about a file leaves in the row, and that nothing else changes |
| `SyncRuns.DownloadOutlivesSync` | src/database/database.ts:707-718 | flag, path and size of a download are still there after any data from the phone |
| `SyncRuns.StepGood` | src/sync/operations/full-thread-sync.ts:42-147 | every single step keeps all of these |
| `QueryClient.Client.IssueQuery` | src/sync/query-client.ts:97-152 | refused without a link, queued behind an active query, otherwise dispatched |
| `QueryClient.Client.DispatchQuery` | src/sync/query-client.ts:213-244 | the query becomes active, one packet goes out, its timer is armed |
| `QueryClient.Client.HandleResultPage` | src/sync/query-client.ts:158-201 | a foreign page changes nothing; an own page is recorded, streamed, acknowledged, and completes the query when as many as announced have come |
| `QueryClient.Client.CompleteQuery` | src/sync/query-client.ts:246-268 | pages 1..n concatenated in order resolve the promise, then the queue moves |
| `QueryClient.Client.DrainQueue` | src/sync/query-client.ts:317-328 | the next queued query goes out, without its page callback |
| `QueryClient.Client.TimerFires` | src/sync/query-client.ts:287-299 | the query that armed the timer is cancelled and rejected, then the queue moves |
| `QueryClient.Client.AbortStreaming` | src/sync/query-client.ts:133-141 | any active query of the same resource is cancelled and rejected |
| `QueryClient.Client.ClearSendFunction` | src/sync/query-client.ts:78-91 | active and queued queries are rejected, timer and queue cleared |
| `QueryClientRuns.Reachable` | src/sync/query-client.ts:55-329 | in every run each issued promise is exactly one of active, queued, settled, and settled once; dispatch is in issue order; an active query is connected and timed; nothing waits without one |
| `QueryClientRuns.NextKeepsInv` | src/sync/query-client.ts:78-329 | each callback keeps this |
| `QueryClientRuns.SettledOnlyGrows` | src/sync/query-client.ts:246-300 | settlements are final |
| `QueryClientRuns.OneOutstanding` | src/sync/query-client.ts:104-111 | of the queries ever sent all but the active one are settled |
| `QueryClientRuns.DisconnectSettlesAll` | src/sync/query-client.ts:78-91 | a disconnect leaves no promise open |
| `QueryClientRuns.CallbackEnds` | src/sync/query-client.ts:78-329 | which promises each callback ends, how and in which order: resolved only by a page that completes the count, timed out, aborted, disconnected or refused otherwise |
| `QueryClientRuns.GivingUpCancels` | src/sync/query-client.ts:270-299 | a timeout or abort tells the phone to cancel that query, keeps the last timestamp and sends the next query |
| `QueryClientRuns.OnlyGivingUpCancels` | src/sync/query-client.ts:270-300 | no other callback cancels anything |
| `QueryClientRuns.SentAsIssued` | src/sync/query-client.ts:213-244 | in every run a query is queued, sent and active with the resource it was issued for |
| `QueryClientRuns.AbortSparesOthersIff` | src/sync/query-client.ts:133-141 | in every reachable state an abort handle settles no promise but its own if and only if no other query of the same resource is active |
| `QueryClientRuns.QueuedAbortMissesItself` | src/sync/query-client.ts:133-146 | the handle of a query that waits in the queue never settles that query |
| `QueryClientRuns.StaleAbortHitsNamesake` | src/sync/query-client.ts:133-141 | an instance: the handle of a query already answered cancels the next query of its resource |
| `QueryClientRuns.StreamedExactly` | src/sync/query-client.ts:120-150 | in every run the pages reported to callbacks are exactly the own pages of the streaming queries issued while connected and while no query was active |
| `QueryClientRuns.QueuedStreamIsSilent` | src/sync/query-client.ts:143-146 | an instance: a streaming query queued behind one that times out does not report the page it gets |
| `QueryPages.AnswerDelivered` | src/sync/query-client.ts:158-201 | pages 1..n once each in any order, among foreign pages, queries issued meanwhile and aborts of other resources: the promise resolves with their concatenation, each is acknowledged once, and the query that has waited longest goes out |
| `QueryPages.Completes` | src/sync/query-client.ts:158-268 | the n-th own page settles the promise, duplicates counted |
| `QueryPages.WholeAnswerIff` | src/sync/query-client.ts:174-197 | the value is the whole answer exactly if every page with data is among the n that came |
| `QueryPages.StillWaiting` | src/sync/query-client.ts:158-200 | until then only own pages and the queries issued meanwhile leave a trace |
| `QueryPages.TimestampIsFirst` | src/sync/query-client.ts:170-172 | the reported snapshot time is the first non-zero one among the pages |
| `SyncOrchestrator.Orchestrator.DrainQueue` | src/sync/sync-orchestrator.ts:335-346 | nothing while running or paused, otherwise the first operation starts or the loop ends |
| `SyncOrchestrator.Orchestrator.OperationSettles` | src/sync/sync-orchestrator.ts:354-386 | an aborted loop stops, otherwise it goes on |
| `SyncOrchestrator.Orchestrator.StartHead` | src/sync/sync-orchestrator.ts:340-346 | the head of the queue is in flight and the abort flag is cleared |
| `SyncOrchestrator.Orchestrator.LeaveLoop` | src/sync/sync-orchestrator.ts:363-394 | flagged threads are queued and started, or the orchestrator is ready |
| `SyncOrchestrator.Orchestrator.InsertPriorityOp` | src/sync/sync-orchestrator.ts:396-415 | the operation goes in front; a running one is told to abort and a restart timer is armed |
| `SyncOrchestrator.Orchestrator.OnConnected` | src/sync/sync-orchestrator.ts:136-165 | three phases queued, the open thread's verification after them |
| `SyncOrchestrator.Orchestrator.OnDisconnected` | src/sync/sync-orchestrator.ts:168-186 | queue cleared, offline, the operation in flight told to abort |
| `SyncOrchestrator.Orchestrator.OnThreadOpened` | src/sync/sync-orchestrator.ts:189-240 | priority sync, silent resync or quick sync with verification; a pending background sync of the thread is dropped |
| `SyncOrchestrator.Orchestrator.OnThreadClosed` | src/sync/sync-orchestrator.ts:243-254 | a running operation whose name mentions the thread is aborted |
| `SyncOrchestrator.Orchestrator.ResyncRequested` | src/sync/sync-orchestrator.ts:273-284 | queue cleared and a delayed reconnect armed |
| `SyncOrchestrator.Orchestrator.ResyncTimerFires` | src/sync/sync-orchestrator.ts:280-283 | the delayed reconnect |
| `SyncOrchestrator.Orchestrator.RestartTimerFires` | src/sync/sync-orchestrator.ts:408-413 | the abort flag is cleared and an idle queue moves |
| `SyncOrchestrator.Orchestrator.RequestListResync` | src/sync/sync-orchestrator.ts:260-270 | a priority thread list sync unless offline |
| `SyncOrchestrator.Orchestrator.ResumeQueue` | src/sync/sync-orchestrator.ts:293-297 | an idle queue moves |
| `SyncOrchestrator.Orchestrator.PauseQueue` | src/sync/sync-orchestrator.ts:287-290 | the paused flag only |
| `SyncOrchestrator.Orchestrator.AbortCurrent` | src/sync/sync-orchestrator.ts:300-303 | the abort flag only |
| `SyncOrchestrator.Orchestrator.QueueCountVerification` | src/sync/sync-orchestrator.ts:621-630 | appended once |
| `SyncOrchestrator.Orchestrator.QueueBackgroundFullSyncs` | src/sync/sync-orchestrator.ts:547-594 | one background sync per thread unless aborted |
| `SyncOrchestrator.Orchestrator.CountMismatch` | src/sync/sync-orchestrator.ts:646-666 | one background sync unless queued already |
| `OrchestratorRuns.Exec` | src/sync/sync-orchestrator.ts:136-415 | in every sequence of callbacks: the loop runs exactly while one operation is awaited; flagged threads are accounted for; ready means settled; an idle non-empty queue is paused, offline, awaiting a timer, or stranded by an abort |
| `OrchestratorRuns.NextIsProper` | src/sync/sync-orchestrator.ts:136-415 | each callback keeps this, makes ready only when idle, and drops no flagged thread unless it clears the queue |
| `OrchestratorRuns.ReadyOnlyWhenDone` | src/sync/sync-orchestrator.ts:365-394 | ready is entered only with nothing queued, running or flagged |
| `OrchestratorRuns.OwedUntilStarted` | src/sync/sync-orchestrator.ts:368-386 | a thread with an event during a sync stays flagged or queued until its sync starts or the queue is cleared |
| `OrchestratorRuns.EventsSyncedBeforeReady` | src/sync/sync-orchestrator.ts:365-394 | in every run, between an event during a sync and a later ready, a flagged sync of the thread was started, or a connect, disconnect or resync cleared the queue at a moment when the thread was not flagged |
| `OrchestratorRuns.ConnectStartsIff` | src/sync/sync-orchestrator.ts:136-165 | after a connect, left alone, the orchestrator gets ready having started the sync of exactly the threads that were still flagged at the connect |
| `OrchestratorRuns.LeftAloneGetsReady` | src/sync/sync-orchestrator.ts:335-394 | online, unpaused and not aborted, the loop is ready after exactly as many settled operations as are running, queued and flagged |
| `OrchestratorRuns.LeftAloneRunsInOrder` | src/sync/sync-orchestrator.ts:335-394 | left alone, the loop runs the queue in order and then the flagged threads in the order in which they were flagged |
| `OrchestratorRuns.LeftAloneStartsIff` | src/sync/sync-orchestrator.ts:335-394 | left alone, online, unpaused and not aborted, the loop starts the sync of exactly the threads that are flagged or queued for it |
| `OrchestratorRuns.SettlingStrandsIff` | src/sync/sync-orchestrator.ts:357-360 | when an operation settles the queue is stranded exactly if the abort flag is set, something waits, the link is up, nothing is paused and no timer is armed |
| `OrchestratorRuns.OpeningQueues` | src/sync/sync-orchestrator.ts:189-240 | opening a thread, by what the database says of it: its own operation goes in front of the others, or runs at once, its background sync goes, its count is verified last, priority and abort only for a full or stale sync |
| `OrchestratorRuns.ListResyncQueues` | src/sync/sync-orchestrator.ts:260-270 | a list resync goes in front of the others, or runs at once, unless offline |
| `OrchestratorRuns.ConnectingQueues` | src/sync/sync-orchestrator.ts:136-165 | a connect queues exactly the three phases and the verification of the open thread, and lifts pause and abort |
| `OrchestratorRuns.ClearingClears` | src/sync/sync-orchestrator.ts:168-186 | a disconnect and a resync empty the queue and keep the flags; only the resync arms a timer, whose firing is a connect |
| `OrchestratorRuns.ClosingForgets` | src/sync/sync-orchestrator.ts:243-254 | closing a thread touches its note, its priority and at most the abort flag |
| `OrchestratorRuns.EventFlags` | src/sync/event-listener.ts:173-178 | events are flagged exactly while a sync is active, each thread once, in order |
| `OrchestratorRuns.OperationsAppend` | src/sync/sync-orchestrator.ts:547-666 | what the message sync and a count that differs append to the queue |
| `OrchestratorRuns.PausedStartsNothing` | src/sync/sync-orchestrator.ts:335-346 | while paused nothing is started but by a connect or `resume` |
| `OrchestratorRuns.FlagsSet` | src/sync/sync-orchestrator.ts:287-303 | `pause` and `abort` set their flag and nothing else |
| `OrchestratorRuns.LiftedGoesOn` | src/sync/sync-orchestrator.ts:293-413 | `resume` and the restart timer lift their flag and, if nothing runs, go on with the queue |
| `OrchestratorRuns.SettlingGoesOn` | src/sync/sync-orchestrator.ts:354-394 | as an operation settles: the next one starts unless told to stop or paused; with an empty queue the flagged threads are queued in order and the first started, or the orchestrator is ready |
| `OrchestratorRuns.WithoutConcat` | src/sync/sync-orchestrator.ts:199 | dropping an operation from the queue keeps the others in their order |
| `OrchestratorRuns.AbortStrandsIff` | src/sync/sync-orchestrator.ts:300-303 | the same for `abort` while an operation runs |
| `OrchestratorRuns.OnlySettlingStrands` | src/sync/sync-orchestrator.ts:335-415 | no other callback strands the queue |
| `OrchestratorRuns.OnlyTheseUnstick` | src/sync/sync-orchestrator.ts:335-415 | a stranded queue moves again exactly on a connect, `resume`, a list resync or the opening of a known thread |
| `OrchestratorRuns.AbortStrandsTheQueue` | src/sync/sync-orchestrator.ts:357-360 | a run in which it happens: abort right after the connection |
| `OrchestratorRuns.ClosingAbortsIff` | src/sync/sync-orchestrator.ts:243-254 | in every reachable state closing the priority thread aborts the running operation exactly if its number is that of the operation's thread with trailing digits dropped |
| `OrchestratorRuns.ClosingAbortsAnother` | src/sync/sync-orchestrator.ts:249-252 | a run in which it happens: closing thread 1 aborts a sync of thread 12 |
| `OperationNames.MentionsIff` | src/sync/sync-orchestrator.ts:249 | the text search in the name of an operation finds a thread exactly if its decimal digits begin those of the operation's thread |
| `OperationNames.HitsOnlyItselfIff` | src/sync/sync-orchestrator.ts:249 | no other thread numbered up to n can be hit exactly if the closed thread is number 0 or ten times its number exceeds n |
| `OfflineReplay.FlushPendingOperations` | src/sync/sync-orchestrator.ts:449-471 | exactly a prefix of the queue goes; the phone ran it in order and, beyond it, at most the first operation that stayed |
| `OfflineReplay.PendingOperations.QueueOperation` | src/database/database.ts:293-297 | appended under a fresh id |
| `OfflineReplay.PendingOperations.RemovePendingOperation` | src/database/database.ts:309-312 | the row with the id goes, order kept |
| `OfflineReplay.FlushIsAttempt` | src/sync/sync-orchestrator.ts:449-471 | an uninterrupted flush leaves queue and phone as the run of one start and its answers, step by step |
| `OfflineReplay.FailureReaches` | src/sync/sync-orchestrator.ts:455-468 | a flush that stops leaves the phone as if all before the failure had run, and the failed operation if it was reached |
| `OfflineReplay.RequestsReach` | src/sync/sync-orchestrator.ts:455-468 | what a request, done or failed, leaves on the phone and in the queue |
| `OfflineReplay.ReplayedIff` | src/sync/sync-orchestrator.ts:449-471 | in any run of attempts failing anywhere and requests that succeed or are queued: when the queue is empty the registers are as if each request ran once in order, exactly if the last request about each register was queued or found no other value queued for it |
| `OfflineReplay.ReplayedOnceInOrder` | src/sync/sync-orchestrator.ts:449-471 | in particular, without requests that succeed at once, an empty queue means the registers are as if each queued operation ran once in order |
| `OfflineReplay.StaysOnTrack` | src/sync/sync-orchestrator.ts:455-468 | replays, failures that did or did not reach the phone, and newly queued operations keep every register on track |
| `OfflineReplay.ImmediateRequestIff` | src/sync/sync-orchestrator.ts:455-468 | a request that succeeds at once is kept exactly if no queued operation sets the register to another value |
| `OfflineReplay.QueueIsSuffix` | src/database/database.ts:293-312 | the queue is always a suffix of what was queued |
| `TreemapTiling.LayoutTiles` | gui/src/renderer/src/lib/treemap.ts:28-120 | every point of the drawing area lies in exactly one rectangle, every other point in none |
| `TreemapTiling.TilesApart` | gui/src/renderer/src/lib/treemap.ts:24-27 | each rectangle lies inside and no two overlap |
| `TreemapTiling.LayoutShares` | gui/src/renderer/src/lib/treemap.ts:33-48 | exactly the positive items, descending, each with its share of the area; the shares add up to the area |
| `TreemapTiling.LayoutEmptyIff` | gui/src/renderer/src/lib/treemap.ts:33-37 | nothing is drawn exactly if no item is positive or there is no area |
| `TreemapTiling.SquarifiedShares` | gui/src/renderer/src/lib/treemap.ts:58-120 | the recursion gives each item a proper rectangle of its own area |
| `TreemapTiling.WorstIsTrue` | gui/src/renderer/src/lib/treemap.ts:126-138 | what `worstAspect` reports is the worst aspect among the rectangles the row is laid out as |
| `TreemapTiling.EndsDecide` | gui/src/renderer/src/lib/treemap.ts:126-138 | on descending areas the first and last alone decide it |
| `TreemapTiling.ChosenRowIsBest` | gui/src/renderer/src/lib/treemap.ts:79-88 | the chosen row is no worse than any shorter one and strictly better than one item more |
| `TreemapTiling.GreedyRowIsSquarest` | gui/src/renderer/src/lib/treemap.ts:79-113 | the same, stated about the rectangles |
| `TreemapTiling.CoversOnce` | gui/src/renderer/src/lib/treemap.ts:58-120 | the recursion covers each point of its container once |
| `Treemap.LayoutTreemap` | gui/src/renderer/src/lib/treemap.ts:28-49 | filter, total, sort, scale, lay out; empty without positive items or area |
| `Treemap.Squarify` | gui/src/renderer/src/lib/treemap.ts:58-120 | appends the specified rectangles to the output and terminates, each call taking at least one item |
| `Treemap.ChooseRow` | gui/src/renderer/src/lib/treemap.ts:74-88 | the scan ends at the first worsening |
| `Treemap.RowLength` | gui/src/renderer/src/lib/treemap.ts:79-88 | the row takes at least one item and ends at the first worsening |
| `Treemap.WorstAspect` | gui/src/renderer/src/lib/treemap.ts:126-138 | the fold computes the specified ratio |
| `Treemap.LayColumn` | gui/src/renderer/src/lib/treemap.ts:95-106 | a row along the left edge and the remaining rectangle |
| `Treemap.LayLine` | gui/src/renderer/src/lib/treemap.ts:107-118 | a row along the top edge and the remaining rectangle |
| `Treemap.StripFits` | gui/src/renderer/src/lib/treemap.ts:90-118 | the remaining areas exactly fill the remaining rectangle |
| `GalleryCache.Cache.RunEviction` | src/gallery/gallery-cache.ts:210-281 | evicts the shortest oldest-first prefix of the eligible entries that suffices, or all of them |
| `GalleryCache.Cache.SumSizes` | src/gallery/gallery-cache.ts:211-214 | the running total is the sum over the index |
| `GalleryCache.Cache.ListEligible` | src/gallery/gallery-cache.ts:220-230 | the eligible entries once each, oldest first |
| `GalleryCache.BudgetOrNothingLeft` | src/gallery/gallery-cache.ts:235-238 | ends within the budget or with nothing eligible |
| `GalleryCache.ProtectedStay` | src/gallery/gallery-cache.ts:223-227 | entries of this session and young entries stay unchanged |
| `GalleryCache.OldestGoFirst` | src/gallery/gallery-cache.ts:229-235 | nothing evicted was accessed later than an eligible entry that stayed |
| `GalleryCache.EvictionStep` | src/gallery/gallery-cache.ts:266-269 | each removal lowers the total by the entry's size |
| `GalleryCache.Cache.StoreThumbnail` | src/gallery/gallery-cache.ts:101-120 | the total grows by the bytes stored; the entry is protected for the session |
| `GalleryCache.Cache.StoreFullFile` | src/gallery/gallery-cache.ts:122-142 | likewise, keeping the failure mark |
| `GalleryCache.Cache.MarkAccessed` | src/gallery/gallery-cache.ts:177-184 | only the access time changes; the path is protected |
| `AttachmentDownloads.Reachable` | src/protocol/standard/sms-handler.ts:649-764 | in every run one download at most, `downloadInFlight` telling; nothing waits for a connected idle phone; each promise waits, is under way, settled or abandoned, once |
| `AttachmentDownloads.SingleFlight` | src/protocol/standard/sms-handler.ts:712-764 | `pendingDownloads` has one key exactly while a download is in flight |
| `AttachmentDownloads.AbandonedIff` | src/protocol/standard/sms-handler.ts:735-746 | promises are abandoned exactly when a download times out, and then exactly its riders |
| `AttachmentDownloads.ServedInOrder` | src/protocol/standard/sms-handler.ts:649-764 | in every run downloads start in the order of the requests that wait, each for the attachment it was asked for |
| `AttachmentDownloads.WhoIsSettled` | src/protocol/standard/sms-handler.ts:445-453 | each callback settles exactly the promises it is for: starter and riders of its download, the starter alone on a timeout |
| `AttachmentDownloads.AbandonedForGood` | src/protocol/standard/sms-handler.ts:672-686 | an abandoned promise is never settled |
| `AttachmentDownloads.SecondCallerIsAbandoned` | src/protocol/standard/sms-handler.ts:735-746 | a run in which it happens: two callers for one attachment, and a timeout |
| `AttachmentDownloads.Downloads.DownloadAttachment` | src/protocol/standard/sms-handler.ts:649-705 | settled at once, joined to the download under way, or queued |
| `AttachmentDownloads.Downloads.ProcessDownloadQueue` | src/protocol/standard/sms-handler.ts:712-764 | starts the next download if idle and connected |
| `AttachmentDownloads.Downloads.DownloadSettles` | src/protocol/standard/sms-handler.ts:445-453 | starter and riders are settled, then the next download starts |
| `AttachmentDownloads.Downloads.DownloadTimesOut` | src/protocol/standard/sms-handler.ts:735-746 | only the starter is settled |
| `AttachmentDownloads.Downloads.ResumeDownloads` | src/protocol/standard/sms-handler.ts:770-777 | waiting downloads go on after a reconnect |
| `Thumbnails.Reachable` | src/gallery/gallery-handler.ts:256-378 | open requests equal the counter, are at most five, and exactly five while any request waits; each request is in one place, once |
| `Thumbnails.StartedInOrder` | src/gallery/gallery-handler.ts:372-378 | in every run waiting requests are started in the order in which they came |
| `Thumbnails.WhoIsAnswered` | src/gallery/gallery-handler.ts:256-378 | each callback answers, starts or rejects exactly the request it is for |
| `Thumbnails.Handler.GetThumbnail` | src/gallery/gallery-handler.ts:256-288 | answered, queued at the limit, or started |
| `Thumbnails.Handler.FetchEnds` | src/gallery/gallery-handler.ts:363-366 | the request leaves and waiting ones move up |
| `Thumbnails.Handler.DrainThumbnailQueue` | src/gallery/gallery-handler.ts:372-378 | starts waiting requests while there is room |
| `WebDavTransfer.HandleCopy` | src/webdav/webdav-server.ts:469-522 | a different destination becomes equal to the source and nothing else changes; onto itself only the first chunk read is left |
| `WebDavTransfer.SelfCopyLeavesIff` | src/webdav/webdav-server.ts:497-517 | each such result comes out of some read that meets the read contract, and no other does |
| `WebDavTransfer.SelfCopySafeIff` | src/webdav/webdav-server.ts:497-517 | a copy onto itself is sure to keep the file exactly if it has at most one byte |
| `WebDavTransfer.SelfCopyShortensLongFiles` | src/webdav/webdav-server.ts:497-517 | it always loses bytes exactly if the file is longer than a chunk |
| `WebDavTransfer.HandleGet` | src/webdav/webdav-server.ts:331-375 | 404 without the file; otherwise 200 with no body for HEAD, and for GET one of the possible bodies |
| `WebDavTransfer.PossibleBodyIff` | src/webdav/webdav-server.ts:361-374 | the possible bodies are exactly those some sequence of reads leads to: all of a file no longer than the reported size, otherwise that size and less than a chunk more, nothing for size zero |
| `WebDavTransfer.GetWholeIff` | src/webdav/webdav-server.ts:361-374 | every possible body is the file exactly if the reported size is not too small |
| `WebDavTransfer.HandlePut` | src/webdav/webdav-server.ts:381-407 | stores the concatenation of the chunks; status tells replaced from created |
| `WebDavTransfer.ReadMedia` | src/webdav/thread-media-fs.ts:134-149 | the media read satisfies the read contract exactly if some byte is asked for or the offset is at the end; asking for none answers the end of the file |
| `SendQueue.StatusAndResponseCommute` | gui/src/renderer/src/stores/send-queue.svelte.ts:183-197 | from any state that does not know the name, response and status in either order give the same list, maps and buffer, and the same timers except when a buffered `sent` is taken back |
| `SendQueue.StatusIsShown` | gui/src/renderer/src/stores/send-queue.svelte.ts:183-237 | in either order the ghost ends with the name and the status, no other message changes, and `sent` arms its removal |
| `SendQueue.GhostIsShown` | gui/src/renderer/src/stores/send-queue.svelte.ts:148-160 | a ghost is shown exactly unless a sent message of its thread with its text is on screen, dated within the window |
| `SendQueue.SkippedGhostLeavesStatus` | gui/src/renderer/src/stores/send-queue.svelte.ts:176-181 | without a ghost the list is the same either way, but a late status stays buffered |
| `SendQueue.DifferentSendsCommute` | gui/src/renderer/src/stores/send-queue.svelte.ts:183-237 | from any state, the response to one send and the status of another commute |
| `SendQueue.Queue.OnResponse` | gui/src/renderer/src/stores/send-queue.svelte.ts:172-197 | records the name and applies a buffered status |
| `SendQueue.Queue.OnSendStatus` | gui/src/renderer/src/stores/send-queue.svelte.ts:330-340 | applies a status to a known message, buffers it otherwise |
| `SendQueue.Queue.Apply` | gui/src/renderer/src/stores/send-queue.svelte.ts:221-237 | marks the message if it is still there; sent arms the removal timer |
| `SendQueue.Queue.ShowGhost` | gui/src/renderer/src/stores/send-queue.svelte.ts:148-160 | the ghost is shown unless a matching row is on screen |
| `ExportNames.ExportFolderNames` | src/backup/thread-export.ts:134-142 | each name is the least free one; for any folding of case that keeps numbers in parentheses apart the names of one export are pairwise distinct when folded |
| `ExportNames.AsciiKeepsNumbers` | src/backup/thread-export.ts:474-480 | folding the letters of ASCII is such a folding |
| `ExportNames.Disambiguate` | src/backup/thread-export.ts:474-480 | for any folding the search terminates and returns the base or its least free number |
| `ExportNames.LeastFreeUnique` | src/backup/thread-export.ts:474-480 | the choice is determined by the names in use |
| `LineFraming.Receiver.OnData` | src/ipc/server.ts:105-118 | hands over the complete lines of buffer plus chunk and keeps the rest |
| `LineFraming.Receiver.Receive` | src/ipc/client.ts:59-68 | after any chunks: the lines of the whole text, and its rest |
| `LineFraming.ArriveInOrder` | src/ipc/json-rpc.ts:43-45 | newline-free messages serialized in sequence and cut anywhere arrive exactly, in order, and nothing is left |
| `LineFraming.FramingNeedsNewlineFree` | src/ipc/json-rpc.ts:43-45 | this holds exactly for newline-free messages |
| `LineFraming.PrefixArrives` | src/ipc/server.ts:105-118 | after part of the text the lines handed over are a prefix of the messages |
| `LineFraming.SplitParts` | src/ipc/server.ts:110-117 | the buffer never holds a newline after a chunk |
| `LineFraming.SplitInTwo` | src/ipc/client.ts:59-68 | where the text is cut makes no difference |
| `LineFraming.SplitLossless` | src/ipc/client.ts:59-68 | lines and rest make up the text |

## Left out

- Threads on the phone: one that loses its last message counts as present until it is reported deleted.
- Phone's side of a query: assumed to answer `threads.messages` with the rows of the thread dated at or after
  `sinceDate`, and to report the time of the snapshot in its first page.
- `has_outgoing`: the column is not stored and the upserts that pass it change nothing else, so the branch of the quick sync that only sets it is the identity here.
- JSON: an address list is a sequence, and the phone sends either a list or text that is no list; a payload is a key and a value.
- Notifications, log output, progress percentages and the callback for new threads are not modelled.
- Choice of threads in the batch message sync, its per-thread error handling, and the phases' own requests (filters, read overrides, contacts): an operation is atomic between start and finish, except that it may append background syncs.
- Event loop: callbacks run one at a time; a send function does not throw and `onPage` does not call back into the client; an armed timer may fire at any time.
- File contents, image and video processing, hashing, certificates, sockets and windows.
- Gallery cache: the index file, failure marks and clearing; sizes are those recorded in the index.
- Send queue: cancel, retry, clearing and the removal of ghosts when rows arrive.
- `ReadMedia`: looking up the entry and waiting for its download come before the modelled part.
- `HandleGet`: directories, headers and the text of the error answer.
- `HandleCopy`: directories and a missing destination header; the size from `stat` is taken to be the file's.
- `ExportFolderNames`: base names are given rather than built from contacts, and `toLowerCase` is any function on names.
- `OnData`: chunks are text; a multi-byte character cut in two by the transport is outside the model.
- `Squarify`: real numbers instead of floating point.
- `SetEntries` of the media share, directory copies, locks and property updates of the WebDAV server.
- Attachment rows that `threads.media` creates may precede their message and are not part of the runs.
