/**
 * Runs of the store: any number of sync operations, phone events, packets, downloads and deletions in any order.
 * A sync operation awaits only its query, so whatever happens meanwhile is a step of its own before it.
 */
module SyncRuns {
  import opened Wrappers
  import opened Store
  import opened PhoneMessages
  import opened Addresses
  import EventListener
  import FullThreadSync
  import QuickMessageSync
  import ThreadListSync
  import SmsHandler

  datatype Op =
    | FullSync(threadId: int, msgs: seq<PhoneMessage>, timestamp: int, now: int)
    | QuickSync(threadId: int, msgs: seq<PhoneMessage>)
    | ThreadList(list: seq<ThreadListSync.PhoneThread<RawAddresses>>)
    | NewMessages(received: bool, msgs: seq<PhoneMessage>)
    | Packet(packet: SmsHandler.Batch)
    | MessagesDeleted(ids: set<int>)
    | ThreadDeleted(threadId: int)
    | ConversationDeleted(threadId: int)
    | ReadOnPhone(threadId: int)
    | ReadHere(threadId: int, now: int)
    | Staled(threadId: int)
    | StaleSweep(cutoff: int)
    | Downloaded(key: PartKey, path: string, size: int)
    | Thumbnailed(key: PartKey, path: string)
    | Moved(key: PartKey, path: string, mime: string)

  ghost predicate Step(a: Tables, op: Op, b: Tables) {
    match op
    case FullSync(t, msgs, timestamp, now) => FullThreadSync.Step(a, t, msgs, timestamp, now, b)
    case QuickSync(t, msgs) => b == QuickMessageSync.QuickSync(a, t, msgs)
    case ThreadList(list) => b == ThreadListSync.SyncThreads(a, ThreadListSync.Entries(list))
    case NewMessages(received, msgs) => b == EventListener.NewMessages(a, received, msgs)
    case Packet(packet) => b == SmsHandler.HandleMessages(a, packet)
    case MessagesDeleted(ids) => b == DeleteMessages(a, ids)
    case ThreadDeleted(t) => b == DeleteConversation(a, t)
    case ConversationDeleted(t) => b == SmsHandler.DeleteThread(a, t)
    case ReadOnPhone(t) => b == EventListener.ReadOnPhone(a, t)
    case ReadHere(t, now) => b == MarkLocallyRead(a, t, now)
    case Staled(t) => b == MarkStale(a, t)
    case StaleSweep(cutoff) => b == MarkStaleBefore(a, cutoff)
    case Downloaded(key, path, size) => b == MarkDownloaded(a, key, path, size)
    case Thumbnailed(key, path) => b == SetThumbnail(a, key, path)
    case Moved(key, path, mime) => b == UpdatePath(a, key, path, mime)
  }

  /** No attachment row without its message row; a downloaded attachment has a file. */
  ghost predicate Sound(tb: Tables) {
    forall k | k in tb.attachments ::
      k.1 in tb.messages && (tb.attachments[k].downloaded ==> tb.attachments[k].localPath.Some?)
  }

  /** What a step may do to an attachment that it does not delete. */
  ghost predicate DownloadKept(a: Tables, b: Tables, resync: bool) {
    forall k | k in a.attachments && k in b.attachments ::
      && (a.attachments[k].downloaded ==> b.attachments[k].downloaded)
      && (a.attachments[k].localPath.Some? ==> b.attachments[k].localPath.Some?)
      && (resync ==>
            && b.attachments[k].downloaded == a.attachments[k].downloaded
            && b.attachments[k].localPath == a.attachments[k].localPath
            && b.attachments[k].fileSize == a.attachments[k].fileSize
            && (a.attachments[k].thumbnailPath.Some? ==> b.attachments[k].thumbnailPath == a.attachments[k].thumbnailPath))
  }

  /** No conversation that survives the step moves back in time. */
  ghost predicate DatesKept(a: Tables, b: Tables) {
    forall t | t in a.conversations && t in b.conversations :: a.conversations[t].date <= b.conversations[t].date
  }

  /** Data from the phone never overwrites the desktop's own marks, except that a full sync marks its thread. */
  ghost predicate MarksKept(a: Tables, op: Op, b: Tables) {
    forall t | t in a.conversations && t in b.conversations && Resync(op) ::
      && a.conversations[t].locallyReadAt == b.conversations[t].locallyReadAt
      && ((op.FullSync? && op.threadId == t) || LocalColumnsKept(a.conversations[t], b.conversations[t]))
  }

  /** Steps that bring data from the phone. */
  predicate Resync(op: Op) {
    op.FullSync? || op.QuickSync? || op.ThreadList? || op.NewMessages? || op.Packet?
  }

  ghost predicate Good(a: Tables, op: Op, b: Tables) {
    Sound(b) && DownloadKept(a, b, Resync(op)) && DatesKept(a, b) && MarksKept(a, op, b)
  }

  /** Storing phone messages, with the conversations aside. */
  lemma ApplyGrows(tb: Tables, msgs: seq<PhoneMessage>)
    ensures SmsHandler.AttachmentsGrow(tb, Apply(tb, msgs))
  {
    var r := Apply(tb, msgs);
    ApplyOverlays(tb, msgs);
    forall k
      ensures k in tb.attachments ==> k in r.attachments
      ensures k in tb.attachments ==>
        && r.attachments[k].downloaded == tb.attachments[k].downloaded
        && r.attachments[k].localPath == tb.attachments[k].localPath
        && r.attachments[k].fileSize == tb.attachments[k].fileSize
        && r.attachments[k].thumbnailPath == tb.attachments[k].thumbnailPath
      ensures k in r.attachments && k !in tb.attachments ==>
        k.1 in r.messages && !r.attachments[k].downloaded && r.attachments[k].localPath == None
    {
      ApplyAttachmentAt(tb, msgs, k);
      if LastReport(msgs, k).Some? {
        ReportNamesItsMessage(msgs, k);
      }
    }
  }

  lemma FullSyncGood(a: Tables, op: Op, b: Tables)
    requires op.FullSync? && Sound(a) && Step(a, op, b)
    ensures Good(a, op, b)
  {
    var applied := Apply(a, op.msgs);
    ApplyGrows(a, op.msgs);
    FullThreadSync.StepKeepsRows(a, op.threadId, op.msgs, op.timestamp, op.now, b);
    forall t | t in a.conversations && t in b.conversations
      ensures a.conversations[t].date <= b.conversations[t].date
      ensures a.conversations[t].locallyReadAt == b.conversations[t].locallyReadAt
      ensures t != op.threadId ==> LocalColumnsKept(a.conversations[t], b.conversations[t])
    {
      if t == op.threadId {
        FullThreadSync.ConversationCoversThread(a, t, op.msgs, op.timestamp, op.now, b);
      } else {
        FullThreadSync.OtherThreadsUntouched(a, op.threadId, op.msgs, op.timestamp, op.now, b, t);
        assert Lookup(a.conversations, t) == Lookup(b.conversations, t);
      }
    }
  }

  lemma QuickSyncGood(a: Tables, op: Op, b: Tables)
    requires op.QuickSync? && Sound(a) && Step(a, op, b)
    ensures Good(a, op, b)
  {
    ApplyGrows(a, op.msgs);
    ApplyOverlays(a, op.msgs);
  }

  lemma NewMessagesGood(a: Tables, op: Op, b: Tables)
    requires op.NewMessages? && Sound(a) && Step(a, op, b)
    ensures Good(a, op, b)
  {
    ApplyGrows(a, op.msgs);
    ApplyOverlays(a, op.msgs);
    EventListener.NewMessagesOverlay(a, op.received, op.msgs);
    EventListener.NewMessagesAttachments(a, op.received, op.msgs);
    EventListener.NewMessagesDateConversations(a, op.received, op.msgs);
  }

  lemma EntriesGood(a: Tables, list: seq<ThreadListSync.Entry>, b: Tables)
    requires Sound(a) && b == ThreadListSync.SyncThreads(a, list)
    ensures Sound(b) && DownloadKept(a, b, true) && DatesKept(a, b)
    ensures forall t | t in a.conversations && t in b.conversations ::
        LocalColumnsKept(a.conversations[t], b.conversations[t])
  {
    ThreadListSync.ThreadsMatchPhone(a, list);
    forall t | t in a.conversations && t in b.conversations
      ensures a.conversations[t].date <= b.conversations[t].date
      ensures LocalColumnsKept(a.conversations[t], b.conversations[t])
    {
      assert ThreadListSync.RowKept(a.conversations, b.conversations, t);
    }
  }

  lemma PacketGood(a: Tables, op: Op, b: Tables)
    requires op.Packet? && Sound(a) && Step(a, op, b)
    ensures Good(a, op, b)
  {
    SmsHandler.GroupHomogeneous(op.packet);
    SmsHandler.GroupsGrow(a, SmsHandler.Group(op.packet));
  }

  lemma AttachmentMarkGood(a: Tables, op: Op, b: Tables)
    requires op.Downloaded? || op.Thumbnailed? || op.Moved?
    requires Sound(a) && Step(a, op, b)
    ensures Good(a, op, b)
  {
    if op.key in a.attachments {
      var changed := b.attachments[op.key];
      assert b == a.(attachments := a.attachments[op.key := changed]);
    }
  }

  /** Every step keeps the store sound, keeps downloads, and moves no conversation back in time. */
  lemma StepGood(a: Tables, op: Op, b: Tables)
    requires Sound(a) && Step(a, op, b)
    ensures Good(a, op, b)
  {
    if op.FullSync? {
      FullSyncGood(a, op, b);
    } else if op.QuickSync? {
      QuickSyncGood(a, op, b);
    } else if op.ThreadList? {
      EntriesGood(a, ThreadListSync.Entries(op.list), b);
    } else if op.NewMessages? {
      NewMessagesGood(a, op, b);
    } else if op.Packet? {
      PacketGood(a, op, b);
    } else if op.Downloaded? || op.Thumbnailed? || op.Moved? {
      AttachmentMarkGood(a, op, b);
    } else if op.ReadOnPhone? || op.ReadHere? || op.Staled? || op.StaleSweep? {
    } else {
    }
  }

  // ----- marks, and what later syncs leave of them -----

  /** A thread fully synced at `now` is still complete after a sweep exactly if `now` is not before the cutoff. */
  lemma SweptIff(a: Tables, t: int, msgs: seq<PhoneMessage>, timestamp: int, now: int, b: Tables, cutoff: int)
    requires FullThreadSync.Step(a, t, msgs, timestamp, now, b) && t in b.conversations && now > 0
    ensures MarkStaleBefore(b, cutoff).conversations[t].fullSyncComplete <==> cutoff <= now
  {
    FullThreadSync.OtherColumnsKept(a, t, msgs, timestamp, now, b);
  }

  /** The sweep changes nothing but the flag of threads synced before the cutoff; a single thread also loses its date. */
  lemma StaleMarks(tb: Tables, t: int, cutoff: int)
    ensures var swept := MarkStaleBefore(tb, cutoff);
      && swept == tb.(conversations := swept.conversations) && swept.conversations.Keys == tb.conversations.Keys
      && forall u | u in tb.conversations :: var was, row := tb.conversations[u], swept.conversations[u];
           && row == was.(fullSyncComplete := row.fullSyncComplete)
           && (row.fullSyncComplete <==> was.fullSyncComplete && (was.fullSyncDate <= 0 || cutoff <= was.fullSyncDate))
    ensures var stale := MarkStale(tb, t);
      && OnlyThreadChanged(tb, t, stale)
      && (t in tb.conversations ==> var was, row := tb.conversations[t], stale.conversations[t];
            row == was.(fullSyncComplete := false, fullSyncDate := row.fullSyncDate) && row.fullSyncDate == 0)
  {
  }

  /** No table but the conversations, and there no row but that of the thread, differs. */
  ghost predicate OnlyThreadChanged(a: Tables, t: int, b: Tables) {
    && a.messages == b.messages && a.attachments == b.attachments && a.conversations.Keys == b.conversations.Keys
    && forall u | u in a.conversations && u != t :: b.conversations[u] == a.conversations[u]
  }

  /** A read mark set here, and reading on the phone, which clears a count and nothing else. */
  lemma ReadMarks(tb: Tables, t: int, now: int)
    ensures var here := MarkLocallyRead(tb, t, now);
      && OnlyThreadChanged(tb, t, here)
      && (t in tb.conversations ==>
            here.conversations[t] == tb.conversations[t].(locallyReadAt := here.conversations[t].locallyReadAt)
            && here.conversations[t].locallyReadAt == Some(now))
    ensures var there := EventListener.ReadOnPhone(tb, t);
      && OnlyThreadChanged(tb, t, there)
      && (t in tb.conversations ==> var was, row := tb.conversations[t], there.conversations[t];
            && row == was.(read := row.read, unreadCount := row.unreadCount)
            && if was.unreadCount > 0 then row.read == 1 && row.unreadCount == 0 else row == was)
  {
  }

  /** Such a mark outlives any data from the phone. */
  lemma MarkOutlivesSync(tb: Tables, t: int, now: int, op: Op, b: Tables)
    requires Sound(tb) && t in tb.conversations && t in b.conversations
    requires Resync(op) && Step(MarkLocallyRead(tb, t, now), op, b)
    ensures b.conversations[t].locallyReadAt == Some(now)
  {
    StepGood(MarkLocallyRead(tb, t, now), op, b);
  }

  /** Files recorded for an attachment: what the row says afterwards; no other row and no other table changes. */
  ghost predicate OnlyAttachmentChanged(a: Tables, key: PartKey, b: Tables) {
    && a.messages == b.messages && a.conversations == b.conversations && a.attachments.Keys == b.attachments.Keys
    && forall k | k in a.attachments && k != key :: b.attachments[k] == a.attachments[k]
  }

  lemma FilesRecorded(tb: Tables, key: PartKey, path: string, size: int, mime: string)
    ensures OnlyAttachmentChanged(tb, key, MarkDownloaded(tb, key, path, size))
         && OnlyAttachmentChanged(tb, key, SetThumbnail(tb, key, path))
         && OnlyAttachmentChanged(tb, key, UpdatePath(tb, key, path, mime))
    ensures key in tb.attachments ==> HasFile(tb.attachments[key], path, size, MarkDownloaded(tb, key, path, size).attachments[key])
    ensures key in tb.attachments ==> HasThumbnail(tb.attachments[key], path, SetThumbnail(tb, key, path).attachments[key])
    ensures key in tb.attachments ==> HasMoved(tb.attachments[key], path, mime, UpdatePath(tb, key, path, mime).attachments[key])
  {
  }

  predicate HasFile(was: Attachment, path: string, size: int, row: Attachment) {
    && row.downloaded && row.localPath == Some(path) && row.fileSize == Some(size)
    && row == was.(downloaded := true, localPath := row.localPath, fileSize := row.fileSize)
  }

  predicate HasThumbnail(was: Attachment, path: string, row: Attachment) {
    row.thumbnailPath == Some(path) && row == was.(thumbnailPath := row.thumbnailPath)
  }

  predicate HasMoved(was: Attachment, path: string, mime: string, row: Attachment) {
    row.localPath == Some(path) && row.mimeType == mime && row == was.(localPath := row.localPath, mimeType := row.mimeType)
  }

  /** What was recorded for a download is still there after any data from the phone. */
  lemma DownloadOutlivesSync(tb: Tables, key: PartKey, path: string, size: int, op: Op, b: Tables)
    requires Sound(tb) && key in tb.attachments && key in b.attachments
    requires Resync(op) && Step(MarkDownloaded(tb, key, path, size), op, b)
    ensures b.attachments[key].downloaded && b.attachments[key].localPath == Some(path) && b.attachments[key].fileSize == Some(size)
  {
    var marked := MarkDownloaded(tb, key, path, size);
    assert marked == tb.(attachments := tb.attachments[key := marked.attachments[key]]);
    StepGood(marked, op, b);
  }

  // ----- runs -----

  ghost predicate Run(states: seq<Tables>, ops: seq<Op>) {
    && |states| == |ops| + 1
    && states[0] == Tables(map[], map[], map[])
    && forall i | 0 <= i < |ops| :: Step(states[i], ops[i], states[i + 1])
  }

  /** In every reachable state no attachment is orphaned and every downloaded attachment has a path. */
  lemma {:induction false} ReachableSound(states: seq<Tables>, ops: seq<Op>, i: nat)
    requires Run(states, ops) && i < |states|
    ensures Sound(states[i])
  {
    if i > 0 {
      ReachableSound(states, ops, i - 1);
      StepGood(states[i - 1], ops[i - 1], states[i]);
    }
  }

  /** While a conversation's row exists, its date never decreases. */
  lemma {:induction false} DateNeverDecreases(states: seq<Tables>, ops: seq<Op>, i: nat, j: nat, threadId: int)
    requires Run(states, ops) && i <= j < |states|
    requires forall k | i <= k <= j :: threadId in states[k].conversations
    ensures states[i].conversations[threadId].date <= states[j].conversations[threadId].date
    decreases j
  {
    if i < j {
      DateNeverDecreases(states, ops, i, j - 1, threadId);
      ReachableSound(states, ops, j - 1);
      StepGood(states[j - 1], ops[j - 1], states[j]);
    }
  }

  ghost predicate Kept(a: Tables, b: Tables, key: PartKey) {
    key in a.attachments && key in b.attachments
    && (a.attachments[key].downloaded ==> b.attachments[key].downloaded)
  }

  ghost predicate SameFile(a: Tables, b: Tables, key: PartKey) {
    key in a.attachments && key in b.attachments && a.attachments[key].localPath == b.attachments[key].localPath
  }

  lemma StepKeeps(states: seq<Tables>, ops: seq<Op>, i: nat, key: PartKey)
    requires Run(states, ops) && i < |ops|
    requires key in states[i].attachments && key in states[i + 1].attachments
    ensures Kept(states[i], states[i + 1], key)
    ensures Resync(ops[i]) ==> SameFile(states[i], states[i + 1], key)
  {
    ReachableSound(states, ops, i);
    StepGood(states[i], ops[i], states[i + 1]);
  }

  /** Receiving data from the phone never clears or moves a local read mark. */
  lemma ReadMarkSurvivesSync(states: seq<Tables>, ops: seq<Op>, i: nat, threadId: int)
    requires Run(states, ops) && i < |ops| && Resync(ops[i])
    requires threadId in states[i].conversations && threadId in states[i + 1].conversations
    ensures states[i + 1].conversations[threadId].locallyReadAt == states[i].conversations[threadId].locallyReadAt
  {
    ReachableSound(states, ops, i);
    StepGood(states[i], ops[i], states[i + 1]);
  }

  /** While an attachment's row exists, a finished download stays finished; syncing does not even move its file. */
  lemma {:induction false} DownloadNeverLost(states: seq<Tables>, ops: seq<Op>, i: nat, j: nat, key: PartKey)
    requires Run(states, ops) && i <= j < |states|
    requires forall k | i <= k <= j :: key in states[k].attachments
    ensures Kept(states[i], states[j], key)
    ensures (forall k | i <= k < j :: Resync(ops[k])) ==> SameFile(states[i], states[j], key)
    decreases j
  {
    if i < j {
      DownloadNeverLost(states, ops, i, j - 1, key);
      StepKeeps(states, ops, j - 1, key);
    }
  }
}
