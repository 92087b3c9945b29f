/**
 * The local message store: three tables keyed as in the SQLite schema, and the meaning of the prepared
 * statements that change them. A row's primary key is the key of the map, so rows do not repeat it.
 */
module Store {
  import opened Wrappers

  datatype Message = Message(
    threadId: int, address: string, body: Option<string>, date: int, kind: int,
    read: int, subId: int, event: int)

  /** Column `downloaded` is 0 or 1 in the schema and a `bool` here. */
  datatype Attachment = Attachment(
    uniqueIdentifier: string, mimeType: string, filename: Option<string>, fileSize: Option<int>,
    downloaded: bool, localPath: Option<string>, thumbnailPath: Option<string>)

  /** `addresses` is stored as the text of a JSON array, which the sequence stands for. */
  datatype Conversation = Conversation(
    addresses: seq<string>, snippet: Option<string>, date: int, read: int, unreadCount: int,
    locallyReadAt: Option<int>, fullSyncComplete: bool, fullSyncDate: int)

  /** (part id, message id) */
  type PartKey = (int, int)

  datatype Tables = Tables(
    conversations: map<int, Conversation>,
    messages: map<int, Message>,
    attachments: map<PartKey, Attachment>)

  // ----- what the statements mean -----

  /** Only five columns are written; the others keep their value, or take the schema default in a new row. */
  function UpsertConversation(tb: Tables, threadId: int, row: Conversation): Tables {
    var written :=
      if threadId in tb.conversations then
        var kept := tb.conversations[threadId];
        row.(locallyReadAt := kept.locallyReadAt, fullSyncComplete := kept.fullSyncComplete,
             fullSyncDate := kept.fullSyncDate)
      else
        row.(locallyReadAt := None, fullSyncComplete := false, fullSyncDate := 0);
    tb.(conversations := tb.conversations[threadId := written])
  }

  /** Whatever row is given, the local columns are those of the row before, or empty; the other columns are written. */
  lemma UpsertKeepsLocal(tb: Tables, threadId: int, row: Conversation)
    ensures var r := UpsertConversation(tb, threadId, row).conversations;
      && r.Keys == tb.conversations.Keys + {threadId}
      && (forall t | t in tb.conversations && t != threadId :: r[t] == tb.conversations[t])
      && r[threadId].addresses == row.addresses && r[threadId].snippet == row.snippet && r[threadId].date == row.date
      && r[threadId].read == row.read && r[threadId].unreadCount == row.unreadCount
      && (threadId in tb.conversations ==> LocalColumnsKept(tb.conversations[threadId], r[threadId]))
      && (threadId !in tb.conversations ==>
            r[threadId].locallyReadAt == None && !r[threadId].fullSyncComplete && r[threadId].fullSyncDate == 0)
  {
  }

  /** The columns that only the desktop sets. */
  ghost predicate LocalColumnsKept(a: Conversation, b: Conversation) {
    a.locallyReadAt == b.locallyReadAt && a.fullSyncComplete == b.fullSyncComplete && a.fullSyncDate == b.fullSyncDate
  }

  function UpsertMessage(tb: Tables, id: int, row: Message): Tables {
    tb.(messages := tb.messages[id := row])
  }

  /** What the conflict clause leaves of a stored row when `row` arrives for the same key. */
  function Merge(stored: Option<Attachment>, row: Attachment): Attachment {
    match stored
    case None => row
    case Some(s) =>
      row.(fileSize := s.fileSize.OrElse(row.fileSize),
           downloaded := s.downloaded || row.downloaded,
           localPath := s.localPath.OrElse(row.localPath),
           thumbnailPath := s.thumbnailPath.OrElse(row.thumbnailPath))
  }

  function UpsertAttachment(tb: Tables, key: PartKey, row: Attachment): Tables {
    tb.(attachments := tb.attachments[key := Merge(Lookup(tb.attachments, key), row)])
  }

  function DeleteConversation(tb: Tables, threadId: int): Tables {
    tb.(conversations := tb.conversations - {threadId})
  }

  function AttachmentsWithout(attachments: map<PartKey, Attachment>, ids: set<int>): map<PartKey, Attachment> {
    map k | k in attachments && k.1 !in ids :: attachments[k]
  }

  /** The batch delete removes the messages and their attachment rows together. */
  function DeleteMessages(tb: Tables, ids: set<int>): Tables {
    tb.(messages := tb.messages - ids, attachments := AttachmentsWithout(tb.attachments, ids))
  }

  function MarkFullySynced(tb: Tables, threadId: int, now: int): Tables {
    if threadId !in tb.conversations then tb
    else tb.(conversations := tb.conversations[
               threadId := tb.conversations[threadId].(fullSyncComplete := true, fullSyncDate := now)])
  }

  function MarkStale(tb: Tables, threadId: int): Tables {
    if threadId !in tb.conversations then tb
    else tb.(conversations := tb.conversations[
               threadId := tb.conversations[threadId].(fullSyncComplete := false, fullSyncDate := 0)])
  }

  /** The sweep on connect clears the flag but keeps `full_sync_date`. */
  function MarkStaleBefore(tb: Tables, cutoff: int): Tables {
    tb.(conversations := map t | t in tb.conversations ::
          var c := tb.conversations[t];
          if c.fullSyncComplete && 0 < c.fullSyncDate < cutoff then c.(fullSyncComplete := false) else c)
  }

  function MarkLocallyRead(tb: Tables, threadId: int, now: int): Tables {
    if threadId !in tb.conversations then tb
    else tb.(conversations := tb.conversations[
               threadId := tb.conversations[threadId].(locallyReadAt := Some(now))])
  }

  function UpdateAttachment(tb: Tables, key: PartKey, change: Attachment -> Attachment): Tables {
    if key !in tb.attachments then tb
    else tb.(attachments := tb.attachments[key := change(tb.attachments[key])])
  }

  function MarkDownloaded(tb: Tables, key: PartKey, path: string, size: int): Tables {
    UpdateAttachment(tb, key, (a: Attachment) => a.(downloaded := true, localPath := Some(path), fileSize := Some(size)))
  }

  function SetThumbnail(tb: Tables, key: PartKey, path: string): Tables {
    UpdateAttachment(tb, key, (a: Attachment) => a.(thumbnailPath := Some(path)))
  }

  function UpdatePath(tb: Tables, key: PartKey, path: string, mime: string): Tables {
    UpdateAttachment(tb, key, (a: Attachment) => a.(localPath := Some(path), mimeType := mime))
  }

  // ----- reading a thread -----

  function ThreadIds(messages: map<int, Message>, threadId: int): set<int> {
    set id | id in messages && messages[id].threadId == threadId
  }

  /** The rows of one thread. */
  function ThreadRows(messages: map<int, Message>, threadId: int): map<int, Message> {
    map id | id in messages && messages[id].threadId == threadId :: messages[id]
  }

  ghost predicate HasRow(rows: seq<(int, Message)>, id: int) {
    exists i :: 0 <= i < |rows| && rows[i].0 == id
  }

  /** `ORDER BY date ASC`: rows with equal dates may come in either order. */
  ghost predicate IsListing(rows: seq<(int, Message)>, messages: map<int, Message>, threadId: int) {
    && (forall i, j | 0 <= i < j < |rows| :: rows[i].1.date <= rows[j].1.date)
    && (forall i, j | 0 <= i < j < |rows| :: rows[i].0 != rows[j].0)
    && (forall i | 0 <= i < |rows| :: rows[i].0 in messages && rows[i].1 == messages[rows[i].0]
                                      && rows[i].1.threadId == threadId)
    && (forall id | id in messages && messages[id].threadId == threadId :: HasRow(rows, id))
  }

  /** `newest` is a row that such a listing may end with. */
  ghost predicate IsNewest(messages: map<int, Message>, threadId: int, newest: Message) {
    && newest in messages.Values
    && newest.threadId == threadId
    && (forall id | id in messages && messages[id].threadId == threadId :: messages[id].date <= newest.date)
  }
}
