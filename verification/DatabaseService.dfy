/** The service over the tables: each method is one prepared statement, or one transaction that loops over some. */
module DatabaseService {
  import opened Wrappers
  import opened Store

  class Database {
    var conversations: map<int, Conversation>
    var messages: map<int, Message>
    var attachments: map<PartKey, Attachment>

    ghost function View(): Tables
      reads this
    {
      Tables(conversations, messages, attachments)
    }

    constructor ()
      ensures View() == Tables(map[], map[], map[])
    {
      conversations, messages, attachments := map[], map[], map[];
    }

    method UpsertConversation(threadId: int, row: Conversation)
      modifies this
      ensures View() == Store.UpsertConversation(old(View()), threadId, row)
    {
      var written := row.(locallyReadAt := None, fullSyncComplete := false, fullSyncDate := 0);
      if threadId in conversations {
        var kept := conversations[threadId];
        written := row.(locallyReadAt := kept.locallyReadAt, fullSyncComplete := kept.fullSyncComplete,
                        fullSyncDate := kept.fullSyncDate);
      }
      conversations := conversations[threadId := written];
    }

    method GetConversation(threadId: int) returns (row: Option<Conversation>)
      ensures row == Lookup(conversations, threadId)
    {
      row := if threadId in conversations then Some(conversations[threadId]) else None;
    }

    method DeleteConversation(threadId: int)
      modifies this
      ensures View() == Store.DeleteConversation(old(View()), threadId)
    {
      conversations := conversations - {threadId};
    }

    method MarkThreadFullySynced(threadId: int, now: int)
      modifies this
      ensures View() == MarkFullySynced(old(View()), threadId, now)
    {
      if threadId in conversations {
        var c := conversations[threadId];
        conversations := conversations[threadId := c.(fullSyncComplete := true, fullSyncDate := now)];
      }
    }

    method MarkThreadStale(threadId: int)
      modifies this
      ensures View() == MarkStale(old(View()), threadId)
    {
      if threadId in conversations {
        var c := conversations[threadId];
        conversations := conversations[threadId := c.(fullSyncComplete := false, fullSyncDate := 0)];
      }
    }

    method MarkStaleThreads(maxAgeMs: int, now: int)
      modifies this
      ensures View() == MarkStaleBefore(old(View()), now - maxAgeMs)
    {
      var cutoff := now - maxAgeMs;
      conversations := map t | t in conversations ::
        var c := conversations[t];
        if c.fullSyncComplete && 0 < c.fullSyncDate < cutoff then c.(fullSyncComplete := false) else c;
    }

    method MarkThreadLocallyRead(threadId: int, now: int)
      modifies this
      ensures View() == MarkLocallyRead(old(View()), threadId, now)
    {
      if threadId in conversations {
        conversations := conversations[threadId := conversations[threadId].(locallyReadAt := Some(now))];
      }
    }

    method MarkAttachmentDownloaded(key: PartKey, localPath: string, fileSize: int)
      modifies this
      ensures View() == MarkDownloaded(old(View()), key, localPath, fileSize)
    {
      if key in attachments {
        attachments := attachments[key :=
          attachments[key].(downloaded := true, localPath := Some(localPath), fileSize := Some(fileSize))];
      }
    }

    method SetAttachmentThumbnail(key: PartKey, path: string)
      modifies this
      ensures View() == SetThumbnail(old(View()), key, path)
    {
      if key in attachments {
        attachments := attachments[key := attachments[key].(thumbnailPath := Some(path))];
      }
    }

    method UpdateAttachmentPath(key: PartKey, localPath: string, mimeType: string)
      modifies this
      ensures View() == UpdatePath(old(View()), key, localPath, mimeType)
    {
      if key in attachments {
        attachments := attachments[key := attachments[key].(localPath := Some(localPath), mimeType := mimeType)];
      }
    }

    method DeleteMessage(id: int)
      modifies this
      ensures View() == old(View()).(messages := old(messages) - {id})
    {
      messages := messages - {id};
    }

    method DeleteAttachmentsForMessage(messageId: int)
      modifies this
      ensures View() == old(View()).(attachments := AttachmentsWithout(old(attachments), {messageId}))
    {
      attachments := map k | k in attachments && k.1 != messageId :: attachments[k];
    }

    method DeleteThreadMessages(threadId: int)
      modifies this
      ensures View() == old(View()).(messages := old(messages) - ThreadIds(old(messages), threadId))
    {
      messages := messages - ThreadIds(messages, threadId);
    }

    method DeleteAttachmentsForThread(threadId: int)
      modifies this
      ensures View() == old(View()).(attachments := AttachmentsWithout(old(attachments), ThreadIds(old(messages), threadId)))
    {
      attachments := AttachmentsWithout(attachments, ThreadIds(messages, threadId));
    }

    method UpsertMessage(id: int, row: Message)
      modifies this
      ensures View() == Store.UpsertMessage(old(View()), id, row)
    {
      messages := messages[id := row];
    }

    method UpsertAttachment(key: PartKey, row: Attachment)
      modifies this
      ensures View() == Store.UpsertAttachment(old(View()), key, row)
    {
      var stored := if key in attachments then Some(attachments[key]) else None;
      attachments := attachments[key := Merge(stored, row)];
    }

    method DeleteMessagesByIds(ids: seq<int>)
      modifies this
      ensures View() == DeleteMessages(old(View()), set id | id in ids)
    {
      ghost var before := View();
      ghost var gone: set<int> := {};
      DeleteNothing(before);
      var i := 0;
      while i < |ids|
        invariant 0 <= i <= |ids|
        invariant forall id :: id in gone <==> id in ids[..i]
        invariant View() == DeleteMessages(before, gone)
      {
        messages := messages - {ids[i]};
        attachments := map k | k in attachments && k.1 != ids[i] :: attachments[k];
        gone := gone + {ids[i]};
        i := i + 1;
      }
      assert ids[..i] == ids;
      ghost var all := set id | id in ids;
      forall id ensures id in gone <==> id in all
      {
        assert id in gone <==> id in ids[..i];
      }
      SameSets(gone, all);
    }

    /** `SELECT * ... WHERE thread_id = ? ORDER BY date ASC`. */
    method GetThreadMessages(threadId: int) returns (rows: seq<(int, Message)>)
      ensures IsListing(rows, messages, threadId)
    {
      rows := [];
      var todo := ThreadIds(messages, threadId);
      while todo != {}
        invariant todo <= ThreadIds(messages, threadId)
        invariant SortedByDate(rows) && Lists(rows, messages, ThreadIds(messages, threadId) - todo)
        decreases todo
      {
        var id := AnyOf(todo);
        ghost var before, at := rows, 0;
        rows, at := InsertByDate(rows, (id, messages[id]));
        InsertLists(before, messages, ThreadIds(messages, threadId) - todo, id, at, rows);
        todo := todo - {id};
        SameSets(ThreadIds(messages, threadId) - todo, ThreadIds(messages, threadId) - (todo + {id}) + {id});
      }
      SameSets(ThreadIds(messages, threadId) - todo, ThreadIds(messages, threadId));
    }
  }

  ghost predicate SortedByDate(rows: seq<(int, Message)>) {
    forall i, j | 0 <= i < j < |rows| :: rows[i].1.date <= rows[j].1.date
  }

  /** The rows are those of `ids`, each once. */
  ghost predicate Lists(rows: seq<(int, Message)>, messages: map<int, Message>, ids: set<int>) {
    && (forall i, j | 0 <= i < j < |rows| :: rows[i].0 != rows[j].0)
    && (forall i | 0 <= i < |rows| :: rows[i].0 in ids && rows[i].0 in messages && rows[i].1 == messages[rows[i].0])
    && (forall id | id in ids :: HasRow(rows, id))
  }

  lemma InsertLists(
    rows: seq<(int, Message)>, messages: map<int, Message>, ids: set<int>, id: int, at: nat, out: seq<(int, Message)>)
    requires Lists(rows, messages, ids) && id !in ids && id in messages
    requires at <= |rows| && out == rows[..at] + [(id, messages[id])] + rows[at..]
    ensures Lists(out, messages, ids + {id})
  {
    assert out[at].0 == id;
    forall other | other in ids ensures HasRow(out, other)
    {
      assert HasRow(rows, other);
      var i :| 0 <= i < |rows| && rows[i].0 == other;
      assert out[if i < at then i else i + 1].0 == other;
    }
    forall i | 0 <= i < |out| && i != at ensures out[i] == rows[if i < at then i else i - 1]
    {
    }
  }

  lemma DeleteNothing(tb: Tables)
    ensures DeleteMessages(tb, {}) == tb
  {
    assert AttachmentsWithout(tb.attachments, {}) == tb.attachments;
    assert tb.messages - {} == tb.messages;
  }

  /** Insertion after every row that is not later. */
  method InsertByDate(rows: seq<(int, Message)>, row: (int, Message)) returns (out: seq<(int, Message)>, ghost at: nat)
    requires SortedByDate(rows)
    ensures SortedByDate(out)
    ensures at <= |rows| && out == rows[..at] + [row] + rows[at..]
  {
    var k := 0;
    while k < |rows| && rows[k].1.date <= row.1.date
      invariant 0 <= k <= |rows|
      invariant forall i | 0 <= i < k :: rows[i].1.date <= row.1.date
    {
      k := k + 1;
    }
    out, at := rows[..k] + [row] + rows[k..], k;
  }
}
