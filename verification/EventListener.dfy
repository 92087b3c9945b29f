/** Real-time events from the phone, applied to the tables as they arrive, between the steps of any running sync. */
module EventListener {
  import opened Wrappers
  import opened Store
  import opened DatabaseService
  import opened PhoneMessages
  import opened News

  /** The conversation row after a message: moved forward by a newer one, created by the first one. */
  function Touch(tb: Tables, received: bool, m: PhoneMessage): Tables {
    if m.threadId in tb.conversations then
      var c := tb.conversations[m.threadId];
      if m.date > c.date then
        Store.UpsertConversation(tb, m.threadId, c.(
          snippet := Some(Snippet(m)), date := m.date,
          unreadCount := if received then c.unreadCount + 1 else c.unreadCount))
      else tb
    else
      Store.UpsertConversation(tb, m.threadId, Conversation(
        [m.address.GetOr("")], Some(m.body.GetOr("")), m.date,
        if received then 0 else 1, if received then 1 else 0, None, false, 0))
  }

  function NewMessages(tb: Tables, received: bool, msgs: seq<PhoneMessage>): Tables {
    if msgs == [] then tb
    else
      var m := msgs[|msgs| - 1];
      Touch(ApplyOne(NewMessages(tb, received, msgs[..|msgs| - 1]), m), received, m)
  }

  function ReadOnPhone(tb: Tables, threadId: int): Tables {
    if threadId in tb.conversations && tb.conversations[threadId].unreadCount > 0 then
      Store.UpsertConversation(tb, threadId, tb.conversations[threadId].(read := 1, unreadCount := 0))
    else tb
  }

  class Listener {
    const db: Database
    var flaggedThreads: set<int>
    var syncActive: bool

    constructor (db: Database)
      ensures this.db == db && flaggedThreads == {} && !syncActive
    {
      this.db := db;
      flaggedThreads, syncActive := {}, false;
    }

    method SetSyncActive(active: bool)
      modifies this`syncActive
      ensures syncActive == active
    {
      syncActive := active;
    }

    method GetAndClearFlaggedThreads() returns (ids: set<int>)
      modifies this`flaggedThreads
      ensures ids == old(flaggedThreads) && flaggedThreads == {}
    {
      ids := flaggedThreads;
      flaggedThreads := {};
    }

    /** Events `received` and `sent`. Threads are flagged only while a sync is active. */
    method HandleNewMessages(received: bool, msgs: seq<PhoneMessage>)
      modifies this`flaggedThreads, db
      ensures db.View() == NewMessages(old(db.View()), received, msgs)
      ensures flaggedThreads == old(flaggedThreads) + if syncActive then set m | m in msgs :: m.threadId else {}
    {
      if msgs == [] { return; }
      ghost var before := db.View();
      var threadIds := {};
      var i := 0;
      while i < |msgs|
        invariant 0 <= i <= |msgs|
        invariant db.View() == NewMessages(before, received, msgs[..i])
        invariant threadIds == set m | m in msgs[..i] :: m.threadId
        invariant flaggedThreads == old(flaggedThreads)
      {
        HandleOne(received, msgs[i]);
        threadIds := threadIds + {msgs[i].threadId};
        assert msgs[..i + 1][..i] == msgs[..i];
        i := i + 1;
      }
      assert msgs[..i] == msgs;
      if syncActive {
        flaggedThreads := flaggedThreads + threadIds;
      }
    }

    /** The body of the loop: the message's rows, then its conversation. */
    method HandleOne(received: bool, m: PhoneMessage)
      modifies db
      ensures db.View() == Touch(ApplyOne(old(db.View()), m), received, m)
    {
      StoreMessage(db, m);
      var conv := db.GetConversation(m.threadId);
      if conv.Some? {
        var c := conv.value;
        if m.date > c.date {
          db.UpsertConversation(m.threadId, c.(
            snippet := Some(Snippet(m)), date := m.date,
            unreadCount := if received then c.unreadCount + 1 else c.unreadCount));
        }
      } else {
        db.UpsertConversation(m.threadId, Conversation(
          [m.address.GetOr("")], Some(m.body.GetOr("")), m.date,
          if received then 0 else 1, if received then 1 else 0, None, false, 0));
      }
    }

    method HandleDeleted(messageIds: seq<int>)
      modifies db
      ensures db.View() == DeleteMessages(old(db.View()), set id | id in messageIds)
    {
      db.DeleteMessagesByIds(messageIds);
    }

    /** Only the conversation row goes; the thread's messages stay. */
    method HandleThreadDeleted(threadId: int)
      modifies db
      ensures db.View() == Store.DeleteConversation(old(db.View()), threadId)
    {
      db.DeleteConversation(threadId);
    }

    method HandleRead(threadId: int)
      modifies db
      ensures db.View() == ReadOnPhone(old(db.View()), threadId)
    {
      var conv := db.GetConversation(threadId);
      if conv.Some? && conv.value.unreadCount > 0 {
        db.UpsertConversation(threadId, conv.value.(read := 1, unreadCount := 0));
      }
    }
  }

  // ----- what a batch of new messages amounts to -----

  predicate UnreadGrows(a: Conversation, b: Conversation, most: int) {
    a.unreadCount <= b.unreadCount <= a.unreadCount + most && a.read == b.read
  }

  lemma TouchMovesForward(tb: Tables, received: bool, m: PhoneMessage)
    ensures var r := Touch(tb, received, m);
      && r.messages == tb.messages && r.attachments == tb.attachments
      && r.conversations.Keys == tb.conversations.Keys + {m.threadId}
      && m.date <= r.conversations[m.threadId].date
      && (forall t | t in tb.conversations ::
            && tb.conversations[t].date <= r.conversations[t].date
            && LocalColumnsKept(tb.conversations[t], r.conversations[t])
            && UnreadGrows(tb.conversations[t], r.conversations[t], if received then 1 else 0))
  {
  }

  lemma NewMessagesStep(tb: Tables, received: bool, msgs: seq<PhoneMessage>)
    requires msgs != []
    ensures var n := |msgs| - 1; var head := NewMessages(tb, received, msgs[..n]); var r := NewMessages(tb, received, msgs);
      && r.messages == head.messages[msgs[n].id := ToRow(msgs[n])]
      && r.attachments == ApplyOne(head, msgs[n]).attachments
      && r.conversations.Keys == head.conversations.Keys + {msgs[n].threadId}
      && msgs[n].date <= r.conversations[msgs[n].threadId].date
      && (forall t | t in head.conversations ::
            && head.conversations[t].date <= r.conversations[t].date
            && LocalColumnsKept(head.conversations[t], r.conversations[t])
            && UnreadGrows(head.conversations[t], r.conversations[t], if received then 1 else 0))
  {
    var n := |msgs| - 1;
    var head := NewMessages(tb, received, msgs[..n]);
    SamePartsSameAttachments(head, head, msgs[n]);
    PartsAt(Store.UpsertMessage(head, msgs[n].id, ToRow(msgs[n])), msgs[n].id, msgs[n].parts, (0, 0));
    TouchMovesForward(ApplyOne(head, msgs[n]), received, msgs[n]);
  }

  lemma {:induction false} NewMessagesOverlay(tb: Tables, received: bool, msgs: seq<PhoneMessage>)
    ensures NewMessages(tb, received, msgs).messages == tb.messages + Rows(msgs)
  {
    if msgs != [] {
      NewMessagesOverlay(tb, received, msgs[..|msgs| - 1]);
      NewMessagesStep(tb, received, msgs);
    }
  }

  lemma {:induction false} NewMessagesAttachments(tb: Tables, received: bool, msgs: seq<PhoneMessage>)
    ensures NewMessages(tb, received, msgs).attachments == Apply(tb, msgs).attachments
  {
    if msgs != [] {
      var n := |msgs| - 1;
      NewMessagesAttachments(tb, received, msgs[..n]);
      NewMessagesStep(tb, received, msgs);
      SamePartsSameAttachments(NewMessages(tb, received, msgs[..n]), Apply(tb, msgs[..n]), msgs[n]);
    }
  }

  lemma SamePartsSameAttachments(a: Tables, b: Tables, m: PhoneMessage)
    requires a.attachments == b.attachments
    ensures ApplyOne(a, m).attachments == ApplyOne(b, m).attachments
    ensures ApplyOne(a, m).messages == a.messages[m.id := ToRow(m)]
  {
    var a', b' := Store.UpsertMessage(a, m.id, ToRow(m)), Store.UpsertMessage(b, m.id, ToRow(m));
    PartsAt(a', m.id, m.parts, (0, 0));
    forall key ensures Lookup(ApplyOne(a, m).attachments, key) == Lookup(ApplyOne(b, m).attachments, key)
    {
      PartsAt(a', m.id, m.parts, key);
      PartsAt(b', m.id, m.parts, key);
    }
    SameLookups(ApplyOne(a, m).attachments, ApplyOne(b, m).attachments);
  }

  /** Afterwards `r` has a row for every thread of the batch, dated no earlier than before or than the batch;
      the local marks of the old rows are kept. */
  ghost predicate DatesCover(tb: Tables, msgs: seq<PhoneMessage>, r: Tables) {
    && r.conversations.Keys == tb.conversations.Keys + (set m | m in msgs :: m.threadId)
    && (forall m | m in msgs :: m.date <= r.conversations[m.threadId].date)
    && (forall t | t in tb.conversations ::
          tb.conversations[t].date <= r.conversations[t].date && LocalColumnsKept(tb.conversations[t], r.conversations[t]))
  }

  // ----- what the row of a thread shows afterwards -----

  function DateIn(row: Option<Conversation>): Option<int> {
    if row.Some? then Some(row.value.date) else None
  }

  function Count(row: Option<Conversation>): int {
    if row.Some? then row.value.unreadCount else 0
  }

  /** Dated by the latest of its messages, with one unread message more for each received one that was news. */
  ghost predicate Counts(was: Option<Conversation>, received: bool, msgs: seq<PhoneMessage>, t: int, row: Option<Conversation>) {
    && IsLatest(msgs, ThreadOf, DateOf, t, DateIn(was), DateIn(row))
    && Count(row) == Count(was) + if received then |NewsOf(msgs, ThreadOf, DateOf, t, DateIn(was))| else 0
  }

  ghost predicate IsFirstOf(msgs: seq<PhoneMessage>, t: int, i: int) {
    0 <= i < |msgs| && msgs[i].threadId == t && forall j | 0 <= j < i :: msgs[j].threadId != t
  }

  /** The columns that the first message of a new thread leaves for good. */
  predicate OpenedBy(m: PhoneMessage, received: bool, row: Conversation) {
    && row.addresses == [if m.address.Some? then m.address.value else ""]
    && row.read == (if received then 0 else 1)
    && row.locallyReadAt == None && !row.fullSyncComplete && row.fullSyncDate == 0
  }

  /** An old row keeps its other columns; a new one is named and marked by the first message of the thread. */
  ghost predicate Columns(was: Option<Conversation>, received: bool, msgs: seq<PhoneMessage>, t: int, row: Option<Conversation>) {
    && (was.Some? ==>
          row.Some? && row.value == was.value.(date := row.value.date, snippet := row.value.snippet, unreadCount := row.value.unreadCount))
    && (row.Some? && was.None? ==>
          exists i :: IsFirstOf(msgs, t, i) && OpenedBy(msgs[i], received, row.value))
  }

  /** The preview of a message; the first message of a new thread has none but its text. */
  predicate PreviewedBy(m: PhoneMessage, opens: bool, snippet: Option<string>) {
    if m.body.Some? then snippet == m.body
    else if m.parts != [] && !opens then snippet == Some("[Attachment]")
    else snippet == Some("")
  }

  /** The last news gives the preview; without news the preview stays. */
  ghost predicate Preview(was: Option<Conversation>, msgs: seq<PhoneMessage>, t: int, row: Option<Conversation>) {
    && (NoNews(msgs, ThreadOf, DateOf, t, DateIn(was)) ==> (row.Some? <==> was.Some?) && (row.Some? ==> row.value.snippet == was.value.snippet))
    && forall i | IsLastNews(msgs, ThreadOf, DateOf, t, DateIn(was), i) ::
         row.Some? && PreviewedBy(msgs[i], was.None? && IsFirstOf(msgs, t, i), row.value.snippet)
  }

  function RowOf(tb: Tables, t: int): Option<Conversation> {
    Lookup(tb.conversations, t)
  }

  /** A message in its own thread, later than the row if there is one, is what the row shows; otherwise nothing changes. */
  ghost predicate Touched(was: Option<Conversation>, received: bool, m: PhoneMessage, row: Option<Conversation>) {
    && row.Some? && row.value.date == m.date && PreviewedBy(m, was.None?, row.value.snippet)
    && Count(row) == Count(was) + (if received then 1 else 0)
    && (was.None? ==> OpenedBy(m, received, row.value))
    && (was.Some? ==>
          row.value == was.value.(date := row.value.date, snippet := row.value.snippet, unreadCount := row.value.unreadCount))
  }

  lemma TouchAt(tb: Tables, received: bool, m: PhoneMessage, t: int)
    ensures var was, row := RowOf(tb, t), RowOf(Touch(ApplyOne(tb, m), received, m), t);
      && (t == m.threadId && Later(DateIn(was), m.date) ==> Touched(was, received, m, row))
      && (t != m.threadId || !Later(DateIn(was), m.date) ==> row == was)
  {
    PartsAt(Store.UpsertMessage(tb, m.id, ToRow(m)), m.id, m.parts, (0, 0));
  }

  lemma {:induction false} MessagesCount(tb: Tables, received: bool, msgs: seq<PhoneMessage>, t: int)
    ensures Counts(RowOf(tb, t), received, msgs, t, RowOf(NewMessages(tb, received, msgs), t))
  {
    var was := RowOf(tb, t);
    if msgs == [] {
      SameSets(NewsOf(msgs, ThreadOf, DateOf, t, DateIn(was)), {});
    } else {
      var n := |msgs| - 1;
      var head := NewMessages(tb, received, msgs[..n]);
      MessagesCount(tb, received, msgs[..n], t);
      TouchAt(head, received, msgs[n], t);
      OneMoreItem(msgs, ThreadOf, DateOf, t, DateIn(was), DateIn(RowOf(head, t)));
      OneMoreCount(msgs, ThreadOf, DateOf, t, DateIn(was));
    }
  }

  lemma FirstExtends(msgs: seq<PhoneMessage>, t: int, i: int)
    requires msgs != []
    ensures i < |msgs| - 1 ==> (IsFirstOf(msgs, t, i) <==> IsFirstOf(msgs[..|msgs| - 1], t, i))
  {
    assert forall j | 0 <= j < |msgs| - 1 :: msgs[..|msgs| - 1][j] == msgs[j];
  }

  lemma {:induction false} MessagesKeepColumns(tb: Tables, received: bool, msgs: seq<PhoneMessage>, t: int)
    ensures Columns(RowOf(tb, t), received, msgs, t, RowOf(NewMessages(tb, received, msgs), t))
    ensures RowOf(NewMessages(tb, received, msgs), t).None? ==> forall m | m in msgs :: m.threadId != t
  {
    if msgs != [] {
      var n := |msgs| - 1;
      var head := NewMessages(tb, received, msgs[..n]);
      MessagesKeepColumns(tb, received, msgs[..n], t);
      TouchAt(head, received, msgs[n], t);
      if RowOf(tb, t).None? {
        if RowOf(head, t).Some? {
          var i :| IsFirstOf(msgs[..n], t, i) && OpenedBy(msgs[i], received, RowOf(head, t).value);
          FirstExtends(msgs, t, i);
        } else if msgs[n].threadId == t {
          assert forall j | 0 <= j < n :: msgs[..n][j] == msgs[j];
          assert IsFirstOf(msgs, t, n);
        }
      }
    }
  }

  /** One more message: it gives the preview if it is news, otherwise the last news before it still does. */
  lemma PreviewStep(
    was: Option<Conversation>, msgs: seq<PhoneMessage>, t: int, before: Option<Conversation>, row: Option<Conversation>)
    requires msgs != [] && Preview(was, msgs[..|msgs| - 1], t, before)
    requires var n := |msgs| - 1;
      if IsNews(msgs, ThreadOf, DateOf, t, DateIn(was), n)
      then row.Some? && PreviewedBy(msgs[n], was.None? && IsFirstOf(msgs, t, n), row.value.snippet)
      else row == before
    ensures Preview(was, msgs, t, row)
  {
    var n := |msgs| - 1;
    WithoutNews(msgs, ThreadOf, DateOf, t, DateIn(was));
    forall i | IsLastNews(msgs, ThreadOf, DateOf, t, DateIn(was), i)
      ensures row.Some? && PreviewedBy(msgs[i], was.None? && IsFirstOf(msgs, t, i), row.value.snippet)
    {
      if i < n {
        PreviewStays(was, msgs, t, before, i);
      }
    }
  }

  lemma PreviewStays(was: Option<Conversation>, msgs: seq<PhoneMessage>, t: int, row: Option<Conversation>, i: int)
    requires 0 <= i < |msgs| - 1 && Preview(was, msgs[..|msgs| - 1], t, row)
    requires IsLastNews(msgs[..|msgs| - 1], ThreadOf, DateOf, t, DateIn(was), i)
    ensures row.Some? && PreviewedBy(msgs[i], was.None? && IsFirstOf(msgs, t, i), row.value.snippet)
  {
    FirstExtends(msgs, t, i);
    assert msgs[..|msgs| - 1][i] == msgs[i];
  }

  lemma OpensIffFirst(tb: Tables, received: bool, msgs: seq<PhoneMessage>, t: int)
    requires msgs != [] && msgs[|msgs| - 1].threadId == t
    ensures RowOf(NewMessages(tb, received, msgs[..|msgs| - 1]), t).None?
       <==> RowOf(tb, t).None? && IsFirstOf(msgs, t, |msgs| - 1)
  {
    var n := |msgs| - 1;
    MessagesKeepColumns(tb, received, msgs[..n], t);
    assert forall j | 0 <= j < n :: msgs[..n][j] == msgs[j];
  }

  lemma {:induction false} MessagesPreview(tb: Tables, received: bool, msgs: seq<PhoneMessage>, t: int)
    ensures Preview(RowOf(tb, t), msgs, t, RowOf(NewMessages(tb, received, msgs), t))
  {
    if msgs != [] {
      var n := |msgs| - 1;
      var was, before := RowOf(tb, t), RowOf(NewMessages(tb, received, msgs[..n]), t);
      MessagesPreview(tb, received, msgs[..n], t);
      MessagesCount(tb, received, msgs[..n], t);
      TouchAt(NewMessages(tb, received, msgs[..n]), received, msgs[n], t);
      OneMoreItem(msgs, ThreadOf, DateOf, t, DateIn(was), DateIn(before));
      if msgs[n].threadId == t {
        OpensIffFirst(tb, received, msgs, t);
      }
      PreviewStep(was, msgs, t, before, RowOf(NewMessages(tb, received, msgs), t));
    }
  }

  /**
   * The row of a thread after a batch, compared with the row before: date, unread count, preview and all other
   * columns, for old threads and new ones.
   */
  lemma NewMessagesRow(tb: Tables, received: bool, msgs: seq<PhoneMessage>, t: int)
    ensures var was, row := RowOf(tb, t), RowOf(NewMessages(tb, received, msgs), t);
      Counts(was, received, msgs, t, row) && Columns(was, received, msgs, t, row) && Preview(was, msgs, t, row)
  {
    MessagesCount(tb, received, msgs, t);
    MessagesKeepColumns(tb, received, msgs, t);
    MessagesPreview(tb, received, msgs, t);
  }

  /** `r` comes from `head` by one more message. */
  lemma OneMoreCovered(tb: Tables, msgs: seq<PhoneMessage>, head: Tables, r: Tables)
    requires msgs != [] && DatesCover(tb, msgs[..|msgs| - 1], head)
    requires var m := msgs[|msgs| - 1];
      && r.conversations.Keys == head.conversations.Keys + {m.threadId}
      && m.date <= r.conversations[m.threadId].date
    requires forall t | t in head.conversations ::
      head.conversations[t].date <= r.conversations[t].date && LocalColumnsKept(head.conversations[t], r.conversations[t])
    ensures DatesCover(tb, msgs, r)
  {
    var n := |msgs| - 1;
    forall m | m in msgs ensures m.threadId in r.conversations && m.date <= r.conversations[m.threadId].date
    {
      assert m in msgs[..n] || m == msgs[n];
    }
    var threads := set m | m in msgs :: m.threadId;
    assert threads == (set m | m in msgs[..n] :: m.threadId) + {msgs[n].threadId} by {
      assert msgs == msgs[..n] + [msgs[n]];
    }
  }

  lemma {:induction false} NewMessagesDateConversations(tb: Tables, received: bool, msgs: seq<PhoneMessage>)
    ensures DatesCover(tb, msgs, NewMessages(tb, received, msgs))
  {
    if msgs != [] {
      var n := |msgs| - 1;
      NewMessagesDateConversations(tb, received, msgs[..n]);
      NewMessagesStep(tb, received, msgs);
      OneMoreCovered(tb, msgs, NewMessages(tb, received, msgs[..n]), NewMessages(tb, received, msgs));
    }
  }
}
