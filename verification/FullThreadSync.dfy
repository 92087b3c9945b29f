/**
 * Full sync of one thread: the phone's answer is stored row by row, then every local row of the thread that the
 * answer lacks is deleted unless it is dated after the phone took its snapshot. The operation awaits only its
 * query, so everything below runs without interruption on whatever the tables hold when the answer arrives.
 */
module FullThreadSync {
  import opened Wrappers
  import opened Store
  import opened DatabaseService
  import opened PhoneMessages

  /** Local rows of the thread that the phone's answer does not account for. */
  function Stale(messages: map<int, Message>, threadId: int, seen: set<int>, timestamp: int): set<int> {
    set id | id in messages && messages[id].threadId == threadId && id !in seen && messages[id].date <= timestamp
  }

  function Reconcile(tb: Tables, threadId: int, msgs: seq<PhoneMessage>, timestamp: int): Tables {
    var applied := Apply(tb, msgs);
    DeleteMessages(applied, Stale(applied.messages, threadId, Rows(msgs).Keys, timestamp))
  }

  function Max(a: int, b: int): int {
    if a >= b then a else b
  }

  function RefreshConversation(tb: Tables, threadId: int, newest: Message): Tables {
    if threadId !in tb.conversations then tb
    else
      var c := tb.conversations[threadId];
      Store.UpsertConversation(tb, threadId, c.(
        snippet := if newest.date >= c.date then Some(newest.body.GetOr("")) else c.snippet,
        date := Max(newest.date, c.date)))
  }

  /** The tables before and after the operation. Which of several newest rows gives the snippet is left open. */
  ghost predicate Step(
    before: Tables, threadId: int, msgs: seq<PhoneMessage>, timestamp: int, now: int, after: Tables)
  {
    var r := MarkFullySynced(Reconcile(before, threadId, msgs, timestamp), threadId, now);
    if ThreadIds(r.messages, threadId) == {} then after == r
    else exists newest :: IsNewest(r.messages, threadId, newest) && after == RefreshConversation(r, threadId, newest)
  }

  ghost predicate Picked(local: seq<(int, Message)>, seen: set<int>, timestamp: int, id: int) {
    exists j :: 0 <= j < |local| && local[j].0 == id && id !in seen && local[j].1.date <= timestamp
  }

  /** The loop of the delete detection. */
  method Unseen(local: seq<(int, Message)>, seen: set<int>, timestamp: int) returns (deletedIds: seq<int>)
    requires forall i, j | 0 <= i < j < |local| :: local[i].0 != local[j].0
    ensures forall j, k | 0 <= j < k < |deletedIds| :: deletedIds[j] != deletedIds[k]
    ensures forall id :: id in deletedIds <==> Picked(local, seen, timestamp, id)
  {
    deletedIds := [];
    var i := 0;
    while i < |local|
      invariant 0 <= i <= |local|
      invariant forall j, k | 0 <= j < k < |deletedIds| :: deletedIds[j] != deletedIds[k]
      invariant forall id :: id in deletedIds <==> Picked(local[..i], seen, timestamp, id)
    {
      assert forall id :: Picked(local[..i + 1], seen, timestamp, id) <==>
          Picked(local[..i], seen, timestamp, id)
          || (local[i].0 == id && id !in seen && local[i].1.date <= timestamp) by {
      }
      if local[i].0 !in seen && local[i].1.date <= timestamp {
        assert !Picked(local[..i], seen, timestamp, local[i].0);
        deletedIds := deletedIds + [local[i].0];
      }
      i := i + 1;
    }
    assert local[..i] == local;
  }

  lemma ListingFindsStale(
    local: seq<(int, Message)>, messages: map<int, Message>, threadId: int, seen: set<int>, timestamp: int, ids: seq<int>)
    requires IsListing(local, messages, threadId)
    requires forall id :: id in ids <==> Picked(local, seen, timestamp, id)
    ensures (set id | id in ids) == Stale(messages, threadId, seen, timestamp)
  {
    var stale := Stale(messages, threadId, seen, timestamp);
    forall id ensures id in stale <==> id in ids
    {
      if id in stale {
        assert HasRow(local, id);
      }
    }
  }

  /** Store the answer, remembering the ids it mentions. */
  method StoreAnswer(db: Database, msgs: seq<PhoneMessage>) returns (seen: set<int>)
    modifies db
    ensures db.View() == Apply(old(db.View()), msgs)
    ensures seen == Rows(msgs).Keys
  {
    ghost var before := db.View();
    seen := {};
    var synced := 0;
    while synced < |msgs|
      invariant 0 <= synced <= |msgs|
      invariant seen == Rows(msgs[..synced]).Keys
      invariant db.View() == Apply(before, msgs[..synced])
    {
      seen := seen + {msgs[synced].id};
      StoreMessage(db, msgs[synced]);
      assert msgs[..synced + 1][..synced] == msgs[..synced];
      synced := synced + 1;
    }
    assert msgs[..synced] == msgs;
  }

  /** Delete detection, then the deletion if anything was detected. */
  method DeleteUnseen(db: Database, threadId: int, seen: set<int>, timestamp: int) returns (deleted: nat)
    modifies db
    ensures db.View() == DeleteMessages(old(db.View()), Stale(old(db.messages), threadId, seen, timestamp))
    ensures deleted == |Stale(old(db.messages), threadId, seen, timestamp)|
  {
    var local := db.GetThreadMessages(threadId);
    var deletedIds := Unseen(local, seen, timestamp);
    ListingFindsStale(local, db.messages, threadId, seen, timestamp, deletedIds);
    CountDistinct(deletedIds);
    deleted := |deletedIds|;
    if deleted > 0 {
      db.DeleteMessagesByIds(deletedIds);
    } else {
      DeleteNothing(db.View());
    }
  }

  /** Move the conversation row up to the newest message now stored. */
  method RefreshFromNewest(db: Database, threadId: int)
    modifies db
    ensures var tb := old(db.View());
      if ThreadIds(tb.messages, threadId) == {} then db.View() == tb
      else exists newest :: IsNewest(tb.messages, threadId, newest) && db.View() == RefreshConversation(tb, threadId, newest)
  {
    ghost var tb := db.View();
    var all := db.GetThreadMessages(threadId);
    ghost var ids := ThreadIds(tb.messages, threadId);
    assert forall id | id in ids :: HasRow(all, id);
    if |all| > 0 {
      var newest := all[|all| - 1].1;
      assert all[|all| - 1].0 in ids;
      assert IsNewest(tb.messages, threadId, newest);
      var conv := db.GetConversation(threadId);
      if conv.Some? {
        var c := conv.value;
        db.UpsertConversation(threadId, c.(
          snippet := if newest.date >= c.date then Some(newest.body.GetOr("")) else c.snippet,
          date := Max(newest.date, c.date)));
      }
      assert db.View() == RefreshConversation(tb, threadId, newest);
    } else {
      assert forall id :: id in ids <==> id in {};
      SameSets(ids, {});
    }
  }

  /**
   * `queryTimestamp` is the phone's clock when it ran the query, if it reported one; `clock` and `now` are the
   * desktop's clock at the two places that read it.
   */
  method FullThreadSync(
    db: Database, threadId: int, msgs: seq<PhoneMessage>, queryTimestamp: Option<int>, clock: int, now: int)
    returns (synced: nat, deleted: nat)
    modifies db
    ensures Step(old(db.View()), threadId, msgs, queryTimestamp.GetOr(clock), now, db.View())
    ensures synced == |msgs|
    ensures deleted == |Stale(Apply(old(db.View()), msgs).messages, threadId, Rows(msgs).Keys, queryTimestamp.GetOr(clock))|
  {
    var timestamp := queryTimestamp.GetOr(clock);
    var seen := StoreAnswer(db, msgs);
    synced := |msgs|;
    deleted := DeleteUnseen(db, threadId, seen, timestamp);
    db.MarkThreadFullySynced(threadId, now);
    RefreshFromNewest(db, threadId);
  }

  lemma {:induction false} CountDistinct(ids: seq<int>)
    requires forall j, k | 0 <= j < k < |ids| :: ids[j] != ids[k]
    ensures |set id | id in ids| == |ids|
  {
    if ids != [] {
      var n := |ids| - 1;
      CountDistinct(ids[..n]);
      assert (set id | id in ids) == (set id | id in ids[..n]) + {ids[n]};
      assert ids[n] !in ids[..n];
    }
  }

  // ----- what the operation achieves -----

  /** Rows of the thread that the answer lacks and that are newer than the snapshot. */
  function Survivors(messages: map<int, Message>, threadId: int, msgs: seq<PhoneMessage>, timestamp: int)
    : map<int, Message>
  {
    map id | id in messages && messages[id].threadId == threadId && id !in Rows(msgs) && messages[id].date > timestamp
      :: messages[id]
  }

  lemma StepKeepsRows(before: Tables, threadId: int, msgs: seq<PhoneMessage>, timestamp: int, now: int, after: Tables)
    requires Step(before, threadId, msgs, timestamp, now, after)
    ensures after.messages == Reconcile(before, threadId, msgs, timestamp).messages
    ensures after.attachments == Reconcile(before, threadId, msgs, timestamp).attachments
  {
  }

  /** Afterwards the thread holds the answer's rows and the survivors, and nothing else. */
  lemma ThreadIsReconciled(before: Tables, threadId: int, msgs: seq<PhoneMessage>, timestamp: int, now: int, after: Tables)
    requires Step(before, threadId, msgs, timestamp, now, after)
    ensures ThreadRows(after.messages, threadId)
         == ThreadRows(Rows(msgs), threadId) + Survivors(before.messages, threadId, msgs, timestamp)
  {
    StepKeepsRows(before, threadId, msgs, timestamp, now, after);
    ReconciledThread(before, threadId, msgs, timestamp);
  }

  lemma ReconciledThread(before: Tables, threadId: int, msgs: seq<PhoneMessage>, timestamp: int)
    ensures ThreadRows(Reconcile(before, threadId, msgs, timestamp).messages, threadId)
         == ThreadRows(Rows(msgs), threadId) + Survivors(before.messages, threadId, msgs, timestamp)
  {
    ApplyOverlays(before, msgs);
  }

  /** Rows, attachments and conversations that the answer does not mention and that belong elsewhere stay as they were. */
  lemma OtherThreadsUntouched(
    before: Tables, threadId: int, msgs: seq<PhoneMessage>, timestamp: int, now: int, after: Tables, other: int)
    requires Step(before, threadId, msgs, timestamp, now, after)
    requires other != threadId
    ensures forall id | id !in Rows(msgs) :: id in ThreadRows(after.messages, other) <==> id in ThreadRows(before.messages, other)
    ensures forall id | id !in Rows(msgs) && id in ThreadRows(before.messages, other) ::
        id in after.messages && after.messages[id] == before.messages[id]
        && forall part :: Lookup(after.attachments, (part, id)) == Lookup(before.attachments, (part, id))
    ensures Lookup(after.conversations, other) == Lookup(before.conversations, other)
  {
    ApplyOverlays(before, msgs);
    forall id, part | id !in Rows(msgs) && id in ThreadRows(before.messages, other)
      ensures Lookup(after.attachments, (part, id)) == Lookup(before.attachments, (part, id))
    {
      ApplyAttachmentAt(before, msgs, (part, id));
      if LastReport(msgs, (part, id)).Some? {
        ReportNamesItsMessage(msgs, (part, id));
      }
    }
  }

  /** The conversation row, when there is one, is dated no earlier than any message of the thread or than it was. */
  lemma ConversationCoversThread(
    before: Tables, threadId: int, msgs: seq<PhoneMessage>, timestamp: int, now: int, after: Tables)
    requires Step(before, threadId, msgs, timestamp, now, after)
    requires threadId in after.conversations
    ensures forall id | id in ThreadRows(after.messages, threadId) ::
        after.messages[id].date <= after.conversations[threadId].date
    ensures threadId in before.conversations
         && before.conversations[threadId].date <= after.conversations[threadId].date
    ensures after.conversations[threadId].fullSyncComplete && after.conversations[threadId].fullSyncDate == now
    ensures after.conversations[threadId].locallyReadAt == before.conversations[threadId].locallyReadAt
  {
    ApplyOverlays(before, msgs);
    var r := MarkFullySynced(Reconcile(before, threadId, msgs, timestamp), threadId, now);
    assert r.messages == after.messages;
    assert ThreadRows(after.messages, threadId).Keys == ThreadIds(r.messages, threadId);
  }

  /** Marked as synced, and otherwise changed in date and preview alone, if the thread is not empty. */
  predicate OnlySynced(was: Conversation, now: int, emptied: bool, got: Conversation) {
    && got.addresses == was.addresses && got.read == was.read && got.unreadCount == was.unreadCount
    && got.locallyReadAt == was.locallyReadAt && got.fullSyncComplete && got.fullSyncDate == now
    && (emptied ==> got.date == was.date && got.snippet == was.snippet)
  }

  /**
   * Whatever the answer, the row keeps its addresses, its read mark and its unread count; without messages it keeps
   * its date and preview too.
   */
  lemma OtherColumnsKept(
    before: Tables, threadId: int, msgs: seq<PhoneMessage>, timestamp: int, now: int, after: Tables)
    requires Step(before, threadId, msgs, timestamp, now, after)
    ensures after.conversations.Keys == before.conversations.Keys
    ensures threadId in after.conversations ==> OnlySynced(
      before.conversations[threadId], now, ThreadIds(after.messages, threadId) == {}, after.conversations[threadId])
  {
    ApplyOverlays(before, msgs);
  }

  /** `got` shows `newest`, unless the row was dated after it and keeps its preview. */
  predicate Previews(was: Conversation, got: Conversation, newest: Message) {
    if was.date <= newest.date then got.date == newest.date && got.snippet == Some(newest.body.GetOr(""))
    else got.date == was.date && got.snippet == was.snippet
  }

  /** The conversation previews a newest message of the thread as it now is. */
  lemma PreviewIsNewest(
    before: Tables, threadId: int, msgs: seq<PhoneMessage>, timestamp: int, now: int, after: Tables)
    requires Step(before, threadId, msgs, timestamp, now, after)
    requires threadId in after.conversations && ThreadIds(after.messages, threadId) != {}
    ensures threadId in before.conversations
    ensures exists newest :: IsNewest(after.messages, threadId, newest)
                             && Previews(before.conversations[threadId], after.conversations[threadId], newest)
  {
    ApplyOverlays(before, msgs);
    var r := MarkFullySynced(Reconcile(before, threadId, msgs, timestamp), threadId, now);
    var newest :| IsNewest(r.messages, threadId, newest) && after == RefreshConversation(r, threadId, newest);
    assert IsNewest(after.messages, threadId, newest);
  }

  /** Storing the same answer again, taken at the same time, changes no message and no attachment. */
  lemma ReconcileIdempotent(tb: Tables, threadId: int, msgs: seq<PhoneMessage>, timestamp: int)
    ensures var once := Reconcile(tb, threadId, msgs, timestamp);
      Reconcile(once, threadId, msgs, timestamp) == once
  {
    var once := Reconcile(tb, threadId, msgs, timestamp);
    var again := Apply(once, msgs);
    ApplyOverlays(tb, msgs);
    ApplyOverlays(once, msgs);
    assert again.messages == once.messages;
    forall key ensures Lookup(again.attachments, key) == Lookup(once.attachments, key)
    {
      ApplyAttachmentAt(tb, msgs, key);
      ApplyAttachmentAt(once, msgs, key);
      if LastReport(msgs, key).Some? {
        ReportNamesItsMessage(msgs, key);
      }
    }
    SameLookups(again.attachments, once.attachments);
    assert Stale(again.messages, threadId, Rows(msgs).Keys, timestamp) == {};
    DeleteNothing(again);
    assert again == once;
  }
}
