/** Quick sync: the part of a thread inside a time window, and whether the window is wide enough. */
module QuickMessageSync {
  import opened Wrappers
  import opened Store
  import opened DatabaseService
  import opened PhoneMessages

  const ONE_WEEK_MS := 7 * 24 * 60 * 60 * 1000
  const MAX_QUICK_SYNC_WINDOW_MS := 90 * 24 * 60 * 60 * 1000

  function QuickSync(tb: Tables, threadId: int, msgs: seq<PhoneMessage>): Tables {
    var stored := Apply(tb, msgs);
    if msgs == [] || threadId !in stored.conversations then stored
    else
      var newest := msgs[|msgs| - 1];
      var c := stored.conversations[threadId];
      if newest.date >= c.date then
        Store.UpsertConversation(stored, threadId, c.(snippet := Some(Snippet(newest)), date := newest.date))
      else stored
  }

  /** Everything after the awaited query. The message taken as newest is the last of the answer. */
  method QuickMessageSync(db: Database, threadId: int, msgs: seq<PhoneMessage>) returns (synced: nat)
    modifies db
    ensures db.View() == QuickSync(old(db.View()), threadId, msgs)
    ensures synced == |msgs|
  {
    ghost var before := db.View();
    synced := 0;
    while synced < |msgs|
      invariant 0 <= synced <= |msgs|
      invariant db.View() == Apply(before, msgs[..synced])
    {
      StoreMessage(db, msgs[synced]);
      assert msgs[..synced + 1][..synced] == msgs[..synced];
      synced := synced + 1;
    }
    assert msgs[..synced] == msgs;
    if |msgs| > 0 {
      var newest := msgs[|msgs| - 1];
      var convNow := db.GetConversation(threadId);
      if convNow.Some? && newest.date >= convNow.value.date {
        db.UpsertConversation(threadId, convNow.value.(snippet := Some(Snippet(newest)), date := newest.date));
      }
    }
  }

  lemma QuickSyncOverlays(tb: Tables, threadId: int, msgs: seq<PhoneMessage>)
    ensures QuickSync(tb, threadId, msgs).messages == tb.messages + Rows(msgs)
    ensures QuickSync(tb, threadId, msgs).attachments == Apply(tb, msgs).attachments
  {
    ApplyOverlays(tb, msgs);
  }

  /** The conversation ends no older than it was or than the last message of the answer, which alone can move it. */
  lemma QuickSyncConversation(tb: Tables, threadId: int, msgs: seq<PhoneMessage>)
    ensures var r := QuickSync(tb, threadId, msgs);
      && r.conversations.Keys == tb.conversations.Keys
      && (forall t | t in tb.conversations && t != threadId :: r.conversations[t] == tb.conversations[t])
      && (threadId in tb.conversations ==> var was, got := tb.conversations[threadId], r.conversations[threadId];
            if msgs != [] && msgs[|msgs| - 1].date >= was.date
            then ShowsLast(was, msgs[|msgs| - 1], got) else got == was)
  {
    ApplyOverlays(tb, msgs);
  }

  /** Date and preview of the message, all else as before. */
  predicate ShowsLast(was: Conversation, m: PhoneMessage, got: Conversation) {
    && got == was.(date := m.date, snippet := got.snippet)
    && (if m.body.Some? then got.snippet == m.body
        else got.snippet == Some(if |m.parts| > 0 then "[Attachment]" else ""))
  }

  /** The window for a thread, `fullSyncDate` being absent when the thread has no conversation row. */
  function Window(fullSyncDate: Option<int>, clock: int): int {
    if fullSyncDate.None? || fullSyncDate.value == 0 then ONE_WEEK_MS
    else
      var timeSinceSync := clock - fullSyncDate.value;
      var atLeast := if ONE_WEEK_MS >= timeSinceSync then ONE_WEEK_MS else timeSinceSync;
      if atLeast <= MAX_QUICK_SYNC_WINDOW_MS then atLeast else MAX_QUICK_SYNC_WINDOW_MS
  }

  /** The phone's answer to a query from `since`: the rows of the thread dated then or later. */
  function Since(phone: map<int, Message>, since: int): map<int, Message> {
    map id | id in phone && phone[id].date >= since :: phone[id]
  }

  ghost predicate AllLocal(phone: map<int, Message>, local: map<int, Message>) {
    forall id | id in phone :: Lookup(local, id) == Some(phone[id])
  }

  function UpTo(phone: map<int, Message>, date: int): map<int, Message> {
    map id | id in phone && phone[id].date <= date :: phone[id]
  }

  /** The sync completes a thread exactly when everything the phone has from before the window is local already. */
  lemma CompleteIff(tb: Tables, threadId: int, msgs: seq<PhoneMessage>, phone: map<int, Message>, since: int)
    requires Rows(msgs) == Since(phone, since)
    ensures AllLocal(phone, QuickSync(tb, threadId, msgs).messages) <==> AllLocal(UpTo(phone, since - 1), tb.messages)
  {
    QuickSyncOverlays(tb, threadId, msgs);
    var after := QuickSync(tb, threadId, msgs).messages;
    if AllLocal(phone, after) {
      forall id | id in UpTo(phone, since - 1) ensures Lookup(tb.messages, id) == Some(phone[id])
      {
        assert Lookup(after, id) == Some(phone[id]);
      }
    }
    if AllLocal(UpTo(phone, since - 1), tb.messages) {
      forall id | id in phone ensures Lookup(after, id) == Some(phone[id])
      {
        if phone[id].date < since {
          assert id in UpTo(phone, since - 1);
        }
      }
    }
  }

  /**
   * The code reads the clock twice: at `windowClock` to size the window and at `sinceClock` to place it. The batch
   * sync places it with an earlier reading, the flagged-thread sync with a later one.
   */
  function SinceDate(fullSyncDate: int, windowClock: int, sinceClock: int): int {
    sinceClock - Window(Some(fullSyncDate), windowClock)
  }

  /** For every thread: history local up to its full sync date, so after the quick sync everything is. */
  ghost predicate Guaranteed(fullSyncDate: int, since: int) {
    forall tb: Tables, threadId: int, msgs: seq<PhoneMessage>, phone: map<int, Message> |
      Rows(msgs) == Since(phone, since) && AllLocal(UpTo(phone, fullSyncDate), tb.messages) ::
      AllLocal(phone, QuickSync(tb, threadId, msgs).messages)
  }

  lemma GuaranteedIff(fullSyncDate: int, since: int)
    ensures Guaranteed(fullSyncDate, since) <==> since <= fullSyncDate + 1
  {
    if since <= fullSyncDate + 1 {
      forall tb: Tables, threadId: int, msgs: seq<PhoneMessage>, phone: map<int, Message> |
        Rows(msgs) == Since(phone, since) && AllLocal(UpTo(phone, fullSyncDate), tb.messages)
        ensures AllLocal(phone, QuickSync(tb, threadId, msgs).messages)
      {
        forall id | id in UpTo(phone, since - 1) ensures Lookup(tb.messages, id) == Some(phone[id])
        {
          assert id in UpTo(phone, fullSyncDate);
        }
        CompleteIff(tb, threadId, msgs, phone, since);
      }
    } else {
      var missed := Message(1, "", None, fullSyncDate + 1, 1, 0, 0, 0);
      var phone := map[1 := missed];
      var tb := Tables(map[], map[], map[]);
      var none: seq<PhoneMessage> := [];
      assert Rows(none) == Since(phone, since);
      assert AllLocal(UpTo(phone, fullSyncDate), tb.messages);
      CompleteIff(tb, 1, none, phone, since);
      assert 1 in UpTo(phone, since - 1);
      assert Lookup(tb.messages, 1) == None;
      assert !AllLocal(UpTo(phone, since - 1), tb.messages);
    }
  }

  /** The window is always between one week and ninety days. */
  lemma WindowBounds(fullSyncDate: Option<int>, clock: int)
    ensures ONE_WEEK_MS <= Window(fullSyncDate, clock) <= MAX_QUICK_SYNC_WINDOW_MS
  {
  }

  /**
   * Batch sync: the window is sized at or after the moment it is placed. It closes the gap exactly for threads
   * last synced within ninety days of that moment (to the millisecond; a thread with no full sync date is outside it).
   */
  lemma BatchWindowCovers(fullSyncDate: int, windowClock: int, sinceClock: int)
    requires fullSyncDate != 0 && sinceClock <= windowClock
    ensures Guaranteed(fullSyncDate, SinceDate(fullSyncDate, windowClock, sinceClock))
       <==> sinceClock - fullSyncDate <= MAX_QUICK_SYNC_WINDOW_MS + 1
  {
    GuaranteedIff(fullSyncDate, SinceDate(fullSyncDate, windowClock, sinceClock));
  }

  /**
   * Flagged threads: the window is sized when the operation is queued and placed when it runs. Unless the minimum
   * of one week takes up the wait, a wait of two milliseconds already leaves part of the gap unasked for.
   */
  lemma FlaggedWindowCovers(fullSyncDate: int, windowClock: int, sinceClock: int)
    requires fullSyncDate != 0 && windowClock <= sinceClock
    ensures Guaranteed(fullSyncDate, SinceDate(fullSyncDate, windowClock, sinceClock))
       <==> if windowClock - fullSyncDate <= ONE_WEEK_MS then sinceClock - fullSyncDate <= ONE_WEEK_MS + 1
            else if windowClock - fullSyncDate <= MAX_QUICK_SYNC_WINDOW_MS then sinceClock <= windowClock + 1
            else sinceClock - fullSyncDate <= MAX_QUICK_SYNC_WINDOW_MS + 1
  {
    GuaranteedIff(fullSyncDate, SinceDate(fullSyncDate, windowClock, sinceClock));
  }
}
