/**
 * When does a full sync leave a thread equal to the phone's? The phone answers the query with its rows at one
 * instant and goes on changing; its events reach the desktop partly while the query is awaited (`gap`), partly
 * afterwards (`later`). Every interleaving is a split of one event sequence.
 */
module SyncConvergence {
  import opened Wrappers
  import opened Store
  import opened PhoneMessages
  import opened EventListener
  import opened FullThreadSync
  import opened QuickMessageSync
  import SmsHandler
  import ThreadListSync

  datatype Event = Arrived(received: bool, message: PhoneMessage) | Removed(id: int) | ThreadRemoved(threadId: int)

  /**
   * The desktop's reaction to one event. Two handlers see it in turn. For new messages the second one, the listener,
   * writes every row the first one wrote; a deleted thread loses its messages through the first one.
   */
  function Handle(tb: Tables, e: Event): Tables {
    match e
    case Arrived(received, m) => NewMessages(tb, received, [m])
    case Removed(id) => DeleteMessages(tb, {id})
    case ThreadRemoved(t) => Store.DeleteConversation(SmsHandler.DeleteThread(tb, t), t)
  }

  function HandleAll(tb: Tables, events: seq<Event>): Tables {
    if events == [] then tb else Handle(HandleAll(tb, events[..|events| - 1]), events[|events| - 1])
  }

  /** The phone's own store over the same events. */
  function Play(phone: map<int, Message>, events: seq<Event>): map<int, Message> {
    if events == [] then phone
    else
      var before := Play(phone, events[..|events| - 1]);
      match events[|events| - 1]
      case Arrived(_, m) => before[m.id := ToRow(m)]
      case Removed(id) => before - {id}
      case ThreadRemoved(t) => before - ThreadIds(before, t)
  }

  function InThread(row: Option<Message>, threadId: int): Option<Message> {
    if row.Some? && row.value.threadId == threadId then row else None
  }

  /** What the last event about a message leaves of it in the thread, if any event concerns it there. */
  function Latest(events: seq<Event>, threadId: int, id: int): Option<Option<Message>> {
    if events == [] then None
    else
      var before := Latest(events[..|events| - 1], threadId, id);
      match events[|events| - 1]
      case Arrived(_, m) => if m.id == id then Some(InThread(Some(ToRow(m)), threadId)) else before
      case Removed(removed) => if removed == id then Some(None) else before
      case ThreadRemoved(t) => if t == threadId then Some(None) else before
  }

  lemma OneArrival(tb: Tables, received: bool, m: PhoneMessage)
    ensures NewMessages(tb, received, [m]).messages == tb.messages[m.id := ToRow(m)]
  {
    NewMessagesOverlay(tb, received, [m]);
    assert [m][..0] == [];
    assert Rows([m]) == map[m.id := ToRow(m)];
  }

  lemma {:induction false} HandlingFollowsThePhone(tb: Tables, events: seq<Event>)
    ensures HandleAll(tb, events).messages == Play(tb.messages, events)
  {
    if events != [] {
      var n := |events| - 1;
      HandlingFollowsThePhone(tb, events[..n]);
      var before := HandleAll(tb, events[..n]);
      if events[n].Arrived? {
        OneArrival(before, events[n].received, events[n].message);
      }
    }
  }

  lemma {:induction false} PlayAt(phone: map<int, Message>, events: seq<Event>, threadId: int, id: int)
    ensures InThread(Lookup(Play(phone, events), id), threadId)
         == Latest(events, threadId, id).GetOr(InThread(Lookup(phone, id), threadId))
  {
    if events != [] {
      PlayAt(phone, events[..|events| - 1], threadId, id);
    }
  }

  lemma {:induction false} LatestOfConcat(gap: seq<Event>, later: seq<Event>, threadId: int, id: int)
    ensures Latest(gap + later, threadId, id) == Latest(later, threadId, id).OrElse(Latest(gap, threadId, id))
  {
    if later == [] {
      assert gap + later == gap;
    } else {
      var n := |later| - 1;
      LatestOfConcat(gap, later[..n], threadId, id);
      assert (gap + later)[..|gap + later| - 1] == gap + later[..n];
    }
  }

  /**
   * One message that no later event concerns. If the gap did not concern it either, a local row the phone lacks
   * must not pass for a fresh one; if the gap changed it, the answer must agree with the change, or, when the
   * answer lacks the message, an arrival must be dated after the answer.
   */
  predicate HarmlessAt(
    local: Option<Message>, answer: Option<Message>, timestamp: int, change: Option<Option<Message>>)
  {
    match change
    case None => answer.None? && local.Some? ==> local.value.date <= timestamp
    case Some(changed) =>
      if answer.Some? then changed == answer else changed.Some? ==> changed.value.date > timestamp
  }

  ghost predicate Harmless(
    local: map<int, Message>, answer: map<int, Message>, threadId: int, timestamp: int,
    gap: seq<Event>, later: seq<Event>)
  {
    forall id | Latest(later, threadId, id).None? ::
      HarmlessAt(InThread(Lookup(local, id), threadId), Lookup(answer, id), timestamp, Latest(gap, threadId, id))
  }

  ghost predicate Agree(a: map<int, Message>, b: map<int, Message>, threadId: int) {
    ThreadRows(a, threadId) == ThreadRows(b, threadId)
  }

  lemma AgreePointwise(a: map<int, Message>, b: map<int, Message>, threadId: int)
    ensures Agree(a, b, threadId)
       <==> forall id :: InThread(Lookup(a, id), threadId) == InThread(Lookup(b, id), threadId)
  {
    var ra, rb := ThreadRows(a, threadId), ThreadRows(b, threadId);
    assert forall id :: Lookup(ra, id) == InThread(Lookup(a, id), threadId);
    assert forall id :: Lookup(rb, id) == InThread(Lookup(b, id), threadId);
    if forall id :: InThread(Lookup(a, id), threadId) == InThread(Lookup(b, id), threadId) {
      SameLookups(ra, rb);
    }
  }

  /** The local thread and the phone's agree about one message exactly when the gap was harmless to it. */
  lemma FinalAt(
    start: Tables, phone: map<int, Message>, threadId: int, msgs: seq<PhoneMessage>, timestamp: int, now: int,
    gap: seq<Event>, after: Tables, later: seq<Event>, id: int)
    requires Rows(msgs) == ThreadRows(phone, threadId)
    requires Step(HandleAll(start, gap), threadId, msgs, timestamp, now, after)
    ensures InThread(Lookup(HandleAll(after, later).messages, id), threadId)
         == InThread(Lookup(Play(phone, gap + later), id), threadId)
       <==> (Latest(later, threadId, id).Some?
             || HarmlessAt(InThread(Lookup(start.messages, id), threadId), Lookup(Rows(msgs), id), timestamp,
                           Latest(gap, threadId, id)))
  {
    var before := HandleAll(start, gap);
    HandlingFollowsThePhone(start, gap);
    HandlingFollowsThePhone(after, later);
    PlayAt(start.messages, gap, threadId, id);
    PlayAt(after.messages, later, threadId, id);
    PlayAt(phone, gap + later, threadId, id);
    LatestOfConcat(gap, later, threadId, id);
    StepKeepsRows(before, threadId, msgs, timestamp, now, after);
    ApplyOverlays(before, msgs);
  }

  /**
   * Convergence: once every event is delivered, the local thread equals the phone's thread if and only if the gap
   * was harmless. No assumption is made on the initial tables or on which of the events occur.
   */
  lemma ConvergesIff(
    start: Tables, phone: map<int, Message>, threadId: int, msgs: seq<PhoneMessage>, timestamp: int, now: int,
    gap: seq<Event>, after: Tables, later: seq<Event>)
    requires Rows(msgs) == ThreadRows(phone, threadId)
    requires Step(HandleAll(start, gap), threadId, msgs, timestamp, now, after)
    ensures Agree(HandleAll(after, later).messages, Play(phone, gap + later), threadId)
       <==> Harmless(start.messages, Rows(msgs), threadId, timestamp, gap, later)
  {
    forall id
      ensures InThread(Lookup(HandleAll(after, later).messages, id), threadId)
           == InThread(Lookup(Play(phone, gap + later), id), threadId)
         <==> (Latest(later, threadId, id).Some?
               || HarmlessAt(InThread(Lookup(start.messages, id), threadId), Lookup(Rows(msgs), id), timestamp,
                           Latest(gap, threadId, id)))
    {
      FinalAt(start, phone, threadId, msgs, timestamp, now, gap, after, later, id);
    }
    AgreePointwise(HandleAll(after, later).messages, Play(phone, gap + later), threadId);
  }

  /** Only arrivals in the gap, each new to the phone and dated after the answer. */
  ghost predicate FreshArrivals(answer: map<int, Message>, timestamp: int, gap: seq<Event>) {
    forall e | e in gap :: e.Arrived? && e.message.id !in answer && e.message.date > timestamp
  }

  lemma {:induction false} FreshArrivalsLatest(
    answer: map<int, Message>, timestamp: int, gap: seq<Event>, threadId: int, id: int)
    requires FreshArrivals(answer, timestamp, gap)
    ensures var change := Latest(gap, threadId, id);
      change.Some? ==> id !in answer && (change.value.Some? ==> change.value.value.date > timestamp)
  {
    if gap != [] {
      FreshArrivalsLatest(answer, timestamp, gap[..|gap| - 1], threadId, id);
      assert gap[|gap| - 1] in gap;
    }
  }

  /** No row of the thread could pass for one that arrived after the answer. */
  ghost predicate NoneLater(local: map<int, Message>, threadId: int, timestamp: int) {
    forall id | id in local && local[id].threadId == threadId :: local[id].date <= timestamp
  }

  lemma FreshArrivalsHarmless(
    local: map<int, Message>, answer: map<int, Message>, threadId: int, timestamp: int,
    gap: seq<Event>, later: seq<Event>)
    requires FreshArrivals(answer, timestamp, gap) && NoneLater(local, threadId, timestamp)
    ensures Harmless(local, answer, threadId, timestamp, gap, later)
  {
    forall id | Latest(later, threadId, id).None?
      ensures HarmlessAt(InThread(Lookup(local, id), threadId), Lookup(answer, id), timestamp, Latest(gap, threadId, id))
    {
      FreshArrivalsLatest(answer, timestamp, gap, threadId, id);
    }
  }

  /**
   * The promise the timestamp is for: messages that arrive while the query runs survive it, whatever stale rows
   * dated up to the answer the thread held, and whatever happens after it.
   */
  lemma FreshArrivalsConverge(
    start: Tables, phone: map<int, Message>, threadId: int, msgs: seq<PhoneMessage>, timestamp: int, now: int,
    gap: seq<Event>, after: Tables, later: seq<Event>)
    requires Rows(msgs) == ThreadRows(phone, threadId)
    requires Step(HandleAll(start, gap), threadId, msgs, timestamp, now, after)
    requires FreshArrivals(Rows(msgs), timestamp, gap) && NoneLater(start.messages, threadId, timestamp)
    ensures Agree(HandleAll(after, later).messages, Play(phone, gap + later), threadId)
  {
    FreshArrivalsHarmless(start.messages, Rows(msgs), threadId, timestamp, gap, later);
    ConvergesIff(start, phone, threadId, msgs, timestamp, now, gap, after, later);
  }

  /** A deletion reported while the query is awaited is undone by the older answer, and stays undone. */
  lemma DeletionInGapIsUndone(start: Tables, now: int, after: Tables)
    requires start.messages == map[7 := Message(1, "", None, 50, 1, 1, 0, 0)]
    requires var answer := [PhoneMessage(7, 1, None, None, 50, 1, 1, 0, 0, [])];
      Step(HandleAll(start, [Removed(7)]), 1, answer, 100, now, after)
    ensures !Agree(after.messages, Play(start.messages, [Removed(7)]), 1)
  {
    var m := PhoneMessage(7, 1, None, None, 50, 1, 1, 0, 0, []);
    var row := Message(1, "", None, 50, 1, 1, 0, 0);
    assert [m][..0] == [];
    assert Rows([m]) == map[7 := row];
    assert ThreadRows(start.messages, 1) == start.messages;
    var gap := [Removed(7)];
    assert Latest(gap, 1, 7) == Some(None);
    assert !HarmlessAt(Some(row), Some(row), 100, Latest(gap, 1, 7));
    assert Latest([], 1, 7).None?;
    ConvergesIff(start, start.messages, 1, [m], 100, now, gap, after, []);
    assert gap + [] == gap;
  }

  // ----- the quick sync, which awaits its query in the same way -----

  /**
   * One message that no later event concerns: if the gap changed it, a row in the answer must agree with the change;
   * otherwise, if the answer lacks it, the local thread must hold it just as the phone does.
   */
  predicate QuickHarmlessAt(
    local: Option<Message>, answer: Option<Message>, phone: Option<Message>, change: Option<Option<Message>>)
  {
    match change
    case None => answer.None? ==> local == phone
    case Some(changed) => answer.Some? ==> changed == answer
  }

  ghost predicate QuickHarmless(
    local: map<int, Message>, answer: map<int, Message>, phone: map<int, Message>, threadId: int,
    gap: seq<Event>, later: seq<Event>)
  {
    forall id | Latest(later, threadId, id).None? ::
      QuickHarmlessAt(InThread(Lookup(local, id), threadId), Lookup(answer, id), InThread(Lookup(phone, id), threadId),
                      Latest(gap, threadId, id))
  }

  lemma QuickFinalAt(
    start: Tables, phone: map<int, Message>, threadId: int, msgs: seq<PhoneMessage>, since: int,
    gap: seq<Event>, later: seq<Event>, id: int)
    requires Rows(msgs) == Since(ThreadRows(phone, threadId), since)
    ensures var after := QuickSync(HandleAll(start, gap), threadId, msgs);
      (InThread(Lookup(HandleAll(after, later).messages, id), threadId)
       == InThread(Lookup(Play(phone, gap + later), id), threadId)
       <==> (Latest(later, threadId, id).Some?
             || QuickHarmlessAt(InThread(Lookup(start.messages, id), threadId), Lookup(Rows(msgs), id),
                                InThread(Lookup(phone, id), threadId), Latest(gap, threadId, id))))
  {
    var before := HandleAll(start, gap);
    var after := QuickSync(before, threadId, msgs);
    HandlingFollowsThePhone(start, gap);
    HandlingFollowsThePhone(after, later);
    PlayAt(start.messages, gap, threadId, id);
    PlayAt(after.messages, later, threadId, id);
    PlayAt(phone, gap + later, threadId, id);
    LatestOfConcat(gap, later, threadId, id);
    QuickSyncOverlays(before, threadId, msgs);
  }

  /** Convergence of the quick sync, from any tables and with any events in the gap and afterwards. */
  lemma QuickConvergesIff(
    start: Tables, phone: map<int, Message>, threadId: int, msgs: seq<PhoneMessage>, since: int,
    gap: seq<Event>, later: seq<Event>)
    requires Rows(msgs) == Since(ThreadRows(phone, threadId), since)
    ensures var after := QuickSync(HandleAll(start, gap), threadId, msgs);
      Agree(HandleAll(after, later).messages, Play(phone, gap + later), threadId)
      <==> QuickHarmless(start.messages, Rows(msgs), phone, threadId, gap, later)
  {
    var after := QuickSync(HandleAll(start, gap), threadId, msgs);
    forall id
      ensures InThread(Lookup(HandleAll(after, later).messages, id), threadId)
           == InThread(Lookup(Play(phone, gap + later), id), threadId)
         <==> (Latest(later, threadId, id).Some?
               || QuickHarmlessAt(InThread(Lookup(start.messages, id), threadId), Lookup(Rows(msgs), id),
                                  InThread(Lookup(phone, id), threadId), Latest(gap, threadId, id)))
    {
      QuickFinalAt(start, phone, threadId, msgs, since, gap, later, id);
    }
    AgreePointwise(HandleAll(after, later).messages, Play(phone, gap + later), threadId);
  }

  // ----- the thread list, which is awaited in the same way -----

  /** The phone's threads over the same events: a message makes its thread, and a thread goes when it is deleted. */
  function PlayThreads(threads: set<int>, events: seq<Event>): set<int> {
    if events == [] then threads
    else
      var before := PlayThreads(threads, events[..|events| - 1]);
      match events[|events| - 1]
      case Arrived(_, m) => before + {m.threadId}
      case Removed(_) => before
      case ThreadRemoved(t) => before - {t}
  }

  /** Whether the last event that concerns the thread leaves it in place, if any event does. */
  function LatestThread(events: seq<Event>, t: int): Option<bool> {
    if events == [] then None
    else
      match events[|events| - 1]
      case Arrived(_, m) => if m.threadId == t then Some(true) else LatestThread(events[..|events| - 1], t)
      case Removed(_) => LatestThread(events[..|events| - 1], t)
      case ThreadRemoved(removed) => if removed == t then Some(false) else LatestThread(events[..|events| - 1], t)
  }

  lemma {:induction false} PlayThreadsAt(threads: set<int>, events: seq<Event>, t: int)
    ensures t in PlayThreads(threads, events) <==> LatestThread(events, t).GetOr(t in threads)
  {
    if events != [] {
      PlayThreadsAt(threads, events[..|events| - 1], t);
    }
  }

  lemma {:induction false} LatestThreadOfConcat(gap: seq<Event>, later: seq<Event>, t: int)
    ensures LatestThread(gap + later, t) == LatestThread(later, t).OrElse(LatestThread(gap, t))
  {
    if later == [] {
      assert gap + later == gap;
    } else {
      var n := |later| - 1;
      LatestThreadOfConcat(gap, later[..n], t);
      assert (gap + later)[..|gap + later| - 1] == gap + later[..n];
    }
  }

  /** The conversation table follows the events in the same way. */
  lemma {:induction false} HandlingFollowsThreads(tb: Tables, events: seq<Event>)
    ensures HandleAll(tb, events).conversations.Keys == PlayThreads(tb.conversations.Keys, events)
  {
    if events != [] {
      var n := |events| - 1;
      HandlingFollowsThreads(tb, events[..n]);
      if events[n].Arrived? {
        NewMessagesStep(HandleAll(tb, events[..n]), events[n].received, [events[n].message]);
        assert [events[n].message][..0] == [];
      }
    }
  }

  /** A thread that the last event about it in the gap made or deleted is on the list, or not on it, accordingly. */
  predicate ListHarmlessAt(listed: set<int>, gap: seq<Event>, later: seq<Event>, t: int) {
    LatestThread(later, t).None? && LatestThread(gap, t).Some? ==> LatestThread(gap, t) == Some(t in listed)
  }

  ghost predicate ListHarmless(listed: set<int>, gap: seq<Event>, later: seq<Event>) {
    forall t :: ListHarmlessAt(listed, gap, later, t)
  }

  lemma ListedAt(listed: set<int>, gap: seq<Event>, later: seq<Event>, t: int)
    ensures (t in PlayThreads(listed, later) <==> t in PlayThreads(listed, gap + later))
       <==> ListHarmlessAt(listed, gap, later, t)
  {
    PlayThreadsAt(listed, later, t);
    PlayThreadsAt(listed, gap + later, t);
    LatestThreadOfConcat(gap, later, t);
  }

  /**
   * Convergence of the thread list sync: with any events while the list is awaited and afterwards, the local threads
   * end as the phone's if and only if the list agrees with what the gap did last to each thread. Otherwise a thread
   * made in the gap is deleted, or one deleted in the gap comes back.
   */
  lemma ThreadListConvergesIff(start: Tables, list: seq<ThreadListSync.Entry>, gap: seq<Event>, later: seq<Event>)
    ensures var after := ThreadListSync.SyncThreads(HandleAll(start, gap), list);
      var listed := ThreadListSync.Ids(list);
      (HandleAll(after, later).conversations.Keys == PlayThreads(listed, gap + later)
       <==> ListHarmless(listed, gap, later))
  {
    var after, listed := ThreadListSync.SyncThreads(HandleAll(start, gap), list), ThreadListSync.Ids(list);
    ThreadListSync.ThreadsMatchPhone(HandleAll(start, gap), list);
    HandlingFollowsThreads(after, later);
    var here, there := PlayThreads(listed, later), PlayThreads(listed, gap + later);
    if ListHarmless(listed, gap, later) {
      forall t ensures t in here <==> t in there
      {
        assert ListHarmlessAt(listed, gap, later, t);
        ListedAt(listed, gap, later, t);
      }
      SameSets(here, there);
    }
    if here == there {
      forall t ensures ListHarmlessAt(listed, gap, later, t)
      {
        ListedAt(listed, gap, later, t);
      }
    }
  }
}
