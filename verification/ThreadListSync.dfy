/** Thread list sync: the conversation table is brought in line with the phone's list of threads. */
module ThreadListSync {
  import opened Wrappers
  import opened Store
  import opened DatabaseService
  import opened Addresses
  import opened News

  /** One line of the phone's list, with its addresses as sent or already normalized. */
  datatype PhoneThread<+A> = PhoneThread(
    threadId: int, addresses: A, snippet: string, snippetDate: int, unreadCount: int)

  type Entry = PhoneThread<seq<string>>

  function ToEntry(th: PhoneThread<RawAddresses>): Entry {
    PhoneThread(th.threadId, Normalize(th.addresses), th.snippet, th.snippetDate, th.unreadCount)
  }

  function Entries(list: seq<PhoneThread<RawAddresses>>): seq<Entry> {
    seq(|list|, i requires 0 <= i < |list| => ToEntry(list[i]))
  }

  datatype Change = Added | Updated | Unchanged

  function ChangeFor(tb: Tables, e: Entry): Change {
    if e.threadId !in tb.conversations then Added
    else if e.snippetDate > tb.conversations[e.threadId].date then Updated
    else if e.addresses != tb.conversations[e.threadId].addresses then Updated
    else Unchanged
  }

  function NewRow(e: Entry): Conversation {
    Conversation(e.addresses, Some(e.snippet), e.snippetDate, if e.unreadCount == 0 then 1 else 0, e.unreadCount,
                 None, false, 0)
  }

  function UpsertThread(tb: Tables, e: Entry): Tables {
    if e.threadId !in tb.conversations || e.snippetDate > tb.conversations[e.threadId].date then
      Store.UpsertConversation(tb, e.threadId, NewRow(e))
    else if e.addresses != tb.conversations[e.threadId].addresses then
      Store.UpsertConversation(tb, e.threadId, tb.conversations[e.threadId].(addresses := e.addresses))
    else tb
  }

  function UpsertThreads(tb: Tables, list: seq<Entry>): Tables {
    if list == [] then tb else UpsertThread(UpsertThreads(tb, list[..|list| - 1]), list[|list| - 1])
  }

  /** How often the loop makes a given change. */
  function Count(tb: Tables, list: seq<Entry>, change: Change): nat {
    if list == [] then 0
    else
      var n := |list| - 1;
      Count(tb, list[..n], change) + if ChangeFor(UpsertThreads(tb, list[..n]), list[n]) == change then 1 else 0
  }

  function Ids<A>(list: seq<PhoneThread<A>>): set<int> {
    if list == [] then {} else Ids(list[..|list| - 1]) + {list[|list| - 1].threadId}
  }

  /** Threads known locally and absent from the list lose their conversation row; their messages stay. */
  function SyncThreads(tb: Tables, list: seq<Entry>): Tables {
    var upserted := UpsertThreads(tb, list);
    upserted.(conversations := upserted.conversations - (tb.conversations.Keys - Ids(list)))
  }

  method ThreadListSync(db: Database, list: seq<PhoneThread<RawAddresses>>)
    returns (added: nat, removed: nat, updated: nat)
    modifies db
    ensures db.View() == SyncThreads(old(db.View()), Entries(list))
    ensures added == Count(old(db.View()), Entries(list), Added)
    ensures updated == Count(old(db.View()), Entries(list), Updated)
    ensures removed == |old(db.conversations).Keys - Ids(Entries(list))|
  {
    var localThreadIds := db.conversations.Keys;
    var phoneThreadIds: set<int>;
    added, updated, phoneThreadIds := UpsertAll(db, list);
    removed := DeleteAbsent(db, localThreadIds, phoneThreadIds);
  }

  method UpsertAll(db: Database, list: seq<PhoneThread<RawAddresses>>)
    returns (added: nat, updated: nat, phoneThreadIds: set<int>)
    modifies db
    ensures db.View() == UpsertThreads(old(db.View()), Entries(list))
    ensures added == Count(old(db.View()), Entries(list), Added)
    ensures updated == Count(old(db.View()), Entries(list), Updated)
    ensures phoneThreadIds == Ids(Entries(list))
  {
    ghost var before, entries := db.View(), Entries(list);
    added, updated, phoneThreadIds := 0, 0, {};
    var i := 0;
    while i < |list|
      invariant 0 <= i <= |list|
      invariant db.View() == UpsertThreads(before, entries[..i])
      invariant added == Count(before, entries[..i], Added)
      invariant updated == Count(before, entries[..i], Updated)
      invariant phoneThreadIds == Ids(entries[..i])
    {
      assert entries[..i + 1][..i] == entries[..i];
      phoneThreadIds := phoneThreadIds + {list[i].threadId};
      var change := SyncOne(db, list[i]);
      match change {
        case Added => added := added + 1;
        case Updated => updated := updated + 1;
        case Unchanged =>
      }
      i := i + 1;
    }
    assert entries[..i] == entries;
  }

  /** The body of the first loop. */
  method SyncOne(db: Database, th: PhoneThread<RawAddresses>) returns (change: Change)
    modifies db
    ensures db.View() == UpsertThread(old(db.View()), ToEntry(th))
    ensures change == ChangeFor(old(db.View()), ToEntry(th))
  {
    var existing := db.GetConversation(th.threadId);
    var addresses := NormalizeAddresses(th.addresses);
    var row := Conversation(addresses, Some(th.snippet), th.snippetDate,
                            if th.unreadCount == 0 then 1 else 0, th.unreadCount, None, false, 0);
    if existing.None? {
      db.UpsertConversation(th.threadId, row);
      return Added;
    }
    if th.snippetDate > existing.value.date {
      db.UpsertConversation(th.threadId, row.(locallyReadAt := existing.value.locallyReadAt));
      return Updated;
    }
    if addresses != existing.value.addresses {
      db.UpsertConversation(th.threadId, existing.value.(addresses := addresses));
      return Updated;
    }
    return Unchanged;
  }

  method DeleteAbsent(db: Database, localThreadIds: set<int>, phoneThreadIds: set<int>) returns (removed: nat)
    modifies db
    ensures var tb := old(db.View());
      db.View() == tb.(conversations := tb.conversations - (localThreadIds - phoneThreadIds))
    ensures removed == |localThreadIds - phoneThreadIds|
  {
    ghost var tb := db.View();
    removed := 0;
    var todo := localThreadIds;
    ghost var gone: set<int> := {};
    while todo != {}
      invariant todo <= localThreadIds
      invariant forall k :: k in gone <==> k in localThreadIds && k !in todo && k !in phoneThreadIds
      invariant db.View() == tb.(conversations := tb.conversations - gone)
      invariant removed == |gone|
      decreases todo
    {
      var localId := AnyOf(todo);
      todo := todo - {localId};
      if localId !in phoneThreadIds {
        db.DeleteConversation(localId);
        removed := removed + 1;
        gone := gone + {localId};
      }
    }
    forall k ensures k in gone <==> k in localThreadIds - phoneThreadIds
    {
      assert k !in todo;
    }
    SameSets(gone, localThreadIds - phoneThreadIds);
  }

  // ----- what the sync achieves -----

  /** Entries for the same thread carry the same addresses. */
  ghost predicate Consistent(list: seq<Entry>) {
    forall i, j | 0 <= i < |list| && 0 <= j < |list| && list[i].threadId == list[j].threadId ::
      list[i].addresses == list[j].addresses
  }

  predicate Names(list: seq<Entry>, i: int, t: int, addresses: seq<string>) {
    0 <= i < |list| && list[i].threadId == t && list[i].addresses == addresses
  }

  /** A listed thread has a row dated no earlier than any of its entries, with the addresses of one of them. */
  ghost predicate Reflects(conversations: map<int, Conversation>, list: seq<Entry>, t: int) {
    && t in conversations
    && (forall i | 0 <= i < |list| && list[i].threadId == t :: list[i].snippetDate <= conversations[t].date)
    && (exists i :: Names(list, i, t, conversations[t].addresses))
  }

  ghost predicate RowKept(a: map<int, Conversation>, b: map<int, Conversation>, t: int) {
    t in a && t in b ==> a[t].date <= b[t].date && LocalColumnsKept(a[t], b[t])
  }

  lemma {:induction false} InIds<A>(list: seq<PhoneThread<A>>, t: int)
    ensures t in Ids(list) <==> exists i :: 0 <= i < |list| && list[i].threadId == t
  {
    if list != [] {
      var n := |list| - 1;
      InIds(list[..n], t);
      if i :| 0 <= i < n && list[..n][i].threadId == t {
        assert list[i].threadId == t;
      }
      if i :| 0 <= i < n && list[i].threadId == t {
        assert list[..n][i].threadId == t;
      }
    }
  }

  lemma {:induction false} UpsertsAt(tb: Tables, list: seq<Entry>, t: int)
    ensures var r := UpsertThreads(tb, list);
      && r.messages == tb.messages && r.attachments == tb.attachments
      && (t in tb.conversations ==> t in r.conversations)
      && RowKept(tb.conversations, r.conversations, t)
      && (t !in Ids(list) ==> Lookup(r.conversations, t) == Lookup(tb.conversations, t))
      && (t in Ids(list) ==> Reflects(r.conversations, list, t))
  {
    if list != [] {
      var n := |list| - 1;
      var head := UpsertThreads(tb, list[..n]);
      UpsertsAt(tb, list[..n], t);
      InIds(list[..n], t);
      ReflectsStep(head, list, t);
    }
  }

  lemma ReflectsStep(head: Tables, list: seq<Entry>, t: int)
    requires list != []
    requires t in Ids(list[..|list| - 1]) ==> Reflects(head.conversations, list[..|list| - 1], t)
    ensures t in Ids(list) ==> Reflects(UpsertThread(head, list[|list| - 1]).conversations, list, t)
  {
    var n, e := |list| - 1, list[|list| - 1];
    if e.threadId == t || t in Ids(list[..n]) {
      ExtendReflects(head.conversations, list, t, UpsertThread(head, e).conversations);
    }
  }

  lemma ExtendReflects(before: map<int, Conversation>, list: seq<Entry>, t: int, after: map<int, Conversation>)
    requires list != [] && t in Ids(list)
    requires t in Ids(list[..|list| - 1]) ==> Reflects(before, list[..|list| - 1], t)
    requires t in after && RowKept(before, after, t)
    requires var e := list[|list| - 1];
      if e.threadId == t then e.snippetDate <= after[t].date && e.addresses == after[t].addresses
      else Lookup(after, t) == Lookup(before, t)
    ensures Reflects(after, list, t)
  {
    var n := |list| - 1;
    var head := list[..n];
    InIds(head, t);
    forall i | 0 <= i < |list| && list[i].threadId == t ensures list[i].snippetDate <= after[t].date
    {
      if i < n {
        assert head[i] == list[i];
      }
    }
    if list[n].threadId == t {
      assert Names(list, n, t, after[t].addresses);
    } else {
      var i :| Names(head, i, t, before[t].addresses);
      assert head[i] == list[i];
      assert Names(list, i, t, after[t].addresses);
    }
  }

  lemma SyncAt(tb: Tables, list: seq<Entry>, t: int)
    ensures var r := SyncThreads(tb, list);
      && (t in r.conversations <==> t in Ids(list))
      && RowKept(tb.conversations, r.conversations, t)
      && (t in Ids(list) ==> Reflects(r.conversations, list, t))
  {
    UpsertsAt(tb, list, t);
    var u, r := UpsertThreads(tb, list), SyncThreads(tb, list);
    if t in Ids(list) {
      assert r.conversations[t] == u.conversations[t];
      var i :| Names(list, i, t, u.conversations[t].addresses);
      assert Names(list, i, t, r.conversations[t].addresses);
    }
  }

  /**
   * Afterwards the local threads are the phone's; no message, attachment or local mark changes, and no date goes
   * back.
   */
  lemma ThreadsMatchPhone(tb: Tables, list: seq<Entry>)
    ensures var r := SyncThreads(tb, list);
      && r.conversations.Keys == Ids(list)
      && r.messages == tb.messages && r.attachments == tb.attachments
      && (forall t :: RowKept(tb.conversations, r.conversations, t))
      && (forall t | t in Ids(list) :: Reflects(r.conversations, list, t))
  {
    var r := SyncThreads(tb, list);
    forall t
      ensures t in r.conversations <==> t in Ids(list)
      ensures RowKept(tb.conversations, r.conversations, t)
      ensures t in Ids(list) ==> Reflects(r.conversations, list, t)
    {
      SyncAt(tb, list, t);
    }
    UpsertsAt(tb, list, 0);
  }

  // ----- the columns of a listed thread -----

  function ThreadOf(e: Entry): int { e.threadId }

  function DateOf(e: Entry): int { e.snippetDate }

  function DateIn(row: Option<Conversation>): Option<int> {
    if row.Some? then Some(row.value.date) else None
  }

  /** Preview, unread count and read mark as the entry has them. */
  predicate Shows(e: Entry, row: Conversation) {
    && row.snippet == Some(e.snippet) && row.unreadCount == e.unreadCount
    && row.read == (if e.unreadCount > 0 || e.unreadCount < 0 then 0 else 1)
  }

  /** Dated by the latest; the last news shows, or what showed before. */
  ghost predicate ShowsNews(was: Option<Conversation>, list: seq<Entry>, t: int, row: Option<Conversation>) {
    && IsLatest(list, ThreadOf, DateOf, t, DateIn(was), DateIn(row))
    && (forall i | IsLastNews(list, ThreadOf, DateOf, t, DateIn(was), i) :: row.Some? && Shows(list[i], row.value))
    && (NoNews(list, ThreadOf, DateOf, t, DateIn(was)) ==> OnlyNamed(was, row))
  }

  predicate OnlyNamed(was: Option<Conversation>, row: Option<Conversation>) {
    if was.None? then row.None? else row.Some? && row.value == was.value.(addresses := row.value.addresses)
  }

  ghost predicate IsLastEntry(list: seq<Entry>, t: int, i: int) {
    0 <= i < |list| && list[i].threadId == t && forall j | i < j < |list| :: list[j].threadId != t
  }

  /** Named by the last entry, or as before. */
  ghost predicate NamedByLast(was: Option<Conversation>, list: seq<Entry>, t: int, row: Option<Conversation>) {
    && (forall i | IsLastEntry(list, t, i) :: row.Some? && row.value.addresses == list[i].addresses)
    && ((forall i | 0 <= i < |list| :: list[i].threadId != t) ==> row == was)
  }

  /** Local columns stay, or start empty. */
  ghost predicate LocalColumns(was: Option<Conversation>, row: Option<Conversation>) {
    row.Some? ==>
      if was.Some? then LocalColumnsKept(was.value, row.value)
      else row.value.locallyReadAt == None && !row.value.fullSyncComplete && row.value.fullSyncDate == 0
  }

  /** One entry: a later one shows, another one of the thread gives its addresses, the rest leaves the row alone. */
  ghost predicate Entered(was: Option<Conversation>, e: Entry, t: int, row: Option<Conversation>) {
    if t != e.threadId then row == was
    else
      && row.Some? && row.value.addresses == e.addresses && LocalColumns(was, row)
      && if Later(DateIn(was), e.snippetDate) then row.value.date == e.snippetDate && Shows(e, row.value)
         else OnlyNamed(was, row)
  }

  lemma NewsStep(was: Option<Conversation>, list: seq<Entry>, t: int, before: Option<Conversation>, row: Option<Conversation>)
    requires list != [] && ShowsNews(was, list[..|list| - 1], t, before) && Entered(before, list[|list| - 1], t, row)
    ensures ShowsNews(was, list, t, row)
  {
    var n := |list| - 1;
    OneMoreItem(list, ThreadOf, DateOf, t, DateIn(was), DateIn(before));
    WithoutNews(list, ThreadOf, DateOf, t, DateIn(was));
    forall i | IsLastNews(list, ThreadOf, DateOf, t, DateIn(was), i) ensures row.Some? && Shows(list[i], row.value)
    {
      if i < n {
      }
    }
  }

  lemma NamedStep(was: Option<Conversation>, list: seq<Entry>, t: int, before: Option<Conversation>, row: Option<Conversation>)
    requires list != [] && NamedByLast(was, list[..|list| - 1], t, before) && Entered(before, list[|list| - 1], t, row)
    ensures NamedByLast(was, list, t, row)
  {
    var n := |list| - 1;
    assert forall i | 0 <= i < n :: list[..n][i] == list[i];
    forall i | IsLastEntry(list, t, i) ensures row.Some? && row.value.addresses == list[i].addresses
    {
      if i < n {
        assert IsLastEntry(list[..n], t, i);
      }
    }
  }

  ghost predicate Listed(was: Option<Conversation>, list: seq<Entry>, t: int, row: Option<Conversation>) {
    ShowsNews(was, list, t, row) && NamedByLast(was, list, t, row) && LocalColumns(was, row)
  }

  lemma {:induction false} UpsertsList(tb: Tables, list: seq<Entry>, t: int)
    ensures Listed(Lookup(tb.conversations, t), list, t, Lookup(UpsertThreads(tb, list).conversations, t))
    ensures t in tb.conversations ==> t in UpsertThreads(tb, list).conversations
  {
    if list != [] {
      var n := |list| - 1;
      var was, before := Lookup(tb.conversations, t), Lookup(UpsertThreads(tb, list[..n]).conversations, t);
      var row := Lookup(UpsertThreads(tb, list).conversations, t);
      UpsertsList(tb, list[..n], t);
      NewsStep(was, list, t, before, row);
      NamedStep(was, list, t, before, row);
    }
  }

  /**
   * After the sync the row of a listed thread is exactly: dated by the latest of its date and its entries; showing the
   * entry that was the last to be news, or as before if none was; named by its last entry; local columns kept.
   */
  lemma ListedRow(tb: Tables, list: seq<Entry>, t: int)
    requires t in Ids(list)
    ensures Listed(Lookup(tb.conversations, t), list, t, Lookup(SyncThreads(tb, list).conversations, t))
  {
    UpsertsList(tb, list, t);
    UpsertsAt(tb, list, t);
  }

  /** What is counted: a thread without a row is added, a row that changes is updated. */
  lemma ChangeMeans(tb: Tables, e: Entry)
    ensures ChangeFor(tb, e) == Added <==> e.threadId !in tb.conversations
    ensures ChangeFor(tb, e) == Unchanged <==> UpsertThread(tb, e) == tb
  {
    if e.threadId !in tb.conversations {
      assert e.threadId in UpsertThread(tb, e).conversations;
    } else if ChangeFor(tb, e) == Updated {
      assert UpsertThread(tb, e).conversations[e.threadId] != tb.conversations[e.threadId];
    }
  }

  /** Each thread that was not known locally is counted as added once, however often it is listed. */
  lemma {:induction false} AddedCountsNewThreads(tb: Tables, list: seq<Entry>)
    ensures Count(tb, list, Added) == |Ids(list) - tb.conversations.Keys|
  {
    if list != [] {
      var n := |list| - 1;
      var t := list[n].threadId;
      AddedCountsNewThreads(tb, list[..n]);
      ChangeMeans(UpsertThreads(tb, list[..n]), list[n]);
      UpsertsAt(tb, list[..n], t);
      OneMoreId(Ids(list[..n]), tb.conversations.Keys, t);
      assert t in UpsertThreads(tb, list[..n]).conversations <==> t in Ids(list[..n]) || t in tb.conversations by {
        assert t !in Ids(list[..n]) ==>
          Lookup(UpsertThreads(tb, list[..n]).conversations, t) == Lookup(tb.conversations, t);
      }
    }
  }

  lemma OneMoreId(ids: set<int>, known: set<int>, t: int)
    ensures |ids + {t} - known| == |ids - known| + if t in ids || t in known then 0 else 1
  {
    if t in ids || t in known {
      SameSets(ids + {t} - known, ids - known);
    } else {
      SameSets(ids + {t} - known, (ids - known) + {t});
    }
  }

  lemma {:induction false} QuietPrefix(tb: Tables, list: seq<Entry>)
    requires forall i | 0 <= i < |list| :: ChangeFor(tb, list[i]) == Unchanged
    ensures UpsertThreads(tb, list) == tb
    ensures Count(tb, list, Added) == Count(tb, list, Updated) == 0
  {
    if list != [] {
      QuietPrefix(tb, list[..|list| - 1]);
    }
  }

  lemma {:induction false} QuietMeansUnchanged(tb: Tables, list: seq<Entry>)
    requires Count(tb, list, Added) == Count(tb, list, Updated) == 0
    ensures UpsertThreads(tb, list) == tb
    ensures forall i | 0 <= i < |list| :: ChangeFor(tb, list[i]) == Unchanged
  {
    if list != [] {
      var n := |list| - 1;
      QuietMeansUnchanged(tb, list[..n]);
      forall i | 0 <= i < |list| ensures ChangeFor(tb, list[i]) == Unchanged
      {
        if i < n {
          assert list[..n][i] == list[i];
        }
      }
    }
  }

  lemma UnchangedAt(tb: Tables, list: seq<Entry>, i: nat)
    requires i < |list| && Consistent(list)
    ensures ChangeFor(SyncThreads(tb, list), list[i]) == Unchanged
  {
    var t, r := list[i].threadId, SyncThreads(tb, list);
    InIds(list, t);
    SyncAt(tb, list, t);
    var j :| Names(list, j, t, r.conversations[t].addresses);
    assert list[j].addresses == list[i].addresses;
  }

  /**
   * A second run on the same list adds, updates and removes nothing exactly when entries for the same thread
   * carry the same addresses; it then leaves the tables as they are.
   */
  lemma SecondRunQuietIff(tb: Tables, list: seq<Entry>)
    ensures var r := SyncThreads(tb, list);
      && (Count(r, list, Added) == 0 && Count(r, list, Updated) == 0 <==> Consistent(list))
      && (Consistent(list) ==> SyncThreads(r, list) == r)
      && r.conversations.Keys - Ids(list) == {}
  {
    var r := SyncThreads(tb, list);
    ThreadsMatchPhone(tb, list);
    var none := r.conversations.Keys - Ids(list);
    assert none == {};
    if Consistent(list) {
      forall i | 0 <= i < |list| ensures ChangeFor(r, list[i]) == Unchanged
      {
        UnchangedAt(tb, list, i);
      }
      QuietPrefix(r, list);
      assert r.conversations - none == r.conversations;
    }
    if Count(r, list, Added) == 0 && Count(r, list, Updated) == 0 {
      QuietMeansUnchanged(r, list);
      forall i, j | 0 <= i < |list| && 0 <= j < |list| && list[i].threadId == list[j].threadId
        ensures list[i].addresses == list[j].addresses
      {
        assert ChangeFor(r, list[i]) == ChangeFor(r, list[j]) == Unchanged;
      }
    }
  }
}
