/** What SMS packets and user deletions do to the tables. */
module SmsHandler {
  import opened Wrappers
  import opened Store
  import opened DatabaseService
  import opened PhoneMessages

  /** A message of an `sms.messages` packet; `thumbnails` are the files written for parts that carry one. */
  datatype PacketMessage = PacketMessage(message: PhoneMessage, thumbnails: map<int, string>)

  type Batch = seq<PacketMessage>

  // ----- grouping by thread, in the order in which threads first appear -----

  function AddTo(groups: seq<(int, Batch)>, m: PacketMessage): seq<(int, Batch)> {
    if groups == [] then [(m.message.threadId, [m])]
    else if groups[0].0 == m.message.threadId then [(groups[0].0, groups[0].1 + [m])] + groups[1..]
    else [groups[0]] + AddTo(groups[1..], m)
  }

  function Group(packet: Batch): seq<(int, Batch)> {
    if packet == [] then [] else AddTo(Group(packet[..|packet| - 1]), packet[|packet| - 1])
  }

  ghost predicate Homogeneous(groups: seq<(int, Batch)>) {
    forall g | g in groups :: g.1 != [] && forall m | m in g.1 :: m.message.threadId == g.0
  }

  lemma {:induction false} AddToHomogeneous(groups: seq<(int, Batch)>, m: PacketMessage)
    requires Homogeneous(groups)
    ensures Homogeneous(AddTo(groups, m))
  {
    if groups != [] {
      if groups[0].0 != m.message.threadId {
        AddToHomogeneous(groups[1..], m);
      } else {
        assert groups[0] in groups;
      }
    }
  }

  lemma {:induction false} GroupHomogeneous(packet: Batch)
    ensures Homogeneous(Group(packet))
  {
    if packet != [] {
      GroupHomogeneous(packet[..|packet| - 1]);
      AddToHomogeneous(Group(packet[..|packet| - 1]), packet[|packet| - 1]);
    }
  }

  /** The messages of one thread, in the order of the packet. */
  function OfThread(packet: Batch, t: int): Batch {
    if packet == [] then []
    else
      var m := packet[|packet| - 1];
      OfThread(packet[..|packet| - 1], t) + if m.message.threadId == t then [m] else []
  }

  /** The group of a thread; none is empty, so no group and an empty one can be told apart. */
  function BatchOf(groups: seq<(int, Batch)>, t: int): Batch {
    if groups == [] then [] else if groups[0].0 == t then groups[0].1 else BatchOf(groups[1..], t)
  }

  ghost predicate DistinctThreads(groups: seq<(int, Batch)>) {
    forall i, j | 0 <= i < j < |groups| :: groups[i].0 != groups[j].0
  }

  ghost predicate HasThread(groups: seq<(int, Batch)>, t: int) {
    exists i :: 0 <= i < |groups| && groups[i].0 == t
  }

  lemma {:induction false} AddToAt(groups: seq<(int, Batch)>, m: PacketMessage, t: int)
    ensures BatchOf(AddTo(groups, m), t) == BatchOf(groups, t) + if m.message.threadId == t then [m] else []
    ensures HasThread(AddTo(groups, m), t) <==> HasThread(groups, t) || m.message.threadId == t
  {
    var r := AddTo(groups, m);
    if groups == [] {
      assert r[0].0 == m.message.threadId;
    } else if groups[0].0 == m.message.threadId {
      SameHeads(groups, r, t);
    } else {
      AddToAt(groups[1..], m, t);
      assert r[1..] == AddTo(groups[1..], m);
      HasThreadSplit(groups, t);
      HasThreadSplit(r, t);
    }
  }

  lemma HasThreadSplit(groups: seq<(int, Batch)>, t: int)
    requires groups != []
    ensures HasThread(groups, t) <==> groups[0].0 == t || HasThread(groups[1..], t)
  {
    if HasThread(groups, t) && groups[0].0 != t {
      var i :| 0 <= i < |groups| && groups[i].0 == t;
      assert groups[1..][i - 1].0 == t;
    }
    if HasThread(groups[1..], t) {
      var i :| 0 <= i < |groups| - 1 && groups[1..][i].0 == t;
      assert groups[i + 1].0 == t;
    }
  }

  lemma SameHeads(a: seq<(int, Batch)>, b: seq<(int, Batch)>, t: int)
    requires a != [] && b != [] && a[0].0 == b[0].0 && a[1..] == b[1..]
    ensures HasThread(a, t) <==> HasThread(b, t)
  {
    HasThreadSplit(a, t);
    HasThreadSplit(b, t);
  }

  lemma {:induction false} AddToDistinct(groups: seq<(int, Batch)>, m: PacketMessage)
    requires DistinctThreads(groups)
    ensures DistinctThreads(AddTo(groups, m))
  {
    if groups != [] && groups[0].0 != m.message.threadId {
      AddToDistinct(groups[1..], m);
      var rest := AddTo(groups[1..], m);
      forall i | 0 <= i < |rest| ensures rest[i].0 != groups[0].0
      {
        AddToAt(groups[1..], m, rest[i].0);
        assert HasThread(rest, rest[i].0);
        if HasThread(groups[1..], rest[i].0) {
          var j :| 0 <= j < |groups| - 1 && groups[1..][j].0 == rest[i].0;
          assert groups[j + 1].0 == rest[i].0;
        }
      }
    }
  }

  /** Each thread has one group, with exactly its messages, in order; a thread without messages has none. */
  lemma {:induction false} GroupExact(packet: Batch, t: int)
    ensures DistinctThreads(Group(packet))
    ensures BatchOf(Group(packet), t) == OfThread(packet, t)
    ensures HasThread(Group(packet), t) <==> OfThread(packet, t) != []
  {
    if packet != [] {
      var n := |packet| - 1;
      GroupExact(packet[..n], t);
      AddToAt(Group(packet[..n]), packet[n], t);
      AddToDistinct(Group(packet[..n]), packet[n]);
    }
  }

  /** New threads are grouped last, so the groups stand in the order in which threads first appear. */
  lemma {:induction false} AddToKeepsOrder(groups: seq<(int, Batch)>, m: PacketMessage)
    ensures var r := AddTo(groups, m);
      && |groups| <= |r| <= |groups| + 1
      && (forall i | 0 <= i < |groups| :: r[i].0 == groups[i].0)
      && (|r| > |groups| ==> r[|groups|].0 == m.message.threadId && !HasThread(groups, m.message.threadId))
  {
    if groups != [] && groups[0].0 != m.message.threadId {
      AddToKeepsOrder(groups[1..], m);
      HasThreadSplit(groups, m.message.threadId);
    }
  }

  // ----- one thread's batch -----

  function UpsertRows(tb: Tables, batch: Batch): Tables {
    if batch == [] then tb
    else
      var m := batch[|batch| - 1].message;
      Store.UpsertMessage(UpsertRows(tb, batch[..|batch| - 1]), m.id, ToRow(m))
  }

  function AttachmentRow(m: PacketMessage, p: Part): Attachment {
    ToAttachment(p).(thumbnailPath := Lookup(m.thumbnails, p.partId))
  }

  function PartRows(m: PacketMessage, parts: seq<Part>): seq<(PartKey, Attachment)> {
    if parts == [] then []
    else
      var p := parts[|parts| - 1];
      PartRows(m, parts[..|parts| - 1]) + [((p.partId, m.message.id), AttachmentRow(m, p))]
  }

  function AttachmentRows(batch: Batch): seq<(PartKey, Attachment)> {
    if batch == [] then []
    else
      var m := batch[|batch| - 1];
      AttachmentRows(batch[..|batch| - 1]) + PartRows(m, m.message.parts)
  }

  function UpsertAttachments(tb: Tables, rows: seq<(PartKey, Attachment)>): Tables {
    if rows == [] then tb
    else
      var (key, row) := rows[|rows| - 1];
      Store.UpsertAttachment(UpsertAttachments(tb, rows[..|rows| - 1]), key, row)
  }

  /** The first message with the latest date: what a stable descending sort puts in front. */
  function MostRecent(batch: Batch): PacketMessage
    requires batch != []
  {
    if |batch| == 1 then batch[0]
    else
      var best, m := MostRecent(batch[..|batch| - 1]), batch[|batch| - 1];
      if m.message.date > best.message.date then m else best
  }

  /** No message of the batch is later, and none before it is as late. */
  lemma {:induction false} MostRecentIsLatest(batch: Batch) returns (i: nat)
    requires batch != []
    ensures i < |batch| && MostRecent(batch) == batch[i]
    ensures forall j | 0 <= j < |batch| :: batch[j].message.date <= batch[i].message.date
    ensures forall j | 0 <= j < i :: batch[j].message.date < batch[i].message.date
  {
    var n := |batch| - 1;
    if n == 0 {
      i := 0;
    } else {
      i := MostRecentIsLatest(batch[..n]);
      if batch[n].message.date > batch[i].message.date {
        i := n;
      }
    }
  }

  function Unread(batch: Batch): int {
    if batch == [] then 0
    else
      var m := batch[|batch| - 1].message;
      Unread(batch[..|batch| - 1]) + if m.read == 0 && m.kind == 1 then 1 else 0
  }

  /** Append each non-empty address that is not there yet. */
  function MergeAddresses(addresses: seq<string>, batch: Batch): seq<string> {
    if batch == [] then addresses
    else
      var merged := MergeAddresses(addresses, batch[..|batch| - 1]);
      var address := batch[|batch| - 1].message.address.GetOr("");
      if address == "" || address in merged then merged else merged + [address]
  }

  /** The merged list is the old one followed by the batch's addresses that were missing, none of them empty. */
  lemma {:induction false} MergeKeepsAndAdds(addresses: seq<string>, batch: Batch)
    ensures addresses <= MergeAddresses(addresses, batch)
    ensures forall m | m in batch && m.message.address.GetOr("") != "" ::
        m.message.address.GetOr("") in MergeAddresses(addresses, batch)
    ensures forall a | a in MergeAddresses(addresses, batch) && a !in addresses ::
        a != "" && exists m :: m in batch && m.message.address.GetOr("") == a
  {
    if batch != [] {
      var n := |batch| - 1;
      MergeKeepsAndAdds(addresses, batch[..n]);
      assert batch == batch[..n] + [batch[n]];
      assert batch[n] in batch;
    }
  }

  function Distinct(addresses: seq<string>): seq<string> {
    if addresses == [] then []
    else
      var head := Distinct(addresses[..|addresses| - 1]);
      if addresses[|addresses| - 1] in head then head else head + [addresses[|addresses| - 1]]
  }

  function BatchConversation(existing: Option<Conversation>, batch: Batch): Conversation
    requires batch != []
  {
    var newest := MostRecent(batch).message;
    var known := if existing.Some? then existing.value.addresses else [];
    var named := MergeAddresses([], batch) != [];
    Conversation(
      if existing.Some? && !named then known else MergeAddresses(Distinct(known), batch),
      newest.body.OrElse(if existing.Some? then existing.value.snippet else None),
      newest.date, if Unread(batch) == 0 then 1 else 0, Unread(batch), None, false, 0)
  }

  ghost function UnreadReceived(batch: Batch): set<int> {
    set i | 0 <= i < |batch| && batch[i].message.read == 0 && batch[i].message.kind == 1
  }

  lemma {:induction false} UnreadCounts(batch: Batch)
    ensures Unread(batch) == |UnreadReceived(batch)|
  {
    if batch == [] {
      SameSets(UnreadReceived(batch), {});
    } else {
      var n := |batch| - 1;
      var before := UnreadReceived(batch[..n]);
      UnreadCounts(batch[..n]);
      assert forall i | 0 <= i < n :: batch[..n][i] == batch[i];
      assert n !in before;
      if batch[n].message.read == 0 && batch[n].message.kind == 1 {
        SameSets(UnreadReceived(batch), before + {n});
      } else {
        SameSets(UnreadReceived(batch), before);
      }
    }
  }

  /** The first message with the latest date of the batch. */
  ghost predicate IsMostRecent(batch: Batch, i: int) {
    && 0 <= i < |batch|
    && (forall j | 0 <= j < |batch| :: batch[j].message.date <= batch[i].message.date)
    && (forall j | 0 <= j < i :: batch[j].message.date < batch[i].message.date)
  }

  ghost predicate NamedIn(batch: Batch, address: string) {
    address != "" && exists m :: m in batch && m.message.address == Some(address)
  }

  /**
   * The row that a batch gives its thread: the known addresses and then the new ones it names, each once; date and text of its
   * most recent message, or the old preview if that has no text; its unread received messages. Local columns stay.
   */
  ghost predicate ShowsBatch(was: Option<Conversation>, batch: Batch, row: Conversation) {
    && (exists i :: IsMostRecent(batch, i) && row.date == batch[i].message.date
          && row.snippet == if batch[i].message.body.Some? then batch[i].message.body
                            else if was.Some? then was.value.snippet else None)
    && row.unreadCount == |UnreadReceived(batch)| && row.read == (if row.unreadCount == 0 then 1 else 0)
    && (forall a :: a in row.addresses <==> NamedIn(batch, a) || (was.Some? && a in was.value.addresses))
    && (was.Some? && (forall a :: !NamedIn(batch, a)) ==> row.addresses == was.value.addresses)
    && (was.Some? ==> KnownFirst(was.value.addresses, row.addresses))
    && (if was.Some? then LocalColumnsKept(was.value, row)
        else row.locallyReadAt == None && !row.fullSyncComplete && row.fullSyncDate == 0)
  }

  /** No address that is not known stands before a known one. */
  ghost predicate KnownFirst(known: seq<string>, addresses: seq<string>) {
    forall i, j | 0 <= i < j < |addresses| && addresses[j] in known :: addresses[i] in known
  }

  lemma AddressesShow(existing: Option<Conversation>, batch: Batch)
    requires batch != []
    ensures var c := BatchConversation(existing, batch);
      && (forall a :: a in c.addresses <==> NamedIn(batch, a) || (existing.Some? && a in existing.value.addresses))
      && (existing.Some? && (forall a :: !NamedIn(batch, a)) ==> c.addresses == existing.value.addresses)
  {
    var known := if existing.Some? then existing.value.addresses else [];
    MergeKeepsAndAdds([], batch);
    MergeKeepsAndAdds(Distinct(known), batch);
    DistinctSame(known);
    var merged := MergeAddresses([], batch);
    if merged != [] {
      assert merged[0] in merged;
      assert NamedIn(batch, merged[0]);
    }
    forall a ensures NamedIn(batch, a) ==> a in merged
    {
    }
    forall a ensures a in MergeAddresses(Distinct(known), batch) <==> NamedIn(batch, a) || a in known
    {
      if a in MergeAddresses(Distinct(known), batch) && a !in known {
        var m :| m in batch && m.message.address.GetOr("") == a;
        assert NamedIn(batch, a);
      }
    }
  }

  lemma KnownComeFirst(existing: Option<Conversation>, batch: Batch)
    requires batch != [] && existing.Some?
    ensures KnownFirst(existing.value.addresses, BatchConversation(existing, batch).addresses)
  {
    var known := existing.value.addresses;
    DistinctSame(known);
    NewBehind(Distinct(known), batch, |batch|);
    assert batch[..|batch|] == batch;
    var merged := MergeAddresses(Distinct(known), batch);
    forall i, j | 0 <= i < j < |merged| && merged[j] in known ensures merged[i] in known
    {
      assert j < |Distinct(known)|;
      assert merged[i] == Distinct(known)[i];
    }
    assert forall i | 0 <= i < |known| :: known[i] in known;
  }

  lemma {:induction false} NewBehind(known: seq<string>, batch: Batch, n: nat)
    requires n <= |batch|
    ensures var r := MergeAddresses(known, batch[..n]);
      known <= r && forall j | |known| <= j < |r| :: r[j] !in known
  {
    if n == 0 {
      assert batch[..0] == [];
    } else {
      NewBehind(known, batch, n - 1);
      assert batch[..n][..n - 1] == batch[..n - 1];
    }
    assert n == |batch| ==> batch[..n] == batch;
  }

  lemma {:induction false} BatchShows(was: Option<Conversation>, batch: Batch, tb: Tables, t: int)
    requires batch != [] && Lookup(tb.conversations, t) == was
    ensures ShowsBatch(was, batch, Store.UpsertConversation(tb, t, BatchConversation(was, batch)).conversations[t])
  {
    var i := MostRecentIsLatest(batch);
    assert IsMostRecent(batch, i);
    UnreadCounts(batch);
    AddressesShow(was, batch);
    if was.Some? {
      KnownComeFirst(was, batch);
    }
  }

  lemma {:induction false} DistinctSame(addresses: seq<string>)
    ensures forall a :: a in Distinct(addresses) <==> a in addresses
    ensures forall i, j | 0 <= i < j < |Distinct(addresses)| :: Distinct(addresses)[i] != Distinct(addresses)[j]
  {
    if addresses != [] {
      var n := |addresses| - 1;
      DistinctSame(addresses[..n]);
      assert addresses == addresses[..n] + [addresses[n]];
    }
  }

  function HandleBatch(tb: Tables, threadId: int, batch: Batch): Tables
    requires batch != []
  {
    var stored := UpsertAttachments(UpsertRows(tb, batch), AttachmentRows(batch));
    var existing := Lookup(stored.conversations, threadId);
    if existing.None? || MostRecent(batch).message.date >= existing.value.date then
      Store.UpsertConversation(stored, threadId, BatchConversation(existing, batch))
    else stored
  }

  function HandleGroups(tb: Tables, groups: seq<(int, Batch)>): Tables
    requires Homogeneous(groups)
  {
    if groups == [] then tb
    else
      var last := groups[|groups| - 1];
      assert last in groups;
      HandleBatch(HandleGroups(tb, groups[..|groups| - 1]), last.0, last.1)
  }

  function HandleMessages(tb: Tables, packet: Batch): Tables {
    GroupHomogeneous(packet);
    HandleGroups(tb, Group(packet))
  }

  /** Deleting a message from the desktop; its files are not part of the tables. */
  method DeleteMessage(db: Database, messageId: int)
    modifies db
    ensures db.View() == DeleteMessages(old(db.View()), {messageId})
  {
    db.DeleteAttachmentsForMessage(messageId);
    db.DeleteMessage(messageId);
  }

  function DeleteThread(tb: Tables, threadId: int): Tables {
    Store.DeleteConversation(DeleteMessages(tb, ThreadIds(tb.messages, threadId)), threadId)
  }

  /** Deleting a conversation: attachments are found through their messages, so they go first. */
  method DeleteConversation(db: Database, threadId: int)
    modifies db
    ensures db.View() == DeleteThread(old(db.View()), threadId)
  {
    db.DeleteAttachmentsForThread(threadId);
    db.DeleteThreadMessages(threadId);
    db.DeleteConversation(threadId);
  }

  /** The first loop over a batch: message rows are stored, the rest is collected. */
  method StoreRows(db: Database, batch: Batch)
    returns (attachmentRows: seq<(PartKey, Attachment)>, mostRecent: PacketMessage, unreadCount: int)
    requires batch != []
    modifies db
    ensures db.View() == UpsertRows(old(db.View()), batch)
    ensures attachmentRows == AttachmentRows(batch)
    ensures mostRecent == MostRecent(batch) && unreadCount == Unread(batch)
  {
    ghost var before := db.View();
    attachmentRows, mostRecent, unreadCount := [], batch[0], 0;
    var i := 0;
    while i < |batch|
      invariant 0 <= i <= |batch|
      invariant db.View() == UpsertRows(before, batch[..i])
      invariant attachmentRows == AttachmentRows(batch[..i])
      invariant mostRecent == MostRecent(if i == 0 then batch[..1] else batch[..i])
      invariant unreadCount == Unread(batch[..i])
    {
      assert batch[..i + 1][..i] == batch[..i];
      var m := batch[i];
      db.UpsertMessage(m.message.id, ToRow(m.message));
      attachmentRows := attachmentRows + PartRows(m, m.message.parts);
      if m.message.date > mostRecent.message.date {
        mostRecent := m;
      }
      if m.message.read == 0 && m.message.kind == 1 {
        unreadCount := unreadCount + 1;
      }
      i := i + 1;
    }
    assert batch[..i] == batch;
  }

  method StoreAttachments(db: Database, rows: seq<(PartKey, Attachment)>)
    modifies db
    ensures db.View() == UpsertAttachments(old(db.View()), rows)
  {
    ghost var before := db.View();
    var i := 0;
    while i < |rows|
      invariant 0 <= i <= |rows|
      invariant db.View() == UpsertAttachments(before, rows[..i])
    {
      assert rows[..i + 1][..i] == rows[..i];
      db.UpsertAttachment(rows[i].0, rows[i].1);
      i := i + 1;
    }
    assert rows[..i] == rows;
  }

  /** The body of the packet handler for one thread. */
  method StoreBatch(db: Database, threadId: int, batch: Batch)
    requires batch != []
    modifies db
    ensures db.View() == HandleBatch(old(db.View()), threadId, batch)
  {
    var attachmentRows, mostRecent, unreadCount := StoreRows(db, batch);
    StoreAttachments(db, attachmentRows);
    var existing := db.GetConversation(threadId);
    if existing.None? || mostRecent.message.date >= existing.value.date {
      db.UpsertConversation(threadId, BatchConversation(existing, batch));
    }
  }

  method GroupByThread(packet: Batch) returns (groups: seq<(int, Batch)>)
    ensures groups == Group(packet)
  {
    groups := [];
    var i := 0;
    while i < |packet|
      invariant 0 <= i <= |packet|
      invariant groups == Group(packet[..i])
    {
      assert packet[..i + 1][..i] == packet[..i];
      groups := AddTo(groups, packet[i]);
      i := i + 1;
    }
    assert packet[..i] == packet;
  }

  /** Incoming `sms.messages` packet. */
  method HandlePacket(db: Database, packet: Batch)
    modifies db
    ensures db.View() == HandleMessages(old(db.View()), packet)
  {
    ghost var before := db.View();
    var groups := GroupByThread(packet);
    GroupHomogeneous(packet);
    var i := 0;
    while i < |groups|
      invariant 0 <= i <= |groups|
      invariant db.View() == HandleGroups(before, groups[..i])
    {
      assert groups[..i + 1][..i] == groups[..i];
      assert groups[i] in groups;
      StoreBatch(db, groups[i].0, groups[i].1);
      i := i + 1;
    }
    assert groups[..i] == groups;
  }

  // ----- what a packet may change -----

  /** Every attachment row that is new belongs to a stored message; every old one keeps its download state. */
  ghost predicate AttachmentsGrow(a: Tables, b: Tables) {
    && a.attachments.Keys <= b.attachments.Keys
    && a.messages.Keys <= b.messages.Keys
    && (forall k | k in b.attachments && k !in a.attachments ::
          k.1 in b.messages && !b.attachments[k].downloaded && b.attachments[k].localPath == None)
    && (forall k | k in a.attachments ::
          && b.attachments[k].downloaded == a.attachments[k].downloaded
          && b.attachments[k].localPath == a.attachments[k].localPath
          && b.attachments[k].fileSize == a.attachments[k].fileSize
          && (a.attachments[k].thumbnailPath.Some? ==> b.attachments[k].thumbnailPath == a.attachments[k].thumbnailPath))
  }

  ghost predicate DatesGrow(a: map<int, Conversation>, b: map<int, Conversation>) {
    a.Keys <= b.Keys && forall t | t in a :: a[t].date <= b[t].date && LocalColumnsKept(a[t], b[t])
  }

  lemma {:induction false} PartRowsFresh(m: PacketMessage, parts: seq<Part>)
    ensures forall r | r in PartRows(m, parts) ::
        r.0.1 == m.message.id && !r.1.downloaded && r.1.localPath == None && r.1.fileSize == None
  {
    if parts != [] {
      PartRowsFresh(m, parts[..|parts| - 1]);
    }
  }

  lemma {:induction false} AttachmentRowsFresh(batch: Batch, ids: set<int>)
    requires forall m | m in batch :: m.message.id in ids
    ensures forall r | r in AttachmentRows(batch) ::
        r.0.1 in ids && !r.1.downloaded && r.1.localPath == None && r.1.fileSize == None
  {
    if batch != [] {
      var n := |batch| - 1;
      AttachmentRowsFresh(batch[..n], ids);
      PartRowsFresh(batch[n], batch[n].message.parts);
      assert batch[n] in batch;
    }
  }

  lemma {:induction false} RowsGrow(tb: Tables, batch: Batch)
    ensures var r := UpsertRows(tb, batch);
      && r.conversations == tb.conversations && r.attachments == tb.attachments
      && tb.messages.Keys <= r.messages.Keys
      && (forall m | m in batch :: m.message.id in r.messages)
  {
    if batch != [] {
      var n := |batch| - 1;
      RowsGrow(tb, batch[..n]);
      assert batch == batch[..n] + [batch[n]];
    }
  }

  lemma {:induction false} UpsertsGrow(tb: Tables, rows: seq<(PartKey, Attachment)>)
    requires forall r | r in rows ::
        r.0.1 in tb.messages && !r.1.downloaded && r.1.localPath == None && r.1.fileSize == None
    ensures var r := UpsertAttachments(tb, rows);
      r.conversations == tb.conversations && r.messages == tb.messages && AttachmentsGrow(tb, r)
  {
    if rows != [] {
      var n := |rows| - 1;
      UpsertsGrow(tb, rows[..n]);
      assert rows[n] in rows;
    }
  }

  lemma BatchGrows(tb: Tables, threadId: int, batch: Batch)
    requires batch != []
    ensures var r := HandleBatch(tb, threadId, batch);
      AttachmentsGrow(tb, r) && DatesGrow(tb.conversations, r.conversations)
  {
    RowsGrow(tb, batch);
    var rowsIn := UpsertRows(tb, batch);
    AttachmentRowsFresh(batch, rowsIn.messages.Keys);
    UpsertsGrow(rowsIn, AttachmentRows(batch));
  }

  lemma {:induction false} GroupsGrow(tb: Tables, groups: seq<(int, Batch)>)
    requires Homogeneous(groups)
    ensures var r := HandleGroups(tb, groups);
      AttachmentsGrow(tb, r) && DatesGrow(tb.conversations, r.conversations)
  {
    if groups != [] {
      var n := |groups| - 1;
      GroupsGrow(tb, groups[..n]);
      assert groups[n] in groups;
      var head := HandleGroups(tb, groups[..n]);
      BatchGrows(head, groups[n].0, groups[n].1);
    }
  }

  /** Of a deleted conversation nothing is left; all other rows stay as they were. */
  lemma NothingLeft(tb: Tables, threadId: int)
    ensures var r := DeleteThread(tb, threadId);
      && threadId !in r.conversations && ThreadIds(r.messages, threadId) == {}
      && (forall k | k in r.attachments :: k.1 in tb.messages ==> tb.messages[k.1].threadId != threadId)
      && (forall t | t != threadId :: Lookup(r.conversations, t) == Lookup(tb.conversations, t))
      && (forall id | id !in ThreadIds(tb.messages, threadId) :: Lookup(r.messages, id) == Lookup(tb.messages, id))
      && (forall k: PartKey | k.1 !in ThreadIds(tb.messages, threadId) :: Lookup(r.attachments, k) == Lookup(tb.attachments, k))
  {
    var r := DeleteThread(tb, threadId);
    forall id ensures id !in ThreadIds(r.messages, threadId)
    {
    }
  }

  // ----- the tables after a packet -----

  /** All messages in the order in which they are stored: group by group. */
  function Flat(groups: seq<(int, Batch)>): Batch {
    if groups == [] then [] else Flat(groups[..|groups| - 1]) + groups[|groups| - 1].1
  }

  function Reports(batch: Batch): seq<PhoneMessage> {
    seq(|batch|, i requires 0 <= i < |batch| => batch[i].message)
  }

  lemma {:induction false} RowsStored(tb: Tables, batch: Batch)
    ensures UpsertRows(tb, batch).messages == tb.messages + Rows(Reports(batch))
  {
    if batch != [] {
      var n := |batch| - 1;
      RowsStored(tb, batch[..n]);
      assert Reports(batch)[..n] == Reports(batch[..n]);
    }
  }

  lemma {:induction false} RowsConcat(a: seq<PhoneMessage>, b: seq<PhoneMessage>)
    ensures Rows(a + b) == Rows(a) + Rows(b)
  {
    if b == [] {
      assert a + b == a;
    } else {
      RowsConcat(a, b[..|b| - 1]);
      assert (a + b)[..|a + b| - 1] == a + b[..|b| - 1];
    }
  }

  lemma {:induction false} UpsertsConcat(tb: Tables, a: seq<(PartKey, Attachment)>, b: seq<(PartKey, Attachment)>)
    ensures UpsertAttachments(tb, a + b) == UpsertAttachments(UpsertAttachments(tb, a), b)
  {
    if b == [] {
      assert a + b == a;
    } else {
      UpsertsConcat(tb, a, b[..|b| - 1]);
      assert (a + b)[..|a + b| - 1] == a + b[..|b| - 1];
    }
  }

  lemma {:induction false} AttachmentRowsConcat(a: Batch, b: Batch)
    ensures AttachmentRows(a + b) == AttachmentRows(a) + AttachmentRows(b)
  {
    if b == [] {
      assert a + b == a;
    } else {
      var n := |b| - 1;
      AttachmentRowsConcat(a, b[..n]);
      assert (a + b)[..|a + b| - 1] == a + b[..n] && (a + b)[|a + b| - 1] == b[n];
      var last := PartRows(b[n], b[n].message.parts);
      assert AttachmentRows(a) + AttachmentRows(b[..n]) + last == AttachmentRows(a) + (AttachmentRows(b[..n]) + last);
    }
  }

  lemma {:induction false} SameUpserts(a: Tables, b: Tables, rows: seq<(PartKey, Attachment)>)
    requires a.attachments == b.attachments
    ensures UpsertAttachments(a, rows).attachments == UpsertAttachments(b, rows).attachments
    ensures UpsertAttachments(a, rows).messages == a.messages && UpsertAttachments(a, rows).conversations == a.conversations
  {
    if rows != [] {
      SameUpserts(a, b, rows[..|rows| - 1]);
    }
  }

  /** What one thread's batch stores. */
  lemma BatchStores(tb: Tables, threadId: int, batch: Batch)
    requires batch != []
    ensures var r := HandleBatch(tb, threadId, batch);
      && r.messages == tb.messages + Rows(Reports(batch))
      && r.attachments == UpsertAttachments(tb, AttachmentRows(batch)).attachments
      && (forall t | t != threadId :: Lookup(r.conversations, t) == Lookup(tb.conversations, t))
  {
    RowsStored(tb, batch);
    RowsGrow(tb, batch);
    SameUpserts(UpsertRows(tb, batch), tb, AttachmentRows(batch));
  }

  lemma {:induction false} GroupsStoreMessages(tb: Tables, groups: seq<(int, Batch)>)
    requires Homogeneous(groups)
    ensures HandleGroups(tb, groups).messages == tb.messages + Rows(Reports(Flat(groups)))
  {
    if groups != [] {
      var n := |groups| - 1;
      assert groups[n] in groups;
      GroupsStoreMessages(tb, groups[..n]);
      BatchStores(HandleGroups(tb, groups[..n]), groups[n].0, groups[n].1);
      RowsAfterBoth(tb.messages, Flat(groups[..n]), groups[n].1);
    }
  }

  lemma RowsAfterBoth(messages: map<int, Message>, a: Batch, b: Batch)
    ensures messages + Rows(Reports(a)) + Rows(Reports(b)) == messages + Rows(Reports(a + b))
  {
    RowsConcat(Reports(a), Reports(b));
    assert Reports(a + b) == Reports(a) + Reports(b);
    OverlayTwice(messages, Rows(Reports(a)), Rows(Reports(b)));
  }

  lemma OverlayTwice(m: map<int, Message>, a: map<int, Message>, b: map<int, Message>)
    ensures m + a + b == m + (a + b)
  {
  }

  lemma {:induction false} GroupsStoreAttachments(tb: Tables, groups: seq<(int, Batch)>)
    requires Homogeneous(groups)
    ensures HandleGroups(tb, groups).attachments == UpsertAttachments(tb, AttachmentRows(Flat(groups))).attachments
  {
    if groups != [] {
      var n := |groups| - 1;
      var head, rows := HandleGroups(tb, groups[..n]), AttachmentRows(Flat(groups[..n]));
      assert groups[n] in groups;
      GroupsStoreAttachments(tb, groups[..n]);
      BatchStores(head, groups[n].0, groups[n].1);
      AttachmentRowsConcat(Flat(groups[..n]), groups[n].1);
      UpsertsConcat(tb, rows, AttachmentRows(groups[n].1));
      SameUpserts(head, UpsertAttachments(tb, rows), AttachmentRows(groups[n].1));
    }
  }

  lemma {:induction false} UngroupedStays(tb: Tables, groups: seq<(int, Batch)>, t: int)
    requires Homogeneous(groups) && forall i | 0 <= i < |groups| :: groups[i].0 != t
    ensures Lookup(HandleGroups(tb, groups).conversations, t) == Lookup(tb.conversations, t)
  {
    if groups != [] {
      var n := |groups| - 1;
      assert groups[n] in groups;
      UngroupedStays(tb, groups[..n], t);
      BatchStores(HandleGroups(tb, groups[..n]), groups[n].0, groups[n].1);
    }
  }

  /** The row of a thread after its group has been stored, wherever that stands among the groups. */
  lemma {:induction false} GroupedRow(tb: Tables, groups: seq<(int, Batch)>, i: nat)
    requires Homogeneous(groups) && DistinctThreads(groups) && i < |groups|
    ensures var t := groups[i].0;
      BatchRow(Lookup(tb.conversations, t), groups[i].1, Lookup(HandleGroups(tb, groups).conversations, t))
  {
    var n := |groups| - 1;
    assert groups[n] in groups;
    if i == n {
      UngroupedStays(tb, groups[..n], groups[n].0);
      BatchRowAfter(HandleGroups(tb, groups[..n]), groups[n].0, groups[n].1);
    } else {
      GroupedRow(tb, groups[..n], i);
      BatchStores(HandleGroups(tb, groups[..n]), groups[n].0, groups[n].1);
    }
  }

  /** The row of a thread after its batch: unchanged if dated after all of the batch, otherwise what the batch shows. */
  ghost predicate BatchRow(was: Option<Conversation>, batch: Batch, row: Option<Conversation>) {
    if was.Some? && forall m | m in batch :: m.message.date < was.value.date then row == was
    else row.Some? && ShowsBatch(was, batch, row.value)
  }

  lemma BatchRowAfter(tb: Tables, t: int, batch: Batch)
    requires batch != []
    ensures BatchRow(Lookup(tb.conversations, t), batch, Lookup(HandleBatch(tb, t, batch).conversations, t))
  {
    var stored := UpsertAttachments(UpsertRows(tb, batch), AttachmentRows(batch));
    RowsGrow(tb, batch);
    SameUpserts(UpsertRows(tb, batch), UpsertRows(tb, batch), AttachmentRows(batch));
    var i := MostRecentIsLatest(batch);
    assert batch[i] in batch;
    BatchShows(Lookup(stored.conversations, t), batch, stored, t);
  }

  // ----- in terms of the packet -----

  lemma {:induction false} FlatAdds(groups: seq<(int, Batch)>, m: PacketMessage)
    ensures multiset(Flat(AddTo(groups, m))) == multiset(Flat(groups)) + multiset{m}
  {
    var r := AddTo(groups, m);
    if groups == [] {
      assert r[..0] == [] && Flat(r) == [] + [m];
    } else {
      FlatFront(groups);
      FlatFront(r);
      if groups[0].0 != m.message.threadId {
        FlatAdds(groups[1..], m);
        assert r[1..] == AddTo(groups[1..], m);
      } else {
        assert r[1..] == groups[1..] && r[0].1 == groups[0].1 + [m];
      }
    }
  }

  lemma {:induction false} FlatFront(groups: seq<(int, Batch)>)
    requires groups != []
    ensures Flat(groups) == groups[0].1 + Flat(groups[1..])
  {
    var n := |groups| - 1;
    if n > 0 {
      FlatFront(groups[..n]);
      assert groups[..n][1..] == groups[1..][..n - 1];
    } else {
      assert Flat(groups[..0]) == [];
    }
  }

  /** Every message of the packet is stored, once. */
  lemma {:induction false} FlatIsPacket(packet: Batch)
    ensures multiset(Flat(Group(packet))) == multiset(packet)
  {
    if packet != [] {
      var n := |packet| - 1;
      FlatIsPacket(packet[..n]);
      FlatAdds(Group(packet[..n]), packet[n]);
      assert packet == packet[..n] + [packet[n]];
    }
  }

  /**
   * The message table after a packet: stored in some order of all its messages, a reported id has exactly the columns of
   * its last report, and every other row is as before.
   */
  lemma PacketMessages(tb: Tables, packet: Batch) returns (stored: seq<PhoneMessage>)
    ensures multiset(stored) == multiset(Reports(packet))
    ensures stored == Reports(Flat(Group(packet)))
    ensures forall i | 0 <= i < |stored| && LastOfItsId(stored, i) ::
      HasColumns(HandleMessages(tb, packet).messages, stored[i])
    ensures forall id | forall m | m in stored :: m.id != id ::
      Lookup(HandleMessages(tb, packet).messages, id) == Lookup(tb.messages, id)
  {
    GroupHomogeneous(packet);
    GroupsStoreMessages(tb, Group(packet));
    FlatIsPacket(packet);
    var flat := Flat(Group(packet));
    stored := Reports(flat);
    SameReports(flat, packet);
    RowsIds(stored);
    forall i | 0 <= i < |stored| && LastOfItsId(stored, i)
      ensures HasColumns(HandleMessages(tb, packet).messages, stored[i])
    {
      LastRow(stored, i);
    }
  }

  ghost predicate LastOfItsId(msgs: seq<PhoneMessage>, i: int) {
    0 <= i < |msgs| && forall j | i < j < |msgs| :: msgs[j].id != msgs[i].id
  }

  ghost predicate HasColumns(messages: map<int, Message>, m: PhoneMessage) {
    m.id in messages && var row := messages[m.id];
      && row.threadId == m.threadId && row.date == m.date && row.body == m.body
      && row.address == (if m.address.Some? then m.address.value else "")
      && row.kind == m.kind && row.read == m.read && row.subId == m.subId && row.event == m.event
  }

  lemma ReportsRemove(b: Batch, i: nat)
    requires i < |b|
    ensures var rest := b[..i] + b[i + 1..];
      && multiset(rest) == multiset(b) - multiset{b[i]}
      && multiset(Reports(b)) == multiset(Reports(rest)) + multiset{b[i].message}
  {
    var rest := b[..i] + b[i + 1..];
    assert b == b[..i] + [b[i]] + b[i + 1..];
    assert Reports(b) == Reports(b[..i]) + [b[i].message] + Reports(b[i + 1..]);
    assert Reports(rest) == Reports(b[..i]) + Reports(b[i + 1..]);
  }

  lemma {:induction false} SameReports(a: Batch, b: Batch)
    requires multiset(a) == multiset(b)
    ensures multiset(Reports(a)) == multiset(Reports(b))
    decreases |a|
  {
    if a == [] {
      assert |multiset(b)| == |b|;
    } else {
      var n := |a| - 1;
      assert a[n] in multiset(b);
      var i :| 0 <= i < |b| && b[i] == a[n];
      ReportsRemove(a, n);
      ReportsRemove(b, i);
      SameReports(a[..n] + a[n + 1..], b[..i] + b[i + 1..]);
    }
  }

  /** The conversations after a packet: each thread by its own messages alone, threads without messages as before. */
  lemma PacketConversation(tb: Tables, packet: Batch, t: int)
    ensures var was, row := Lookup(tb.conversations, t), Lookup(HandleMessages(tb, packet).conversations, t);
      if OfThread(packet, t) == [] then row == was else BatchRow(was, OfThread(packet, t), row)
  {
    GroupHomogeneous(packet);
    GroupExact(packet, t);
    if HasThread(Group(packet), t) {
      var i :| 0 <= i < |Group(packet)| && Group(packet)[i].0 == t;
      BatchOfAt(Group(packet), i);
      GroupedRow(tb, Group(packet), i);
    } else {
      UngroupedStays(tb, Group(packet), t);
    }
  }

  lemma {:induction false} BatchOfAt(groups: seq<(int, Batch)>, i: nat)
    requires DistinctThreads(groups) && i < |groups|
    ensures BatchOf(groups, groups[i].0) == groups[i].1
  {
    if i > 0 {
      assert groups[1..][i - 1] == groups[i];
      BatchOfAt(groups[1..], i - 1);
    }
  }

  // ----- attachments -----

  /** The first thumbnail among the rows of one attachment. */
  function FirstThumbnail(rows: seq<(PartKey, Attachment)>, key: PartKey): Option<string> {
    if rows == [] then None
    else
      var last := rows[|rows| - 1];
      FirstThumbnail(rows[..|rows| - 1], key).OrElse(if last.0 == key then last.1.thumbnailPath else None)
  }

  ghost predicate LastOfKey(rows: seq<(PartKey, Attachment)>, i: int, key: PartKey) {
    0 <= i < |rows| && rows[i].0 == key && forall j | i < j < |rows| :: rows[j].0 != key
  }

  /** Storing rows of new attachments, per attachment. */
  ghost predicate Stored(was: Option<Attachment>, rows: seq<(PartKey, Attachment)>, key: PartKey, got: Option<Attachment>) {
    && ((forall r | r in rows :: r.0 != key) ==> got == was)
    && (forall i | LastOfKey(rows, i, key) ::
          got.Some? && got.value == rows[i].1.(
            downloaded := was.Some? && was.value.downloaded,
            localPath := if was.Some? then was.value.localPath else None,
            fileSize := if was.Some? then was.value.fileSize else None,
            thumbnailPath := if was.Some? && was.value.thumbnailPath.Some? then was.value.thumbnailPath
                             else FirstThumbnail(rows, key)))
  }

  lemma {:induction false} UpsertsStore(tb: Tables, rows: seq<(PartKey, Attachment)>, key: PartKey)
    requires forall r | r in rows :: !r.1.downloaded && r.1.localPath == None && r.1.fileSize == None
    ensures Stored(Lookup(tb.attachments, key), rows, key, Lookup(UpsertAttachments(tb, rows).attachments, key))
  {
    if rows != [] {
      var n := |rows| - 1;
      assert rows == rows[..n] + [rows[n]] && rows[n] in rows;
      UpsertsStore(tb, rows[..n], key);
      NoneOrLast(rows[..n], key);
      forall i | LastOfKey(rows, i, key) && i < n ensures LastOfKey(rows[..n], i, key)
      {
      }
    }
  }

  lemma {:induction false} NoneOrLast(rows: seq<(PartKey, Attachment)>, key: PartKey)
    ensures (forall r | r in rows :: r.0 != key) || exists i :: LastOfKey(rows, i, key)
    ensures (forall r | r in rows :: r.0 != key) ==> FirstThumbnail(rows, key) == None
  {
    if rows != [] {
      var n := |rows| - 1;
      NoneOrLast(rows[..n], key);
      assert rows == rows[..n] + [rows[n]];
      if rows[n].0 == key {
        assert LastOfKey(rows, n, key);
      } else if i :| LastOfKey(rows[..n], i, key) {
        assert LastOfKey(rows, i, key);
      }
    }
  }

  predicate IsRowOf(m: PacketMessage, p: Part, row: Attachment) {
    && row.uniqueIdentifier == p.uniqueIdentifier && row.mimeType == p.mimeType && row.filename == p.filename
    && row.fileSize == None && !row.downloaded && row.localPath == None
    && (if p.partId in m.thumbnails then row.thumbnailPath == Some(m.thumbnails[p.partId]) else row.thumbnailPath == None)
  }

  /** The rows of a batch are those of its messages, in order. */
  lemma RowsOfBatch(batch: Batch, m: PacketMessage)
    ensures AttachmentRows([]) == []
    ensures AttachmentRows(batch + [m]) == AttachmentRows(batch) + PartRows(m, m.message.parts)
  {
    assert (batch + [m])[..|batch|] == batch;
  }

  /** The rows of one message: each part, with the thumbnail that came with it. */
  lemma {:induction false} PartRowsExact(m: PacketMessage, parts: seq<Part>)
    ensures |PartRows(m, parts)| == |parts|
    ensures forall k | 0 <= k < |parts| :: PartRows(m, parts)[k].0 == (parts[k].partId, m.message.id)
    ensures forall k | 0 <= k < |parts| :: IsRowOf(m, parts[k], PartRows(m, parts)[k].1)
  {
    if parts != [] {
      PartRowsExact(m, parts[..|parts| - 1]);
    }
  }

  /**
   * The attachment table after a packet: a reported attachment has the identity of its last report; size, download flag,
   * path and thumbnail that were known stay, and a missing thumbnail is the first that came.
   */
  lemma PacketAttachments(tb: Tables, packet: Batch, key: PartKey)
    ensures Stored(Lookup(tb.attachments, key), AttachmentRows(Flat(Group(packet))), key,
                   Lookup(HandleMessages(tb, packet).attachments, key))
  {
    GroupHomogeneous(packet);
    GroupsStoreAttachments(tb, Group(packet));
    var flat := Flat(Group(packet));
    AttachmentRowsFresh(flat, set m | m in flat :: m.message.id);
    UpsertsStore(tb, AttachmentRows(flat), key);
  }
}
