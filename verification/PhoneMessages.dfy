/**
 * Messages as the phone reports them, and the row-by-row upsert that the full sync, the quick sync and the
 * event listener all perform on them.
 */
module PhoneMessages {
  import opened Wrappers
  import opened Store
  import opened DatabaseService

  datatype Part = Part(partId: int, uniqueIdentifier: string, mimeType: string, filename: Option<string>)

  datatype PhoneMessage = PhoneMessage(
    id: int, threadId: int, address: Option<string>, body: Option<string>, date: int, kind: int,
    read: int, subId: int, event: int, parts: seq<Part>)

  function ToRow(m: PhoneMessage): Message {
    Message(m.threadId, m.address.GetOr(""), m.body, m.date, m.kind, m.read, m.subId, m.event)
  }

  /** Phone metadata carries no download state. */
  function ToAttachment(p: Part): Attachment {
    Attachment(p.uniqueIdentifier, p.mimeType, p.filename, None, false, None, None)
  }

  function ThreadOf(m: PhoneMessage): int { m.threadId }

  function DateOf(m: PhoneMessage): int { m.date }

  /** The conversation's preview of a message. */
  function Snippet(m: PhoneMessage): string {
    m.body.GetOr(if m.parts != [] then "[Attachment]" else "")
  }

  function UpsertParts(tb: Tables, id: int, parts: seq<Part>): Tables {
    if parts == [] then tb
    else
      var last := parts[|parts| - 1];
      Store.UpsertAttachment(UpsertParts(tb, id, parts[..|parts| - 1]), (last.partId, id), ToAttachment(last))
  }

  function ApplyOne(tb: Tables, m: PhoneMessage): Tables {
    UpsertParts(Store.UpsertMessage(tb, m.id, ToRow(m)), m.id, m.parts)
  }

  function Apply(tb: Tables, msgs: seq<PhoneMessage>): Tables {
    if msgs == [] then tb else ApplyOne(Apply(tb, msgs[..|msgs| - 1]), msgs[|msgs| - 1])
  }

  /** One message: its row, then its attachment rows. */
  method StoreMessage(db: Database, m: PhoneMessage)
    modifies db
    ensures db.View() == ApplyOne(old(db.View()), m)
  {
    db.UpsertMessage(m.id, ToRow(m));
    ghost var stored := db.View();
    var i := 0;
    while i < |m.parts|
      invariant 0 <= i <= |m.parts|
      invariant db.View() == UpsertParts(stored, m.id, m.parts[..i])
    {
      db.UpsertAttachment((m.parts[i].partId, m.id), ToAttachment(m.parts[i]));
      assert m.parts[..i + 1][..i] == m.parts[..i];
      i := i + 1;
    }
    assert m.parts[..i] == m.parts;
  }

  // ----- what the fold amounts to -----

  /** The reported rows by id; a later report of an id replaces an earlier one. */
  function Rows(msgs: seq<PhoneMessage>): map<int, Message> {
    if msgs == [] then map[]
    else Rows(msgs[..|msgs| - 1])[msgs[|msgs| - 1].id := ToRow(msgs[|msgs| - 1])]
  }

  function LastPart(parts: seq<Part>, partId: int): Option<Part> {
    if parts == [] then None
    else if parts[|parts| - 1].partId == partId then Some(parts[|parts| - 1])
    else LastPart(parts[..|parts| - 1], partId)
  }

  /** The report of one attachment that comes last. */
  function LastReport(msgs: seq<PhoneMessage>, key: PartKey): Option<Part> {
    if msgs == [] then None
    else
      var m := msgs[|msgs| - 1];
      var here := if m.id == key.1 then LastPart(m.parts, key.0) else None;
      here.OrElse(LastReport(msgs[..|msgs| - 1], key))
  }

  /** The stored attachment after a last report: its identity from the phone, its download state kept. */
  function Reported(stored: Option<Attachment>, report: Option<Part>): Option<Attachment> {
    match report
    case None => stored
    case Some(p) => Some(Merge(stored, ToAttachment(p)))
  }

  lemma {:induction false} PartsAt(tb: Tables, id: int, parts: seq<Part>, key: PartKey)
    ensures UpsertParts(tb, id, parts).messages == tb.messages
    ensures UpsertParts(tb, id, parts).conversations == tb.conversations
    ensures Lookup(UpsertParts(tb, id, parts).attachments, key)
         == Reported(Lookup(tb.attachments, key), if id == key.1 then LastPart(parts, key.0) else None)
  {
    if parts != [] {
      PartsAt(tb, id, parts[..|parts| - 1], key);
    }
  }

  lemma {:induction false} RowsIds(msgs: seq<PhoneMessage>)
    ensures Rows(msgs).Keys == set m | m in msgs :: m.id
  {
    if msgs != [] {
      var n := |msgs| - 1;
      RowsIds(msgs[..n]);
      assert msgs == msgs[..n] + [msgs[n]];
    }
  }

  /** Storing a batch overlays the reported rows, touches no conversation, and merges each attachment once. */
  lemma {:induction false} ApplyOverlays(tb: Tables, msgs: seq<PhoneMessage>)
    ensures Apply(tb, msgs).messages == tb.messages + Rows(msgs)
    ensures Apply(tb, msgs).conversations == tb.conversations
  {
    if msgs != [] {
      var n := |msgs| - 1;
      ApplyOverlays(tb, msgs[..n]);
      var before := Apply(tb, msgs[..n]);
      PartsAt(Store.UpsertMessage(before, msgs[n].id, ToRow(msgs[n])), msgs[n].id, msgs[n].parts, (0, 0));
    }
  }

  lemma {:induction false} ApplyAttachmentAt(tb: Tables, msgs: seq<PhoneMessage>, key: PartKey)
    ensures Lookup(Apply(tb, msgs).attachments, key) == Reported(Lookup(tb.attachments, key), LastReport(msgs, key))
  {
    if msgs != [] {
      var n := |msgs| - 1;
      ApplyAttachmentAt(tb, msgs[..n], key);
      var before := Apply(tb, msgs[..n]);
      PartsAt(Store.UpsertMessage(before, msgs[n].id, ToRow(msgs[n])), msgs[n].id, msgs[n].parts, key);
    }
  }

  lemma {:induction false} LastRow(msgs: seq<PhoneMessage>, i: nat)
    requires i < |msgs| && forall j | i < j < |msgs| :: msgs[j].id != msgs[i].id
    ensures Lookup(Rows(msgs), msgs[i].id) == Some(ToRow(msgs[i]))
  {
    if i < |msgs| - 1 {
      LastRow(msgs[..|msgs| - 1], i);
    }
  }

  /** After storing, a reported message has exactly the columns of its last report; the other rows are as before. */
  lemma ReportedMessage(tb: Tables, msgs: seq<PhoneMessage>, i: nat)
    requires i < |msgs| && forall j | i < j < |msgs| :: msgs[j].id != msgs[i].id
    ensures var r := Apply(tb, msgs).messages; var m := msgs[i];
      && m.id in r
      && r[m.id].threadId == m.threadId && r[m.id].date == m.date && r[m.id].body == m.body
      && r[m.id].address == (if m.address.Some? then m.address.value else "")
      && r[m.id].kind == m.kind && r[m.id].read == m.read && r[m.id].subId == m.subId && r[m.id].event == m.event
    ensures forall id | forall m | m in msgs :: m.id != id :: Lookup(Apply(tb, msgs).messages, id) == Lookup(tb.messages, id)
  {
    LastRow(msgs, i);
    RowsIds(msgs);
    ApplyOverlays(tb, msgs);
  }

  /**
   * After storing, a reported attachment is identified as in its last report, and whatever was known locally about
   * its file is still known.
   */
  lemma ReportedAttachment(tb: Tables, msgs: seq<PhoneMessage>, key: PartKey)
    requires LastReport(msgs, key).Some?
    ensures var p := LastReport(msgs, key).value;
      key in Apply(tb, msgs).attachments
      && var a := Apply(tb, msgs).attachments[key];
         && a.uniqueIdentifier == p.uniqueIdentifier && a.mimeType == p.mimeType && a.filename == p.filename
         && (key in tb.attachments ==>
               && a.downloaded == tb.attachments[key].downloaded
               && a.localPath == tb.attachments[key].localPath
               && a.fileSize == tb.attachments[key].fileSize
               && a.thumbnailPath == tb.attachments[key].thumbnailPath)
         && (key !in tb.attachments ==> !a.downloaded && a.localPath == None && a.fileSize == None && a.thumbnailPath == None)
  {
    ApplyAttachmentAt(tb, msgs, key);
  }

  lemma {:induction false} ReportNamesItsMessage(msgs: seq<PhoneMessage>, key: PartKey)
    requires LastReport(msgs, key).Some?
    ensures key.1 in Rows(msgs)
  {
    var n := |msgs| - 1;
    if msgs[n].id != key.1 {
      ReportNamesItsMessage(msgs[..n], key);
    }
  }

  /** Receiving the same batch twice in a row is receiving it once. */
  lemma ApplyIdempotent(tb: Tables, msgs: seq<PhoneMessage>)
    ensures Apply(Apply(tb, msgs), msgs) == Apply(tb, msgs)
  {
    var once := Apply(tb, msgs);
    var twice := Apply(once, msgs);
    ApplyOverlays(tb, msgs);
    ApplyOverlays(once, msgs);
    assert twice.messages == once.messages;
    forall key ensures Lookup(twice.attachments, key) == Lookup(once.attachments, key)
    {
      ApplyAttachmentAt(tb, msgs, key);
      ApplyAttachmentAt(once, msgs, key);
    }
    SameLookups(twice.attachments, once.attachments);
  }
}
