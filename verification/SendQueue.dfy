/**
 * The optimistic send queue: a ghost message is shown at once; the daemon's answer and the phone's status arrive
 * in either order.
 */
module SendQueue {
  import opened Wrappers

  datatype Status = Sending | Sent | TimedOut | SendFailed

  /** `TimedOut` and `SendFailed` stand for the states `timeout` and `failed`. */
  datatype Pending = Pending(queueId: string, daemonId: Option<string>, threadId: int, body: string, date: int, status: Status)

  /** `timers` are the armed removal timers: temporary id to daemon id. */
  datatype State = State(
    pending: seq<Pending>, daemonToTemp: map<string, string>, earlyStatuses: map<string, Status>,
    timers: map<string, string>)

  datatype Row = Row(threadId: int, kind: int, body: Option<string>, date: int)

  predicate RowsContainMatch(rows: seq<Row>, threadId: int, body: string, ghostDate: int) {
    exists i :: 0 <= i < |rows| && rows[i].threadId == threadId && rows[i].kind == 2
                && rows[i].body.GetOr("") == body && ghostDate - 5_000 <= rows[i].date <= ghostDate + 60_000
  }

  /** Position of the first message with this id, or the length. */
  function FindIndex(pending: seq<Pending>, queueId: string): (i: nat)
    ensures i <= |pending|
    ensures i < |pending| ==> pending[i].queueId == queueId
  {
    if pending == [] || pending[0].queueId == queueId then 0 else FindIndex(pending[1..], queueId) + 1
  }

  function SetStatus(pending: seq<Pending>, i: nat, status: Status): seq<Pending> {
    if i < |pending| then pending[i := pending[i].(status := status)] else pending
  }

  function SetDaemonId(pending: seq<Pending>, i: nat, id: string): seq<Pending> {
    if i < |pending| then pending[i := pending[i].(daemonId := Some(id))] else pending
  }

  /** A status for a message that may be gone; `sent` arms the removal timer. */
  function ApplyStatus(s: State, tempId: string, daemonId: string, status: Status): State {
    var i := FindIndex(s.pending, tempId);
    if i == |s.pending| then s
    else s.(pending := SetStatus(s.pending, i, status),
            timers := if status.Sent? then s.timers[tempId := daemonId] else s.timers)
  }

  /** Showing the ghost, unless the real message is on screen already. */
  function Show(s: State, m: Pending, rows: seq<Row>): State {
    if m.body != "" && RowsContainMatch(rows, m.threadId, m.body, m.date) then s else s.(pending := s.pending + [m])
  }

  /** The daemon accepts the message and names it. */
  function Response(s: State, tempId: string, skipGhost: bool, daemonId: string): State {
    if skipGhost then s.(earlyStatuses := s.earlyStatuses - {daemonId})
    else
      var mapped := s.(daemonToTemp := s.daemonToTemp[daemonId := tempId],
                       pending := SetDaemonId(s.pending, FindIndex(s.pending, tempId), daemonId));
      if daemonId in s.earlyStatuses then
        ApplyStatus(mapped.(earlyStatuses := s.earlyStatuses - {daemonId}), tempId, daemonId, s.earlyStatuses[daemonId])
      else mapped
  }

  /** The phone reports on a message; the daemon may not have named it to us yet. */
  function HandleSendStatus(s: State, daemonId: string, status: Status): State {
    if daemonId in s.daemonToTemp then ApplyStatus(s, s.daemonToTemp[daemonId], daemonId, status)
    else s.(earlyStatuses := s.earlyStatuses[daemonId := status])
  }

  class Queue {
    var pending: seq<Pending>
    var daemonToTemp: map<string, string>
    var earlyStatuses: map<string, Status>
    var removalTimers: map<string, string>

    ghost function View(): State
      reads this
    {
      State(pending, daemonToTemp, earlyStatuses, removalTimers)
    }

    constructor ()
      ensures View() == State([], map[], map[], map[])
    {
      pending, daemonToTemp, earlyStatuses, removalTimers := [], map[], map[], map[];
    }

    method ShowGhost(m: Pending, rows: seq<Row>) returns (skipGhost: bool)
      modifies this`pending
      ensures View() == Show(old(View()), m, rows)
      ensures skipGhost <==> m.body != "" && RowsContainMatch(rows, m.threadId, m.body, m.date)
    {
      skipGhost := false;
      if |m.body| > 0 {
        skipGhost := RowsContainMatch(rows, m.threadId, m.body, m.date);
      }
      if !skipGhost {
        pending := pending + [m];
      }
    }

    method OnResponse(tempId: string, skipGhost: bool, daemonId: string)
      modifies this
      ensures View() == Response(old(View()), tempId, skipGhost, daemonId)
    {
      if skipGhost {
        earlyStatuses := earlyStatuses - {daemonId};
        return;
      }
      daemonToTemp := daemonToTemp[daemonId := tempId];
      var idx := FindIndex(pending, tempId);
      if idx < |pending| {
        pending := pending[idx := pending[idx].(daemonId := Some(daemonId))];
      }
      if daemonId in earlyStatuses {
        var earlyStatus := earlyStatuses[daemonId];
        earlyStatuses := earlyStatuses - {daemonId};
        Apply(tempId, daemonId, earlyStatus);
      }
    }

    method Apply(tempId: string, daemonId: string, status: Status)
      modifies this`pending, this`removalTimers
      ensures View() == ApplyStatus(old(View()), tempId, daemonId, status)
    {
      var idx := FindIndex(pending, tempId);
      if idx == |pending| { return; }
      pending := pending[idx := pending[idx].(status := status)];
      if status.Sent? {
        removalTimers := removalTimers[tempId := daemonId];
      }
    }

    method OnSendStatus(daemonId: string, status: Status)
      modifies this
      ensures View() == HandleSendStatus(old(View()), daemonId, status)
    {
      if daemonId in daemonToTemp {
        Apply(daemonToTemp[daemonId], daemonId, status);
      } else {
        earlyStatuses := earlyStatuses[daemonId := status];
      }
    }
  }

  // ----- the race -----

  lemma {:induction false} FindAfterUpdate(pending: seq<Pending>, i: nat, p: Pending, queueId: string)
    requires i < |pending| && p.queueId == pending[i].queueId
    ensures FindIndex(pending[i := p], queueId) == FindIndex(pending, queueId)
  {
    if pending[0].queueId != queueId && i > 0 {
      assert pending[i := p][1..] == pending[1..][i - 1 := p];
      FindAfterUpdate(pending[1..], i - 1, p, queueId);
    } else if i == 0 {
      assert pending[0 := p][1..] == pending[1..];
    }
  }

  /** The message is named and nothing is buffered for it. */
  function Named(s: State, tempId: string, daemonId: string): State {
    NameIt(s, tempId, daemonId).(earlyStatuses := s.earlyStatuses - {daemonId})
  }

  function Buffered(s: State, tempId: string, daemonId: string, status: Option<Status>): State {
    if status.Some? then ApplyStatus(s, tempId, daemonId, status.value) else s
  }

  lemma ResponseSettles(s: State, tempId: string, daemonId: string)
    ensures Response(s, tempId, false, daemonId)
         == Buffered(Named(s, tempId, daemonId), tempId, daemonId, Lookup(s.earlyStatuses, daemonId))
  {
    if daemonId !in s.earlyStatuses {
      assert s.earlyStatuses - {daemonId} == s.earlyStatuses;
    }
  }

  /** A second status replaces the first, except that a removal timer stays armed. */
  lemma SecondStatusWins(s: State, tempId: string, daemonId: string, first: Status, second: Status)
    ensures var both := ApplyStatus(ApplyStatus(s, tempId, daemonId, first), tempId, daemonId, second);
      var one := ApplyStatus(s, tempId, daemonId, second);
      && one == both.(timers := one.timers)
      && (one.timers == both.timers
          <==> (FindIndex(s.pending, tempId) < |s.pending| && first.Sent?
                ==> second.Sent? || Lookup(s.timers, tempId) == Some(daemonId)))
  {
    var i := FindIndex(s.pending, tempId);
    if i < |s.pending| {
      FindAfterUpdate(s.pending, i, s.pending[i].(status := first), tempId);
      assert Lookup(s.timers[tempId := daemonId], tempId) == Some(daemonId);
      assert Lookup(s.timers, tempId) == Some(daemonId) ==> s.timers[tempId := daemonId] == s.timers;
    }
  }

  lemma NamingKeepsPlace(s: State, tempId: string, daemonId: string)
    ensures FindIndex(Named(s, tempId, daemonId).pending, tempId) == FindIndex(s.pending, tempId)
    ensures |Named(s, tempId, daemonId).pending| == |s.pending|
  {
    var i := FindIndex(s.pending, tempId);
    if i < |s.pending| {
      FindAfterUpdate(s.pending, i, s.pending[i].(daemonId := Some(daemonId)), tempId);
    }
  }

  /**
   * With a ghost on screen (or removed meanwhile), the status may overtake the response: either order leaves the
   * same list, the same maps and the same buffer, whatever was buffered before. The removal timers agree too, unless
   * `sent` was buffered and is now taken back: then only the order with the response first arms one.
   */
  lemma StatusAndResponseCommute(s: State, tempId: string, daemonId: string, status: Status)
    requires daemonId !in s.daemonToTemp
    ensures var statusFirst := Response(HandleSendStatus(s, daemonId, status), tempId, false, daemonId);
      var responseFirst := HandleSendStatus(Response(s, tempId, false, daemonId), daemonId, status);
      && statusFirst == responseFirst.(timers := statusFirst.timers)
      && (statusFirst.timers == responseFirst.timers
          <==> (FindIndex(s.pending, tempId) < |s.pending| && Lookup(s.earlyStatuses, daemonId) == Some(Sent)
                ==> status.Sent? || Lookup(s.timers, tempId) == Some(daemonId)))
  {
    var first := HandleSendStatus(s, daemonId, status);
    ResponseSettles(first, tempId, daemonId);
    ResponseSettles(s, tempId, daemonId);
    var named := Named(s, tempId, daemonId);
    assert Named(first, tempId, daemonId) == named by {
      assert first.earlyStatuses - {daemonId} == s.earlyStatuses - {daemonId};
    }
    NamingKeepsPlace(s, tempId, daemonId);
    if daemonId in s.earlyStatuses {
      SecondStatusWins(named, tempId, daemonId, s.earlyStatuses[daemonId], status);
    }
  }

  /**
   * Without a ghost the visible list is the same either way, but the buffers differ exactly by the status: if it
   * comes second it stays in the buffer for good.
   */
  lemma SkippedGhostLeavesStatus(s: State, tempId: string, daemonId: string, status: Status)
    requires daemonId !in s.daemonToTemp
    ensures var statusFirst := Response(HandleSendStatus(s, daemonId, status), tempId, true, daemonId);
      var responseFirst := HandleSendStatus(Response(s, tempId, true, daemonId), daemonId, status);
      && statusFirst == s.(earlyStatuses := s.earlyStatuses - {daemonId})
      && responseFirst == s.(earlyStatuses := s.earlyStatuses[daemonId := status])
  {
    var first := HandleSendStatus(s, daemonId, status);
    assert first.earlyStatuses - {daemonId} == s.earlyStatuses - {daemonId};
    assert (s.earlyStatuses - {daemonId})[daemonId := status] == s.earlyStatuses[daemonId := status];
  }

  function NameIt(s: State, tempId: string, daemonId: string): State {
    s.(daemonToTemp := s.daemonToTemp[daemonId := tempId],
       pending := SetDaemonId(s.pending, FindIndex(s.pending, tempId), daemonId))
  }

  lemma Found(pending: seq<Pending>, a: string, b: string)
    requires a != b && FindIndex(pending, a) < |pending| && FindIndex(pending, b) < |pending|
    ensures FindIndex(pending, a) != FindIndex(pending, b)
  {
  }

  /** Naming one message and marking another, in either order. */
  lemma UpdatesCommute(pending: seq<Pending>, i: nat, a: string, j: nat, status: Status)
    requires i != j || i >= |pending|
    ensures SetDaemonId(SetStatus(pending, j, status), i, a) == SetStatus(SetDaemonId(pending, i, a), j, status)
  {
  }

  /** Naming one message and applying a status to another touch different entries. */
  lemma NamingAndStatusCommute(s: State, tempA: string, a: string, tempB: string, b: string, status: Status)
    requires tempA != tempB
    ensures NameIt(ApplyStatus(s, tempB, b, status), tempA, a) == ApplyStatus(NameIt(s, tempA, a), tempB, b, status)
  {
    var i, j := FindIndex(s.pending, tempA), FindIndex(s.pending, tempB);
    if i < |s.pending| {
      FindAfterUpdate(s.pending, i, s.pending[i].(daemonId := Some(a)), tempB);
    }
    if j < |s.pending| {
      FindAfterUpdate(s.pending, j, s.pending[j].(status := status), tempA);
      if i < |s.pending| {
        Found(s.pending, tempA, tempB);
      }
      UpdatesCommute(s.pending, i, a, j, status);
    }
  }

  // ----- what is shown -----

  /** The position found is the first; without a match it is the length. */
  lemma {:induction false} FoundFirst(pending: seq<Pending>, queueId: string)
    ensures forall j | 0 <= j < FindIndex(pending, queueId) :: pending[j].queueId != queueId
  {
    if pending != [] && pending[0].queueId != queueId {
      FoundFirst(pending[1..], queueId);
      assert forall j | 0 < j < |pending| :: pending[j] == pending[1..][j - 1];
    }
  }

  /**
   * Once response and status are in, in either order, the ghost that was shown carries the daemon's name and the
   * status, no other message has changed, later statuses will find it, and `sent` has armed its removal.
   */
  lemma StatusIsShown(s: State, tempId: string, daemonId: string, status: Status)
    requires daemonId !in s.daemonToTemp && daemonId !in s.earlyStatuses
    ensures var i := FindIndex(s.pending, tempId);
      var r := Response(HandleSendStatus(s, daemonId, status), tempId, false, daemonId);
      && HandleSendStatus(Response(s, tempId, false, daemonId), daemonId, status) == r
      && r.earlyStatuses == s.earlyStatuses && r.daemonToTemp == s.daemonToTemp[daemonId := tempId]
      && |r.pending| == |s.pending|
      && (forall j | 0 <= j < |s.pending| && j != i :: r.pending[j] == s.pending[j])
      && (i < |s.pending| ==>
            && r.pending[i] == s.pending[i].(daemonId := Some(daemonId), status := status)
            && r.timers == if status.Sent? then s.timers[tempId := daemonId] else s.timers)
      && (i == |s.pending| ==> r.timers == s.timers)
  {
    StatusAndResponseCommute(s, tempId, daemonId, status);
    var first := HandleSendStatus(s, daemonId, status);
    ResponseSettles(first, tempId, daemonId);
    assert first.earlyStatuses - {daemonId} == s.earlyStatuses;
    NamingKeepsPlace(first, tempId, daemonId);
  }

  /** A sent row of the thread with the text, from five seconds before the ghost to a minute after it. */
  predicate IsRealMessage(row: Row, m: Pending) {
    && row.threadId == m.threadId && row.kind == 2 && row.body == Some(m.body)
    && row.date - m.date <= 60_000 && m.date - row.date <= 5_000
  }

  /** A ghost is put last, exactly unless it has text and its real message is on screen. */
  lemma GhostIsShown(s: State, m: Pending, rows: seq<Row>)
    ensures Show(s, m, rows) == s || Show(s, m, rows) == s.(pending := s.pending + [m])
    ensures Show(s, m, rows) == s <==> m.body != "" && exists row :: row in rows && IsRealMessage(row, m)
  {
    if m.body != "" {
      if row :| row in rows && IsRealMessage(row, m) {
        var i :| 0 <= i < |rows| && rows[i] == row;
        assert RowsContainMatch(rows, m.threadId, m.body, m.date);
      }
      if RowsContainMatch(rows, m.threadId, m.body, m.date) {
        var i :| 0 <= i < |rows| && rows[i].threadId == m.threadId && rows[i].kind == 2
                 && rows[i].body.GetOr("") == m.body && m.date - 5_000 <= rows[i].date <= m.date + 60_000;
        assert rows[i] in rows && IsRealMessage(rows[i], m);
      }
    }
    assert |s.pending + [m]| != |s.pending|;
  }

  lemma StatusKeepsPlaces(s: State, tempId: string, daemonId: string, status: Status, other: string)
    ensures FindIndex(ApplyStatus(s, tempId, daemonId, status).pending, other) == FindIndex(s.pending, other)
    ensures |ApplyStatus(s, tempId, daemonId, status).pending| == |s.pending|
  {
    var i := FindIndex(s.pending, tempId);
    if i < |s.pending| {
      FindAfterUpdate(s.pending, i, s.pending[i].(status := status), other);
    }
  }

  lemma MarksCommute(pending: seq<Pending>, i: nat, x: Status, j: nat, y: Status)
    requires i != j
    ensures SetStatus(SetStatus(pending, i, x), j, y) == SetStatus(SetStatus(pending, j, y), i, x)
  {
  }

  lemma TimersCommute(timers: map<string, string>, tempA: string, a: string, tempB: string, b: string)
    requires tempA != tempB
    ensures timers[tempA := a][tempB := b] == timers[tempB := b][tempA := a]
  {
  }

  lemma StatusesCommute(s: State, tempA: string, a: string, x: Status, tempB: string, b: string, y: Status)
    requires tempA != tempB
    ensures ApplyStatus(ApplyStatus(s, tempA, a, x), tempB, b, y) == ApplyStatus(ApplyStatus(s, tempB, b, y), tempA, a, x)
  {
    var i, j := FindIndex(s.pending, tempA), FindIndex(s.pending, tempB);
    StatusKeepsPlaces(s, tempA, a, x, tempB);
    StatusKeepsPlaces(s, tempB, b, y, tempA);
    if i < |s.pending| && j < |s.pending| {
      Found(s.pending, tempA, tempB);
      MarksCommute(s.pending, i, x, j, y);
      TimersCommute(s.timers, tempA, a, tempB, b);
    }
  }

  /** Sends in flight do not disturb each other: the response to one and the status of another commute. */
  lemma DifferentSendsCommute(s: State, tempA: string, a: string, b: string, status: Status)
    requires a != b
    requires b in s.daemonToTemp ==> s.daemonToTemp[b] != tempA
    ensures Response(HandleSendStatus(s, b, status), tempA, false, a)
         == HandleSendStatus(Response(s, tempA, false, a), b, status)
  {
    if b in s.daemonToTemp {
      KnownSendCommutes(s, tempA, a, s.daemonToTemp[b], b, status);
    } else {
      UnknownSendCommutes(s, tempA, a, b, status);
    }
  }

  lemma KnownSendCommutes(s: State, tempA: string, a: string, tempB: string, b: string, status: Status)
    requires tempA != tempB
    ensures Response(ApplyStatus(s, tempB, b, status), tempA, false, a)
         == ApplyStatus(Response(s, tempA, false, a), tempB, b, status)
  {
    var first := ApplyStatus(s, tempB, b, status);
    ResponseSettles(first, tempA, a);
    ResponseSettles(s, tempA, a);
    var named := Named(s, tempA, a);
    NamingAndStatusCommute(s, tempA, a, tempB, b, status);
    assert Named(first, tempA, a) == ApplyStatus(named, tempB, b, status);
    if a in s.earlyStatuses {
      StatusesCommute(named, tempA, a, s.earlyStatuses[a], tempB, b, status);
    }
  }

  lemma UnknownSendCommutes(s: State, tempA: string, a: string, b: string, status: Status)
    requires a != b && b !in s.daemonToTemp
    ensures Response(HandleSendStatus(s, b, status), tempA, false, a)
         == HandleSendStatus(Response(s, tempA, false, a), b, status)
  {
    ResponseSettles(HandleSendStatus(s, b, status), tempA, a);
    ResponseSettles(s, tempA, a);
    assert (s.earlyStatuses - {a})[b := status] == s.earlyStatuses[b := status] - {a};
  }
}
