/**
 * The desktop's query engine: one query at a time over an asynchronous link, its answer arriving page by page.
 * Every callback (page, timer, abort, connection change) is one step. Promises are numbered as they are issued;
 * the number also stands for the UUID of the query, which is fresh in the same way.
 */
module QueryClient {
  import opened Wrappers

  type Item = string

  datatype Page = Page(queryId: nat, pageId: int, page: int, totalPages: int, data: seq<Item>, timestamp: Option<int>)

  datatype Pending = Pending(
    id: nat, resource: string, pages: map<int, seq<Item>>, totalPages: Option<int>, receivedCount: nat,
    timestamp: Option<int>, streaming: bool)

  datatype Queued = Queued(id: nat, resource: string)

  datatype Packet = Query(id: nat, resource: string) | Ack(id: nat, pageId: int) | Cancel(id: nat)

  datatype Outcome = Resolved(items: seq<Item>) | NotConnected | Disconnected | Aborted | TimedOut

  /** `settled` records every call of a promise's resolve or reject, `sent` every packet, `streamed` every `onPage`. */
  datatype State = State(
    connected: bool, active: Option<Pending>, queue: seq<Queued>, timer: Option<nat>, lastTimestamp: Option<int>,
    issued: nat, sent: seq<Packet>, settled: seq<(nat, Outcome)>, streamed: seq<Page>)

  const INITIAL := State(false, None, [], None, None, 0, [], [], [])

  // ----- what each step does -----

  function Settle(s: State, id: nat, outcome: Outcome): State {
    s.(settled := s.settled + [(id, outcome)])
  }

  function Dispatch(s: State, q: Queued, streaming: bool): State {
    s.(active := Some(Pending(q.id, q.resource, map[], None, 0, None, streaming)),
       sent := s.sent + [Query(q.id, q.resource)], timer := Some(q.id))
  }

  /** A queued query is dispatched without its page callback. */
  function Drain(s: State): State
    decreases |s.queue|
  {
    if s.active.Some? || s.queue == [] then s
    else
      var rest := s.(queue := s.queue[1..]);
      if !s.connected then Drain(Settle(rest, s.queue[0].id, Disconnected))
      else Dispatch(rest, s.queue[0], false)
  }

  function Issue(s: State, resource: string, streaming: bool): State {
    var q, s' := Queued(s.issued, resource), s.(issued := s.issued + 1);
    if !s.connected then Settle(s', q.id, NotConnected)
    else if s.active.Some? then s'.(queue := s.queue + [q])
    else Dispatch(s', q, streaming)
  }

  /** Pages 1..n in order, skipping those that never came. */
  function ConcatPages(pages: map<int, seq<Item>>, n: int): seq<Item> {
    if n <= 0 then [] else ConcatPages(pages, n - 1) + Lookup(pages, n).GetOr([])
  }

  function Receive(q: Pending, p: Page): Pending {
    q.(totalPages := q.totalPages.OrElse(Some(p.totalPages)),
       timestamp := q.timestamp.OrElse(if p.timestamp == Some(0) then None else p.timestamp),
       pages := q.pages[p.page := p.data], receivedCount := q.receivedCount + 1)
  }

  function Complete(s: State, q: Pending): State {
    var items := ConcatPages(q.pages, q.totalPages.GetOr(0));
    Drain(Settle(s.(timer := None, active := None, lastTimestamp := q.timestamp), q.id, Resolved(items)))
  }

  function Mine(s: State, p: Page): bool {
    s.active.Some? && s.active.value.id == p.queryId
  }

  function HandlePage(s: State, p: Page): State {
    if !Mine(s, p) then s
    else
      var q := Receive(s.active.value, p);
      var s' := s.(active := Some(q), streamed := if q.streaming then s.streamed + [p] else s.streamed,
                   sent := if s.connected then s.sent + [Ack(p.queryId, p.pageId)] else s.sent);
      if q.receivedCount >= q.totalPages.value then Complete(s', q) else s'.(timer := Some(q.id))
  }

  /** Give up on the active query: cancel on the wire, reject, go on with the queue. */
  function GiveUp(s: State, outcome: Outcome): State
    requires s.active.Some?
  {
    var id := s.active.value.id;
    var told := if s.connected then s.(sent := s.sent + [Cancel(id)]) else s;
    Drain(Settle(told.(timer := None, active := None), id, outcome))
  }

  /** The armed timer fires; its callback was made for the query that armed it. */
  function Timeout(s: State): State {
    if s.timer.None? then s
    else if s.active.None? || s.active.value.id != s.timer.value then s.(timer := None)
    else GiveUp(s, TimedOut)
  }

  /** The abort handle of a streaming query looks at the resource of whatever query is active. */
  function Abort(s: State, resource: string): State {
    if s.active.Some? && s.active.value.resource == resource then GiveUp(s, Aborted) else s
  }

  function RejectAll(s: State, queue: seq<Queued>): State {
    if queue == [] then s else Settle(RejectAll(s, queue[..|queue| - 1]), queue[|queue| - 1].id, Disconnected)
  }

  function ClearSend(s: State): State {
    var off := s.(connected := false, timer := None, active := None, queue := []);
    RejectAll(if s.active.Some? then Settle(off, s.active.value.id, Disconnected) else off, s.queue)
  }

  // ----- the client itself -----

  class Client {
    var connected: bool
    var active: Option<Pending>
    var queue: seq<Queued>
    var inactivityTimer: Option<nat>
    var lastQueryTimestamp: Option<int>
    ghost var issued: nat
    ghost var sent: seq<Packet>
    ghost var settled: seq<(nat, Outcome)>
    ghost var streamed: seq<Page>
    var nextId: nat

    ghost function View(): State
      reads this
    {
      State(connected, active, queue, inactivityTimer, lastQueryTimestamp, issued, sent, settled, streamed)
    }

    constructor ()
      ensures View() == INITIAL && nextId == issued
    {
      connected, active, queue, inactivityTimer, lastQueryTimestamp := false, None, [], None, None;
      issued, sent, settled, streamed, nextId := 0, [], [], [], 0;
    }

    method SetSendFunction()
      modifies this`connected
      ensures View() == old(View()).(connected := true)
    {
      connected := true;
    }

    method ClearSendFunction()
      modifies this
      ensures View() == ClearSend(old(View())) && nextId == old(nextId)
    {
      connected, inactivityTimer := false, None;
      if active.Some? {
        settled := settled + [(active.value.id, Disconnected)];
        active := None;
      }
      ghost var off := View().(queue := []);
      var i := 0;
      while i < |queue|
        invariant 0 <= i <= |queue|
        invariant queue == old(queue) && nextId == old(nextId)
        invariant View().(queue := []) == RejectAll(off, queue[..i])
      {
        assert queue[..i + 1][..i] == queue[..i];
        settled := settled + [(queue[i].id, Disconnected)];
        i := i + 1;
      }
      assert queue[..i] == queue;
      queue := [];
    }

    /** `query`, or `queryStreaming` when there is a page callback. */
    method IssueQuery(resource: string, streaming: bool)
      requires nextId == issued
      modifies this
      ensures View() == Issue(old(View()), resource, streaming) && nextId == issued
    {
      var id := nextId;
      nextId, issued := nextId + 1, issued + 1;
      if !connected {
        settled := settled + [(id, NotConnected)];
        return;
      }
      if active.Some? {
        queue := queue + [Queued(id, resource)];
        return;
      }
      DispatchQuery(id, resource, streaming);
    }

    method DispatchQuery(id: nat, resource: string, streaming: bool)
      modifies this`active, this`sent, this`inactivityTimer
      ensures View() == Dispatch(old(View()), Queued(id, resource), streaming)
    {
      active := Some(Pending(id, resource, map[], None, 0, None, streaming));
      sent := sent + [Query(id, resource)];
      inactivityTimer := Some(id);
    }

    method HandleResultPage(p: Page)
      modifies this
      ensures View() == HandlePage(old(View()), p) && nextId == old(nextId)
    {
      if active.None? || active.value.id != p.queryId { return; }
      var q := active.value;
      if q.totalPages.None? {
        q := q.(totalPages := Some(p.totalPages));
      }
      if q.timestamp.None? && p.timestamp.Some? && p.timestamp.value != 0 {
        q := q.(timestamp := p.timestamp);
      }
      q := q.(pages := q.pages[p.page := p.data], receivedCount := q.receivedCount + 1);
      active := Some(q);
      if q.streaming {
        streamed := streamed + [p];
      }
      if connected {
        sent := sent + [Ack(p.queryId, p.pageId)];
      }
      if q.receivedCount >= q.totalPages.value {
        CompleteQuery(q);
      } else {
        inactivityTimer := Some(q.id);
      }
    }

    method CompleteQuery(q: Pending)
      modifies this
      ensures View() == Complete(old(View()), q) && nextId == old(nextId)
    {
      inactivityTimer := None;
      var total := q.totalPages.GetOr(0);
      var result, i := [], 1;
      while i <= total
        invariant 1 <= i && (i <= total + 1 || i == 1)
        invariant result == ConcatPages(q.pages, i - 1)
      {
        if i in q.pages {
          result := result + q.pages[i];
        }
        i := i + 1;
      }
      active := None;
      lastQueryTimestamp := q.timestamp;
      settled := settled + [(q.id, Resolved(result))];
      DrainQueue();
    }

    method DrainQueue()
      modifies this
      ensures View() == Drain(old(View())) && nextId == old(nextId)
      decreases |queue|
    {
      if active.Some? || queue == [] { return; }
      var next := queue[0];
      queue := queue[1..];
      if !connected {
        settled := settled + [(next.id, Disconnected)];
        DrainQueue();
        return;
      }
      DispatchQuery(next.id, next.resource, false);
    }

    method TimerFires()
      modifies this
      ensures View() == Timeout(old(View())) && nextId == old(nextId)
    {
      if inactivityTimer.None? { return; }
      var armedFor := inactivityTimer.value;
      inactivityTimer := None;
      if active.None? || active.value.id != armedFor { return; }
      if connected {
        sent := sent + [Cancel(armedFor)];
      }
      settled := settled + [(armedFor, TimedOut)];
      active := None;
      DrainQueue();
    }

    method AbortStreaming(resource: string)
      modifies this
      ensures View() == Abort(old(View()), resource) && nextId == old(nextId)
    {
      if active.None? || active.value.resource != resource { return; }
      var id := active.value.id;
      if connected {
        sent := sent + [Cancel(id)];
      }
      inactivityTimer := None;
      settled := settled + [(id, Aborted)];
      active := None;
      DrainQueue();
    }
  }
}
