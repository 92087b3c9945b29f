/** What holds in every reachable state of the query engine, and what one answer looks like to its caller. */
module QueryClientRuns {
  import opened Wrappers
  import opened QueryClient

  // ----- bookkeeping of promises -----

  function SettledIds(settled: seq<(nat, Outcome)>): seq<nat> {
    seq(|settled|, i requires 0 <= i < |settled| => settled[i].0)
  }

  function QueuedIds(queue: seq<Queued>): seq<nat> {
    seq(|queue|, i requires 0 <= i < |queue| => queue[i].id)
  }

  function ActiveIds(s: State): seq<nat> {
    if s.active.Some? then [s.active.value.id] else []
  }

  /** The queries put on the wire, in order. */
  function Dispatched(sent: seq<Packet>): seq<nat> {
    if sent == [] then []
    else
      Dispatched(sent[..|sent| - 1])
      + match sent[|sent| - 1] case Query(id, _) => [id] case _ => []
  }

  /** How many of {settled, active, queued} hold a promise, with multiplicity. */
  ghost function Places(s: State): multiset<nat> {
    multiset(SettledIds(s.settled)) + multiset(ActiveIds(s)) + multiset(QueuedIds(s.queue))
  }

  ghost predicate Increasing(ids: seq<nat>) {
    forall i, j | 0 <= i < j < |ids| :: ids[i] < ids[j]
  }

  /** Each issued promise is in exactly one place, once; no other is anywhere. */
  ghost predicate ExactlyOnce(s: State) {
    forall id: nat :: Places(s)[id] == if id < s.issued then 1 else 0
  }

  /** The queries dispatched so far, then the ones waiting. */
  function Line(s: State): seq<nat> {
    Dispatched(s.sent) + QueuedIds(s.queue)
  }

  ghost predicate Below(ids: seq<nat>, bound: nat) {
    forall i | 0 <= i < |ids| :: ids[i] < bound
  }

  /** Queries are dispatched in the order of issue, and the queued ones come next. */
  ghost predicate InOrder(s: State) {
    && Increasing(Line(s))
    && Below(Line(s), s.issued)
    && (s.active.Some? ==> Dispatched(s.sent) != [] && Dispatched(s.sent)[|Dispatched(s.sent)| - 1] == s.active.value.id)
  }

  /** An active query has a link and its own timer; without one nothing waits. */
  ghost predicate Armed(s: State) {
    if s.active.Some? then s.connected && s.timer == Some(s.active.value.id) else s.timer == None && s.queue == []
  }

  ghost predicate Inv(s: State) {
    ExactlyOnce(s) && InOrder(s) && Armed(s)
  }

  // ----- pieces of steps -----

  lemma SettledGrows(settled: seq<(nat, Outcome)>, id: nat, o: Outcome)
    ensures SettledIds(settled + [(id, o)]) == SettledIds(settled) + [id]
  {
  }

  lemma QueueShrinks(queue: seq<Queued>)
    requires queue != []
    ensures QueuedIds(queue) == [queue[0].id] + QueuedIds(queue[1..])
  {
  }

  lemma OtherPacket(sent: seq<Packet>, p: Packet)
    requires !p.Query?
    ensures Dispatched(sent + [p]) == Dispatched(sent)
  {
    SentGrows(sent, p);
    assert Dispatched(sent) + [] == Dispatched(sent);
  }

  lemma SentGrows(sent: seq<Packet>, p: Packet)
    ensures Dispatched(sent + [p]) == Dispatched(sent) + match p case Query(id, _) => [id] case _ => []
  {
    assert (sent + [p])[..|sent + [p]| - 1] == sent;
  }

  /** The active query has just been settled: nothing is active, everything else is in order. */
  ghost predicate Between(s: State) {
    ExactlyOnce(s) && InOrder(s) && s.active.None? && s.timer.None? && (s.connected || s.queue == [])
  }

  lemma DrainRestores(s: State)
    requires Between(s)
    ensures Inv(Drain(s)) && Drain(s).issued == s.issued && Drain(s).settled == s.settled
  {
    if s.queue != [] {
      var q, rest := s.queue[0], s.queue[1..];
      var s' := Drain(s);
      QueueShrinks(s.queue);
      SentGrows(s.sent, Query(q.id, q.resource));
      assert Line(s') == Line(s);
      assert Places(s') == Places(s);
    }
  }

  /** Taking the active query out and settling it. */
  function Retire(s: State, outcome: Outcome, lastTimestamp: Option<int>, sent: seq<Packet>): State
    requires s.active.Some?
  {
    Settle(s.(timer := None, active := None, lastTimestamp := lastTimestamp, sent := sent), s.active.value.id, outcome)
  }

  lemma RetireIsBetween(s: State, outcome: Outcome, lastTimestamp: Option<int>, sent: seq<Packet>)
    requires Inv(s) && s.active.Some?
    requires Dispatched(sent) == Dispatched(s.sent)
    ensures Between(Retire(s, outcome, lastTimestamp, sent))
  {
    SettledGrows(s.settled, s.active.value.id, outcome);
    assert Places(Retire(s, outcome, lastTimestamp, sent)) == Places(s);
  }

  lemma GiveUpKeepsInv(s: State, outcome: Outcome)
    requires Inv(s) && s.active.Some?
    ensures Inv(GiveUp(s, outcome))
  {
    var sent := s.sent + [Cancel(s.active.value.id)];
    OtherPacket(s.sent, Cancel(s.active.value.id));
    RetireIsBetween(s, outcome, s.lastTimestamp, sent);
    DrainRestores(Retire(s, outcome, s.lastTimestamp, sent));
  }

  lemma PageKeepsInv(s: State, p: Page)
    requires Inv(s)
    ensures Inv(HandlePage(s, p))
  {
    if Mine(s, p) {
      var q := Receive(s.active.value, p);
      var sent := s.sent + [Ack(p.queryId, p.pageId)];
      OtherPacket(s.sent, Ack(p.queryId, p.pageId));
      var streamed := if q.streaming then s.streamed + [p] else s.streamed;
      var s' := s.(active := Some(q), streamed := streamed, sent := sent);
      assert Places(s') == Places(s) && Line(s') == Line(s);
      if q.receivedCount >= q.totalPages.value {
        var done := Resolved(ConcatPages(q.pages, q.totalPages.value));
        RetireIsBetween(s', done, q.timestamp, sent);
        DrainRestores(Retire(s', done, q.timestamp, sent));
      }
    }
  }

  /** One more promise is issued and lands somewhere. */
  lemma OneMore(s: State, s': State)
    requires ExactlyOnce(s) && s'.issued == s.issued + 1
    requires Places(s') == Places(s) + multiset{s.issued}
    ensures ExactlyOnce(s')
  {
  }

  lemma LineExtends(s: State, s': State)
    requires InOrder(s) && s'.issued == s.issued + 1
    requires Line(s') == Line(s) || Line(s') == Line(s) + [s.issued]
    ensures Increasing(Line(s')) && Below(Line(s'), s'.issued)
  {
  }

  lemma RefuseKeepsInv(s: State, resource: string, streaming: bool)
    requires Inv(s) && !s.connected
    ensures Inv(Issue(s, resource, streaming))
  {
    var s' := Issue(s, resource, streaming);
    SettledGrows(s.settled, s.issued, NotConnected);
    assert Line(s') == Line(s);
    LineExtends(s, s');
    assert Places(s') == Places(s) + multiset{s.issued};
    OneMore(s, s');
  }

  lemma EnqueueKeepsInv(s: State, resource: string, streaming: bool)
    requires Inv(s) && s.connected && s.active.Some?
    ensures Inv(Issue(s, resource, streaming))
  {
    var s' := Issue(s, resource, streaming);
    assert QueuedIds(s'.queue) == QueuedIds(s.queue) + [s.issued];
    assert Line(s') == Line(s) + [s.issued];
    LineExtends(s, s');
    assert Places(s') == Places(s) + multiset{s.issued};
    OneMore(s, s');
  }

  lemma DispatchKeepsInv(s: State, resource: string, streaming: bool)
    requires Inv(s) && s.connected && s.active.None?
    ensures Inv(Issue(s, resource, streaming))
  {
    var s' := Issue(s, resource, streaming);
    SentGrows(s.sent, Query(s.issued, resource));
    assert s'.queue == s.queue == [];
    assert Line(s') == Line(s) + [s.issued];
    LineExtends(s, s');
    assert Places(s') == Places(s) + multiset{s.issued};
    OneMore(s, s');
  }

  lemma IssueKeepsInv(s: State, resource: string, streaming: bool)
    requires Inv(s)
    ensures Inv(Issue(s, resource, streaming))
  {
    if !s.connected {
      RefuseKeepsInv(s, resource, streaming);
    } else if s.active.Some? {
      EnqueueKeepsInv(s, resource, streaming);
    } else {
      DispatchKeepsInv(s, resource, streaming);
    }
  }

  lemma {:induction false} RejectAllSettles(s: State, queue: seq<Queued>)
    ensures var r := RejectAll(s, queue);
      && SettledIds(r.settled) == SettledIds(s.settled) + QueuedIds(queue)
      && r == s.(settled := r.settled)
      && s.settled <= r.settled
  {
    if queue != [] {
      var n := |queue| - 1;
      RejectAllSettles(s, queue[..n]);
      SettledGrows(RejectAll(s, queue[..n]).settled, queue[n].id, Disconnected);
    }
  }

  lemma ClearSendKeepsInv(s: State)
    requires Inv(s)
    ensures Inv(ClearSend(s))
  {
    var off := s.(connected := false, timer := None, active := None, queue := []);
    var first := if s.active.Some? then Settle(off, s.active.value.id, Disconnected) else off;
    if s.active.Some? {
      SettledGrows(s.settled, s.active.value.id, Disconnected);
    }
    RejectAllSettles(first, s.queue);
    assert Places(ClearSend(s)) == Places(s);
    assert Line(ClearSend(s)) == Dispatched(s.sent);
    assert forall i | 0 <= i < |Dispatched(s.sent)| :: Line(s)[i] == Dispatched(s.sent)[i];
  }

  // ----- every run -----

  datatype Event =
    | Connect
    | Disconnect
    | IssueOne(resource: string, streaming: bool)
    | PageArrives(page: Page)
    | TimerFires
    | AbortOne(resource: string)

  function Next(s: State, e: Event): State {
    match e
    case Connect => s.(connected := true)
    case Disconnect => ClearSend(s)
    case IssueOne(resource, streaming) => Issue(s, resource, streaming)
    case PageArrives(page) => HandlePage(s, page)
    case TimerFires => Timeout(s)
    case AbortOne(resource) => Abort(s, resource)
  }

  function Exec(s: State, events: seq<Event>): State {
    if events == [] then s else Next(Exec(s, events[..|events| - 1]), events[|events| - 1])
  }

  lemma NextKeepsInv(s: State, e: Event)
    requires Inv(s)
    ensures Inv(Next(s, e))
  {
    match e {
      case Connect => assert Places(s.(connected := true)) == Places(s);
      case Disconnect => ClearSendKeepsInv(s);
      case IssueOne(resource, streaming) => IssueKeepsInv(s, resource, streaming);
      case PageArrives(page) => PageKeepsInv(s, page);
      case TimerFires =>
        if s.active.Some? {
          GiveUpKeepsInv(s, TimedOut);
        }
      case AbortOne(resource) =>
        if s.active.Some? {
          GiveUpKeepsInv(s, Aborted);
        }
    }
  }

  /**
   * In every reachable state each issued promise is exactly one of active, queued or settled, settled at most
   * once, dispatched in the order of issue; an active query is connected and timed, and nothing waits without one.
   */
  lemma {:induction false} Reachable(events: seq<Event>)
    ensures Inv(Exec(INITIAL, events))
  {
    if events != [] {
      Reachable(events[..|events| - 1]);
      NextKeepsInv(Exec(INITIAL, events[..|events| - 1]), events[|events| - 1]);
    }
  }

  /** A settlement is final: later steps only add others. */
  lemma SettledOnlyGrows(s: State, e: Event)
    requires Inv(s)
    ensures s.settled <= Next(s, e).settled
  {
    if e.Disconnect? {
      var off := s.(connected := false, timer := None, active := None, queue := []);
      RejectAllSettles(if s.active.Some? then Settle(off, s.active.value.id, Disconnected) else off, s.queue);
    }
  }

  /** A disconnect leaves no promise open: every one issued so far has been settled, once. */
  lemma DisconnectSettlesAll(s: State)
    requires Inv(s)
    ensures var r := ClearSend(s);
      forall id: nat | id < s.issued :: multiset(SettledIds(r.settled))[id] == 1
  {
    ClearSendKeepsInv(s);
    var r := ClearSend(s);
    var off := s.(connected := false, timer := None, active := None, queue := []);
    RejectAllSettles(if s.active.Some? then Settle(off, s.active.value.id, Disconnected) else off, s.queue);
    forall id: nat | id < s.issued ensures multiset(SettledIds(r.settled))[id] == 1
    {
      assert Places(r)[id] == 1;
    }
  }

  /** At most one query is outstanding on the wire: of those ever sent, all but the active one have been settled. */
  lemma OneOutstanding(s: State, id: nat)
    requires Inv(s) && id in Dispatched(s.sent)
    ensures id in SettledIds(s.settled) || (s.active.Some? && s.active.value.id == id)
  {
    var d := |Dispatched(s.sent)|;
    var i :| 0 <= i < d && Dispatched(s.sent)[i] == id;
    forall k | 0 <= k < |s.queue| ensures QueuedIds(s.queue)[k] != id
    {
      assert Line(s)[i] < Line(s)[d + k];
    }
    assert id !in multiset(QueuedIds(s.queue));
    assert Line(s)[i] < s.issued;
    assert Places(s)[id] == 1;
  }

  // ----- how promises end -----

  /** As many pages as the first one announced have come with this one. */
  predicate Completing(s: State, p: Page) {
    Mine(s, p) && s.active.value.receivedCount + 1
      >= (if s.active.value.totalPages.Some? then s.active.value.totalPages.value else p.totalPages)
  }

  /** The settlements that a callback adds. */
  ghost predicate Ends(s: State, e: Event, added: seq<(nat, Outcome)>) {
    match e
    case Connect => added == []
    case IssueOne(_, _) => added == if s.connected then [] else [(s.issued, NotConnected)]
    case PageArrives(p) =>
      if Completing(s, p) then |added| == 1 && added[0].0 == s.active.value.id && added[0].1.Resolved? else added == []
    case TimerFires => added == if s.active.Some? then [(s.active.value.id, TimedOut)] else []
    case AbortOne(resource) =>
      added == if s.active.Some? && s.active.value.resource == resource then [(s.active.value.id, Aborted)] else []
    case Disconnect =>
      SettledIds(added) == ActiveIds(s) + QueuedIds(s.queue) && forall i | 0 <= i < |added| :: added[i].1 == Disconnected
  }

  /** How each callback ends promises: which ones, in which order, and resolved only by a page that completes the count. */
  lemma CallbackEnds(s: State, e: Event)
    requires Inv(s)
    ensures s.settled <= Next(s, e).settled && Ends(s, e, Next(s, e).settled[|s.settled|..])
  {
    if e.Disconnect? {
      DisconnectEnds(s);
    }
  }

  lemma DisconnectEnds(s: State)
    requires Inv(s)
    ensures var r := ClearSend(s);
      s.settled <= r.settled && Ends(s, Disconnect, r.settled[|s.settled|..])
  {
    var off := s.(connected := false, timer := None, active := None, queue := []);
    var first := if s.active.Some? then Settle(off, s.active.value.id, Disconnected) else off;
    RejectedAll(first, s.queue);
    var r := ClearSend(s);
    assert r.settled[|s.settled|..] == first.settled[|s.settled|..] + r.settled[|first.settled|..];
  }

  lemma {:induction false} RejectedAll(s: State, queue: seq<Queued>)
    ensures var r := RejectAll(s, queue);
      && r == s.(settled := r.settled) && s.settled <= r.settled
      && SettledIds(r.settled[|s.settled|..]) == QueuedIds(queue)
      && forall i | |s.settled| <= i < |r.settled| :: r.settled[i].1 == Disconnected
  {
    if queue != [] {
      var n := |queue| - 1;
      var head, r := RejectAll(s, queue[..n]), RejectAll(s, queue);
      RejectedAll(s, queue[..n]);
      assert r.settled[|s.settled|..] == head.settled[|s.settled|..] + [(queue[n].id, Disconnected)];
      SettledGrows(head.settled[|s.settled|..], queue[n].id, Disconnected);
      assert QueuedIds(queue) == QueuedIds(queue[..n]) + [queue[n].id];
    }
  }

  function Followed(queue: seq<Queued>): seq<Packet> {
    if queue == [] then [] else [Query(queue[0].id, queue[0].resource)]
  }

  /** A timeout or an abort that gives up a query tells the phone, keeps the time of the last answer, and goes on. */
  lemma GivingUpCancels(s: State, e: Event)
    requires Inv(s) && s.active.Some?
    requires e.TimerFires? || (e.AbortOne? && s.active.value.resource == e.resource)
    ensures var r := Next(s, e);
      && r.sent == s.sent + [Cancel(s.active.value.id)] + Followed(s.queue)
      && r.lastTimestamp == s.lastTimestamp && r.streamed == s.streamed
  {
  }

  /** No other callback cancels anything. */
  lemma OnlyGivingUpCancels(s: State, e: Event)
    requires Inv(s)
    requires !e.TimerFires? && !(e.AbortOne? && s.active.Some? && s.active.value.resource == e.resource)
    ensures s.sent <= Next(s, e).sent && forall i | |s.sent| <= i < |Next(s, e).sent| :: !Next(s, e).sent[i].Cancel?
  {
    if e.Disconnect? {
      var off := s.(connected := false, timer := None, active := None, queue := []);
      RejectedAll(if s.active.Some? then Settle(off, s.active.value.id, Disconnected) else off, s.queue);
    }
  }

  /**
   * What callbacks leave alone: the link but for connects and disconnects, the time of the last answer but for a page
   * that completes one, and everything but the rejection if a query is issued without a link.
   */
  lemma LeftAlone(s: State, e: Event)
    requires Inv(s)
    ensures var r := Next(s, e);
      && (r.connected <==> e.Connect? || (s.connected && !e.Disconnect?))
      && (!(e.PageArrives? && Completing(s, e.page)) ==> r.lastTimestamp == s.lastTimestamp)
      && (e.Connect? ==> r == s.(connected := true))
      && (e.IssueOne? && !s.connected ==> r == s.(issued := r.issued, settled := r.settled))
      && (e.IssueOne? && s.active.Some? ==> r == s.(issued := r.issued, queue := r.queue))
      && (e.AbortOne? && (s.active.None? || s.active.value.resource != e.resource) ==> r == s)
      && (e.PageArrives? && !Mine(s, e.page) ==> r == s)
      && (e.TimerFires? && s.active.None? ==> r == s)
  {
    if e.Disconnect? {
      var off := s.(connected := false, timer := None, active := None, queue := []);
      RejectedAll(if s.active.Some? then Settle(off, s.active.value.id, Disconnected) else off, s.queue);
    }
  }

  // ----- queries go out for what they were issued for -----

  /** The resource that query `id` was issued for in the run. */
  function IssuedFor(events: seq<Event>, id: nat): Option<string> {
    if events == [] then None
    else
      var head, e := events[..|events| - 1], events[|events| - 1];
      if e.IssueOne? && Exec(INITIAL, head).issued == id then Some(e.resource) else IssuedFor(head, id)
  }

  ghost predicate AsIssued(s: State, events: seq<Event>) {
    && (s.active.Some? ==> IssuedFor(events, s.active.value.id) == Some(s.active.value.resource))
    && (forall i | 0 <= i < |s.queue| :: IssuedFor(events, s.queue[i].id) == Some(s.queue[i].resource))
    && (forall i | 0 <= i < |s.sent| && s.sent[i].Query? :: IssuedFor(events, s.sent[i].id) == Some(s.sent[i].resource))
    && (forall id: nat | IssuedFor(events, id).Some? :: id < s.issued)
  }

  /** What is new on the wire, active or queued after a callback is the query issued, or comes from the queue. */
  ghost predicate FromBefore(s: State, e: Event, r: State) {
    && s.sent <= r.sent
    && (forall i | |s.sent| <= i < |r.sent| && r.sent[i].Query? :: Known(s, e, r.sent[i].id, r.sent[i].resource))
    && (r.active.Some? ==> Known(s, e, r.active.value.id, r.active.value.resource))
    && (forall i | 0 <= i < |r.queue| :: Known(s, e, r.queue[i].id, r.queue[i].resource))
    && r.issued == s.issued + if e.IssueOne? then 1 else 0
  }

  predicate Known(s: State, e: Event, id: nat, resource: string) {
    || (e.IssueOne? && id == s.issued && resource == e.resource)
    || (s.active.Some? && s.active.value.id == id && s.active.value.resource == resource)
    || Queued(id, resource) in s.queue
  }

  lemma NothingInvented(s: State, e: Event)
    requires Inv(s)
    ensures FromBefore(s, e, Next(s, e))
  {
    if e.Disconnect? {
      var off := s.(connected := false, timer := None, active := None, queue := []);
      RejectedAll(if s.active.Some? then Settle(off, s.active.value.id, Disconnected) else off, s.queue);
    }
  }

  /** In every run each query is sent, queued and made active with the resource it was issued for. */
  lemma {:induction false} SentAsIssued(events: seq<Event>)
    ensures AsIssued(Exec(INITIAL, events), events)
  {
    if events != [] {
      var head, e := events[..|events| - 1], events[|events| - 1];
      SentAsIssued(head);
      Reachable(head);
      IssuedBelow(Exec(INITIAL, head));
      NothingInvented(Exec(INITIAL, head), e);
    }
  }

  // ----- two things a caller of the streaming query may not expect -----

  /** A query answered at once with one empty page. */
  function AnswerAtOnce(s: State, resource: string): State {
    HandlePage(Issue(s, resource, true), Page(s.issued, 1, 1, 1, [], None))
  }

  lemma AnsweredAtOnce(s: State, resource: string)
    requires s.connected && s.active.None? && s.queue == []
    ensures var r := AnswerAtOnce(s, resource);
      && r.settled == s.settled + [(s.issued, Resolved([]))]
      && r.connected && r.active.None? && r.queue == [] && r.issued == s.issued + 1
  {
    var q := Receive(Issue(s, resource, true).active.value, Page(s.issued, 1, 1, 1, [], None));
    assert ConcatPages(q.pages, 1) == ConcatPages(q.pages, 0) + [] == [];
  }

  /** What a step settles beyond the promises settled before. */
  function NewlySettled(before: State, after: State): seq<nat>
    requires before.settled <= after.settled
  {
    SettledIds(after.settled[|before.settled|..])
  }

  lemma AbortSettles(s: State, resource: string)
    requires Inv(s)
    ensures Inv(Abort(s, resource)) && s.settled <= Abort(s, resource).settled
    ensures NewlySettled(s, Abort(s, resource))
         == if s.active.Some? && s.active.value.resource == resource then [s.active.value.id] else []
  {
    NextKeepsInv(s, AbortOne(resource));
    if s.active.Some? && s.active.value.resource == resource {
      var id := s.active.value.id;
      var sent := s.sent + [Cancel(id)];
      OtherPacket(s.sent, Cancel(id));
      RetireIsBetween(s, Aborted, s.lastTimestamp, sent);
      DrainRestores(Retire(s, Aborted, s.lastTimestamp, sent));
      assert Abort(s, resource).settled == s.settled + [(id, Aborted)];
    }
  }

  /**
   * In any reachable state the abort handle of query `own`, made for `resource`, leaves all other queries alone if
   * and only if no other query of the same resource is active.
   */
  lemma AbortSparesOthersIff(s: State, own: nat, resource: string)
    requires Inv(s)
    ensures s.settled <= Abort(s, resource).settled
    ensures (forall id | id in NewlySettled(s, Abort(s, resource)) :: id == own)
       <==> (s.active.None? || s.active.value.resource != resource || s.active.value.id == own)
  {
    AbortSettles(s, resource);
    if s.active.Some? && s.active.value.resource == resource {
      assert s.active.value.id in NewlySettled(s, Abort(s, resource));
    }
  }

  /** A waiting promise is not settled and not the active one's. */
  lemma QueuedIsOpen(s: State, id: nat)
    requires Inv(s) && id in QueuedIds(s.queue)
    ensures id !in SettledIds(s.settled) && id !in ActiveIds(s)
  {
    assert multiset(QueuedIds(s.queue))[id] >= 1;
    assert Places(s)[id] <= 1;
    assert id !in multiset(SettledIds(s.settled)) && id !in multiset(ActiveIds(s));
  }

  lemma SettledIdsSplit(settled: seq<(nat, Outcome)>, n: nat)
    requires n <= |settled|
    ensures SettledIds(settled) == SettledIds(settled[..n]) + SettledIds(settled[n..])
  {
  }

  /** While its query waits in the queue the handle can never cancel it: it cancels a namesake, or nothing. */
  lemma QueuedAbortMissesItself(s: State, own: nat, resource: string)
    requires Inv(s) && own in QueuedIds(s.queue)
    ensures own !in SettledIds(Abort(s, resource).settled)
  {
    AbortSettles(s, resource);
    QueuedIsOpen(s, own);
    SettledIdsSplit(Abort(s, resource).settled, |s.settled|);
  }

  /** For example, the handle of a query that is long finished cancels the next query of its resource. */
  lemma StaleAbortHitsNamesake(s: State, resource: string)
    requires Inv(s) && s.connected && s.active.None?
    ensures var answered := AnswerAtOnce(s, resource);
      && answered.settled == s.settled + [(s.issued, Resolved([]))]
      && Abort(Issue(answered, resource, true), resource).settled == answered.settled + [(s.issued + 1, Aborted)]
  {
    AnsweredAtOnce(s, resource);
  }

  /** In the run, query `id` was issued with a page callback while connected and while no query was active. */
  predicate StreamedAtOnce(events: seq<Event>, id: nat) {
    events != [] &&
    var before, e := Exec(INITIAL, events[..|events| - 1]), events[|events| - 1];
    StreamedAtOnce(events[..|events| - 1], id)
    || (e.IssueOne? && e.streaming && before.connected && before.active.None? && before.issued == id)
  }

  /** The pages that arrive while their query is active, of the queries that stream. */
  function OwnStreamedPages(events: seq<Event>): seq<Page> {
    if events == [] then []
    else
      var head, e := events[..|events| - 1], events[|events| - 1];
      OwnStreamedPages(head)
      + if e.PageArrives? && Mine(Exec(INITIAL, head), e.page) && StreamedAtOnce(head, e.page.queryId) then [e.page] else []
  }

  /** Whether a query streams is settled when it is issued. */
  ghost predicate StreamsKnown(s: State, events: seq<Event>) {
    && (s.active.Some? ==> (s.active.value.streaming <==> StreamedAtOnce(events, s.active.value.id)))
    && (forall i | 0 <= i < |s.queue| :: !StreamedAtOnce(events, s.queue[i].id))
    && (forall id: nat | StreamedAtOnce(events, id) :: id < s.issued)
  }

  lemma IssuedBelow(s: State)
    requires Inv(s)
    ensures s.active.Some? ==> s.active.value.id < s.issued
    ensures forall i | 0 <= i < |s.queue| :: s.queue[i].id < s.issued
  {
    var d := |Dispatched(s.sent)|;
    if s.active.Some? {
      assert Line(s)[d - 1] == s.active.value.id;
    }
    forall i | 0 <= i < |s.queue| ensures s.queue[i].id < s.issued
    {
      assert Line(s)[d + i] == QueuedIds(s.queue)[i];
    }
  }

  lemma {:induction false} AlwaysStreamsKnown(events: seq<Event>)
    ensures StreamsKnown(Exec(INITIAL, events), events)
  {
    if events != [] {
      var head, e := events[..|events| - 1], events[|events| - 1];
      AlwaysStreamsKnown(head);
      Reachable(head);
      IssuedBelow(Exec(INITIAL, head));
      StreamsStayKnown(Exec(INITIAL, head), head, e);
      assert events == head + [e];
    }
  }

  lemma StreamsStayKnown(s: State, head: seq<Event>, e: Event)
    requires s == Exec(INITIAL, head) && Inv(s) && StreamsKnown(s, head)
    requires s.active.Some? ==> s.active.value.id < s.issued
    requires forall i | 0 <= i < |s.queue| :: s.queue[i].id < s.issued
    ensures StreamsKnown(Next(s, e), head + [e])
  {
    assert (head + [e])[..|head + [e]| - 1] == head;
    if !e.IssueOne? {
      NothingNew(s, e);
      assert forall id: nat :: StreamedAtOnce(head + [e], id) <==> StreamedAtOnce(head, id);
    }
  }

  /** Callbacks other than issuing keep the active query, or take the next one from the queue without streaming. */
  lemma NothingNew(s: State, e: Event)
    requires Inv(s) && !e.IssueOne?
    ensures var r := Next(s, e);
      && r.issued == s.issued
      && (forall i | 0 <= i < |r.queue| :: r.queue[i] in s.queue)
      && (r.active.Some? ==>
            || (s.active.Some? && r.active.value.id == s.active.value.id && r.active.value.streaming == s.active.value.streaming)
            || (!r.active.value.streaming && exists i :: 0 <= i < |s.queue| && s.queue[i].id == r.active.value.id))
  {
    if e.Disconnect? {
      var off := s.(connected := false, timer := None, active := None, queue := []);
      RejectAllSettles(if s.active.Some? then Settle(off, s.active.value.id, Disconnected) else off, s.queue);
    }
  }

  /**
   * In every run the pages reported to callbacks are exactly the own pages of the streaming queries that were issued
   * while no query was active: such a query reports each of its pages, one that had to wait reports none.
   */
  lemma {:induction false} StreamedExactly(events: seq<Event>)
    ensures Exec(INITIAL, events).streamed == OwnStreamedPages(events)
  {
    if events != [] {
      var head, e := events[..|events| - 1], events[|events| - 1];
      StreamedExactly(head);
      Reachable(head);
      AlwaysStreamsKnown(head);
      StreamedStep(Exec(INITIAL, head), e);
    }
  }

  lemma StreamedStep(s: State, e: Event)
    requires Inv(s)
    ensures Next(s, e).streamed
         == s.streamed + if e.PageArrives? && Mine(s, e.page) && s.active.value.streaming then [e.page] else []
  {
    if e.Disconnect? {
      var off := s.(connected := false, timer := None, active := None, queue := []);
      RejectAllSettles(if s.active.Some? then Settle(off, s.active.value.id, Disconnected) else off, s.queue);
    }
  }

  /** For example, one that is dispatched when the active query times out. */
  lemma QueuedStreamIsSilent(s: State, resource: string, page: Page)
    requires Inv(s) && s.active.Some? && s.queue == []
    ensures var waiting := Issue(s, resource, true);
      var next := GiveUp(waiting, TimedOut);
      && next.active.Some? && next.active.value.id == s.issued
      && HandlePage(next, page.(queryId := s.issued)).streamed == s.streamed
  {
    var waiting := Issue(s, resource, true);
    assert waiting.queue == [Queued(s.issued, resource)];
    var next := GiveUp(waiting, TimedOut);
    assert next.active == Some(Pending(s.issued, resource, map[], None, 0, None, false)) && next.queue == [];
  }
}
