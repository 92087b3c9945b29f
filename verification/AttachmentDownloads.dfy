/**
 * On-demand attachment downloads: one request to the phone at a time, later callers for the same attachment ride
 * on the download that is under way. Promises are numbered as they are handed out.
 */
module AttachmentDownloads {
  import opened Wrappers

  /** (part id, message id) */
  type Key = (int, int)

  /** The caller whose request started the download, and those that joined it. */
  datatype Entry = Entry(starter: nat, riders: seq<nat>)

  /**
   * `settled` are the promises resolved or rejected so far; `abandoned` are the riders that a timeout leaves
   * behind. `current` names the key under way.
   */
  datatype State = State(
    queue: seq<(Key, nat)>, inFlight: bool, pending: map<Key, Entry>, connected: bool, issued: nat,
    current: Option<Key>, settled: seq<nat>, abandoned: seq<nat>)

  const INITIAL := State([], false, map[], false, 0, None, [], [])

  /** Start the next download, if there is one, nothing is under way, and the phone is there. */
  function Process(s: State): State {
    if s.inFlight || s.queue == [] || !s.connected then s
    else
      var (key, id) := s.queue[0];
      s.(queue := s.queue[1..], inFlight := true, pending := s.pending[key := Entry(id, [])], current := Some(key))
  }

  /** `ready`: the attachment row is missing, or its file is on disk; the promise settles at once. */
  function Request(s: State, key: Key, ready: bool): State {
    var id, s' := s.issued, s.(issued := s.issued + 1);
    if ready then s'.(settled := s.settled + [id])
    else if key in s.pending then
      var e := s.pending[key];
      s'.(pending := s.pending[key := e.(riders := e.riders + [id])])
    else Process(s'.(queue := s.queue + [(key, id)]))
  }

  /** The file arrived, or the transfer failed: the starter and every rider hear of it. */
  function Settle(s: State, key: Key): State {
    if key !in s.pending then s
    else
      var e := s.pending[key];
      Process(s.(pending := s.pending - {key}, inFlight := false, current := None,
                 settled := s.settled + [e.starter] + e.riders))
  }

  /** The timer of the download under way fires: only the starter hears of it. */
  function Timeout(s: State): State {
    if s.current.None? || s.current.value !in s.pending then s
    else
      var e := s.pending[s.current.value];
      Process(s.(pending := s.pending - {s.current.value}, inFlight := false, current := None,
                 settled := s.settled + [e.starter], abandoned := s.abandoned + e.riders))
  }

  function Resume(s: State): State {
    Process(s.(connected := true))
  }

  class Downloads {
    var downloadQueue: seq<(Key, nat)>
    var downloadInFlight: bool
    var pendingDownloads: map<Key, Entry>
    var connected: bool
    var nextId: nat
    ghost var current: Option<Key>
    ghost var settled: seq<nat>
    ghost var abandoned: seq<nat>

    ghost function View(): State
      reads this
    {
      State(downloadQueue, downloadInFlight, pendingDownloads, connected, nextId, current, settled, abandoned)
    }

    constructor ()
      ensures View() == INITIAL
    {
      downloadQueue, downloadInFlight, pendingDownloads, connected, nextId := [], false, map[], false, 0;
      current, settled, abandoned := None, [], [];
    }

    method ProcessDownloadQueue()
      modifies this
      ensures View() == Process(old(View()))
    {
      if downloadInFlight || downloadQueue == [] || !connected { return; }
      var (key, id) := downloadQueue[0];
      downloadQueue := downloadQueue[1..];
      downloadInFlight := true;
      pendingDownloads := pendingDownloads[key := Entry(id, [])];
      current := Some(key);
    }

    method DownloadAttachment(key: Key, ready: bool)
      modifies this
      ensures View() == Request(old(View()), key, ready)
    {
      var id := nextId;
      nextId := nextId + 1;
      if ready {
        settled := settled + [id];
        return;
      }
      if key in pendingDownloads {
        var e := pendingDownloads[key];
        pendingDownloads := pendingDownloads[key := e.(riders := e.riders + [id])];
        return;
      }
      downloadQueue := downloadQueue + [(key, id)];
      ProcessDownloadQueue();
    }

    method DownloadSettles(key: Key)
      modifies this
      ensures View() == Settle(old(View()), key)
    {
      if key in pendingDownloads {
        var e := pendingDownloads[key];
        pendingDownloads := pendingDownloads - {key};
        settled := settled + [e.starter] + e.riders;
        downloadInFlight, current := false, None;
        ProcessDownloadQueue();
      }
    }

    /** The callback armed for `key` when its download started. */
    method DownloadTimesOut(key: Key)
      requires current == Some(key)
      modifies this
      ensures View() == Timeout(old(View()))
    {
      if key in pendingDownloads {
        var e := pendingDownloads[key];
        pendingDownloads := pendingDownloads - {key};
        settled, abandoned := settled + [e.starter], abandoned + e.riders;
        downloadInFlight, current := false, None;
        ProcessDownloadQueue();
      }
    }

    method ResumeDownloads()
      modifies this
      ensures View() == Resume(old(View()))
    {
      connected := true;
      if downloadQueue != [] {
        ProcessDownloadQueue();
      }
    }
  }

  // ----- every run -----

  datatype Event = Requested(key: Key, ready: bool) | Settled(key: Key) | TimedOut | Reconnected | Disconnected

  function Next(s: State, e: Event): State {
    match e
    case Requested(key, ready) => Request(s, key, ready)
    case Settled(key) => Settle(s, key)
    case TimedOut => Timeout(s)
    case Reconnected => Resume(s)
    case Disconnected => s.(connected := false)
  }

  function Exec(events: seq<Event>): State {
    if events == [] then INITIAL else Next(Exec(events[..|events| - 1]), events[|events| - 1])
  }

  function QueuedIds(queue: seq<(Key, nat)>): seq<nat> {
    seq(|queue|, i requires 0 <= i < |queue| => queue[i].1)
  }

  function UnderWay(s: State): seq<nat> {
    if s.current.Some? && s.current.value in s.pending then
      [s.pending[s.current.value].starter] + s.pending[s.current.value].riders
    else []
  }

  ghost function Places(s: State): multiset<nat> {
    multiset(QueuedIds(s.queue)) + multiset(UnderWay(s)) + multiset(s.settled) + multiset(s.abandoned)
  }

  ghost predicate Once(s: State) {
    forall id: nat :: Places(s)[id] == if id < s.issued then 1 else 0
  }

  ghost predicate OneKey(s: State) {
    && (s.current.Some? ==> s.current.value in s.pending)
    && (forall key | key in s.pending :: s.current == Some(key))
    && (s.inFlight <==> s.current.Some?)
  }

  /** One download at most; while connected, a waiting one means one is under way; every promise is in one place, once. */
  ghost predicate Inv(s: State) {
    OneKey(s) && Once(s) && (s.connected && s.queue != [] ==> s.inFlight)
  }

  lemma ProcessMoves(s: State)
    requires OneKey(s)
    ensures OneKey(Process(s)) && Places(Process(s)) == Places(s)
    ensures Process(s).settled == s.settled && Process(s).abandoned == s.abandoned && Process(s).issued == s.issued
  {
    if !(s.inFlight || s.queue == [] || !s.connected) {
      assert QueuedIds(s.queue) == [s.queue[0].1] + QueuedIds(s.queue[1..]);
      assert UnderWay(s) == [] && UnderWay(Process(s)) == [s.queue[0].1];
    }
  }

  lemma ProcessRestores(s: State)
    requires OneKey(s) && Once(s)
    ensures Inv(Process(s))
    ensures Process(s).settled == s.settled && Process(s).abandoned == s.abandoned
  {
    ProcessMoves(s);
  }

  /** One more promise is handed out and put somewhere. */
  lemma OneMore(s: State, r: State)
    requires Once(s) && r.issued == s.issued + 1 && Places(r) == Places(s) + multiset{s.issued}
    ensures Once(r)
  {
  }

  lemma RideKeepsInv(s: State, key: Key)
    requires Inv(s) && key in s.pending
    ensures Inv(Request(s, key, false))
  {
    var r := Request(s, key, false);
    assert UnderWay(r) == UnderWay(s) + [s.issued];
    assert Places(r) == Places(s) + multiset{s.issued};
    OneMore(s, r);
  }

  function Enqueued(s: State, key: Key): State {
    s.(issued := s.issued + 1, queue := s.queue + [(key, s.issued)])
  }

  lemma QueueGrows(queue: seq<(Key, nat)>, key: Key, id: nat)
    ensures QueuedIds(queue + [(key, id)]) == QueuedIds(queue) + [id]
    ensures multiset(QueuedIds(queue + [(key, id)])) == multiset(QueuedIds(queue)) + multiset{id}
  {
  }

  lemma EnqueuedOnce(s: State, key: Key)
    requires OneKey(s) && Once(s)
    ensures OneKey(Enqueued(s, key)) && Once(Enqueued(s, key))
  {
    QueueGrows(s.queue, key, s.issued);
    OneMore(s, Enqueued(s, key));
  }

  lemma EnqueueKeepsInv(s: State, key: Key)
    requires Inv(s) && key !in s.pending
    ensures Inv(Request(s, key, false)) && Request(s, key, false).abandoned == s.abandoned
  {
    EnqueuedOnce(s, key);
    ProcessRestores(Enqueued(s, key));
    assert Request(s, key, false) == Process(Enqueued(s, key));
  }

  lemma RequestKeepsInv(s: State, key: Key, ready: bool)
    requires Inv(s)
    ensures Inv(Request(s, key, ready)) && Request(s, key, ready).abandoned == s.abandoned
  {
    if ready {
      var r := Request(s, key, ready);
      assert UnderWay(r) == UnderWay(s);
      assert Places(r) == Places(s) + multiset{s.issued};
      OneMore(s, r);
    } else if key in s.pending {
      RideKeepsInv(s, key);
    } else {
      EnqueueKeepsInv(s, key);
    }
  }

  lemma SettleKeepsInv(s: State, key: Key)
    requires Inv(s)
    ensures Inv(Settle(s, key)) && Settle(s, key).abandoned == s.abandoned
  {
    if key in s.pending {
      var e := s.pending[key];
      assert s.current == Some(key) && UnderWay(s) == [e.starter] + e.riders;
      var done := s.(pending := s.pending - {key}, inFlight := false, current := None,
                     settled := s.settled + [e.starter] + e.riders);
      assert done.settled == s.settled + UnderWay(s);
      assert Places(done) == Places(s);
      ProcessRestores(done);
    }
  }

  lemma TimeoutKeepsInv(s: State)
    requires Inv(s)
    ensures Inv(Timeout(s))
    ensures s.current.Some? ==> Timeout(s).abandoned == s.abandoned + s.pending[s.current.value].riders
  {
    if s.current.Some? {
      var key := s.current.value;
      var e := s.pending[key];
      var done := s.(pending := s.pending - {key}, inFlight := false, current := None,
                     settled := s.settled + [e.starter], abandoned := s.abandoned + e.riders);
      assert UnderWay(s) == [e.starter] + e.riders && UnderWay(done) == [];
      assert Places(done) == Places(s);
      ProcessRestores(done);
    }
  }

  /**
   * In every reachable state at most one download is under way, `downloadInFlight` says whether it is, nothing
   * waits for a connected idle phone, and each promise is waiting, under way, settled or abandoned, once.
   */
  lemma {:induction false} Reachable(events: seq<Event>)
    ensures Inv(Exec(events))
  {
    if events != [] {
      var s, e := Exec(events[..|events| - 1]), events[|events| - 1];
      Reachable(events[..|events| - 1]);
      match e {
        case Requested(key, ready) => RequestKeepsInv(s, key, ready);
        case Settled(key) => SettleKeepsInv(s, key);
        case TimedOut => TimeoutKeepsInv(s);
        case Reconnected =>
          assert Places(s.(connected := true)) == Places(s);
          ProcessRestores(s.(connected := true));
        case Disconnected => assert Places(s.(connected := false)) == Places(s);
      }
    }
  }

  lemma SingleFlight(s: State)
    requires Inv(s)
    ensures |s.pending| == (if s.inFlight then 1 else 0)
  {
    if s.current.Some? {
      var key := s.current.value;
      assert s.pending == map[key := s.pending[key]];
    } else {
      assert s.pending == map[];
    }
  }

  /** A step abandons promises exactly when the download under way times out, and then exactly its riders. */
  lemma AbandonedIff(s: State, e: Event)
    requires Inv(s)
    ensures Next(s, e).abandoned == s.abandoned + if e.TimedOut? && s.current.Some? then s.pending[s.current.value].riders else []
  {
    match e {
      case Requested(key, ready) => RequestKeepsInv(s, key, ready);
      case Settled(key) => SettleKeepsInv(s, key);
      case TimedOut => TimeoutKeepsInv(s);
      case _ =>
    }
  }

  lemma NotBoth(s: State, id: nat)
    requires Inv(s) && id in s.abandoned
    ensures id !in s.settled
  {
    assert multiset(s.abandoned)[id] >= 1;
    assert Places(s)[id] <= 1;
  }

  lemma ExecAppend(events: seq<Event>, e: Event)
    ensures Exec(events + [e]) == Next(Exec(events), e)
  {
    assert (events + [e])[..|events|] == events;
  }

  lemma {:induction false} AbandonedStays(events: seq<Event>, more: seq<Event>)
    ensures Exec(events).abandoned <= Exec(events + more).abandoned
  {
    if more == [] {
      assert events + more == events;
    } else {
      var n := |more| - 1;
      var before := events + more[..n];
      AbandonedStays(events, more[..n]);
      assert events + more == before + [more[n]];
      ExecAppend(before, more[n]);
      Reachable(before);
      AbandonedIff(Exec(before), more[n]);
    }
  }

  /** An abandoned promise is never settled, in any continuation of the run. */
  lemma AbandonedForGood(events: seq<Event>, more: seq<Event>, id: nat)
    requires id in Exec(events).abandoned
    ensures id in Exec(events + more).abandoned && id !in Exec(events + more).settled
  {
    AbandonedStays(events, more);
    Reachable(events + more);
    NotBoth(Exec(events + more), id);
  }

  // ----- who is served when, and with what -----

  /** The attachment that promise `id` was handed out for. */
  function AskedFor(events: seq<Event>, id: nat): Option<Key> {
    if events == [] then None
    else
      var head, e := events[..|events| - 1], events[|events| - 1];
      if e.Requested? && Exec(head).issued == id then Some(e.key) else AskedFor(head, id)
  }

  /** Downloads start in the order of the requests that wait, for the attachments that were asked for. */
  ghost predicate InOrder(s: State, events: seq<Event>) {
    && (forall i, j | 0 <= i < j < |s.queue| :: s.queue[i].1 < s.queue[j].1)
    && (forall i | 0 <= i < |s.queue| :: s.queue[i].1 < s.issued && AskedFor(events, s.queue[i].1) == Some(s.queue[i].0))
    && (forall i | 0 <= i < |UnderWay(s)| :: UnderWay(s)[i] < s.issued && AskedFor(events, UnderWay(s)[i]) == s.current)
    && (s.current.Some? && s.current.value in s.pending && s.queue != [] ==> s.pending[s.current.value].starter < s.queue[0].1)
    && (forall id: nat | AskedFor(events, id).Some? :: id < s.issued)
  }

  /** One more promise, for `key`. */
  ghost predicate Extends(s: State, events: seq<Event>, more: seq<Event>, key: Key) {
    && (forall id: nat | id != s.issued :: AskedFor(more, id) == AskedFor(events, id))
    && AskedFor(more, s.issued) == Some(key)
  }

  lemma RideInOrder(s: State, events: seq<Event>, more: seq<Event>, key: Key)
    requires OneKey(s) && InOrder(s, events) && Extends(s, events, more, key) && key in s.pending
    ensures InOrder(Request(s, key, false), more)
  {
    assert UnderWay(Request(s, key, false)) == UnderWay(s) + [s.issued];
  }

  lemma ReadyInOrder(s: State, events: seq<Event>, more: seq<Event>, key: Key)
    requires OneKey(s) && InOrder(s, events) && Extends(s, events, more, key)
    ensures InOrder(Request(s, key, true), more)
  {
    assert UnderWay(Request(s, key, true)) == UnderWay(s);
  }

  lemma EnqueueInOrder(s: State, events: seq<Event>, more: seq<Event>, key: Key)
    requires OneKey(s) && InOrder(s, events) && Extends(s, events, more, key) && key !in s.pending
    ensures InOrder(Request(s, key, false), more)
  {
    QueuedInOrder(s, events, more, key);
  }

  lemma QueuedInOrder(s: State, events: seq<Event>, more: seq<Event>, key: Key)
    requires OneKey(s) && InOrder(s, events) && Extends(s, events, more, key)
    ensures InOrder(Enqueued(s, key), more)
  {
    var r := Enqueued(s, key);
    assert UnderWay(r) == UnderWay(s);
    assert s.current.Some? ==> s.pending[s.current.value].starter == UnderWay(s)[0];
    forall i | 0 <= i < |r.queue| ensures r.queue[i].1 < r.issued && AskedFor(more, r.queue[i].1) == Some(r.queue[i].0)
    {
    }
  }

  lemma RequestInOrder(events: seq<Event>, key: Key, ready: bool)
    requires OneKey(Exec(events)) && InOrder(Exec(events), events)
    ensures InOrder(Exec(events + [Requested(key, ready)]), events + [Requested(key, ready)])
  {
    var s, more := Exec(events), events + [Requested(key, ready)];
    ExecAppend(events, Requested(key, ready));
    assert more[..|more| - 1] == events;
    if ready {
      ReadyInOrder(s, events, more, key);
    } else if key in s.pending {
      RideInOrder(s, events, more, key);
    } else {
      EnqueueInOrder(s, events, more, key);
    }
  }

  /** In every run. */
  lemma {:induction false} ServedInOrder(events: seq<Event>)
    ensures InOrder(Exec(events), events)
  {
    if events != [] {
      var n := |events| - 1;
      var head, e := events[..n], events[n];
      var s := Exec(head);
      ServedInOrder(head);
      Reachable(head);
      assert events == head + [e];
      if e.Requested? {
        RequestInOrder(head, e.key, e.ready);
      } else {
        assert forall id: nat :: AskedFor(events, id) == AskedFor(head, id);
        assert InOrder(s, events);
        OtherInOrder(s, events, e);
      }
    }
  }

  lemma OtherInOrder(s: State, events: seq<Event>, e: Event)
    requires Inv(s) && InOrder(s, events) && !e.Requested?
    ensures InOrder(Next(s, e), events)
  {
    match e {
      case Settled(key) =>
        if key in s.pending {
          assert s.pending - {key} == map[];
        }
      case TimedOut =>
        if s.current.Some? {
          var key := s.current.value;
          assert s.pending - {key} == map[];
        }
      case Reconnected =>
        assert UnderWay(s.(connected := true)) == UnderWay(s);
      case Disconnected => assert UnderWay(s.(connected := false)) == UnderWay(s);
    }
  }

  /** The link is as the last connect or disconnect left it, and promises are counted by the requests alone. */
  lemma OnlyLinkEventsConnect(s: State, e: Event)
    ensures Next(s, e).connected == (e.Reconnected? || (s.connected && !e.Disconnected?))
    ensures Next(s, e).issued == s.issued + if e.Requested? then 1 else 0
  {
  }

  /** The end of a download settles exactly its own promises, the starter first; a request that needs none, at once. */
  lemma WhoIsSettled(s: State, e: Event)
    requires Inv(s)
    ensures Next(s, e).settled == s.settled +
      (match e
       case Requested(_, ready) => if ready then [s.issued] else []
       case Settled(key) => if s.current == Some(key) then UnderWay(s) else []
       case TimedOut => if s.current.Some? then UnderWay(s)[..1] else []
       case _ => [])
  {
    if e.Settled? && s.current == Some(e.key) {
      var entry := s.pending[e.key];
      assert s.settled + [entry.starter] + entry.riders == s.settled + UnderWay(s);
    }
  }

  /** It does happen: a second caller for the same attachment, and the download times out. */
  lemma SecondCallerIsAbandoned(key: Key)
    ensures Exec([Reconnected, Requested(key, false), Requested(key, false), TimedOut]).abandoned == [1]
  {
    var request := Requested(key, false);
    ExecAppend([], Reconnected);
    assert [] + [Reconnected] == [Reconnected];
    ExecAppend([Reconnected], request);
    assert [Reconnected] + [request] == [Reconnected, request];
    ExecAppend([Reconnected, request], request);
    assert [Reconnected, request] + [request] == [Reconnected, request, request];
    ExecAppend([Reconnected, request, request], TimedOut);
    assert [Reconnected, request, request] + [TimedOut] == [Reconnected, request, request, TimedOut];
  }
}
