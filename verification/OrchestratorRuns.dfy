/** Every interleaving of connects, disconnects, timers, user actions, events and operation completions. */
module OrchestratorRuns {
  import opened Wrappers
  import opened SyncOrchestrator
  import opened Decimals
  import opened OperationNames

  datatype Event =
    | OnConnected | OnDisconnected | ThreadOpened(threadId: nat, found: Opened) | ThreadClosed
    | ListResyncRequested | ResyncRequested | ResyncTimerFires | RestartTimerFires
    | Paused | Resumed | AbortRequested | MessageEvent(threadId: nat)
    | OperationPushes(threadIds: seq<nat>) | OperationSettles

  /** Between callbacks the loop is running exactly while one operation is awaited. */
  ghost predicate OneAtATime(s: State) {
    && (s.running <==> s.inFlight.Some?)
    && (s.currentOp.Some? ==> s.currentOp == s.inFlight)
  }

  /** A thread that had an event during a sync is still flagged, or its sync is queued. */
  ghost predicate Accounted(s: State) {
    forall t | t in s.owed :: t in s.flagged || FlaggedSync(t) in s.queue
  }

  /** While ready, no sync is active and nothing is flagged or owed. */
  ghost predicate ReadyIsSettled(s: State) {
    s.phase == Ready ==> !s.syncActive && s.flagged == [] && s.owed == {}
  }

  /** What may keep an idle queue from moving: pause, an armed timer, no link, or an abort nobody follows up. */
  predicate Excused(s: State) {
    s.restarts > 0 || s.resyncs > 0 || s.phase == Offline || s.stopped
  }

  ghost predicate KeepsMoving(s: State) {
    && (!s.running && s.queue != [] ==> s.paused || Excused(s))
    && (s.running && s.aborted ==> Excused(s))
  }

  ghost predicate Inv(s: State) {
    OneAtATime(s) && Accounted(s) && ReadyIsSettled(s) && KeepsMoving(s)
  }

  /** If the step made the orchestrator ready, nothing is left to do. */
  ghost predicate ReadyOnlyIdle(a: State, b: State) {
    b.phase == Ready && a.phase != Ready ==> b.queue == [] && !b.running
  }

  /** A thread stops being owed only by the start of its sync. */
  ghost predicate OwedKept(a: State, b: State) {
    forall t | t in a.owed :: t in b.owed || b.inFlight == Some(FlaggedSync(t))
  }

  ghost predicate Proper(a: State, b: State) {
    Inv(b) && ReadyOnlyIdle(a, b) && OwedKept(a, b)
  }

  function Next(s: State, e: Event): State
    requires s.running <==> s.inFlight.Some?
  {
    match e
    case OnConnected => Connect(s)
    case OnDisconnected => Disconnect(s)
    case ThreadOpened(t, found) => OpenThread(s, t, found)
    case ThreadClosed => CloseThread(s)
    case ListResyncRequested => RequestThreadListResync(s)
    case ResyncRequested => Resync(s)
    case ResyncTimerFires => ResyncTimer(s)
    case RestartTimerFires => RestartTimer(s)
    case Paused => s.(paused := true)
    case Resumed => Resume(s)
    case AbortRequested => Abort(s)
    case MessageEvent(t) => Flag(s, t)
    case OperationPushes(ids) => Push(s, ids)
    case OperationSettles => if s.inFlight.Some? then Finish(s) else s
  }

  // ----- the loop -----

  lemma InFlaggedOps(flagged: seq<nat>, t: nat)
    requires t in flagged
    ensures FlaggedSync(t) in FlaggedOps(flagged)
  {
    var i :| 0 <= i < |flagged| && flagged[i] == t;
    assert FlaggedOps(flagged)[i] == FlaggedSync(t);
  }

  lemma AfterLoopAccounts(s: State)
    requires s.inFlight.None? && s.currentOp.None? && Accounted(s) && ReadyIsSettled(s)
    requires s.queue != [] ==> s.paused || Excused(s)
    ensures Proper(s, AfterLoop(s))
  {
    if s.queue == [] && s.phase != Offline && !s.paused && s.flagged != [] {
      var taken := s.(running := false, queue := FlaggedOps(s.flagged), flagged := []);
      forall t | t in taken.owed ensures FlaggedSync(t) in taken.queue
      {
        InFlaggedOps(s.flagged, t);
      }
    }
  }

  lemma LoopAccounts(s: State)
    requires s.inFlight.None? && s.currentOp.None? && Accounted(s) && ReadyIsSettled(s)
    ensures Proper(s, Loop(s))
  {
    if s.queue != [] && !s.paused {
    } else {
      AfterLoopAccounts(s);
    }
  }

  /** `drainQueue` may be called on anything but a stuck running loop. */
  lemma DrainAccounts(s: State)
    requires OneAtATime(s) && Accounted(s) && ReadyIsSettled(s)
    requires s.running && s.aborted ==> Excused(s)
    ensures Proper(s, Drain(s))
  {
    if !s.running && !s.paused {
      LoopAccounts(s);
    }
  }

  lemma PriorityAccounts(s: State, op: Op)
    requires Inv(s)
    ensures Proper(s, InsertPriority(s, op))
  {
    var queued := s.(queue := [op] + s.queue);
    assert forall t | FlaggedSync(t) in s.queue :: FlaggedSync(t) in queued.queue;
    DrainAccounts(queued);
  }

  lemma {:induction false} WithoutKeeps(queue: seq<Op>, op: Op, other: Op)
    requires op != other
    ensures other in Without(queue, op) <==> other in queue
  {
    if queue != [] {
      WithoutKeeps(queue[1..], op, other);
    }
  }

  /** The background sync of the thread being opened leaves the queue; nothing else does. */
  lemma FilterAccounts(s: State, threadId: nat)
    requires Inv(s)
    ensures Proper(s, s.(openThread := Some(threadId), queue := Without(s.queue, BgFullSync(threadId))))
  {
    var filtered := Without(s.queue, BgFullSync(threadId));
    forall t | FlaggedSync(t) in s.queue ensures FlaggedSync(t) in filtered
    {
      WithoutKeeps(s.queue, BgFullSync(threadId), FlaggedSync(t));
    }
  }

  lemma QuickOpenAccounts(s: State, threadId: nat)
    requires Inv(s)
    ensures var queued := s.(queue := WithVerification([QuickSync(threadId)] + s.queue, threadId));
      Proper(s, if s.running then queued else Drain(queued))
  {
    var queued := s.(queue := WithVerification([QuickSync(threadId)] + s.queue, threadId));
    assert forall t | FlaggedSync(t) in s.queue :: FlaggedSync(t) in queued.queue;
    DrainAccounts(queued);
  }

  lemma OpenAccounts(s: State, threadId: nat, found: Opened)
    requires Inv(s)
    ensures Proper(s, OpenThread(s, threadId, found))
  {
    if s.phase != Offline && !found.NoRow? {
      FilterAccounts(s, threadId);
      var filtered := s.(openThread := Some(threadId), queue := Without(s.queue, BgFullSync(threadId)));
      if found.NeedsFullSync? {
        PriorityAccounts(filtered.(priority := Some(threadId)), FullThreadSync(threadId));
      } else if found.IsStale? {
        PriorityAccounts(filtered.(priority := Some(threadId)), StaleResync(threadId));
      } else {
        QuickOpenAccounts(filtered, threadId);
      }
    }
  }

  lemma ConnectAccounts(s: State)
    requires OneAtATime(s)
    ensures Inv(Connect(s)) && ReadyOnlyIdle(Connecting(s), Connect(s))
  {
    DrainAccounts(Connecting(s));
  }

  // ----- every run -----

  /** Callbacks that clear the queue, and with it the flagged syncs waiting there. */
  predicate ClearsQueue(e: Event) {
    e.OnConnected? || e.OnDisconnected? || e.ResyncRequested? || e.ResyncTimerFires?
  }

  lemma NextIsProper(s: State, e: Event)
    requires Inv(s)
    ensures Inv(Next(s, e)) && ReadyOnlyIdle(s, Next(s, e))
    ensures !ClearsQueue(e) ==> OwedKept(s, Next(s, e))
  {
    if e.OnConnected? {
      ConnectAccounts(s);
    } else if e.ThreadOpened? {
      OpenAccounts(s, e.threadId, e.found);
    } else if e.OperationPushes? {
      PushAccounts(s, e.threadIds);
    } else if e.OperationSettles? && s.inFlight.Some? {
      SettleAccounts(s);
    } else if e.ListResyncRequested? || e.Resumed? || e.RestartTimerFires? || e.ResyncTimerFires? {
      RestartAccounts(s, e);
    }
  }

  lemma SettleAccounts(s: State)
    requires Inv(s) && s.inFlight.Some?
    ensures Proper(s, Finish(s))
  {
    var done := s.(currentOp := None, inFlight := None);
    if s.aborted {
      AfterLoopAccounts(done);
    } else {
      LoopAccounts(done);
    }
  }

  lemma RestartAccounts(s: State, e: Event)
    requires Inv(s)
    requires e.ListResyncRequested? || e.Resumed? || e.RestartTimerFires? || e.ResyncTimerFires?
    ensures Inv(Next(s, e)) && ReadyOnlyIdle(s, Next(s, e))
    ensures !ClearsQueue(e) ==> OwedKept(s, Next(s, e))
  {
    if e.ListResyncRequested? {
      PriorityAccounts(s, ThreadListResync);
    } else if e.Resumed? {
      DrainAccounts(s.(paused := false));
    } else if e.RestartTimerFires? && s.restarts > 0 {
      DrainAccounts(s.(restarts := s.restarts - 1, aborted := false, stopped := false));
    } else if e.ResyncTimerFires? && s.resyncs > 0 {
      ConnectAccounts(s.(resyncs := s.resyncs - 1));
    }
  }

  lemma PushAccounts(s: State, ids: seq<nat>)
    requires Inv(s)
    ensures Proper(s, Push(s, ids))
  {
    var r := Push(s, ids);
    assert r == s.(queue := r.queue) && (r.queue != s.queue ==> s.running);
    forall t | FlaggedSync(t) in s.queue ensures FlaggedSync(t) in r.queue
    {
      var i :| 0 <= i < |s.queue| && s.queue[i] == FlaggedSync(t);
      assert r.queue[i] == FlaggedSync(t);
    }
  }

  /**
   * Any sequence of callbacks. In every state reached from the initial one, or from any such state, the loop runs
   * exactly while one operation is awaited, flagged threads are accounted for, ready means settled, and an idle queue
   * has a reason not to move.
   */
  function Exec(s: State, events: seq<Event>): (r: State)
    requires Inv(s)
    ensures Inv(r)
  {
    if events == [] then s
    else
      var before, e := Exec(s, events[..|events| - 1]), events[|events| - 1];
      NextIsProper(before, e);
      Next(before, e)
  }

  lemma InitialIsSound()
    ensures Inv(INITIAL)
  {
  }

  /** The orchestrator becomes ready only with an empty queue, nothing in flight and no flagged thread. */
  lemma ReadyOnlyWhenDone(s: State, e: Event)
    requires Inv(s) && s.phase != Ready && Next(s, e).phase == Ready
    ensures var r := Next(s, e);
      && r.queue == [] && r.inFlight.None? && !r.running
      && r.flagged == [] && !r.syncActive
  {
    NextIsProper(s, e);
  }

  /** The callback starts a flagged sync of the thread: what is in flight changes only when idle or on settling. */
  predicate Starts(s: State, e: Event, t: nat)
    requires s.running <==> s.inFlight.Some?
  {
    Next(s, e).inFlight == Some(FlaggedSync(t)) && (s.inFlight.None? || e.OperationSettles?)
  }

  /** While an operation is awaited no other callback ends it or pays anything off. */
  lemma RunningStays(s: State, e: Event)
    requires OneAtATime(s) && s.running && !e.OperationSettles?
    ensures Next(s, e).running
    ensures !ClearsQueue(e) ==> s.owed <= Next(s, e).owed
  {
    match e {
      case ThreadOpened(t, found) => RunningOpens(s, t, found);
      case OperationPushes(ids) => assert Push(s, ids) == s.(queue := Push(s, ids).queue);
      case _ =>
    }
  }

  lemma RunningOpens(s: State, threadId: nat, found: Opened)
    requires OneAtATime(s) && s.running
    ensures OpenThread(s, threadId, found).running && OpenThread(s, threadId, found).owed == s.owed
  {
  }

  /**
   * A thread that had an event during a sync stays owed until a flagged sync of it starts, unless a connect,
   * disconnect or resync clears the queue; meanwhile it is flagged or its sync is queued.
   */
  lemma OwedUntilStarted(s: State, e: Event, t: nat)
    requires Inv(s) && t in s.owed && !ClearsQueue(e)
    ensures var r := Next(s, e);
      Starts(s, e, t) || (t in r.owed && (t in r.flagged || FlaggedSync(t) in r.queue))
  {
    NextIsProper(s, e);
    if s.running && !e.OperationSettles? {
      RunningStays(s, e);
    }
  }

  /** The callback clears the queue, and the thread is not flagged: a flagged sync of it that waits there is lost. */
  predicate Loses(s: State, e: Event, t: nat) {
    ClearsQueue(e) && (e.ResyncTimerFires? ==> s.resyncs > 0) && t !in s.flagged
  }

  /** No callback that clears the queue forgets the threads that are flagged at that moment. */
  lemma FlaggedSurvives(s: State, e: Event, t: nat)
    requires Inv(s) && ClearsQueue(e) && !Loses(s, e, t) && t in s.owed
    ensures t in Next(s, e).owed
  {
  }

  /** In the run `events` from `s` a sync of the thread was lost with the queue, or one was started. */
  ghost predicate LostOrStarted(s: State, events: seq<Event>, t: nat)
    requires Inv(s)
  {
    exists k :: 0 <= k < |events|
      && (Loses(Exec(s, events[..k]), events[k], t) || Starts(Exec(s, events[..k]), events[k], t))
  }

  lemma LostOrStartedGrows(s: State, events: seq<Event>, n: nat, t: nat)
    requires Inv(s) && n <= |events| && LostOrStarted(s, events[..n], t)
    ensures LostOrStarted(s, events, t)
  {
    var head := events[..n];
    var k :| 0 <= k < n && (Loses(Exec(s, head[..k]), head[k], t) || Starts(Exec(s, head[..k]), head[k], t));
    assert head[..k] == events[..k] && head[k] == events[k];
  }

  lemma {:induction false} OwedThrough(s: State, events: seq<Event>, t: nat)
    requires Inv(s) && t in s.owed
    ensures t in Exec(s, events).owed || LostOrStarted(s, events, t)
  {
    if events != [] {
      var n := |events| - 1;
      OwedThrough(s, events[..n], t);
      if LostOrStarted(s, events[..n], t) {
        LostOrStartedGrows(s, events, n, t);
      } else if !ClearsQueue(events[n]) {
        OwedUntilStarted(Exec(s, events[..n]), events[n], t);
      } else if !Loses(Exec(s, events[..n]), events[n], t) {
        FlaggedSurvives(Exec(s, events[..n]), events[n], t);
      }
    }
  }

  /**
   * A thread has an event while a sync is active, and later the orchestrator is ready. Then in between a flagged sync
   * of the thread was started, or a connect, a disconnect or a resync cleared the queue when the thread was no longer
   * flagged.
   */
  lemma EventsSyncedBeforeReady(s: State, t: nat, events: seq<Event>)
    requires Inv(s) && s.syncActive
    ensures var flagged := Exec(s, [MessageEvent(t)]);
      Exec(flagged, events).phase == Ready ==> LostOrStarted(flagged, events, t)
  {
    var run := [MessageEvent(t)];
    assert run[..0] == [] && Exec(s, run[..0]) == s;
    assert Exec(s, run) == Next(s, MessageEvent(t));
    OwedThrough(Exec(s, run), events, t);
  }

  // ----- progress -----

  /** The next `n` operations settle, with no other callback in between. */
  function SettleAll(s: State, n: nat): State
    requires s.running <==> s.inFlight.Some?
    ensures SettleAll(s, n).running <==> SettleAll(s, n).inFlight.Some?
    decreases n
  {
    if n == 0 then s
    else
      var r := Next(s, OperationSettles);
      SettleAll(r, n - 1)
  }

  /** Left alone, a loop that is online, unpaused and not aborted is done after its queue and the flagged threads. */
  lemma {:induction false} LeftAloneGetsReady(s: State)
    requires Inv(s) && s.inFlight.Some? && !s.aborted && !s.paused && s.phase != Offline
    ensures var r := SettleAll(s, |s.queue| + |s.flagged| + 1);
      r.phase == Ready && r.queue == [] && !r.running && r.flagged == [] && r.owed == {}
    ensures forall n: nat | n <= |s.queue| + |s.flagged| :: SettleAll(s, n).running
    decreases |s.queue| + |s.flagged|
  {
    var next := Next(s, OperationSettles);
    NextIsProper(s, OperationSettles);
    if s.queue != [] || s.flagged != [] {
      LeftAloneGetsReady(next);
    } else {
      assert SettleAll(s, 1) == next;
    }
    forall n: nat | n <= |s.queue| + |s.flagged| ensures SettleAll(s, n).running
    {
      if n > 0 {
        assert SettleAll(s, n) == SettleAll(next, n - 1);
      }
    }
  }

  /** What is queued, and then the flagged threads. */
  function Ahead(s: State): seq<Op> {
    s.queue + FlaggedOps(s.flagged)
  }

  lemma OneAhead(s: State)
    requires OneAtATime(s) && s.inFlight.Some? && !s.aborted && !s.paused && s.phase != Offline && Ahead(s) != []
    ensures var next := Next(s, OperationSettles);
      && next.inFlight == Some(Ahead(s)[0]) && Ahead(next) == Ahead(s)[1..]
      && !next.aborted && !next.paused && next.phase != Offline
  {
    if s.queue == [] {
      assert FlaggedOps([]) == [];
      assert Ahead(s) == FlaggedOps(s.flagged);
    }
  }

  /**
   * Left alone, the loop runs what is queued in the order of the queue, and then the flagged threads in the order in
   * which they were flagged, each of them once.
   */
  lemma {:induction false} LeftAloneRunsInOrder(s: State, k: nat)
    requires Inv(s) && s.inFlight.Some? && !s.aborted && !s.paused && s.phase != Offline
    requires k < |s.queue| + |s.flagged|
    ensures SettleAll(s, k + 1).inFlight
         == Some(if k < |s.queue| then s.queue[k] else FlaggedSync(s.flagged[k - |s.queue|]))
  {
    RunsAhead(s, k);
  }

  lemma {:induction false} RunsAhead(s: State, k: nat)
    requires OneAtATime(s) && s.inFlight.Some? && !s.aborted && !s.paused && s.phase != Offline && k < |Ahead(s)|
    ensures SettleAll(s, k + 1).inFlight == Some(Ahead(s)[k])
    decreases k
  {
    var next := Next(s, OperationSettles);
    OneAhead(s);
    assert SettleAll(s, k + 1) == SettleAll(next, k);
    if k > 0 {
      RunsAhead(next, k - 1);
    }
  }

  /** No flagged sync of the thread is running, queued, or to be queued. */
  predicate NotComing(s: State, t: nat) {
    t !in s.flagged && FlaggedSync(t) !in s.queue && s.inFlight != Some(FlaggedSync(t))
  }

  lemma SettlingBringsNone(s: State, t: nat)
    requires OneAtATime(s) && NotComing(s, t)
    ensures NotComing(Next(s, OperationSettles), t)
  {
    assert forall i | 0 <= i < |s.flagged| :: FlaggedOps(s.flagged)[i] == FlaggedSync(s.flagged[i]) && s.flagged[i] != t;
  }

  lemma {:induction false} SettlingAllBringsNone(s: State, t: nat, n: nat)
    requires Inv(s) && NotComing(s, t)
    ensures NotComing(SettleAll(s, n), t)
    decreases n
  {
    if n > 0 {
      SettlingBringsNone(s, t);
      NextIsProper(s, OperationSettles);
      SettlingAllBringsNone(Next(s, OperationSettles), t, n - 1);
    }
  }

  /** The thread's flagged sync is started before the first `n` operations have settled. */
  ghost predicate StartedWithin(s: State, t: nat, n: nat)
    requires s.running <==> s.inFlight.Some?
  {
    exists k: nat :: k <= n && SettleAll(s, k).inFlight == Some(FlaggedSync(t))
  }

  lemma StartedLater(s: State, t: nat, n: nat)
    requires OneAtATime(s) && StartedWithin(Next(s, OperationSettles), t, n)
    ensures StartedWithin(s, t, n + 1)
  {
    var next := Next(s, OperationSettles);
    var k: nat :| k <= n && SettleAll(next, k).inFlight == Some(FlaggedSync(t));
    assert SettleAll(s, k + 1) == SettleAll(next, k);
  }

  /** When one operation settles, a thread that is flagged or queued is started, or it is queued. */
  lemma OneSettles(s: State, t: nat)
    requires OneAtATime(s) && s.inFlight.Some? && !s.aborted && !s.paused && s.phase != Offline
    requires t in s.flagged || FlaggedSync(t) in s.queue
    ensures var next := Next(s, OperationSettles);
      && next.inFlight.Some? && !next.aborted && !next.paused && next.phase != Offline
      && |next.queue| + |next.flagged| == |s.queue| + |s.flagged| - 1
      && (next.inFlight == Some(FlaggedSync(t)) || t in next.flagged || FlaggedSync(t) in next.queue)
  {
    if s.queue == [] {
      InFlaggedOps(s.flagged, t);
    }
  }

  /** Left alone, every thread that is flagged, or whose sync is queued, gets its sync started. */
  lemma {:induction false} LeftAloneStarts(s: State, t: nat)
    requires Inv(s) && s.inFlight.Some? && !s.aborted && !s.paused && s.phase != Offline
    requires t in s.flagged || FlaggedSync(t) in s.queue
    ensures StartedWithin(s, t, |s.queue| + |s.flagged|)
    decreases |s.queue| + |s.flagged|
  {
    var next := Next(s, OperationSettles);
    NextIsProper(s, OperationSettles);
    OneSettles(s, t);
    if next.inFlight == Some(FlaggedSync(t)) {
      assert SettleAll(next, 0) == next;
    } else {
      LeftAloneStarts(next, t);
    }
    StartedLater(s, t, |s.queue| + |s.flagged| - 1);
  }

  /** Left alone, exactly the threads that are flagged or queued get their sync started. */
  lemma LeftAloneStartsIff(s: State, t: nat)
    requires Inv(s) && s.inFlight.Some? && !s.aborted && !s.paused && s.phase != Offline
    requires s.inFlight != Some(FlaggedSync(t))
    ensures StartedWithin(s, t, |s.queue| + |s.flagged|) <==> t in s.flagged || FlaggedSync(t) in s.queue
  {
    if t in s.flagged || FlaggedSync(t) in s.queue {
      LeftAloneStarts(s, t);
    } else {
      forall k: nat ensures NotComing(SettleAll(s, k), t)
      {
        SettlingAllBringsNone(s, t, k);
      }
    }
  }

  /**
   * A connect, whether or not another operation runs. Left alone the orchestrator gets ready, and by then exactly the threads
   * that were still flagged at the connect have had their sync started: one whose sync was queued has lost it.
   */
  lemma ConnectStartsIff(s: State, t: nat)
    requires Inv(s) && s.inFlight != Some(FlaggedSync(t))
    ensures var c := Next(s, OnConnected); var n := |c.queue| + |c.flagged|;
      SettleAll(c, n + 1).phase == Ready && (StartedWithin(c, t, n) <==> t in s.flagged)
  {
    NextIsProper(s, OnConnected);
    var c := Next(s, OnConnected);
    LeftAloneGetsReady(c);
    LeftAloneStartsIff(c, t);
  }

  // ----- what each callback does to the queue -----

  /** Dropping an operation keeps the others in their order. */
  lemma {:induction false} WithoutConcat(a: seq<Op>, b: seq<Op>, op: Op)
    ensures Without(a + b, op) == Without(a, op) + Without(b, op)
  {
    if a == [] {
      assert [] + b == b;
    } else {
      WithoutConcat(a[1..], b, op);
      var rest := Without(a[1..], op) + Without(b, op);
      assert (a + b)[1..] == a[1..] + b && (a + b)[0] == a[0];
      assert [a[0]] + rest == [a[0]] + Without(a[1..], op) + Without(b, op);
    }
  }

  lemma WithoutOne(other: Op, op: Op)
    ensures Without([other], op) == if other == op then [] else [other]
  {
    assert [other][1..] == [];
  }

  lemma {:induction false} WithoutDrops(queue: seq<Op>, op: Op)
    ensures op !in Without(queue, op)
  {
    if queue != [] {
      WithoutDrops(queue[1..], op);
    }
  }

  /** The operation that opening a thread asks for. */
  function OpFor(threadId: nat, found: Opened): Op
    requires !found.NoRow?
  {
    match found
    case NeedsFullSync => FullThreadSync(threadId)
    case IsStale => StaleResync(threadId)
    case IsCurrent => QuickSync(threadId)
  }

  /** `op` is in flight, with `rest` behind it; of the rest of the state only the phase may follow from it. */
  ghost predicate Launched(s: State, op: Op, rest: seq<Op>, r: State) {
    && r == s.(queue := rest, currentOp := Some(op), inFlight := Some(op), running := true, aborted := false,
               stopped := false, phase := r.phase, owed := r.owed)
    && r.phase == (if op == ThreadSync then ThreadSyncing else if op == MessageSync then MessageSyncing else s.phase)
    && (forall t :: t in r.owed <==> t in s.owed && op != FlaggedSync(t))
  }

  /** `ops` wait, in this order; the first of them runs at once if the loop was idle and not paused. */
  ghost predicate Enqueued(s: State, ops: seq<Op>, r: State)
    requires ops != []
  {
    if s.running || s.paused then r == s.(queue := ops) else Launched(s, ops[0], ops[1..], r)
  }

  /** A running operation is told to stop, and a timer will go on. */
  function Interrupted(s: State): State {
    if s.running then s.(aborted := true, restarts := s.restarts + 1) else s
  }

  /** The queue with the verification of a thread behind it, unless it waits there already. */
  ghost predicate Verified(before: seq<Op>, threadId: nat, after: seq<Op>) {
    if CountVerify(threadId) in before then after == before else after == before + [CountVerify(threadId)]
  }

  /**
   * Opening a thread: nothing but the note while offline or without a row. Otherwise its background sync leaves the
   * queue and the thread's own operation goes in front of the others. A full or stale sync takes priority and tells a
   * running operation to stop, with a timer to go on; a quick sync interrupts nothing and has the count verified last.
   */
  lemma OpeningQueues(s: State, threadId: nat, found: Opened)
    requires Inv(s)
    ensures var r := Next(s, ThreadOpened(threadId, found)); var noted := s.(openThread := Some(threadId));
      && (s.phase == Offline || found.NoRow? ==> r == noted)
      && (s.phase != Offline && !found.NoRow? ==>
            && BgFullSync(threadId) !in r.queue
            && var others := Without(s.queue, BgFullSync(threadId));
            if found.IsCurrent? then
              exists ops :: ops != [] && Verified([QuickSync(threadId)] + others, threadId, ops) && Enqueued(noted, ops, r)
            else Enqueued(Interrupted(noted.(priority := Some(threadId))), [OpFor(threadId, found)] + others, r))
  {
    if s.phase != Offline && !found.NoRow? {
      WithoutDrops(s.queue, BgFullSync(threadId));
      var ops := WithVerification([QuickSync(threadId)] + Without(s.queue, BgFullSync(threadId)), threadId);
      if found.IsCurrent? {
        QuickOpenEnqueues(s, threadId, ops);
        assert ops != [] && Verified([QuickSync(threadId)] + Without(s.queue, BgFullSync(threadId)), threadId, ops);
      } else {
        PriorityOpenEnqueues(s, threadId, found);
      }
    }
  }

  lemma QuickOpenEnqueues(s: State, threadId: nat, ops: seq<Op>)
    requires OneAtATime(s) && s.phase != Offline
    requires ops == WithVerification([QuickSync(threadId)] + Without(s.queue, BgFullSync(threadId)), threadId)
    ensures Enqueued(s.(openThread := Some(threadId)), ops, OpenThread(s, threadId, IsCurrent))
  {
  }

  lemma PriorityOpenEnqueues(s: State, threadId: nat, found: Opened)
    requires OneAtATime(s) && s.phase != Offline && !found.NoRow? && !found.IsCurrent?
    ensures Enqueued(Interrupted(s.(openThread := Some(threadId), priority := Some(threadId))),
                     [OpFor(threadId, found)] + Without(s.queue, BgFullSync(threadId)), OpenThread(s, threadId, found))
  {
  }

  /** A list resync goes in front in the same way. */
  lemma ListResyncQueues(s: State)
    requires Inv(s)
    ensures var r := Next(s, ListResyncRequested);
      if s.phase == Offline then r == s else Enqueued(Interrupted(s), [ThreadListResync] + s.queue, r)
  {
  }

  /**
   * A connect drops what is queued and queues the three phases, and behind them the verification of the open thread.
   * Pause and abort are lifted, and events are flagged from now on.
   */
  lemma ConnectingQueues(s: State)
    requires Inv(s)
    ensures var r := Next(s, OnConnected);
      var ops := [ThreadSync, ContactSync, MessageSync] + if s.openThread.Some? then [CountVerify(s.openThread.value)] else [];
      Enqueued(s.(phase := Connected, paused := false, aborted := false, stopped := false, syncActive := true,
                  owed := set t | t in s.flagged), ops, r)
  {
    var phases := [ThreadSync, ContactSync, MessageSync];
    assert phases + [] == phases;
    if s.openThread.Some? {
      assert (phases + [CountVerify(s.openThread.value)])[1..] == phases[1..] + [CountVerify(s.openThread.value)];
    }
  }

  /** A disconnect and a resync empty the queue, stop flagging and tell the running operation to stop; flags stay. */
  lemma ClearingClears(s: State)
    requires Inv(s)
    ensures var cleared := s.(queue := [], currentOp := None, aborted := true, syncActive := false, owed := set t | t in s.flagged);
      && Next(s, OnDisconnected) == cleared.(phase := Offline, priority := None)
      && Next(s, ResyncRequested) == cleared.(resyncs := s.resyncs + 1)
    ensures s.resyncs > 0 ==> Next(s, ResyncTimerFires) == Next(s.(resyncs := s.resyncs - 1), OnConnected)
    ensures s.resyncs == 0 ==> Next(s, ResyncTimerFires) == s
  {
  }

  /** Closing a thread forgets it and its priority and touches nothing but the abort flag, if there was a priority. */
  lemma ClosingForgets(s: State)
    requires Inv(s)
    ensures var r := Next(s, ThreadClosed);
      && r == s.(openThread := None, priority := None, aborted := r.aborted, stopped := r.stopped)
      && (s.priority.None? || s.currentOp.None? ==> r.aborted == s.aborted && r.stopped == s.stopped)
      && (s.aborted ==> r.aborted) && (r.aborted ==> s.aborted || r.stopped)
  {
  }

  /** Events are flagged while a sync is active, each thread once, in the order of their first event. */
  lemma EventFlags(s: State, t: nat)
    requires Inv(s)
    ensures var r := Next(s, MessageEvent(t));
      if s.syncActive
      then r == s.(flagged := if t in s.flagged then s.flagged else s.flagged + [t], owed := r.owed) && r.owed == s.owed + {t}
      else r == s
  {
  }

  /** The message sync appends a background sync per thread unless aborted; a count that differs appends one, once. */
  lemma OperationsAppend(s: State, ids: seq<nat>)
    requires Inv(s)
    ensures var r := Next(s, OperationPushes(ids));
      && r == s.(queue := r.queue)
      && (s.inFlight == Some(MessageSync) && !s.aborted ==>
            && |r.queue| == |s.queue| + |ids| && s.queue <= r.queue
            && forall i | 0 <= i < |ids| :: r.queue[|s.queue| + i] == BgFullSync(ids[i]))
      && (s.inFlight == Some(MessageSync) && s.aborted ==> r == s)
      && (forall t | s.inFlight == Some(CountVerify(t)) ::
            r.queue == s.queue + if BgFullSync(t) in s.queue then [] else [BgFullSync(t)])
      && (s.inFlight != Some(MessageSync) && !(s.inFlight.Some? && s.inFlight.value.CountVerify?) ==> r == s)
  {
  }

  /** While paused, or when told to stop, nothing is started as an operation settles, except flagged syncs after an abort. */
  lemma PausedStartsNothing(s: State, e: Event)
    requires OneAtATime(s) && s.paused && !e.OnConnected? && !e.ResyncTimerFires? && !e.Resumed?
    ensures Next(s, e).inFlight == (if e.OperationSettles? then None else s.inFlight)
  {
  }

  /** `pause` and `abort` set their flag and nothing else. */
  lemma FlagsSet(s: State)
    requires Inv(s)
    ensures Next(s, Paused) == s.(paused := true)
    ensures Next(s, AbortRequested) == s.(aborted := true, stopped := true)
  {
  }

  /** Going on with the queue if nothing runs. */
  ghost predicate GoesOn(s: State, r: State) {
    if s.running || s.paused then r == s
    else if s.queue == [] then Emptied(s, r)
    else Launched(s, s.queue[0], s.queue[1..], r)
  }

  lemma DrainGoesOn(s: State)
    requires OneAtATime(s)
    ensures GoesOn(s, Drain(s))
  {
  }

  /** `resume` and the restart timer lift their flag and go on. */
  lemma LiftedGoesOn(s: State)
    requires Inv(s)
    ensures GoesOn(s.(paused := false), Next(s, Resumed))
    ensures if s.restarts == 0 then Next(s, RestartTimerFires) == s
      else GoesOn(s.(restarts := s.restarts - 1, aborted := false, stopped := false), Next(s, RestartTimerFires))
  {
    DrainGoesOn(s.(paused := false));
    if s.restarts > 0 {
      DrainGoesOn(s.(restarts := s.restarts - 1, aborted := false, stopped := false));
    }
  }

  /** The queue is empty and the loop ends: nothing while offline or paused, otherwise flagged threads or ready. */
  ghost predicate Emptied(s: State, r: State) {
    var idle := s.(running := false, currentOp := None, inFlight := None);
    if s.phase == Offline || s.paused then r == idle
    else if s.flagged == [] then r == idle.(syncActive := false, phase := Ready)
    else
      && |r.queue| == |s.flagged| - 1 && (forall i | 0 <= i < |r.queue| :: r.queue[i] == FlaggedSync(s.flagged[i + 1]))
      && Launched(idle.(flagged := []), FlaggedSync(s.flagged[0]), r.queue, r)
  }

  /** An operation settles: the next one starts, unless told to stop or paused; with an empty queue the loop ends. */
  lemma SettlingGoesOn(s: State)
    requires Inv(s) && s.inFlight.Some?
    ensures var r := Next(s, OperationSettles);
      if s.queue == [] then Emptied(s, r)
      else if s.aborted || s.paused then r == s.(running := false, currentOp := None, inFlight := None)
      else Launched(s, s.queue[0], s.queue[1..], r)
  {
  }

  // ----- where the queue does get stuck -----

  /** Operations wait, the link is up, nothing is paused, yet nothing runs and no timer will see to it. */
  predicate Stuck(s: State) {
    s.queue != [] && !s.running && !s.paused && s.phase != Offline && s.restarts == 0 && s.resyncs == 0
  }

  /** Whoever set the abort flag: the queue is stranded exactly if something waits and no timer is armed. */
  lemma SettlingStrandsIff(s: State)
    requires Inv(s) && s.inFlight.Some?
    ensures Stuck(Next(s, OperationSettles))
       <==> (s.aborted && s.queue != [] && !s.paused && s.phase != Offline && s.restarts == 0 && s.resyncs == 0)
  {
  }

  lemma AbortStrandsIff(s: State)
    requires Inv(s) && s.inFlight.Some?
    ensures Stuck(Next(Next(s, AbortRequested), OperationSettles))
       <==> (s.queue != [] && !s.paused && s.phase != Offline && s.restarts == 0 && s.resyncs == 0)
  {
    NextIsProper(s, AbortRequested);
    SettlingStrandsIff(Next(s, AbortRequested));
  }

  /** Draining never leaves the queue stranded, whatever it started from. */
  lemma DrainingUnsticks(s: State)
    requires OneAtATime(s)
    ensures !Stuck(Drain(s))
  {
  }

  lemma IdleStep(s: State, e: Event)
    requires OneAtATime(s) && !s.running && !Stuck(s)
    ensures !Stuck(Next(s, e))
  {
    match e {
      case OnConnected => DrainingUnsticks(Connecting(s));
      case ResyncTimerFires => DrainingUnsticks(Connecting(s.(resyncs := if s.resyncs > 0 then s.resyncs - 1 else 0)));
      case RestartTimerFires =>
        if s.restarts > 0 {
          DrainingUnsticks(s.(restarts := s.restarts - 1, aborted := false, stopped := false));
        }
      case Resumed => DrainingUnsticks(s.(paused := false));
      case ThreadOpened(t, found) => OpeningUnsticks(s, t, found);
      case ListResyncRequested => DrainingUnsticks(s.(queue := [ThreadListResync] + s.queue));
      case _ =>
    }
  }

  lemma OpeningUnsticks(s: State, threadId: nat, found: Opened)
    requires OneAtATime(s) && !s.running && !Stuck(s)
    ensures !Stuck(OpenThread(s, threadId, found))
  {
    if s.phase != Offline && !found.NoRow? {
      var filtered := s.(openThread := Some(threadId), queue := Without(s.queue, BgFullSync(threadId)));
      var first := filtered.(priority := Some(threadId));
      DrainingUnsticks(first.(queue := [FullThreadSync(threadId)] + first.queue));
      DrainingUnsticks(first.(queue := [StaleResync(threadId)] + first.queue));
      DrainingUnsticks(filtered.(queue := WithVerification([QuickSync(threadId)] + filtered.queue, threadId)));
    }
  }

  /** Nothing else strands it. */
  lemma OnlySettlingStrands(s: State, e: Event)
    requires Inv(s)
    ensures !Stuck(s) && Stuck(Next(s, e)) ==> e.OperationSettles? && s.inFlight.Some? && s.aborted
  {
    if !s.running {
      if !Stuck(s) {
        IdleStep(s, e);
      }
    } else if e.OperationSettles? {
      SettlingStrandsIff(s);
    } else {
      RunningStays(s, e);
    }
  }

  /** What gets a stranded queue moving: a new connection, `resume`, and whatever inserts an operation. */
  predicate Unsticks(e: Event) {
    e.OnConnected? || e.Resumed? || e.ListResyncRequested? || (e.ThreadOpened? && !e.found.NoRow?)
  }

  lemma OnlyTheseUnstick(s: State, e: Event)
    requires Inv(s) && Stuck(s)
    ensures Next(s, e).running <==> Unsticks(e)
  {
  }

  /** `abort` right after the connection leaves two of the three phases undone. */
  lemma AbortStrandsTheQueue()
    ensures Inv(INITIAL)
    ensures var s := Exec(INITIAL, [OnConnected, AbortRequested, OperationSettles]);
      s.queue == [ContactSync, MessageSync] && Stuck(s)
  {
    var run := [OnConnected, AbortRequested, OperationSettles];
    InitialIsSound();
    ExecStep(INITIAL, run, 0);
    ExecStep(INITIAL, run, 1);
    ExecStep(INITIAL, run, 2);
    assert run[..3] == run;
    assert Next(INITIAL, OnConnected).queue == [ContactSync, MessageSync];
  }

  /**
   * In every reachable state: closing the thread whose priority sync was inserted aborts the running operation exactly if the
   * thread's number is that of the operation's thread with trailing decimal digits dropped.
   */
  lemma ClosingAbortsIff(s: State)
    requires Inv(s) && s.priority.Some? && s.currentOp.Some? && !s.aborted
    ensures Next(s, ThreadClosed).aborted
       <==> HasThread(s.currentOp.value) && DropsTo(s.currentOp.value.threadId, s.priority.value)
  {
    MentionsIff(s.currentOp.value, s.priority.value);
  }

  /** Thread 1 is opened and synced, then a background sync of thread 12 runs: closing thread 1 aborts that. */
  function CloseDuringAnother(): seq<Event> {
    [OnConnected, OperationSettles, OperationSettles, OperationPushes([12]), ThreadOpened(1, NeedsFullSync),
     OperationSettles, RestartTimerFires, OperationSettles]
  }

  lemma ExecStep(s: State, events: seq<Event>, k: nat)
    requires Inv(s) && k < |events|
    ensures Exec(s, events[..k + 1]) == Next(Exec(s, events[..k]), events[k])
  {
    assert events[..k + 1][..k] == events[..k];
  }

  /** Callback `i` leads from the state before it to the state after it. */
  predicate Leads(states: seq<State>, events: seq<Event>, i: nat)
    requires i < |events| < |states|
  {
    (states[i].running <==> states[i].inFlight.Some?) && Next(states[i], events[i]) == states[i + 1]
  }

  /** A run is where its states lead, one by one. */
  lemma {:induction false} Follow(states: seq<State>, events: seq<Event>, n: nat)
    requires n <= |events| < |states| && Inv(states[0])
    requires forall i: nat | i < n :: Leads(states, events, i)
    ensures Exec(states[0], events[..n]) == states[n]
  {
    if n > 0 {
      Follow(states, events, n - 1);
      assert Leads(states, events, n - 1);
      assert events[..n][..n - 1] == events[..n - 1];
    }
  }

  /** The states of that run: three phases, then the sync of thread 1 in front of the one for thread 12. */
  function StatesOnTheWay(): seq<State> {
    var first := InFlight(ThreadSyncing, ThreadSync, [ContactSync, MessageSync]);
    var last := InFlight(MessageSyncing, MessageSync, []);
    var front := last.(openThread := Some(1), priority := Some(1), queue := [FullThreadSync(1), BgFullSync(12)],
                       aborted := true, restarts := 1);
    var full := front.(currentOp := Some(FullThreadSync(1)), inFlight := Some(FullThreadSync(1)),
                       queue := [BgFullSync(12)], aborted := false, restarts := 0);
    [INITIAL, first, InFlight(ThreadSyncing, ContactSync, [MessageSync]), last, last.(queue := [BgFullSync(12)]), front,
     front.(currentOp := None, inFlight := None, running := false), full,
     full.(currentOp := Some(BgFullSync(12)), inFlight := Some(BgFullSync(12)), queue := [])]
  }

  function InFlight(phase: Phase, op: Op, rest: seq<Op>): State {
    State(phase, rest, Some(op), Some(op), true, false, false, [], true, None, None, 0, 0, {}, false)
  }

  lemma PhasesLead()
    ensures forall i: nat | i < 4 :: Leads(StatesOnTheWay(), CloseDuringAnother(), i)
  {
  }

  lemma PriorityLeads()
    ensures forall i: nat | 4 <= i < 8 :: Leads(StatesOnTheWay(), CloseDuringAnother(), i)
  {
    assert Without([BgFullSync(12)], BgFullSync(1)) == [BgFullSync(12)];
  }

  lemma BackgroundIsReached()
    ensures Inv(INITIAL) && Exec(INITIAL, CloseDuringAnother()) == StatesOnTheWay()[8]
  {
    InitialIsSound();
    PhasesLead();
    PriorityLeads();
    Follow(StatesOnTheWay(), CloseDuringAnother(), 8);
    assert CloseDuringAnother()[..8] == CloseDuringAnother();
  }

  lemma ClosingAbortsAnother()
    ensures Inv(INITIAL)
    ensures var s := Exec(INITIAL, CloseDuringAnother());
      s.currentOp == Some(BgFullSync(12)) && s.priority == Some(1) && !s.aborted && Next(s, ThreadClosed).aborted
  {
    BackgroundIsReached();
    assert DropsTo(12 / 10, 1);
    MentionsIff(BgFullSync(12), 1);
  }
}
