/**
 * The operation queue that drives the sync. `drainQueue` awaits each operation, so it is split there: starting
 * an operation and finishing it are separate steps, and every other callback may run in between. The two fields
 * of the event listener that take part (`syncActive`, the flagged threads) are kept here with the queue.
 */
module SyncOrchestrator {
  import opened Wrappers
  import opened Decimals

  datatype Phase = Offline | Connected | ThreadSyncing | MessageSyncing | Ready

  datatype Op =
    | ThreadSync | ContactSync | MessageSync | ThreadListResync
    | FullThreadSync(threadId: nat) | StaleResync(threadId: nat) | QuickSync(threadId: nat)
    | CountVerify(threadId: nat) | BgFullSync(threadId: nat) | FlaggedSync(threadId: nat)

  /** What opening a thread finds in the database. */
  datatype Opened = NoRow | NeedsFullSync | IsStale | IsCurrent

  /**
   * `inFlight` is the operation whose promise is awaited, whatever `currentOp` says. `owed` are the threads that
   * had an event during a sync and no flagged sync started since; `stopped` tells of an abort that nothing follows
   * up. `restarts` and `resyncs` count the armed 50 ms and 100 ms timers.
   */
  datatype State = State(
    phase: Phase, queue: seq<Op>, currentOp: Option<Op>, inFlight: Option<Op>, running: bool, aborted: bool,
    paused: bool, flagged: seq<nat>, syncActive: bool, priority: Option<nat>, openThread: Option<nat>,
    restarts: nat, resyncs: nat, owed: set<nat>, stopped: bool)

  const INITIAL :=
    State(Offline, [], None, None, false, false, false, [], false, None, None, 0, 0, {}, false)

  // ----- the drain loop -----

  function PhaseOf(op: Op, phase: Phase): Phase {
    match op
    case ThreadSync => ThreadSyncing
    case MessageSync => MessageSyncing
    case _ => phase
  }

  /** Take the head of the queue and call it, up to its first await. */
  function Start(s: State): State
    requires s.queue != [] && s.inFlight.None?
  {
    var op := s.queue[0];
    s.(queue := s.queue[1..], currentOp := Some(op), inFlight := Some(op), running := true, aborted := false,
       stopped := false, phase := PhaseOf(op, s.phase),
       owed := if op.FlaggedSync? then s.owed - {op.threadId} else s.owed)
  }

  function FlaggedOps(flagged: seq<nat>): seq<Op> {
    seq(|flagged|, i requires 0 <= i < |flagged| => FlaggedSync(flagged[i]))
  }

  /** After the loop: flagged threads are queued and started at once, or the orchestrator is ready. */
  function AfterLoop(s: State): State
    requires s.inFlight.None?
  {
    var idle := s.(running := false);
    if s.queue != [] || s.phase == Offline || s.paused then idle
    else if s.flagged != [] then Start(idle.(queue := FlaggedOps(s.flagged), flagged := []))
    else idle.(syncActive := false, phase := Ready)
  }

  function Loop(s: State): State
    requires s.inFlight.None?
  {
    if s.queue != [] && !s.paused then Start(s) else AfterLoop(s)
  }

  function Drain(s: State): State
    requires s.running || s.inFlight.None?
  {
    if s.running || s.paused then s else Loop(s)
  }

  /** The awaited operation settles, one way or the other. */
  function Finish(s: State): State
    requires s.inFlight.Some?
  {
    var done := s.(currentOp := None, inFlight := None);
    if s.aborted then AfterLoop(done) else Loop(done)
  }

  // ----- callbacks -----

  function InsertPriority(s: State, op: Op): State
    requires s.running || s.inFlight.None?
  {
    var queued := s.(queue := [op] + s.queue);
    if s.running then queued.(aborted := true, restarts := s.restarts + 1) else Drain(queued)
  }

  function WithVerification(queue: seq<Op>, threadId: nat): seq<Op> {
    if CountVerify(threadId) in queue then queue else queue + [CountVerify(threadId)]
  }

  function ToSet(flagged: seq<nat>): set<nat> {
    set t | t in flagged
  }

  /** The three phases are queued, and the open thread's count is verified after them. */
  function Connecting(s: State): State {
    var phases := [ThreadSync, ContactSync, MessageSync];
    s.(phase := Connected, aborted := false, stopped := false, paused := false,
       queue := if s.openThread.Some? then WithVerification(phases, s.openThread.value) else phases,
       owed := ToSet(s.flagged), syncActive := true)
  }

  function Connect(s: State): State
    requires s.running || s.inFlight.None?
  {
    Drain(Connecting(s))
  }

  function Disconnect(s: State): State {
    s.(aborted := true, queue := [], currentOp := None, priority := None, syncActive := false, phase := Offline,
       owed := ToSet(s.flagged))
  }

  function Without(queue: seq<Op>, op: Op): seq<Op> {
    if queue == [] then []
    else if queue[0] == op then Without(queue[1..], op) else [queue[0]] + Without(queue[1..], op)
  }

  function OpenThread(s: State, threadId: nat, found: Opened): State
    requires s.running || s.inFlight.None?
  {
    var noted := s.(openThread := Some(threadId));
    if s.phase == Offline || found.NoRow? then noted
    else
      var filtered := noted.(queue := Without(s.queue, BgFullSync(threadId)));
      if found.NeedsFullSync? then
        InsertPriority(filtered.(priority := Some(threadId)), FullThreadSync(threadId))
      else if found.IsStale? then
        InsertPriority(filtered.(priority := Some(threadId)), StaleResync(threadId))
      else
        var queued := filtered.(queue := WithVerification([QuickSync(threadId)] + filtered.queue, threadId));
        if s.running then queued else Drain(queued)
  }

  predicate HasThread(op: Op) {
    !op.ThreadSync? && !op.ContactSync? && !op.MessageSync? && !op.ThreadListResync?
  }

  function Kind(op: Op): string {
    match op
    case ThreadSync => "thread_sync"
    case ContactSync => "contact_sync"
    case MessageSync => "message_sync"
    case ThreadListResync => "thread_list_resync"
    case FullThreadSync(_) => "full_thread_sync"
    case StaleResync(_) => "stale_resync"
    case QuickSync(_) => "quick_sync"
    case CountVerify(_) => "count_verify"
    case BgFullSync(_) => "bg_full_sync"
    case FlaggedSync(_) => "flagged_sync"
  }

  function Name(op: Op): string {
    if HasThread(op) then Kind(op) + "_" + Decimal(op.threadId) else Kind(op)
  }

  predicate OccursAt(text: string, part: string, i: int) {
    0 <= i <= |text| - |part| && text[i..i + |part|] == part
  }

  predicate NameMentions(op: Op, threadId: nat) {
    exists i :: 0 <= i <= |Name(op)| && OccursAt(Name(op), "_" + Decimal(threadId), i)
  }

  function CloseThread(s: State): State {
    var closed := s.(openThread := None, priority := None);
    if s.priority.Some? && s.currentOp.Some? && NameMentions(s.currentOp.value, s.priority.value)
    then closed.(aborted := true, stopped := true) else closed
  }

  function RequestThreadListResync(s: State): State
    requires s.running || s.inFlight.None?
  {
    if s.phase == Offline then s else InsertPriority(s, ThreadListResync)
  }

  function Resync(s: State): State {
    s.(aborted := true, queue := [], currentOp := None, syncActive := false, resyncs := s.resyncs + 1,
       owed := ToSet(s.flagged))
  }

  function ResyncTimer(s: State): State
    requires s.running || s.inFlight.None?
  {
    if s.resyncs == 0 then s else Connect(s.(resyncs := s.resyncs - 1))
  }

  function RestartTimer(s: State): State
    requires s.running || s.inFlight.None?
  {
    if s.restarts == 0 then s
    else Drain(s.(restarts := s.restarts - 1, aborted := false, stopped := false))
  }

  function Abort(s: State): State {
    s.(aborted := true, stopped := true)
  }

  function Resume(s: State): State
    requires s.running || s.inFlight.None?
  {
    Drain(s.(paused := false))
  }

  /** A real-time event for a thread. */
  function Flag(s: State, threadId: nat): State {
    if !s.syncActive then s
    else s.(flagged := if threadId in s.flagged then s.flagged else s.flagged + [threadId], owed := s.owed + {threadId})
  }

  /** What the operation in flight may append before it finishes: background syncs. */
  function Push(s: State, threadIds: seq<nat>): State {
    match s.inFlight
    case Some(MessageSync) =>
      if s.aborted then s
      else s.(queue := s.queue + seq(|threadIds|, i requires 0 <= i < |threadIds| => BgFullSync(threadIds[i])))
    case Some(CountVerify(t)) =>
      if BgFullSync(t) in s.queue then s else s.(queue := s.queue + [BgFullSync(t)])
    case _ => s
  }

  // ----- the orchestrator itself -----

  /** What the state tells beyond the fields of the object: the awaited promise, armed timers, and bookkeeping. */
  datatype Watch = Watch(inFlight: Option<Op>, restarts: nat, resyncs: nat, owed: set<nat>, stopped: bool)

  class Orchestrator {
    var phase: Phase
    var queue: seq<Op>
    var currentOp: Option<Op>
    var running: bool
    var aborted: bool
    var paused: bool
    var flagged: seq<nat>
    var syncActive: bool
    var priorityThreadId: Option<nat>
    var openThreadId: Option<nat>
    ghost var watch: Watch

    ghost function View(): State
      reads this
    {
      State(phase, queue, currentOp, watch.inFlight, running, aborted, paused, flagged, syncActive, priorityThreadId,
            openThreadId, watch.restarts, watch.resyncs, watch.owed, watch.stopped)
    }

    constructor ()
      ensures View() == INITIAL
    {
      phase, queue, currentOp, running, aborted, paused := Offline, [], None, false, false, false;
      flagged, syncActive, priorityThreadId, openThreadId := [], false, None, None;
      watch := Watch(None, 0, 0, {}, false);
    }

    /** One turn of the loop: up to the await, or out of the loop. */
    method TakeTurn()
      requires watch.inFlight.None?
      modifies this
      ensures View() == Loop(old(View()))
    {
      if queue != [] && !paused {
        StartHead();
      } else {
        LeaveLoop();
      }
    }

    method StartHead()
      requires queue != [] && watch.inFlight.None?
      modifies this
      ensures View() == Start(old(View()))
    {
      var op := queue[0];
      queue := queue[1..];
      running, currentOp, aborted, phase := true, Some(op), false, PhaseOf(op, phase);
      watch := watch.(inFlight := Some(op), stopped := false,
                      owed := if op.FlaggedSync? then watch.owed - {op.threadId} else watch.owed);
    }

    method LeaveLoop()
      requires watch.inFlight.None?
      modifies this
      ensures View() == AfterLoop(old(View()))
    {
      running := false;
      if queue == [] && phase != Offline && !paused {
        var ids := flagged;
        flagged := [];
        if |ids| > 0 {
          var i := 0;
          while i < |ids|
            invariant 0 <= i <= |ids|
            invariant View() == old(View()).(running := false, flagged := [], queue := FlaggedOps(ids[..i]))
          {
            assert FlaggedOps(ids[..i + 1]) == FlaggedOps(ids[..i]) + [FlaggedSync(ids[i])];
            queue := queue + [FlaggedSync(ids[i])];
            i := i + 1;
          }
          assert ids[..i] == ids;
          StartHead();
          return;
        }
        syncActive := false;
        phase := Ready;
      }
    }

    method DrainQueue()
      requires running || watch.inFlight.None?
      modifies this
      ensures View() == Drain(old(View()))
    {
      if running || paused { return; }
      TakeTurn();
    }

    method OperationSettles()
      requires watch.inFlight.Some?
      modifies this
      ensures View() == Finish(old(View()))
    {
      currentOp, watch := None, watch.(inFlight := None);
      if aborted {
        LeaveLoop();
      } else {
        TakeTurn();
      }
    }

    method InsertPriorityOp(op: Op)
      requires running || watch.inFlight.None?
      modifies this
      ensures View() == InsertPriority(old(View()), op)
    {
      if running {
        aborted := true;
      }
      queue := [op] + queue;
      if !running {
        DrainQueue();
      } else {
        watch := watch.(restarts := watch.restarts + 1);
      }
    }

    method OnConnected()
      requires running || watch.inFlight.None?
      modifies this
      ensures View() == Connect(old(View()))
    {
      phase, aborted, paused := Connected, false, false;
      queue := [ThreadSync, ContactSync, MessageSync];
      watch := watch.(stopped := false, owed := ToSet(flagged));
      if openThreadId.Some? {
        QueueCountVerification(openThreadId.value);
      }
      syncActive := true;
      assert View() == Connecting(old(View()));
      DrainQueue();
    }

    method QueueCountVerification(threadId: nat)
      modifies this`queue
      ensures queue == WithVerification(old(queue), threadId)
    {
      if CountVerify(threadId) !in queue {
        queue := queue + [CountVerify(threadId)];
      }
    }

    method OnDisconnected()
      modifies this
      ensures View() == Disconnect(old(View()))
    {
      aborted, queue, currentOp, priorityThreadId := true, [], None, None;
      syncActive, phase := false, Offline;
      watch := watch.(owed := ToSet(flagged));
    }

    method OnThreadOpened(threadId: nat, found: Opened)
      requires running || watch.inFlight.None?
      modifies this
      ensures View() == OpenThread(old(View()), threadId, found)
    {
      openThreadId := Some(threadId);
      if phase == Offline || found.NoRow? { return; }
      queue := Without(queue, BgFullSync(threadId));
      if found.NeedsFullSync? {
        priorityThreadId := Some(threadId);
        InsertPriorityOp(FullThreadSync(threadId));
      } else if found.IsStale? {
        priorityThreadId := Some(threadId);
        InsertPriorityOp(StaleResync(threadId));
      } else {
        queue := [QuickSync(threadId)] + queue;
        QueueCountVerification(threadId);
        if !running {
          DrainQueue();
        }
      }
    }

    method OnThreadClosed()
      modifies this
      ensures View() == CloseThread(old(View()))
    {
      openThreadId := None;
      if priorityThreadId.Some? {
        var wasId := priorityThreadId.value;
        priorityThreadId := None;
        if currentOp.Some? && NameMentions(currentOp.value, wasId) {
          aborted, watch := true, watch.(stopped := true);
        }
      }
    }

    method ResyncRequested()
      modifies this
      ensures View() == Resync(old(View()))
    {
      aborted, queue, currentOp, syncActive := true, [], None, false;
      watch := watch.(resyncs := watch.resyncs + 1, owed := ToSet(flagged));
    }

    method RestartTimerFires()
      requires running || watch.inFlight.None?
      requires watch.restarts > 0
      modifies this
      ensures View() == RestartTimer(old(View()))
    {
      aborted, watch := false, watch.(restarts := watch.restarts - 1, stopped := false);
      if !running {
        DrainQueue();
      }
    }

    method ResyncTimerFires()
      requires running || watch.inFlight.None?
      requires watch.resyncs > 0
      modifies this
      ensures View() == ResyncTimer(old(View()))
    {
      aborted, watch := false, watch.(resyncs := watch.resyncs - 1);
      OnConnected();
    }

    method RequestListResync()
      requires running || watch.inFlight.None?
      modifies this
      ensures View() == RequestThreadListResync(old(View()))
    {
      if phase == Offline { return; }
      InsertPriorityOp(ThreadListResync);
    }

    method ResumeQueue()
      requires running || watch.inFlight.None?
      modifies this
      ensures View() == Resume(old(View()))
    {
      paused := false;
      if !running {
        DrainQueue();
      }
    }

    method PauseQueue()
      modifies this`paused
      ensures View() == old(View()).(paused := true)
    {
      paused := true;
    }

    method AbortCurrent()
      modifies this`aborted, this`watch
      ensures View() == Abort(old(View()))
    {
      aborted, watch := true, watch.(stopped := true);
    }

    /** The end of the batch message sync: one background sync per thread that still needs one. */
    method QueueBackgroundFullSyncs(threadIds: seq<nat>)
      requires watch.inFlight == Some(MessageSync)
      modifies this`queue
      ensures View() == Push(old(View()), threadIds)
    {
      if aborted { return; }
      var i := 0;
      while i < |threadIds|
        invariant 0 <= i <= |threadIds|
        invariant queue == old(queue) + seq(i, j requires 0 <= j < i => BgFullSync(threadIds[j]))
      {
        queue := queue + [BgFullSync(threadIds[i])];
        i := i + 1;
      }
    }

    /** The count of the thread in flight differs from the phone's: sync it again in the background. */
    method CountMismatch(threadId: nat)
      requires watch.inFlight == Some(CountVerify(threadId)) && running
      modifies this`queue
      ensures View() == Push(old(View()), [])
    {
      if BgFullSync(threadId) !in queue {
        queue := queue + [BgFullSync(threadId)];
      }
    }
  }
}
