/**
 * Operations the user performs while the phone is out of reach are queued and replayed on the next connect. The
 * replay stops at its first failure, and a failed request may or may not have reached the phone.
 */
module OfflineReplay {
  import opened Wrappers

  /** The phone's registers: the filter flag of a number (`filter.set`), the read mark of a thread (`read.set`). */
  datatype Key = Number(number: string) | Thread(threadId: int)
  datatype Value = Filtered(on: bool) | ReadAt(time: int)
  type Registers = map<Key, Value>

  /** A row of `pending_operations`; an unknown type is dropped from the queue without being sent. */
  datatype OfflineOp = Set(key: Key, value: Value) | Unknown

  /** How a request ends. */
  datatype Reply = Done | Failed(reached: bool)

  function Run(op: OfflineOp, phone: Registers): Registers {
    match op
    case Set(key, value) => phone[key := value]
    case Unknown => phone
  }

  function Request(op: OfflineOp, reply: Reply, phone: Registers): Registers {
    if reply.Done? || reply.reached then Run(op, phone) else phone
  }

  /** How far a flush gets: unknown operations need no reply, the others stop it at the first failure. */
  function Flushed(ops: seq<(nat, OfflineOp)>, replies: seq<Reply>): (k: nat)
    requires |replies| >= |ops|
    ensures k <= |ops|
  {
    if ops == [] || (ops[0].1.Set? && replies[0].Failed?) then 0 else 1 + Flushed(ops[1..], replies[1..])
  }

  function Play(ops: seq<(nat, OfflineOp)>, phone: Registers): Registers {
    if ops == [] then phone else Run(ops[|ops| - 1].1, Play(ops[..|ops| - 1], phone))
  }

  /** The phone after a flush of `rows` that got to `k`. */
  function FlushedPhone(rows: seq<(nat, OfflineOp)>, replies: seq<Reply>, k: nat, phone: Registers): Registers
    requires k <= |rows| <= |replies|
  {
    if k < |rows| then Request(rows[k].1, replies[k], Play(rows[..k], phone)) else Play(rows, phone)
  }

  /** A flush that stops at a failure leaves the phone as if all before it had run, and the failed one if it was reached. */
  lemma FailureReaches(rows: seq<(nat, OfflineOp)>, replies: seq<Reply>, k: nat, phone: Registers)
    requires k < |rows| <= |replies| && replies[k].Failed?
    ensures FlushedPhone(rows, replies, k, phone) == if replies[k].reached then Play(rows[..k + 1], phone) else Play(rows[..k], phone)
  {
    assert rows[..k + 1][..k] == rows[..k];
  }

  function Without(rows: seq<(nat, OfflineOp)>, id: nat): seq<(nat, OfflineOp)> {
    if rows == [] then [] else if rows[0].0 == id then rows[1..] else [rows[0]] + Without(rows[1..], id)
  }

  lemma {:induction false} WithoutAt(rows: seq<(nat, OfflineOp)>, id: nat) returns (i: nat)
    ensures i <= |rows| && Without(rows, id) == if i < |rows| then rows[..i] + rows[i + 1..] else rows
  {
    if rows == [] || rows[0].0 == id {
      i := 0;
    } else {
      i := WithoutAt(rows[1..], id);
      i := i + 1;
      assert i < |rows| ==> rows[..i] + rows[i + 1..] == [rows[0]] + (rows[1..][..i - 1] + rows[1..][i..]);
    }
  }

  lemma FlushedStep(ops: seq<(nat, OfflineOp)>, replies: seq<Reply>, i: nat)
    requires i < |ops| <= |replies|
    ensures Flushed(ops[i..], replies[i..])
         == if ops[i].1.Set? && replies[i].Failed? then 0 else 1 + Flushed(ops[i + 1..], replies[i + 1..])
    ensures forall phone :: Play(ops[..i + 1], phone) == Run(ops[i].1, Play(ops[..i], phone))
  {
    assert ops[i..][1..] == ops[i + 1..] && replies[i..][1..] == replies[i + 1..];
    assert ops[..i + 1][..i] == ops[..i];
  }

  class PendingOperations {
    var rows: seq<(nat, OfflineOp)>
    var nextId: nat

    ghost predicate Valid()
      reads this
    {
      && (forall i, j | 0 <= i < j < |rows| :: rows[i].0 < rows[j].0)
      && (forall i | 0 <= i < |rows| :: rows[i].0 < nextId)
    }

    constructor ()
      ensures Valid() && rows == []
    {
      rows, nextId := [], 0;
    }

    /** `AUTOINCREMENT` never gives an id out again. */
    method QueueOperation(op: OfflineOp)
      requires Valid()
      modifies this
      ensures Valid() && rows == old(rows) + [(old(nextId), op)]
    {
      rows, nextId := rows + [(nextId, op)], nextId + 1;
    }

    /** `DELETE ... WHERE id = ?` */
    method RemovePendingOperation(id: nat)
      requires Valid()
      modifies this`rows
      ensures Valid()
      ensures rows == Without(old(rows), id)
    {
      ghost var i := WithoutAt(rows, id);
      rows := Without(rows, id);
    }
  }

  class Phone {
    var registers: Registers
  }

  /**
   * One uninterrupted flush, the link answering with `replies`. Exactly a prefix of the queue goes; the phone has
   * run that prefix in order, and besides it at most the first operation that stayed.
   */
  method FlushPendingOperations(db: PendingOperations, phone: Phone, replies: seq<Reply>)
    requires db.Valid() && |replies| >= |db.rows|
    modifies db`rows, phone
    ensures db.Valid()
    ensures var k := Flushed(old(db.rows), replies);
      && db.rows == old(db.rows)[k..]
      && phone.registers == FlushedPhone(old(db.rows), replies, k, old(phone.registers))
  {
    var ops := db.rows;
    ghost var before := phone.registers;
    var i := 0;
    while i < |ops|
      invariant 0 <= i <= |ops|
      invariant db.Valid()
      invariant db.rows == ops[i..]
      invariant phone.registers == Play(ops[..i], before)
      invariant Flushed(ops, replies) == i + Flushed(ops[i..], replies[i..])
    {
      FlushedStep(ops, replies, i);
      if ops[i].1.Set? {
        phone.registers := Request(ops[i].1, replies[i], phone.registers);
        if replies[i].Failed? {
          break;
        }
      }
      db.RemovePendingOperation(ops[i].0);
      assert ops[i..][1..] == ops[i + 1..];
      i := i + 1;
    }
    assert ops[..|ops|] == ops;
  }

  // ----- any number of attempts, with the user at work in between -----

  /**
   * `intent` holds what the user last asked for per register. `sending` is the part of its list that a running
   * flush has not dealt with yet; every request of a flush is awaited, so the user may act in between.
   */
  datatype State = State(pending: seq<OfflineOp>, sending: nat, phone: Registers, intent: Registers)

  datatype Step =
    | StartFlush
    | Answered(reply: Reply)
    | UserDone(op: OfflineOp)
    | UserFailed(op: OfflineOp, reached: bool)

  function Next(s: State, step: Step): State {
    match step
    case StartFlush => s.(sending := |s.pending|)
    case Answered(reply) =>
      if s.sending == 0 || s.pending == [] then s
      else
        var op := s.pending[0];
        if op.Unknown? then s.(pending := s.pending[1..], sending := s.sending - 1)
        else
          var phone := Request(op, reply, s.phone);
          if reply.Done? then s.(pending := s.pending[1..], sending := s.sending - 1, phone := phone)
          else s.(sending := 0, phone := phone)
    case UserDone(op) => s.(phone := Run(op, s.phone), intent := Run(op, s.intent))
    case UserFailed(op, reached) =>
      s.(phone := Request(op, Failed(reached), s.phone), pending := s.pending + [op], intent := Run(op, s.intent))
  }

  /** Requests on the wire: which change the phone, which stay queued. */
  lemma RequestsReach(s: State, op: OfflineOp, reached: bool)
    ensures Next(s, UserFailed(op, reached)).phone == (if reached then Next(s, UserDone(op)).phone else s.phone)
    ensures Next(s, UserDone(op)).pending == s.pending && Next(s, UserFailed(op, reached)).pending == s.pending + [op]
    ensures Next(s, UserDone(op)).sending == Next(s, UserFailed(op, reached)).sending == s.sending
    ensures op.Set? ==> Next(s, UserDone(op)).phone == s.phone[op.key := op.value]
  {
  }

  /** The answer to the request that is under way. */
  lemma AnswersReach(s: State, reached: bool)
    requires s.sending > 0 && s.pending != [] && s.pending[0].Set?
    ensures var failed, done := Next(s, Answered(Failed(reached))), Next(s, Answered(Done));
      && failed.pending == s.pending && failed.sending == 0
      && failed.phone == (if reached then done.phone else s.phone)
      && done.pending == s.pending[1..] && done.phone == s.phone[s.pending[0].key := s.pending[0].value]
  {
  }

  /** The value the queue will leave in a register, if it touches it. */
  function LastSet(pending: seq<OfflineOp>, key: Key): Option<Value> {
    if pending == [] then None
    else
      var op := pending[|pending| - 1];
      if op.Set? && op.key == key then Some(op.value) else LastSet(pending[..|pending| - 1], key)
  }

  /** The register will hold what the user last asked for once the queue has run. */
  predicate OnTrackAt(s: State, key: Key) {
    LastSet(s.pending, key).OrElse(Lookup(s.phone, key)) == Lookup(s.intent, key)
  }

  ghost predicate OnTrack(s: State) {
    forall key :: OnTrackAt(s, key)
  }

  lemma {:induction false} LastSetTail(pending: seq<OfflineOp>, key: Key)
    requires pending != []
    ensures LastSet(pending, key)
         == LastSet(pending[1..], key).OrElse(if pending[0].Set? && pending[0].key == key then Some(pending[0].value) else None)
  {
    var n := |pending| - 1;
    if n > 0 {
      LastSetTail(pending[..n], key);
      assert pending[1..][..n - 1] == pending[..n][1..];
      assert pending[1..][n - 1] == pending[n];
    }
  }

  /** The user asks for a value of this register. */
  predicate Concerns(step: Step, key: Key) {
    (step.UserDone? || step.UserFailed?) && step.op.Set? && step.op.key == key
  }

  /** A step puts a register on track or off it only if it is a request of the user about it. */
  lemma StepAt(s: State, step: Step, key: Key)
    ensures OnTrackAt(Next(s, step), key)
       <==> if !Concerns(step, key) then OnTrackAt(s, key)
            else step.UserFailed? || LastSet(s.pending, key).None? || LastSet(s.pending, key) == Some(step.op.value)
  {
    if s.pending != [] {
      LastSetTail(s.pending, key);
    }
    if step.UserFailed? {
    }
  }

  /** Replays, failures that did or did not reach the phone, and newly queued operations all keep every register on track. */
  lemma StaysOnTrack(s: State, step: Step)
    requires OnTrack(s) && !step.UserDone?
    ensures OnTrack(Next(s, step))
  {
    forall key ensures OnTrackAt(Next(s, step), key)
    {
      StepAt(s, step, key);
    }
  }

  /**
   * A request that succeeds at once while the queue still holds an operation on the same register is overtaken by
   * it, unless that operation sets the same value.
   */
  lemma ImmediateRequestIff(s: State, op: OfflineOp)
    requires OnTrack(s) && op.Set?
    ensures OnTrack(Next(s, UserDone(op)))
       <==> (LastSet(s.pending, op.key).None? || LastSet(s.pending, op.key) == Some(op.value))
  {
    forall key
      ensures OnTrackAt(Next(s, UserDone(op)), key)
         <==> (key == op.key ==> LastSet(s.pending, key).None? || LastSet(s.pending, key) == Some(op.value))
    {
      StepAt(s, UserDone(op), key);
    }
    assert OnTrackAt(Next(s, UserDone(op)), op.key)
      <==> (LastSet(s.pending, op.key).None? || LastSet(s.pending, op.key) == Some(op.value));
  }

  function Exec(s: State, steps: seq<Step>): State {
    if steps == [] then s else Next(Exec(s, steps[..|steps| - 1]), steps[|steps| - 1])
  }

  // ----- an uninterrupted flush is one of these runs -----

  function Ops(rows: seq<(nat, OfflineOp)>): seq<OfflineOp> {
    seq(|rows|, i requires 0 <= i < |rows| => rows[i].1)
  }

  /** One attempt: the flush starts, and its requests are answered one by one. */
  function Attempt(replies: seq<Reply>): seq<Step> {
    [StartFlush] + seq(|replies|, i requires 0 <= i < |replies| => Answered(replies[i]))
  }

  /** Before it stops, a flush passes unknown operations and requests that succeed; a failed request stops it. */
  lemma {:induction false} FlushedStops(rows: seq<(nat, OfflineOp)>, replies: seq<Reply>)
    requires |replies| >= |rows|
    ensures var k := Flushed(rows, replies);
      && (forall i | 0 <= i < k :: rows[i].1.Unknown? || replies[i].Done?)
      && (k < |rows| ==> rows[k].1.Set? && replies[k].Failed?)
  {
    var k := Flushed(rows, replies);
    if k > 0 {
      FlushedStops(rows[1..], replies[1..]);
      assert forall i | 0 < i < k :: rows[i] == rows[1..][i - 1] && replies[i] == replies[1..][i - 1];
    }
  }

  lemma AttemptStep(s: State, replies: seq<Reply>, n: nat)
    requires n < |replies|
    ensures Exec(s, Attempt(replies[..n + 1])) == Next(Exec(s, Attempt(replies[..n])), Answered(replies[n]))
  {
    var steps := Attempt(replies[..n + 1]);
    assert steps[..|steps| - 1] == Attempt(replies[..n]);
  }

  /** After `n` answers: the first `n` operations are dealt with, or the flush has stopped. */
  function SoFar(s: State, rows: seq<(nat, OfflineOp)>, replies: seq<Reply>, n: nat): State
    requires n <= |rows| == |replies|
  {
    var k := Flushed(rows, replies);
    if n <= k then s.(pending := Ops(rows[n..]), sending := |rows| - n, phone := Play(rows[..n], s.phone))
    else s.(pending := Ops(rows[k..]), sending := 0, phone := FlushedPhone(rows, replies, k, s.phone))
  }

  lemma OneAnswer(s: State, rows: seq<(nat, OfflineOp)>, replies: seq<Reply>, n: nat)
    requires n < |rows| == |replies|
    ensures Next(SoFar(s, rows, replies, n), Answered(replies[n])) == SoFar(s, rows, replies, n + 1)
  {
    FlushedStops(rows, replies);
    if n <= Flushed(rows, replies) {
      assert Ops(rows[n..])[0] == rows[n].1 && Ops(rows[n..])[1..] == Ops(rows[n + 1..]);
      assert rows[..n + 1][..n] == rows[..n];
    }
  }

  lemma {:induction false} AfterAnswers(s: State, rows: seq<(nat, OfflineOp)>, replies: seq<Reply>, n: nat)
    requires n <= |rows| == |replies| && s.pending == Ops(rows)
    ensures Exec(s, Attempt(replies[..n])) == SoFar(s, rows, replies, n)
  {
    if n == 0 {
      assert Attempt(replies[..0]) == [StartFlush] && [StartFlush][..0] == [];
      assert Exec(s, []) == s;
      assert rows[0..] == rows;
    } else {
      AfterAnswers(s, rows, replies, n - 1);
      AttemptStep(s, replies, n - 1);
      OneAnswer(s, rows, replies, n - 1);
    }
  }

  /** The flush of `FlushPendingOperations` leaves queue and phone as one attempt of the step machine does. */
  lemma FlushIsAttempt(s: State, rows: seq<(nat, OfflineOp)>, replies: seq<Reply>)
    requires |replies| == |rows| && s.pending == Ops(rows)
    ensures var k := Flushed(rows, replies);
      Exec(s, Attempt(replies)) == s.(pending := Ops(rows[k..]), sending := 0, phone := FlushedPhone(rows, replies, k, s.phone))
  {
    AfterAnswers(s, rows, replies, |rows|);
    assert replies[..|rows|] == replies && rows[..|rows|] == rows;
  }

  function Queued(steps: seq<Step>): seq<OfflineOp> {
    if steps == [] then []
    else
      var step := steps[|steps| - 1];
      Queued(steps[..|steps| - 1]) + if step.UserFailed? then [step.op] else []
  }

  function RunAll(ops: seq<OfflineOp>, phone: Registers): Registers {
    if ops == [] then phone else Run(ops[|ops| - 1], RunAll(ops[..|ops| - 1], phone))
  }

  ghost predicate Suffix(pending: seq<OfflineOp>, queued: seq<OfflineOp>) {
    exists k :: 0 <= k <= |queued| && pending == queued[k..]
  }

  lemma SuffixGrows(pending: seq<OfflineOp>, queued: seq<OfflineOp>, op: OfflineOp)
    requires Suffix(pending, queued)
    ensures Suffix(pending + [op], queued + [op])
  {
    var k :| 0 <= k <= |queued| && pending == queued[k..];
    assert pending + [op] == (queued + [op])[k..];
  }

  /** The queue is always what is left of the operations queued so far after a prefix of them has gone. */
  lemma {:induction false} QueueIsSuffix(start: State, steps: seq<Step>)
    requires start.pending == []
    ensures Suffix(Exec(start, steps).pending, Queued(steps))
  {
    if steps == [] {
      assert start.pending == Queued(steps)[0..];
    } else {
      var n := |steps| - 1;
      var before := Exec(start, steps[..n]);
      QueueIsSuffix(start, steps[..n]);
      if steps[n].UserFailed? {
        SuffixGrows(before.pending, Queued(steps[..n]), steps[n].op);
      } else {
        assert Queued(steps) == Queued(steps[..n]);
        if before.pending != [] {
        }
      }
    }
  }

  function Fresh(phone: Registers): State {
    State([], 0, phone, phone)
  }

  /** What the user asked for, in order, whether it was done at once or queued. */
  function Asked(steps: seq<Step>): seq<OfflineOp> {
    if steps == [] then []
    else
      var step := steps[|steps| - 1];
      Asked(steps[..|steps| - 1]) + if step.UserFailed? || step.UserDone? then [step.op] else []
  }

  lemma RunAllAppend(ops: seq<OfflineOp>, op: OfflineOp, phone: Registers)
    ensures RunAll(ops + [op], phone) == Run(op, RunAll(ops, phone))
    ensures ops + [] == ops
  {
    assert (ops + [op])[..|ops|] == ops;
  }

  lemma {:induction false} IntentIsRunAll(start: State, steps: seq<Step>)
    ensures Exec(start, steps).intent == RunAll(Asked(steps), start.intent)
  {
    if steps != [] {
      var n := |steps| - 1;
      IntentIsRunAll(start, steps[..n]);
      RunAllAppend(Asked(steps[..n]), if steps[n].UserFailed? || steps[n].UserDone? then steps[n].op else Unknown, start.intent);
    }
  }

  /**
   * The user's last request about the register was queued, or it succeeded when no queued operation set the register
   * to another value; with no request about it the register was on track from the start.
   */
  predicate Honoured(start: State, steps: seq<Step>, key: Key) {
    if steps == [] then OnTrackAt(start, key)
    else
      var n := |steps| - 1;
      if !Concerns(steps[n], key) then Honoured(start, steps[..n], key)
      else
        var queued := LastSet(Exec(start, steps[..n]).pending, key);
        steps[n].UserFailed? || queued.None? || queued == Some(steps[n].op.value)
  }

  lemma {:induction false} OnTrackIff(start: State, steps: seq<Step>, key: Key)
    ensures OnTrackAt(Exec(start, steps), key) <==> Honoured(start, steps, key)
  {
    if steps != [] {
      var n := |steps| - 1;
      OnTrackIff(start, steps[..n], key);
      StepAt(Exec(start, steps[..n]), steps[n], key);
    }
  }

  lemma {:induction false} HonouredWithoutDone(start: State, steps: seq<Step>, key: Key)
    requires OnTrackAt(start, key) && forall step | step in steps :: !step.UserDone?
    ensures Honoured(start, steps, key)
  {
    if steps != [] {
      HonouredWithoutDone(start, steps[..|steps| - 1], key);
      assert steps[|steps| - 1] in steps;
    }
  }

  ghost predicate AllHonoured(start: State, steps: seq<Step>) {
    forall key :: Honoured(start, steps, key)
  }

  lemma OnTrackExactly(start: State, steps: seq<Step>)
    ensures OnTrack(Exec(start, steps)) <==> AllHonoured(start, steps)
  {
    var r := Exec(start, steps);
    if OnTrack(r) {
      forall key ensures Honoured(start, steps, key)
      {
        assert OnTrackAt(r, key);
        OnTrackIff(start, steps, key);
      }
    }
    if AllHonoured(start, steps) {
      forall key ensures OnTrackAt(r, key)
      {
        assert Honoured(start, steps, key);
        OnTrackIff(start, steps, key);
      }
    }
  }

  lemma EmptyQueueShowsPhone(s: State)
    requires s.pending == []
    ensures s.phone == s.intent <==> OnTrack(s)
  {
    if OnTrack(s) {
      forall key ensures Lookup(s.phone, key) == Lookup(s.intent, key)
      {
        assert OnTrackAt(s, key);
      }
      SameLookups(s.phone, s.intent);
    }
  }

  /**
   * In any run, with attempts failing anywhere and the user's requests succeeding or being queued in between: when the
   * queue is empty, the phone's registers are as if every request had run once, in order, exactly if each register is
   * honoured.
   */
  lemma ReplayedIff(phone: Registers, steps: seq<Step>)
    requires Exec(Fresh(phone), steps).pending == []
    ensures Exec(Fresh(phone), steps).phone == RunAll(Asked(steps), phone)
       <==> AllHonoured(Fresh(phone), steps)
  {
    var r := Exec(Fresh(phone), steps);
    IntentIsRunAll(Fresh(phone), steps);
    EmptyQueueShowsPhone(r);
    OnTrackExactly(Fresh(phone), steps);
  }

  lemma {:induction false} AskedWithoutDone(steps: seq<Step>)
    requires forall step | step in steps :: !step.UserDone?
    ensures Asked(steps) == Queued(steps)
  {
    if steps != [] {
      AskedWithoutDone(steps[..|steps| - 1]);
      assert steps[|steps| - 1] in steps;
    }
  }

  /**
   * In particular, after any number of attempts, each failing anywhere, an empty queue means the phone's registers are
   * as if every queued operation had run once, in order.
   */
  lemma ReplayedOnceInOrder(phone: Registers, steps: seq<Step>)
    requires forall step | step in steps :: !step.UserDone?
    ensures Exec(Fresh(phone), steps).pending == [] ==>
      Exec(Fresh(phone), steps).phone == RunAll(Queued(steps), phone)
  {
    AskedWithoutDone(steps);
    if Exec(Fresh(phone), steps).pending == [] {
      forall key ensures Honoured(Fresh(phone), steps, key)
      {
        HonouredWithoutDone(Fresh(phone), steps, key);
      }
      ReplayedIff(phone, steps);
    }
  }
}
