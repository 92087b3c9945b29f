/** Gallery thumbnails: at most five requests to the phone at a time, the others wait their turn. */
module Thumbnails {
  const MAX_CONCURRENT_THUMBNAILS: nat := 5

  /**
   * `active` is the code's counter. `fetching` are the requests that are really open, `done` those answered,
   * `rejected` those dropped from the queue; requests are numbered as they come in.
   */
  datatype State = State(
    active: nat, queue: seq<nat>, issued: nat, fetching: seq<nat>, done: seq<nat>, rejected: seq<nat>)

  const INITIAL := State(0, [], 0, [], [], [])

  function Fetch(s: State, id: nat): State {
    s.(active := s.active + 1, fetching := s.fetching + [id])
  }

  /** Start waiting requests while there is room. */
  function Drain(s: State): State
    decreases |s.queue|
  {
    if s.queue == [] || s.active >= MAX_CONCURRENT_THUMBNAILS then s
    else Drain(Fetch(s.(queue := s.queue[1..]), s.queue[0]))
  }

  /** `known`: the thumbnail is cached, or is known to fail. */
  function Get(s: State, known: bool): State {
    var id, s' := s.issued, s.(issued := s.issued + 1);
    if known then s'.(done := s.done + [id])
    else if s.active >= MAX_CONCURRENT_THUMBNAILS then s'.(queue := s.queue + [id])
    else Fetch(s', id)
  }

  function Without(ids: seq<nat>, i: nat): seq<nat>
    requires i < |ids|
  {
    ids[..i] + ids[i + 1..]
  }

  /** The phone answers, refuses or times out; which open request it is does not matter. */
  function Finish(s: State, i: nat): State
    requires i < |s.fetching| && s.active > 0
  {
    Drain(s.(active := s.active - 1, fetching := Without(s.fetching, i), done := s.done + [s.fetching[i]]))
  }

  /** Shutting down empties the queue; the open requests are rejected and finish one by one. */
  function Destroy(s: State): State {
    s.(queue := [], rejected := s.rejected + s.queue)
  }

  class Handler {
    var activeThumbnails: nat
    var thumbnailQueue: seq<nat>
    var nextId: nat
    ghost var fetching: seq<nat>
    ghost var done: seq<nat>
    ghost var rejected: seq<nat>

    ghost function View(): State
      reads this
    {
      State(activeThumbnails, thumbnailQueue, nextId, fetching, done, rejected)
    }

    constructor ()
      ensures View() == INITIAL
    {
      activeThumbnails, thumbnailQueue, nextId := 0, [], 0;
      fetching, done, rejected := [], [], [];
    }

    method GetThumbnail(known: bool)
      modifies this
      ensures View() == Get(old(View()), known)
    {
      var id := nextId;
      nextId := nextId + 1;
      if known {
        done := done + [id];
        return;
      }
      if activeThumbnails >= MAX_CONCURRENT_THUMBNAILS {
        thumbnailQueue := thumbnailQueue + [id];
        return;
      }
      activeThumbnails, fetching := activeThumbnails + 1, fetching + [id];
    }

    method FetchEnds(ghost i: nat)
      requires i < |fetching| && activeThumbnails > 0
      modifies this
      ensures View() == Finish(old(View()), i)
    {
      activeThumbnails := activeThumbnails - 1;
      fetching, done := Without(fetching, i), done + [fetching[i]];
      DrainThumbnailQueue();
    }

    method DrainThumbnailQueue()
      modifies this
      ensures View() == Drain(old(View()))
    {
      while thumbnailQueue != [] && activeThumbnails < MAX_CONCURRENT_THUMBNAILS
        invariant Drain(View()) == Drain(old(View()))
        decreases |thumbnailQueue|
      {
        var next := thumbnailQueue[0];
        thumbnailQueue := thumbnailQueue[1..];
        activeThumbnails, fetching := activeThumbnails + 1, fetching + [next];
      }
    }
  }

  // ----- every run -----

  datatype Event = Requested(known: bool) | Ended(i: nat) | Destroyed

  function Next(s: State, e: Event): State {
    match e
    case Requested(known) => Get(s, known)
    case Ended(i) => if i < |s.fetching| && s.active > 0 then Finish(s, i) else s
    case Destroyed => Destroy(s)
  }

  function Exec(events: seq<Event>): State {
    if events == [] then INITIAL else Next(Exec(events[..|events| - 1]), events[|events| - 1])
  }

  lemma ExecAppend(events: seq<Event>, e: Event)
    ensures Exec(events + [e]) == Next(Exec(events), e)
  {
    assert (events + [e])[..|events|] == events;
  }

  ghost function Places(s: State): multiset<nat> {
    multiset(s.queue) + multiset(s.fetching) + multiset(s.done) + multiset(s.rejected)
  }

  /** The counter is right and bounded, nobody waits while there is room, and every request is in one place, once. */
  ghost predicate Inv(s: State) {
    && s.active == |s.fetching| <= MAX_CONCURRENT_THUMBNAILS
    && (s.queue != [] ==> s.active == MAX_CONCURRENT_THUMBNAILS)
    && (forall id: nat :: Places(s)[id] == if id < s.issued then 1 else 0)
  }

  lemma {:induction false} DrainRestores(s: State)
    requires s.active == |s.fetching| <= MAX_CONCURRENT_THUMBNAILS
    ensures var r := Drain(s);
      && r.active == |r.fetching| <= MAX_CONCURRENT_THUMBNAILS
      && (r.queue != [] ==> r.active == MAX_CONCURRENT_THUMBNAILS)
      && Places(r) == Places(s) && r.issued == s.issued
    decreases |s.queue|
  {
    if !(s.queue == [] || s.active >= MAX_CONCURRENT_THUMBNAILS) {
      var started := Fetch(s.(queue := s.queue[1..]), s.queue[0]);
      assert s.queue == [s.queue[0]] + s.queue[1..];
      assert Places(started) == Places(s);
      DrainRestores(started);
    }
  }

  lemma WithoutOne(ids: seq<nat>, i: nat)
    requires i < |ids|
    ensures multiset(ids) == multiset(Without(ids, i)) + multiset{ids[i]}
  {
    assert ids == ids[..i] + [ids[i]] + ids[i + 1..];
  }

  lemma GetKeepsInv(s: State, known: bool)
    requires Inv(s)
    ensures Inv(Get(s, known))
  {
    var r := Get(s, known);
    if known {
      assert r.done == s.done + [s.issued];
    } else if s.active >= MAX_CONCURRENT_THUMBNAILS {
      assert r.queue == s.queue + [s.issued];
    } else {
      assert r.fetching == s.fetching + [s.issued];
    }
    assert Places(r) == Places(s) + multiset{s.issued};
  }

  lemma FinishKeepsInv(s: State, i: nat)
    requires Inv(s) && i < |s.fetching|
    ensures Inv(Finish(s, i))
  {
    var ended := s.(active := s.active - 1, fetching := Without(s.fetching, i), done := s.done + [s.fetching[i]]);
    WithoutOne(s.fetching, i);
    assert Places(ended) == Places(s);
    DrainRestores(ended);
  }

  lemma NextKeepsInv(s: State, e: Event)
    requires Inv(s)
    ensures Inv(Next(s, e))
  {
    if e.Requested? {
      GetKeepsInv(s, e.known);
    } else if e.Destroyed? {
      assert Places(Destroy(s)) == Places(s);
    } else if e.i < |s.fetching| {
      FinishKeepsInv(s, e.i);
    }
  }

  /** In every reachable state the number of open requests is the counter, at most five, and exactly five if any waits. */
  lemma {:induction false} Reachable(events: seq<Event>)
    ensures Inv(Exec(events))
  {
    if events != [] {
      Reachable(events[..|events| - 1]);
      NextKeepsInv(Exec(events[..|events| - 1]), events[|events| - 1]);
    }
  }

  /** Waiting requests are started in the order in which they came in: none started or waiting is overtaken. */
  ghost predicate InOrder(s: State) {
    && (forall i, j | 0 <= i < j < |s.queue| :: s.queue[i] < s.queue[j])
    && (forall i, j | 0 <= i < |s.fetching| && 0 <= j < |s.queue| :: s.fetching[i] < s.queue[j])
    && (forall j | 0 <= j < |s.queue| :: s.queue[j] < s.issued)
    && (forall i | 0 <= i < |s.fetching| :: s.fetching[i] < s.issued)
  }

  lemma {:induction false} DrainInOrder(s: State)
    requires InOrder(s)
    ensures InOrder(Drain(s)) && Drain(s).done == s.done && Drain(s).rejected == s.rejected
    decreases |s.queue|
  {
    if !(s.queue == [] || s.active >= MAX_CONCURRENT_THUMBNAILS) {
      DrainInOrder(Fetch(s.(queue := s.queue[1..]), s.queue[0]));
    }
  }

  /** In every run; and each callback answers or rejects exactly what it is for. */
  lemma {:induction false} StartedInOrder(events: seq<Event>)
    ensures InOrder(Exec(events))
  {
    if events != [] {
      var s, e := Exec(events[..|events| - 1]), events[|events| - 1];
      StartedInOrder(events[..|events| - 1]);
      Reachable(events[..|events| - 1]);
      StaysInOrder(s, e);
    }
  }

  lemma StaysInOrder(s: State, e: Event)
    requires Inv(s) && InOrder(s)
    ensures InOrder(Next(s, e))
  {
    if e.Ended? && e.i < |s.fetching| && s.active > 0 {
      DrainInOrder(s.(active := s.active - 1, fetching := Without(s.fetching, e.i), done := s.done + [s.fetching[e.i]]));
    }
  }

  lemma WhoIsAnswered(s: State, e: Event)
    requires Inv(s) && InOrder(s)
    ensures var r := Next(s, e);
      && r.done == s.done + (match e
           case Requested(known) => if known then [s.issued] else []
           case Ended(i) => if i < |s.fetching| then [s.fetching[i]] else []
           case Destroyed => [])
      && r.rejected == s.rejected + (if e.Destroyed? then s.queue else [])
      && (e.Requested? && !e.known && s.active < MAX_CONCURRENT_THUMBNAILS ==> r.fetching == s.fetching + [s.issued])
      && (e.Requested? && !e.known && s.active >= MAX_CONCURRENT_THUMBNAILS ==> r.queue == s.queue + [s.issued])
  {
    if e.Ended? && e.i < |s.fetching| {
      DrainInOrder(s.(active := s.active - 1, fetching := Without(s.fetching, e.i), done := s.done + [s.fetching[e.i]]));
    }
  }
}
