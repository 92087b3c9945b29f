/**
 * One answer: pages of the active query in any order, mixed with pages of other queries, and with other callers
 * issuing queries of their own.
 */
module QueryPages {
  import opened Wrappers
  import opened QueryClient
  import opened QueryClientRuns

  /** What may happen while an answer comes in: anything but a timeout, a disconnect, or an abort of its resource. */
  predicate Undisturbed(e: Event, resource: string) {
    e.Connect? || e.IssueOne? || e.PageArrives? || (e.AbortOne? && e.resource != resource)
  }

  function OwnPage(e: Event, id: nat): seq<Page> {
    if e.PageArrives? && e.page.queryId == id then [e.page] else []
  }

  /** The pages that arrive for query `id`. */
  function Own(events: seq<Event>, id: nat): seq<Page> {
    if events == [] then [] else Own(events[..|events| - 1], id) + OwnPage(events[|events| - 1], id)
  }

  function NewQuery(e: Event, id: nat): seq<Queued> {
    if e.IssueOne? then [Queued(id, e.resource)] else []
  }

  /** The queries issued meanwhile, numbered from `next`. */
  function Joining(events: seq<Event>, next: nat): seq<Queued> {
    if events == [] then []
    else
      var before := Joining(events[..|events| - 1], next);
      before + NewQuery(events[|events| - 1], next + |before|)
  }

  function Acks(own: seq<Page>): seq<Packet> {
    seq(|own|, i requires 0 <= i < |own| => Ack(own[i].queryId, own[i].pageId))
  }

  function ReceiveAll(q: Pending, own: seq<Page>): Pending {
    if own == [] then q else Receive(ReceiveAll(q, own[..|own| - 1]), own[|own| - 1])
  }

  predicate Fresh(q: Pending) {
    q.pages == map[] && q.totalPages == None && q.receivedCount == 0 && q.timestamp == None
  }

  /** The pages are parts of one answer of `|data|` pages. */
  ghost predicate PartsOf(own: seq<Page>, id: nat, data: seq<seq<Item>>) {
    forall p | p in own ::
      p.queryId == id && p.totalPages == |data| && 1 <= p.page <= |data| && p.data == data[p.page - 1]
  }

  ghost predicate Has(own: seq<Page>, k: int) {
    exists i :: 0 <= i < |own| && own[i].page == k
  }

  lemma HasSplit(own: seq<Page>, k: int)
    requires own != []
    ensures Has(own, k) <==> (Has(own[..|own| - 1], k) || own[|own| - 1].page == k)
  {
    var n := |own| - 1;
    if Has(own[..n], k) {
      var i :| 0 <= i < n && own[..n][i].page == k;
      assert own[i].page == k;
    }
    if i :| 0 <= i < n && own[i].page == k {
      assert own[..n][i].page == k;
    }
  }

  /** What the pending record holds after some pages. */
  lemma {:induction false} Received(q: Pending, own: seq<Page>, data: seq<seq<Item>>)
    requires Fresh(q) && PartsOf(own, q.id, data)
    ensures var r := ReceiveAll(q, own);
      && r.id == q.id && r.resource == q.resource && r.streaming == q.streaming
      && r.receivedCount == |own|
      && (own != [] ==> r.totalPages == Some(|data|))
      && (forall k :: Lookup(r.pages, k) == if Has(own, k) && 1 <= k <= |data| then Some(data[k - 1]) else None)
  {
    if own == [] {
    } else {
      var n := |own| - 1;
      assert own[n] in own;
      assert forall p | p in own[..n] :: p in own;
      Received(q, own[..n], data);
      forall k
        ensures Lookup(ReceiveAll(q, own).pages, k)
             == if Has(own, k) && 1 <= k <= |data| then Some(data[k - 1]) else None
      {
        HasSplit(own, k);
      }
    }
  }

  /** The client while the answer is incomplete: only its own pages and the new queries have left a trace. */
  function Waiting(s: State, q: Pending, own: seq<Page>, joining: seq<Queued>): State {
    s.(active := Some(ReceiveAll(q, own)), sent := s.sent + Acks(own),
       streamed := s.streamed + (if q.streaming then own else []),
       queue := s.queue + joining, issued := s.issued + |joining|)
  }

  lemma AcksGrow(own: seq<Page>, p: Page)
    ensures Acks(own + [p]) == Acks(own) + [Ack(p.queryId, p.pageId)]
    ensures (own + [p])[..|own|] == own
  {
  }

  /** One more page of the answer that does not complete it. */
  lemma WaitOn(s: State, q: Pending, own: seq<Page>, joining: seq<Queued>, p: Page, data: seq<seq<Item>>)
    requires Armed(s) && s.active == Some(q) && Fresh(q)
    requires PartsOf(own + [p], q.id, data) && |own| + 1 < |data|
    ensures HandlePage(Waiting(s, q, own, joining), p) == Waiting(s, q, own + [p], joining)
  {
    AcksGrow(own, p);
    assert forall o | o in own :: o in own + [p];
    assert p in own + [p];
    Received(q, own, data);
    Received(q, own + [p], data);
    assert s.sent + Acks(own + [p]) == s.sent + Acks(own) + [Ack(p.queryId, p.pageId)];
    assert s.streamed + (own + [p]) == s.streamed + own + [p];
  }

  /** One more query has to wait. */
  lemma JoinOn(s: State, q: Pending, own: seq<Page>, joining: seq<Queued>, resource: string, streaming: bool)
    requires Armed(s) && s.active.Some?
    ensures Issue(Waiting(s, q, own, joining), resource, streaming)
         == Waiting(s, q, own, joining + [Queued(s.issued + |joining|, resource)])
  {
    assert s.queue + (joining + [Queued(s.issued + |joining|, resource)])
        == s.queue + joining + [Queued(s.issued + |joining|, resource)];
  }

  /** Any other event leaves no trace. */
  lemma NothingOn(w: State, q: Pending, e: Event)
    requires w.connected && w.active.Some? && w.active.value.id == q.id && w.active.value.resource == q.resource
    requires Undisturbed(e, q.resource) && !e.IssueOne? && !(e.PageArrives? && e.page.queryId == q.id)
    ensures Next(w, e) == w
  {
  }

  /** One more event that does not complete the answer. */
  lemma WaitsOn(s: State, q: Pending, own: seq<Page>, joining: seq<Queued>, e: Event, data: seq<seq<Item>>)
    requires Armed(s) && s.active == Some(q) && Fresh(q) && Undisturbed(e, q.resource)
    requires PartsOf(own + OwnPage(e, q.id), q.id, data) && |own + OwnPage(e, q.id)| < |data|
    ensures Next(Waiting(s, q, own, joining), e)
         == Waiting(s, q, own + OwnPage(e, q.id), joining + NewQuery(e, s.issued + |joining|))
  {
    assert own + [] == own && joining + [] == joining;
    if e.IssueOne? {
      JoinOn(s, q, own, joining, e.resource, e.streaming);
    } else if e.PageArrives? && e.page.queryId == q.id {
      WaitOn(s, q, own, joining, e.page, data);
    } else {
      Received(q, own, data);
      NothingOn(Waiting(s, q, own, joining), q, e);
    }
  }

  lemma NothingYet(s: State, q: Pending)
    requires s.active == Some(q)
    ensures Waiting(s, q, [], []) == s
  {
    assert s.sent + Acks([]) == s.sent;
    assert s.streamed + [] == s.streamed && s.queue + [] == s.queue;
  }

  ghost predicate AllUndisturbed(events: seq<Event>, resource: string) {
    forall e | e in events :: Undisturbed(e, resource)
  }

  /** What holds for all but the last event. */
  lemma Before(events: seq<Event>, id: nat, resource: string, data: seq<seq<Item>>)
    requires events != [] && AllUndisturbed(events, resource) && PartsOf(Own(events, id), id, data)
    ensures var n := |events| - 1;
      && AllUndisturbed(events[..n], resource) && Undisturbed(events[n], resource)
      && Own(events, id) == Own(events[..n], id) + OwnPage(events[n], id)
      && PartsOf(Own(events[..n], id), id, data)
  {
    assert events[|events| - 1] in events;
    assert forall p | p in Own(events[..|events| - 1], id) :: p in Own(events, id);
  }

  lemma {:induction false} StillWaiting(s: State, q: Pending, events: seq<Event>, data: seq<seq<Item>>)
    requires Armed(s) && s.active == Some(q) && Fresh(q)
    requires AllUndisturbed(events, q.resource)
    requires PartsOf(Own(events, q.id), q.id, data) && |Own(events, q.id)| < |data|
    ensures Exec(s, events) == Waiting(s, q, Own(events, q.id), Joining(events, s.issued))
  {
    if events == [] {
      NothingYet(s, q);
    } else {
      var n := |events| - 1;
      Before(events, q.id, q.resource, data);
      StillWaiting(s, q, events[..n], data);
      WaitsOn(s, q, Own(events[..n], q.id), Joining(events[..n], s.issued), events[n], data);
    }
  }

  /** The page that completes the answer. */
  lemma LastPage(s: State, q: Pending, own: seq<Page>, joining: seq<Queued>, p: Page, data: seq<seq<Item>>)
    requires Armed(s) && s.active == Some(q) && Fresh(q)
    requires PartsOf(own + [p], q.id, data) && |own| + 1 == |data|
    ensures var all := own + [p]; var last := ReceiveAll(q, all);
      HandlePage(Waiting(s, q, own, joining), p) == Complete(Waiting(s, q, all, joining), last)
      && last.id == q.id && last.totalPages == Some(|data|)
  {
    AcksGrow(own, p);
    assert forall o | o in own :: o in own + [p];
    assert p in own + [p];
    Received(q, own, data);
    Received(q, own + [p], data);
    assert s.sent + Acks(own + [p]) == s.sent + Acks(own) + [Ack(p.queryId, p.pageId)];
    assert s.streamed + (own + [p]) == s.streamed + own + [p];
  }

  lemma CompleteEffect(w: State, q: Pending)
    requires w.connected
    ensures var r := Complete(w, q);
      && r.settled == w.settled + [(q.id, Resolved(ConcatPages(q.pages, q.totalPages.GetOr(0))))]
      && r.sent == w.sent + (if w.queue == [] then [] else [Query(w.queue[0].id, w.queue[0].resource)])
      && r.queue == (if w.queue == [] then [] else w.queue[1..])
      && r.lastTimestamp == q.timestamp
      && r.streamed == w.streamed
  {
  }

  /** The last event of `events` is the last of the announced pages, the others leave the answer alone. */
  ghost predicate Answer(q: Pending, events: seq<Event>, data: seq<seq<Item>>) {
    && PartsOf(Own(events, q.id), q.id, data) && |Own(events, q.id)| == |data|
    && events != [] && events[|events| - 1].PageArrives? && events[|events| - 1].page.queryId == q.id
    && AllUndisturbed(events, q.resource)
  }

  /**
   * When as many pages as announced have come in, the promise resolves, each page has been acknowledged once, and
   * the next query goes out.
   */
  lemma Completes(s: State, q: Pending, events: seq<Event>, data: seq<seq<Item>>)
    requires Armed(s) && s.active == Some(q) && Fresh(q) && Answer(q, events, data)
    ensures var own, r, waiting := Own(events, q.id), Exec(s, events), s.queue + Joining(events, s.issued);
      var last := ReceiveAll(q, own);
      && r.settled == s.settled + [(q.id, Resolved(ConcatPages(last.pages, |data|)))]
      && r.sent == s.sent + Acks(own) + (if waiting == [] then [] else [Query(waiting[0].id, waiting[0].resource)])
      && r.queue == (if waiting == [] then [] else waiting[1..])
      && r.lastTimestamp == last.timestamp
      && r.streamed == s.streamed + if q.streaming then own else []
  {
    var n := |events| - 1;
    var before, p := Own(events[..n], q.id), events[n].page;
    var own, joining := before + [p], Joining(events, s.issued);
    assert joining == Joining(events[..n], s.issued) + [];
    UpToLast(s, q, events, data);
    CompleteEffect(Waiting(s, q, own, joining), ReceiveAll(q, own));
  }

  lemma UpToLast(s: State, q: Pending, events: seq<Event>, data: seq<seq<Item>>)
    requires Armed(s) && s.active == Some(q) && Fresh(q) && Answer(q, events, data)
    ensures var own := Own(events, q.id); var last := ReceiveAll(q, own);
      Exec(s, events) == Complete(Waiting(s, q, own, Joining(events, s.issued)), last)
      && last.id == q.id && last.totalPages == Some(|data|)
  {
    var n := |events| - 1;
    var joining := Joining(events[..n], s.issued);
    assert joining + [] == joining;
    Before(events, q.id, q.resource, data);
    StillWaiting(s, q, events[..n], data);
    LastPage(s, q, Own(events[..n], q.id), joining, events[n].page, data);
  }

  // ----- is it the whole answer? -----

  lemma {:induction false} ConcatUpTo(pages: map<int, seq<Item>>, data: seq<seq<Item>>, n: nat)
    requires n <= |data|
    requires forall k | 1 <= k <= |data| && k in pages :: pages[k] == data[k - 1]
    ensures |ConcatPages(pages, n)| <= |Flatten(data[..n])|
    ensures |ConcatPages(pages, n)| == |Flatten(data[..n])| ==> ConcatPages(pages, n) == Flatten(data[..n])
    ensures |ConcatPages(pages, n)| == |Flatten(data[..n])|
       <==> forall k | 1 <= k <= n && data[k - 1] != [] :: k in pages
  {
    if n > 0 {
      ConcatUpTo(pages, data, n - 1);
      assert data[..n][..n - 1] == data[..n - 1];
    }
  }

  /**
   * The resolved value is page 1 ++ ... ++ page n exactly when every page with data is among the n that came.
   * A page delivered twice therefore costs another page, unless that one is empty.
   */
  lemma WholeAnswerIff(q: Pending, own: seq<Page>, data: seq<seq<Item>>)
    requires Fresh(q) && PartsOf(own, q.id, data)
    ensures ConcatPages(ReceiveAll(q, own).pages, |data|) == Flatten(data)
       <==> forall k | 1 <= k <= |data| && data[k - 1] != [] :: Has(own, k)
  {
    var pages := ReceiveAll(q, own).pages;
    Received(q, own, data);
    forall k ensures k in pages <==> Lookup(pages, k).Some?
    {
    }
    assert forall k | 1 <= k <= |data| :: k in pages <==> Has(own, k) by {
      assert forall k | 1 <= k <= |data| :: Lookup(pages, k).Some? <==> Has(own, k);
    }
    assert forall k | k in pages :: Lookup(pages, k) == Some(pages[k]);
    ConcatUpTo(pages, data, |data|);
    assert data[..|data|] == data;
  }

  function Numbers(own: seq<Page>): set<int> {
    set i | 0 <= i < |own| :: own[i].page
  }

  lemma {:induction false} CountNumbers(own: seq<Page>)
    requires forall i, j | 0 <= i < j < |own| :: own[i].page != own[j].page
    ensures |Numbers(own)| == |own|
  {
    if own != [] {
      var n := |own| - 1;
      CountNumbers(own[..n]);
      forall k ensures k in Numbers(own) <==> k in Numbers(own[..n]) + {own[n].page}
      {
        if i :| 0 <= i < n && own[i].page == k {
          assert own[..n][i].page == k;
        }
      }
      SameSets(Numbers(own), Numbers(own[..n]) + {own[n].page});
      assert own[n].page !in Numbers(own[..n]);
    }
  }

  function UpTo(n: nat): set<int> {
    if n == 0 then {} else UpTo(n - 1) + {n}
  }

  lemma {:induction false} UpToSize(n: nat)
    ensures |UpTo(n)| == n && forall k :: k in UpTo(n) <==> 1 <= k <= n
  {
    if n > 0 {
      UpToSize(n - 1);
    }
  }

  lemma SubsetOfSameSize<T>(a: set<T>, b: set<T>)
    requires a <= b && |a| == |b|
    ensures a == b
  {
    assert |b - a| == |b| - |a|;
  }

  /** Each of pages 1..n exactly once, in any order: nothing is missing and nothing is out of place. */
  lemma EachPageOnce(q: Pending, own: seq<Page>, data: seq<seq<Item>>)
    requires Fresh(q) && PartsOf(own, q.id, data) && |own| == |data|
    requires forall i, j | 0 <= i < j < |own| :: own[i].page != own[j].page
    ensures ConcatPages(ReceiveAll(q, own).pages, |data|) == Flatten(data)
  {
    CountNumbers(own);
    UpToSize(|data|);
    forall k | k in Numbers(own) ensures k in UpTo(|data|)
    {
      var i :| 0 <= i < |own| && own[i].page == k;
      assert own[i] in own;
    }
    SubsetOfSameSize(Numbers(own), UpTo(|data|));
    forall k | 1 <= k <= |data| ensures Has(own, k)
    {
      assert k in Numbers(own);
    }
    WholeAnswerIff(q, own, data);
  }

  /**
   * The engine's promise: whatever else is in flight or being asked, once the phone has delivered pages 1..n once
   * each, in any order, the caller has page 1 ++ ... ++ page n, every page of the answer has been acknowledged once,
   * and the query that has waited longest goes out.
   */
  lemma AnswerDelivered(s: State, q: Pending, events: seq<Event>, data: seq<seq<Item>>)
    requires Inv(s) && s.active == Some(q) && Fresh(q) && Answer(q, events, data)
    requires var own := Own(events, q.id); forall i, j | 0 <= i < j < |own| :: own[i].page != own[j].page
    ensures var own, r, waiting := Own(events, q.id), Exec(s, events), s.queue + Joining(events, s.issued);
      && r.settled == s.settled + [(q.id, Resolved(Flatten(data)))]
      && r.sent == s.sent + Acks(own) + (if waiting == [] then [] else [Query(waiting[0].id, waiting[0].resource)])
      && r.lastTimestamp == ReceiveAll(q, own).timestamp
  {
    Completes(s, q, events, data);
    EachPageOnce(q, Own(events, q.id), data);
  }

  /** The first timestamp among the pages that is present and not zero. */
  function FirstStamp(own: seq<Page>): Option<int> {
    if own == [] then None
    else if own[0].timestamp.Some? && own[0].timestamp != Some(0) then own[0].timestamp
    else FirstStamp(own[1..])
  }

  lemma {:induction false} FirstStampAppend(own: seq<Page>, p: Page)
    ensures FirstStamp(own + [p]) == FirstStamp(own).OrElse(FirstStamp([p]))
  {
    if own != [] {
      FirstStampAppend(own[1..], p);
      assert (own + [p])[1..] == own[1..] + [p];
    } else {
      assert own + [p] == [p];
    }
  }

  /** The time of the answer, which the full sync relies on, is the first one the phone reported. */
  lemma {:induction false} TimestampIsFirst(q: Pending, own: seq<Page>)
    requires Fresh(q)
    ensures ReceiveAll(q, own).timestamp == FirstStamp(own)
  {
    if own != [] {
      var n := |own| - 1;
      TimestampIsFirst(q, own[..n]);
      FirstStampAppend(own[..n], own[n]);
      assert own == own[..n] + [own[n]];
    }
  }
}
