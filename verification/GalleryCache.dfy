/** The gallery cache's index and its eviction: least recently used first, never what this session touched. */
module GalleryCache {
  import opened Wrappers

  const MAX_CACHE_BYTES: nat := 200 * 1024 * 1024
  const MIN_AGE_FOR_EVICTION_MS := 20 * 60 * 1000

  datatype Entry = Entry(lastAccess: int, size: nat, thumbnailFailed: bool)

  type Index = map<string, Entry>

  /** The sizes over the whole index. */
  ghost function Total(index: Index): nat
    decreases |index.Keys|
  {
    if index.Keys == {} then 0
    else
      var path := Pick(index.Keys);
      Shrinks(index, path);
      index[path].size + Total(index - {path})
  }

  ghost function Pick<T(!new)>(elements: set<T>): (element: T)
    requires elements != {}
    ensures element in elements
  {
    var element :| element in elements; element
  }

  lemma Shrinks(index: Index, path: string)
    requires path in index
    ensures (index - {path}).Keys == index.Keys - {path}
    ensures |(index - {path}).Keys| < |index.Keys|
  {
  }

  lemma Commute(index: Index, p: string, q: string)
    ensures index - {p} - {q} == index - {q} - {p}
  {
  }

  /** The order in which the index is summed does not matter. */
  lemma {:induction false} TotalWithout(index: Index, path: string)
    requires path in index
    ensures Total(index) == index[path].size + Total(index - {path})
    decreases |index.Keys|
  {
    var first := Pick(index.Keys);
    Shrinks(index, first);
    if first != path {
      Shrinks(index, path);
      TotalWithout(index - {first}, path);
      TotalWithout(index - {path}, first);
      Commute(index, first, path);
    }
  }

  lemma TotalWith(index: Index, path: string, e: Entry)
    ensures Total(index[path := e]) == e.size + Total(index - {path})
  {
    TotalWithout(index[path := e], path);
    assert index[path := e] - {path} == index - {path};
  }

  /** Removing part of a listing of paths. */
  function Evicted(index: Index, order: seq<string>, k: nat): Index
    requires k <= |order|
  {
    if k == 0 then index else Evicted(index, order, k - 1) - {order[k - 1]}
  }

  predicate Eligible(index: Index, sessionAccessed: set<string>, now: int, path: string) {
    path in index && path !in sessionAccessed && now - index[path].lastAccess > MIN_AGE_FOR_EVICTION_MS
  }

  /** Every eligible path once, oldest access first; equal times may come in either order. */
  ghost predicate OldestFirst(order: seq<string>, index: Index, sessionAccessed: set<string>, now: int) {
    && (forall path :: path in order <==> Eligible(index, sessionAccessed, now, path))
    && (forall i, j | 0 <= i < j < |order| :: order[i] != order[j])
    && (forall i, j | 0 <= i < j < |order| && order[i] in index && order[j] in index ::
          index[order[i]].lastAccess <= index[order[j]].lastAccess)
  }

  /** The shortest prefix that brings the total within the budget, or all of the eligible entries. */
  ghost predicate ShortestSufficient(index: Index, order: seq<string>, k: nat) {
    && k <= |order|
    && (forall j: nat | j < k :: Total(Evicted(index, order, j)) > MAX_CACHE_BYTES)
    && (k < |order| ==> Total(Evicted(index, order, k)) <= MAX_CACHE_BYTES)
  }

  class Cache {
    var index: Index
    var sessionAccessed: set<string>
    var indexDirty: bool

    constructor (loaded: Index)
      ensures index == loaded && sessionAccessed == {} && !indexDirty
    {
      index, sessionAccessed, indexDirty := loaded, {}, false;
    }

    method StoreThumbnail(path: string, bytes: nat, now: int)
      modifies this
      ensures Total(index) == Total(old(index)) + bytes
      ensures path in index && index[path].lastAccess == now && !index[path].thumbnailFailed
      ensures index - {path} == old(index) - {path}
      ensures sessionAccessed == old(sessionAccessed) + {path} && indexDirty
    {
      var existing := if path in index then index[path].size else 0;
      TotalWith(index, path, Entry(now, existing + bytes, false));
      if path in index {
        TotalWithout(index, path);
      } else {
        assert index - {path} == index;
      }
      index := index[path := Entry(now, existing + bytes, false)];
      sessionAccessed := sessionAccessed + {path};
      indexDirty := true;
    }

    /** Like a thumbnail, except that an earlier failure mark stays. */
    method StoreFullFile(path: string, bytes: nat, now: int)
      modifies this
      ensures Total(index) == Total(old(index)) + bytes
      ensures path in index && index[path].lastAccess == now
      ensures index[path].thumbnailFailed == (path in old(index) && old(index)[path].thumbnailFailed)
      ensures index - {path} == old(index) - {path}
      ensures sessionAccessed == old(sessionAccessed) + {path} && indexDirty
    {
      var existing := if path in index then index[path] else Entry(now, 0, false);
      TotalWith(index, path, existing.(lastAccess := now, size := existing.size + bytes));
      if path in index {
        TotalWithout(index, path);
      } else {
        assert index - {path} == index;
      }
      index := index[path := existing.(lastAccess := now, size := existing.size + bytes)];
      sessionAccessed := sessionAccessed + {path};
      indexDirty := true;
    }

    method MarkAccessed(path: string, now: int)
      modifies this
      ensures Total(index) == Total(old(index))
      ensures index == if path in old(index) then old(index)[path := old(index)[path].(lastAccess := now)] else old(index)
      ensures sessionAccessed == old(sessionAccessed) + {path}
      ensures indexDirty == (old(indexDirty) || path in old(index))
    {
      if path in index {
        var e := index[path].(lastAccess := now);
        TotalWith(index, path, e);
        TotalWithout(index, path);
        index := index[path := e];
        indexDirty := true;
      }
      sessionAccessed := sessionAccessed + {path};
    }

    method SumSizes() returns (totalSize: nat)
      ensures totalSize == Total(index)
    {
      totalSize := 0;
      var left := index;
      while left.Keys != {}
        invariant totalSize + Total(left) == Total(index)
        decreases |left.Keys|
      {
        var path := AnyOf(left.Keys);
        TotalWithout(left, path);
        Shrinks(left, path);
        totalSize := totalSize + left[path].size;
        left := left - {path};
      }
    }

    method ListEligible(now: int) returns (order: seq<string>)
      ensures OldestFirst(order, index, sessionAccessed, now)
    {
      order := [];
      var todo := index.Keys;
      while todo != {}
        invariant todo <= index.Keys
        invariant forall path :: path in order <==> path !in todo && Eligible(index, sessionAccessed, now, path)
        invariant forall i, j | 0 <= i < j < |order| :: order[i] != order[j]
        invariant forall i, j | 0 <= i < j < |order| && order[i] in index && order[j] in index ::
            index[order[i]].lastAccess <= index[order[j]].lastAccess
        decreases todo
      {
        var path := AnyOf(todo);
        todo := todo - {path};
        if path !in sessionAccessed && now - index[path].lastAccess > MIN_AGE_FOR_EVICTION_MS {
          order := InsertByAccess(index, order, path);
        }
      }
    }

    /**
     * Eviction: nothing while within the budget; otherwise the shortest oldest-first prefix of the eligible
     * entries that suffices, or all of them.
     */
    method RunEviction(now: int) returns (ghost order: seq<string>, ghost k: nat)
      modifies this
      ensures OldestFirst(order, old(index), sessionAccessed, now)
      ensures ShortestSufficient(old(index), order, k) && index == Evicted(old(index), order, k)
      ensures sessionAccessed == old(sessionAccessed)
      ensures indexDirty == (old(indexDirty) || k > 0)
    {
      var totalSize := SumSizes();
      k := 0;
      if totalSize <= MAX_CACHE_BYTES {
        order := ListEligible(now);
        return;
      }
      var eligible := ListEligible(now);
      order := eligible;
      var i := 0;
      while i < |eligible| && totalSize > MAX_CACHE_BYTES
        invariant 0 <= i <= |eligible|
        invariant index == Evicted(old(index), eligible, i) && totalSize == Total(index)
        invariant sessionAccessed == old(sessionAccessed) && indexDirty == old(indexDirty)
        invariant forall j: nat | j < i :: Total(Evicted(old(index), eligible, j)) > MAX_CACHE_BYTES
      {
        var path := eligible[i];
        EvictionStep(old(index), sessionAccessed, now, eligible, i);
        totalSize := totalSize - index[path].size;
        index := index - {path};
        i := i + 1;
      }
      k := i;
      if i > 0 {
        indexDirty := true;
      }
    }
  }

  method InsertByAccess(index: Index, order: seq<string>, path: string) returns (out: seq<string>)
    requires path in index && path !in order && forall p | p in order :: p in index
    requires forall i, j | 0 <= i < j < |order| :: order[i] != order[j]
    requires forall i, j | 0 <= i < j < |order| :: index[order[i]].lastAccess <= index[order[j]].lastAccess
    ensures forall p :: p in out <==> p in order || p == path
    ensures forall i, j | 0 <= i < j < |out| :: out[i] != out[j]
    ensures forall i, j | 0 <= i < j < |out| && out[i] in index && out[j] in index ::
        index[out[i]].lastAccess <= index[out[j]].lastAccess
  {
    var k := 0;
    while k < |order| && index[order[k]].lastAccess <= index[path].lastAccess
      invariant 0 <= k <= |order|
      invariant forall i | 0 <= i < k :: index[order[i]].lastAccess <= index[path].lastAccess
    {
      k := k + 1;
    }
    out := order[..k] + [path] + order[k..];
    assert order == order[..k] + order[k..];
  }

  // ----- what eviction guarantees -----

  lemma {:induction false} StillThere(index: Index, order: seq<string>, k: nat)
    requires k <= |order|
    requires forall i, j | 0 <= i < j < |order| :: order[i] != order[j]
    ensures forall path :: path in Evicted(index, order, k) <==> path in index && path !in order[..k]
    ensures forall path | path in Evicted(index, order, k) :: Evicted(index, order, k)[path] == index[path]
    ensures k < |order| ==> order[k] !in order[..k]
  {
    if k > 0 {
      StillThere(index, order, k - 1);
      assert order[..k] == order[..k - 1] + [order[k - 1]];
    }
  }

  lemma EvictionStep(index: Index, sessionAccessed: set<string>, now: int, order: seq<string>, i: nat)
    requires OldestFirst(order, index, sessionAccessed, now) && i < |order|
    ensures var rest := Evicted(index, order, i);
      order[i] in rest && Total(rest) == rest[order[i]].size + Total(Evicted(index, order, i + 1))
  {
    StillThere(index, order, i);
    assert order[i] in order;
    TotalWithout(Evicted(index, order, i), order[i]);
  }

  /** What this session touched, and what is younger than the minimum age, is still there, unchanged. */
  lemma ProtectedStay(index: Index, sessionAccessed: set<string>, now: int, order: seq<string>, k: nat, path: string)
    requires OldestFirst(order, index, sessionAccessed, now) && k <= |order|
    requires path in index
    requires path in sessionAccessed || now - index[path].lastAccess <= MIN_AGE_FOR_EVICTION_MS
    ensures path in Evicted(index, order, k) && Evicted(index, order, k)[path] == index[path]
  {
    StillThere(index, order, k);
    assert path !in order;
    assert forall p | p in order[..k] :: p in order;
  }

  /** Afterwards the cache is within its budget or nothing that is left may be evicted. */
  lemma BudgetOrNothingLeft(index: Index, sessionAccessed: set<string>, now: int, order: seq<string>, k: nat)
    requires OldestFirst(order, index, sessionAccessed, now) && ShortestSufficient(index, order, k)
    ensures Total(Evicted(index, order, k)) <= MAX_CACHE_BYTES
         || forall path :: !Eligible(Evicted(index, order, k), sessionAccessed, now, path)
  {
    if k == |order| {
      StillThere(index, order, k);
      assert order[..k] == order;
      forall path ensures !Eligible(Evicted(index, order, k), sessionAccessed, now, path)
      {
        if path in index {
          assert path in order <==> Eligible(index, sessionAccessed, now, path);
        }
      }
    }
  }

  /** Whatever was evicted had been accessed no later than any eligible entry that stayed. */
  lemma OldestGoFirst(index: Index, sessionAccessed: set<string>, now: int, order: seq<string>, k: nat, gone: string, kept: string)
    requires OldestFirst(order, index, sessionAccessed, now) && k <= |order|
    requires gone in index && gone !in Evicted(index, order, k)
    requires Eligible(Evicted(index, order, k), sessionAccessed, now, kept)
    ensures kept in index && index[gone].lastAccess <= index[kept].lastAccess
  {
    StillThere(index, order, k);
    assert forall m | 0 <= m < k :: order[m] in order[..k];
    var i :| 0 <= i < k && order[i] == gone;
    assert kept in order;
    var j :| 0 <= j < |order| && order[j] == kept;
  }
}
