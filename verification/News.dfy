/** Which dated items of a batch are news for a thread: later than its row and than every earlier item of the thread. */
module News {
  import opened Wrappers

  ghost predicate IsNews<T>(xs: seq<T>, thread: T -> int, date: T -> int, t: int, since: Option<int>, i: int) {
    && 0 <= i < |xs| && thread(xs[i]) == t
    && (since.Some? ==> since.value < date(xs[i]))
    && forall j | 0 <= j < i && thread(xs[j]) == t :: date(xs[j]) < date(xs[i])
  }

  ghost function NewsOf<T>(xs: seq<T>, thread: T -> int, date: T -> int, t: int, since: Option<int>): set<int> {
    set i | 0 <= i < |xs| && IsNews(xs, thread, date, t, since, i)
  }

  /** The last item that is news. */
  ghost predicate IsLastNews<T>(xs: seq<T>, thread: T -> int, date: T -> int, t: int, since: Option<int>, i: int) {
    IsNews(xs, thread, date, t, since, i) && forall j | i < j < |xs| :: !IsNews(xs, thread, date, t, since, j)
  }

  ghost predicate NoNews<T>(xs: seq<T>, thread: T -> int, date: T -> int, t: int, since: Option<int>) {
    forall i | 0 <= i < |xs| :: !IsNews(xs, thread, date, t, since, i)
  }

  /** `latest` is the latest of `since` and the dates of the thread, if there is any. */
  ghost predicate IsLatest<T>(xs: seq<T>, thread: T -> int, date: T -> int, t: int, since: Option<int>, latest: Option<int>) {
    && (forall j | 0 <= j < |xs| && thread(xs[j]) == t :: latest.Some? && date(xs[j]) <= latest.value)
    && (since.Some? ==> latest.Some? && since.value <= latest.value)
    && (latest.Some? ==> latest == since || exists j :: 0 <= j < |xs| && thread(xs[j]) == t && date(xs[j]) == latest.value)
  }

  function Later(latest: Option<int>, date: int): bool {
    latest.None? || latest.value < date
  }

  /** What one more item changes. */
  lemma OneMoreItem<T>(
    xs: seq<T>, thread: T -> int, date: T -> int, t: int, since: Option<int>, latest: Option<int>)
    requires xs != [] && IsLatest(xs[..|xs| - 1], thread, date, t, since, latest)
    ensures var n := |xs| - 1; var x := xs[n];
      && (IsNews(xs, thread, date, t, since, n) <==> thread(x) == t && Later(latest, date(x)))
      && IsLatest(xs, thread, date, t, since, if thread(x) == t && Later(latest, date(x)) then Some(date(x)) else latest)
      && (forall i | 0 <= i < n :: IsNews(xs, thread, date, t, since, i) <==> IsNews(xs[..n], thread, date, t, since, i))
  {
    var n := |xs| - 1;
    var head := xs[..n];
    assert forall i | 0 <= i < n :: head[i] == xs[i];
    if latest.Some? && latest != since {
      var j :| 0 <= j < n && thread(head[j]) == t && date(head[j]) == latest.value;
      assert thread(xs[j]) == t && date(xs[j]) == latest.value;
    }
    assert IsNews(xs, thread, date, t, since, n) <==> thread(xs[n]) == t && Later(latest, date(xs[n]));
  }

  lemma OneMoreCount<T>(xs: seq<T>, thread: T -> int, date: T -> int, t: int, since: Option<int>)
    requires xs != []
    requires forall i | 0 <= i < |xs| - 1 ::
      IsNews(xs, thread, date, t, since, i) <==> IsNews(xs[..|xs| - 1], thread, date, t, since, i)
    ensures |NewsOf(xs, thread, date, t, since)|
         == |NewsOf(xs[..|xs| - 1], thread, date, t, since)| + if IsNews(xs, thread, date, t, since, |xs| - 1) then 1 else 0
  {
    var n := |xs| - 1;
    var before, after := NewsOf(xs[..n], thread, date, t, since), NewsOf(xs, thread, date, t, since);
    assert n !in before;
    if IsNews(xs, thread, date, t, since, n) {
      SameSets(after, before + {n});
    } else {
      SameSets(after, before);
    }
  }

  lemma NewsBefore<T>(xs: seq<T>, thread: T -> int, date: T -> int, t: int, since: Option<int>, i: int)
    requires 0 <= i < |xs| - 1
    ensures IsNews(xs, thread, date, t, since, i) <==> IsNews(xs[..|xs| - 1], thread, date, t, since, i)
  {
    var head := xs[..|xs| - 1];
    assert forall j | 0 <= j < |head| :: head[j] == xs[j];
  }

  /** If the last item is no news, the last news, or the lack of any, is that of the items before it. */
  lemma WithoutNews<T>(xs: seq<T>, thread: T -> int, date: T -> int, t: int, since: Option<int>)
    requires xs != []
    ensures NoNews(xs, thread, date, t, since) ==>
      !IsNews(xs, thread, date, t, since, |xs| - 1) && NoNews(xs[..|xs| - 1], thread, date, t, since)
    ensures forall i | 0 <= i < |xs| - 1 && IsLastNews(xs, thread, date, t, since, i) ::
      !IsNews(xs, thread, date, t, since, |xs| - 1) && IsLastNews(xs[..|xs| - 1], thread, date, t, since, i)
  {
    var head := xs[..|xs| - 1];
    if NoNews(xs, thread, date, t, since) {
      forall i | 0 <= i < |head| ensures !IsNews(head, thread, date, t, since, i)
      {
        NewsBefore(xs, thread, date, t, since, i);
      }
    }
    forall i | 0 <= i < |head| && IsLastNews(xs, thread, date, t, since, i)
      ensures IsLastNews(head, thread, date, t, since, i)
    {
      forall j | i <= j < |head| ensures IsNews(xs, thread, date, t, since, j) <==> IsNews(head, thread, date, t, since, j)
      {
        NewsBefore(xs, thread, date, t, since, j);
      }
    }
  }
}
