/**
 * The sliding-window rate limiter that wraps the ranking endpoint: per client, the timestamps of the
 * requests it was let through. Each request first prunes the client's history to the entries still
 * inside the window, then is refused when 10 or more remain, and is otherwise recorded and served.
 */
module RateLimit {
  import opened Timing

  const RateLimitRequests: int := 10
  const RateLimitWindow: int := 3600
  const RateLimitMessage: string := "Rate limit exceeded. Max 10 requests per hour."

  /** `(now - req_time).seconds < RATE_LIMIT_WINDOW`: the entry is kept by the pruning step. */
  predicate InWindow(now: int, t: int) {
    TimedeltaSeconds(now, t) < RateLimitWindow
  }

  /** The list comprehension that cleans a client's history: the entries inside the window, in their order. */
  function Prune(history: seq<int>, now: int): (r: seq<int>)
    ensures |r| <= |history|
    ensures forall t :: t in r <==> t in history && InWindow(now, t)
  {
    if history == [] then []
    else (if InWindow(now, history[0]) then [history[0]] else []) + Prune(history[1..], now)
  }

  /** A client with no history yet reads as the empty list (`request_history` is a `defaultdict(list)`). */
  function HistoryOf(histories: map<string, seq<int>>, client: string): seq<int> {
    if client in histories then histories[client] else []
  }

  /** The limiter's invariant: no client ever has more than 10 recorded requests. */
  ghost predicate Bounded(histories: map<string, seq<int>>) {
    forall c :: c in histories ==> |histories[c]| <= RateLimitRequests
  }

  class RateLimiter {
    var history: map<string, seq<int>>

    ghost predicate Valid()
      reads this
    {
      Bounded(history)
    }

    constructor ()
      ensures Valid() && history == map[]
    {
      history := map[];
    }

    /**
     * The body of the `rate_limit` wrapper for one request of `client` at time `now`. The pruned
     * history is stored back in every case; `now` is appended only when the request is let through.
     */
    method Admit(client: string, now: int) returns (allowed: bool)
      requires Valid()
      modifies this
      ensures Valid()
      ensures allowed <==> |Prune(HistoryOf(old(history), client), now)| < RateLimitRequests
      ensures history == old(history)[client :=
        if allowed then Prune(HistoryOf(old(history), client), now) + [now]
        else Prune(HistoryOf(old(history), client), now)]
    {
      var kept := Prune(HistoryOf(history, client), now);
      history := history[client := kept];
      if |history[client]| >= RateLimitRequests {
        allowed := false;
        return;
      }
      history := history[client := history[client] + [now]];
      allowed := true;
    }
  }

  /** Pruning keeps the order of the entries: it distributes over concatenation. */
  lemma {:induction false} PruneAppend(a: seq<int>, b: seq<int>, now: int)
    ensures Prune(a + b, now) == Prune(a, now) + Prune(b, now)
  {
    if a == [] {
      assert a + b == b;
    } else {
      assert (a + b)[0] == a[0];
      assert (a + b)[1..] == a[1..] + b;
      PruneAppend(a[1..], b, now);
    }
  }

  /** Pruning twice at the same instant is pruning once. */
  lemma {:induction false} PruneIdempotent(history: seq<int>, now: int)
    ensures Prune(Prune(history, now), now) == Prune(history, now)
  {
    if history != [] {
      var head := if InWindow(now, history[0]) then [history[0]] else [];
      PruneIdempotent(history[1..], now);
      PruneAppend(head, Prune(history[1..], now), now);
      if head != [] {
        assert head[1..] == [];
      }
    }
  }

  /** An entry younger than the window (in true elapsed seconds) is always kept. */
  lemma RecentEntryKept(now: int, t: int)
    requires 0 <= now - t < RateLimitWindow
    ensures InWindow(now, t)
  {
    TimedeltaSecondsWithinDay(now, t);
  }

  /**
   * Because `.seconds` forgets whole days, an entry kept now is still kept when it is one day older:
   * a request made 24 hours and 10 seconds ago still counts against the client.
   */
  lemma DayOldEntryStillCounts(now: int, t: int)
    ensures InWindow(now, t - SecondsPerDay) <==> InWindow(now, t)
  {
    TimedeltaSecondsForgetsDays(now, t);
  }

  /** A timestamp ahead of `now` by less than 23 hours is dropped: its `.seconds` is at least 3600. */
  lemma FutureEntryDropped(now: int, t: int)
    requires 0 < t - now <= SecondsPerDay - RateLimitWindow
    ensures !InWindow(now, t)
  {
    assert now - t + SecondsPerDay >= RateLimitWindow;
    assert TimedeltaSeconds(now, t) == now - t + SecondsPerDay;
  }

  /** An admitted request always remains in the pruned history when the client retries in the same second. */
  lemma AdmittedRequestCounts(history: seq<int>, now: int)
    ensures |Prune(Prune(history, now) + [now], now)| == |Prune(history, now)| + 1
  {
    PruneAppend(Prune(history, now), [now], now);
    PruneIdempotent(history, now);
    assert TimedeltaSeconds(now, now) == 0;
    assert Prune([now], now) == [now] by {
      assert [now][1..] == [];
    }
  }
}
