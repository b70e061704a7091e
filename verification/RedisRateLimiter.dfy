/** The Redis-backed limiter of src/common/throttler/redis-rate-limit.config.ts:
    what it stores, and that what it stores amounts to the whole history of
    requests. */
module RedisRateLimiter {
  import opened Wrappers
  import opened Windows

  /** A sorted set of request times; Redis drops it after `expireAt`. */
  datatype SortedSet = SortedSet(scores: seq<nat>, expireAt: nat)

  datatype Counter = Counter(count: nat, expireAt: nat)

  datatype Result = Result(success: bool, remaining: nat, reset: int, total: nat, retryAfter: Option<int>)

  type Sets = map<string, SortedSet>
  type Counters = map<(string, nat), Counter>
  type History = map<string, seq<nat>>

  function Max(a: int, b: int): int { if a >= b then a else b }

  /** All requests of a key so far. */
  function Requests(history: History, key: string): seq<nat> {
    if key in history then history[key] else []
  }

  function Record(history: History, key: string, now: nat): History {
    history[key := Requests(history, key) + [now]]
  }

  ghost predicate Recorded(history: History, clock: nat) {
    forall key {:trigger Requests(history, key)} ::
      Monotone(Requests(history, key))
      && forall i :: 0 <= i < |Requests(history, key)| ==> Requests(history, key)[i] <= clock
  }

  lemma RecordKeeps(history: History, clock: nat, key: string, now: nat)
    requires Recorded(history, clock) && clock <= now
    ensures Recorded(Record(history, key, now), now)
  {
    var later := Record(history, key, now);
    forall k
      ensures Monotone(Requests(later, k))
      ensures forall i :: 0 <= i < |Requests(later, k)| ==> Requests(later, k)[i] <= now
    {
      assert Monotone(Requests(history, k));
    }
  }

  lemma RecordedLater(history: History, clock: nat, now: nat)
    requires Recorded(history, clock) && clock <= now
    ensures Recorded(history, now)
  {
    forall k
      ensures Monotone(Requests(history, k))
      ensures forall i :: 0 <= i < |Requests(history, k)| ==> Requests(history, k)[i] <= now
    {
    }
  }

  // ----- The sorted sets of the sliding window -----

  /** `ZADD`: a new score goes behind the scores it does not exceed. */
  function ZAdd(s: seq<nat>, x: nat): seq<nat> {
    if s == [] || s[|s| - 1] <= x then s + [x]
    else ZAdd(s[..|s| - 1], x) + [s[|s| - 1]]
  }

  /** What an access at `now` finds in the sorted set of a key. */
  function Live(sets: Sets, key: string, now: nat): seq<nat> {
    if key in sets && now <= sets[key].expireAt then sets[key].scores else []
  }

  /** The store after a check: expired entries removed, the request added, the
      life of the key renewed. */
  function Checked(sets: Sets, w: nat, key: string, now: nat): Sets {
    sets[key := SortedSet(ZAdd(After(Live(sets, key, now), now - w), now), now + w)]
  }

  /** The store after a status query, which renews nothing. */
  function Queried(sets: Sets, w: nat, key: string, now: nat): Sets {
    if key in sets && now <= sets[key].expireAt
    then sets[key := sets[key].(scores := After(sets[key].scores, now - w))] else sets
  }

  /** An access at `now`, once it has dropped what is out of its window, sees
      exactly the requests of the history in its window. */
  ghost predicate SeesWindow(sets: Sets, history: History, w: nat, key: string, now: nat) {
    After(Live(sets, key, now), now - w) == After(Requests(history, key), now - w)
  }

  /** However late the next access comes: the expiry of the key is never seen. */
  ghost predicate Faithful(sets: Sets, history: History, w: nat, clock: nat) {
    forall key, now {:trigger SeesWindow(sets, history, w, key, now)} ::
      now >= clock ==> SeesWindow(sets, history, w, key, now)
  }

  lemma {:induction false} AfterBounded(times: seq<nat>, lo: int, hi: nat)
    requires forall i :: 0 <= i < |times| ==> times[i] <= hi
    ensures forall i :: 0 <= i < |After(times, lo)| ==> lo < After(times, lo)[i] <= hi
    decreases times
  {
    if times != [] { AfterBounded(times[..|times| - 1], lo, hi); }
  }

  /** After a check the set is exactly the requests of the whole history in
      (now - w, now]. */
  lemma CheckedIsWindow(sets: Sets, history: History, w: nat, clock: nat, key: string, now: nat)
    requires w > 0 && Recorded(history, clock) && clock <= now && SeesWindow(sets, history, w, key, now)
    ensures Live(Checked(sets, w, key, now), key, now)
         == After(Requests(history, key) + [now], now - w)
         == After(Requests(history, key), now - w) + [now]
    ensures forall i :: 0 <= i < |Live(Checked(sets, w, key, now), key, now)| ==>
      Live(Checked(sets, w, key, now), key, now)[i] > now - w
  {
    AfterBounded(Requests(history, key), now - w, now);
    AfterSnoc(Requests(history, key), now, now - w);
  }

  lemma CheckedFaithful(sets: Sets, history: History, w: nat, clock: nat, key: string, now: nat)
    requires w > 0 && Recorded(history, clock) && clock <= now && Faithful(sets, history, w, clock)
    ensures Faithful(Checked(sets, w, key, now), Record(history, key, now), w, now)
  {
    hide After, ZAdd;
    var sets', history' := Checked(sets, w, key, now), Record(history, key, now);
    forall k, t: nat | t >= now ensures SeesWindow(sets', history', w, k, t) {
      if k == key {
        var all := Requests(history, key) + [now];
        assert SeesWindow(sets, history, w, key, now);
        CheckedIsWindow(sets, history, w, clock, key, now);
        if t <= now + w {
          AfterAfter(all, now - w, t - w);
        } else {
          AfterNone(all, t - w);
          AfterNone([], t - w);
        }
      } else {
        assert SeesWindow(sets, history, w, k, t);
      }
    }
  }

  lemma QueriedFaithful(sets: Sets, history: History, w: nat, clock: nat, key: string, now: nat)
    requires clock <= now && Faithful(sets, history, w, clock)
    ensures Faithful(Queried(sets, w, key, now), history, w, now)
  {
    hide After;
    forall k, t: nat | t >= now ensures SeesWindow(Queried(sets, w, key, now), history, w, k, t) {
      assert SeesWindow(sets, history, w, k, t);
      if key in sets { AfterAfter(sets[key].scores, now - w, t - w); }
    }
  }

  /** A check leaves the other keys alone and lets its own live for one window; a
      status query prolongs nothing and creates nothing. */
  lemma KeysExpire(sets: Sets, w: nat, key: string, now: nat)
    ensures var checked, queried := Checked(sets, w, key, now), Queried(sets, w, key, now);
      && key in checked && checked[key].expireAt == now + w
      && (forall k :: k != key ==> (k in checked <==> k in sets))
      && (forall k :: k != key && k in sets ==> checked[k] == sets[k] == queried[k])
      && queried.Keys == sets.Keys && forall k :: k in sets ==> queried[k].expireAt == sets[k].expireAt
  {
    hide After, ZAdd;
  }

  lemma FaithfulLater(sets: Sets, history: History, w: nat, clock: nat, now: nat)
    requires Faithful(sets, history, w, clock) && clock <= now
    ensures Faithful(sets, history, w, now)
  {
  }

  // ----- The counters of the fixed window -----

  function LiveCount(counters: Counters, key: string, index: nat, now: nat): nat {
    if (key, index) in counters && now <= counters[(key, index)].expireAt then counters[(key, index)].count else 0
  }

  /** `INCR` and `PEXPIRE` on the counter of the aligned window. */
  function Incremented(counters: Counters, w: nat, key: string, now: nat): Counters
    requires w > 0
  {
    counters[(key, now / w) := Counter(LiveCount(counters, key, now / w, now) + 1, now + w)]
  }

  /** The counter an access at `now` would find is the number of the requests so
      far in its aligned window. */
  ghost predicate Counts(counters: Counters, history: History, w: nat, key: string, now: nat)
    requires w > 0
  {
    LiveCount(counters, key, now / w, now) == InWindow(Requests(history, key), w, now / w)
  }

  ghost predicate AllCount(counters: Counters, history: History, w: nat, clock: nat)
    requires w > 0
  {
    forall key, now {:trigger Counts(counters, history, w, key, now)} ::
      now >= clock ==> Counts(counters, history, w, key, now)
  }

  lemma InWindowSnoc(times: seq<nat>, now: nat, w: nat, index: nat)
    requires w > 0
    ensures InWindow(times + [now], w, index) == InWindow(times, w, index) + if now / w == index then 1 else 0
  {
    assert (times + [now])[..|times|] == times;
  }

  /** A later access in the same aligned window comes before the counter expires. */
  lemma SameWindowAlive(now: nat, t: nat, w: nat)
    requires w > 0 && now <= t && t / w == now / w
    ensures t <= now + w
  {
    InAligned(now, w, now / w);
    InAligned(t, w, now / w);
  }

  lemma IncrementedCounts(counters: Counters, history: History, w: nat, clock: nat, key: string, now: nat)
    requires w > 0 && clock <= now && AllCount(counters, history, w, clock)
    ensures AllCount(Incremented(counters, w, key, now), Record(history, key, now), w, now)
  {
    hide InWindow;
    var counters', history' := Incremented(counters, w, key, now), Record(history, key, now);
    forall k, t: nat | t >= now ensures Counts(counters', history', w, k, t) {
      assert Counts(counters, history, w, k, t);
      InWindowSnoc(Requests(history, key), now, w, t / w);
      if k == key && t / w == now / w {
        assert Counts(counters, history, w, key, now);
        SameWindowAlive(now, t, w);
      }
    }
  }

  lemma SeesNow(sets: Sets, history: History, w: nat, clock: nat, key: string, now: nat)
    requires Faithful(sets, history, w, clock) && clock <= now
    ensures SeesWindow(sets, history, w, key, now)
  {
  }

  lemma CountsNow(counters: Counters, history: History, w: nat, clock: nat, key: string, now: nat)
    requires w > 0 && AllCount(counters, history, w, clock) && clock <= now
    ensures Counts(counters, history, w, key, now)
  {
  }

  /** A request leaves the other counters alone and lets its own live for one more
      window. */
  lemma CounterExpires(counters: Counters, w: nat, key: string, now: nat)
    requires w > 0
    ensures var after := Incremented(counters, w, key, now);
      && (key, now / w) in after && after[(key, now / w)].expireAt == now + w
      && forall k :: k != (key, now / w) ==> (k in after <==> k in counters) && (k in counters ==> after[k] == counters[k])
  {
  }

  lemma AllCountLater(counters: Counters, history: History, w: nat, clock: nat, now: nat)
    requires w > 0 && AllCount(counters, history, w, clock) && clock <= now
    ensures AllCount(counters, history, w, now)
  {
  }

  // ----- The limiter -----

  /** One limiter, with the window and the maximum its keys share.  `sliding`
      and `aligned` are the whole histories of requests of each kind, and
      `clock` is the time of the latest access. */
  class Limiter {
    const windowMs: nat
    const max: nat
    var sets: Sets
    var counters: Counters
    ghost var clock: nat
    ghost var sliding: History
    ghost var aligned: History

    ghost predicate Valid()
      reads this
    {
      && windowMs > 0
      && Recorded(sliding, clock) && Recorded(aligned, clock)
      && Faithful(sets, sliding, windowMs, clock)
      && AllCount(counters, aligned, windowMs, clock)
    }

    constructor (windowMs: nat, max: nat)
      requires windowMs > 0
      ensures Valid() && this.windowMs == windowMs && this.max == max
      ensures sliding == map[] && aligned == map[]
    {
      this.windowMs, this.max := windowMs, max;
      sets, counters, clock, sliding, aligned := map[], map[], 0, map[], map[];
    }

    method SlidingWindowCheck(key: string, now: nat) returns (r: Result)
      requires Valid() && now >= clock
      modifies this
      ensures Valid() && clock == now && sets == Checked(old(sets), windowMs, key, now)
      ensures sliding == Record(old(sliding), key, now) && aligned == old(aligned)
      ensures var times := Requests(sliding, key);
        var window := After(times, now - windowMs);
        && Live(sets, key, now) == window && window != []
        && (r.success <==> SlidingAdmits(times, windowMs, max, |times| - 1))
        && r.remaining == (if r.success then max - |window| else 0)
        && r.retryAfter == (if r.success then None else Some(CeilSeconds(window[0] + windowMs - now)))
      ensures r.total == max && r.reset == CeilSeconds(now + windowMs)
      ensures r.success <==> |Recent(Requests(sliding, key), now - windowMs)| <= max
      ensures r.success ==> r.remaining + |Recent(Requests(sliding, key), now - windowMs)| == max
    {
      hide After, ZAdd, Recorded, Recent, Faithful, AllCount, Aligned;
      AfterCount(Requests(sliding, key) + [now], now - windowMs);
      SeesNow(sets, sliding, windowMs, clock, key, now);
      AllCountLater(counters, aligned, windowMs, clock, now);
      ghost var past := Requests(sliding, key);
      CheckedIsWindow(sets, sliding, windowMs, clock, key, now);
      CheckedFaithful(sets, sliding, windowMs, clock, key, now);
      RecordKeeps(sliding, clock, key, now);
      RecordedLater(aligned, clock, now);
      assert (past + [now])[..|past| + 1] == past + [now];

      var windowStart := now - windowMs;
      var scores := After(Live(sets, key, now), windowStart);
      scores := ZAdd(scores, now);
      var count := |scores|;
      sets := sets[key := SortedSet(scores, now + windowMs)];
      clock, sliding := now, Record(sliding, key, now);

      var reset := CeilSeconds(now + windowMs);
      var remaining := Max(0, max - count);
      if count > max {
        var oldestTime := scores[0];
        var retryAfter := CeilSeconds(oldestTime + windowMs - now);
        r := Result(false, 0, reset, max, Some(Max(1, retryAfter)));
      } else {
        r := Result(true, remaining, reset, max, None);
      }
    }

    method FixedWindowCheck(key: string, now: nat) returns (r: Result)
      requires Valid() && now >= clock
      modifies this
      ensures Valid() && clock == now && counters == Incremented(old(counters), windowMs, key, now)
      ensures aligned == Record(old(aligned), key, now) && sliding == old(sliding)
      ensures var times := Requests(aligned, key);
        var count := InWindow(times, windowMs, now / windowMs);
        && (r.success <==> FixedAdmits(times, windowMs, max, |times| - 1))
        && r.remaining == (if r.success then max - count else 0)
        && r.retryAfter == (if r.success then None else Some(CeilSeconds(r.reset * 1000 - now)))
      ensures r.total == max && r.reset == CeilSeconds(now / windowMs * windowMs + windowMs)
      ensures r.success <==> |Aligned(Requests(aligned, key), windowMs, now / windowMs)| <= max
      ensures r.success ==> r.remaining + |Aligned(Requests(aligned, key), windowMs, now / windowMs)| == max
    {
      hide InWindow, After, Recorded, Recent, Faithful, AllCount, Aligned;
      InWindowCount(Requests(aligned, key) + [now], windowMs, now / windowMs);
      CountsNow(counters, aligned, windowMs, clock, key, now);
      FaithfulLater(sets, sliding, windowMs, clock, now);
      ghost var past := Requests(aligned, key);
      IncrementedCounts(counters, aligned, windowMs, clock, key, now);
      InWindowSnoc(past, now, windowMs, now / windowMs);
      RecordKeeps(aligned, clock, key, now);
      RecordedLater(sliding, clock, now);
      assert (past + [now])[..|past| + 1] == past + [now];

      var windowKey := (key, now / windowMs);
      var count := LiveCount(counters, key, now / windowMs, now) + 1;
      counters := counters[windowKey := Counter(count, now + windowMs)];
      clock, aligned := now, Record(aligned, key, now);

      var reset := CeilSeconds(now / windowMs * windowMs + windowMs);
      var remaining := Max(0, max - count);
      if count > max {
        r := Result(false, 0, reset, max, Some(CeilSeconds(reset * 1000 - now)));
      } else {
        r := Result(true, remaining, reset, max, None);
      }
    }

    /** Reports without counting a request.  It looks at the sorted set only: of a
        key that has been checked in fixed windows alone it reports a full quota. */
    method GetStatus(key: string, now: nat) returns (r: Result)
      requires Valid() && now >= clock
      modifies this
      ensures Valid() && clock == now && sets == Queried(old(sets), windowMs, key, now)
      ensures sliding == old(sliding) && aligned == old(aligned) && counters == old(counters)
      ensures var count := |After(Requests(sliding, key), now - windowMs)|;
        r == Result(count <= max, Max(0, max - count), CeilSeconds(now + windowMs), max, None)
      ensures Requests(sliding, key) == [] ==> r.success && r.remaining == max
      ensures r.success <==> |Recent(Requests(sliding, key), now - windowMs)| <= max
    {
      hide After, Recorded, Recent, Faithful, AllCount, Aligned;
      AfterCount(Requests(sliding, key), now - windowMs);
      AfterNone([], now - windowMs);
      SeesNow(sets, sliding, windowMs, clock, key, now);
      AllCountLater(counters, aligned, windowMs, clock, now);
      QueriedFaithful(sets, sliding, windowMs, clock, key, now);
      RecordedLater(sliding, clock, now);
      RecordedLater(aligned, clock, now);
      var count := 0;
      if key in sets && now <= sets[key].expireAt {
        sets := sets[key := sets[key].(scores := After(sets[key].scores, now - windowMs))];
        count := |sets[key].scores|;
      }
      clock := now;
      r := Result(count <= max, Max(0, max - count), CeilSeconds(now + windowMs), max, None);
    }
  }
}
