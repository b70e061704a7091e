/** The in-memory limiter of src/common/guards/rate-limit.guard.ts: one entry per
    key, a window that starts with its first request, and a periodic cleanup. */
module RateLimitGuard {
  import opened Wrappers
  import opened Windows

  datatype Entry = Entry(count: nat, resetTime: nat)

  /** Headers of a response; `retryAfter` is set on a rejection only. */
  datatype Response = Response(allowed: bool, limit: nat, remaining: nat, reset: int, retryAfter: Option<int>)

  type Store = map<string, Entry>

  function Lookup(store: Store, key: string): Option<Entry> {
    if key in store then Some(store[key]) else None
  }

  /** The entry after a request at `now`. */
  function Next(entry: Option<Entry>, w: nat, now: nat): Entry {
    if entry.None? || now > entry.value.resetTime then Entry(1, now + w)
    else Entry(entry.value.count + 1, entry.value.resetTime)
  }

  function Respond(entry: Entry, max: nat, now: nat): Response {
    var reset := CeilSeconds(entry.resetTime - now);
    Response(entry.count <= max, max, if entry.count <= max then max - entry.count else 0, reset,
             if entry.count > max then Some(reset) else None)
  }

  function Cleaned(store: Store, now: nat): Store {
    map key | key in store && !(now > store[key].resetTime) :: store[key]
  }

  // ----- Cleanup is invisible -----

  datatype Event = Request(key: string, now: nat) | Cleanup(now: nat)

  function StoreAfter(events: seq<Event>, w: nat): Store {
    if events == [] then map[]
    else
      var store := StoreAfter(events[..|events| - 1], w);
      match events[|events| - 1]
      case Request(key, now) => store[key := Next(Lookup(store, key), w, now)]
      case Cleanup(now) => Cleaned(store, now)
  }

  function Responses(events: seq<Event>, w: nat, max: nat): seq<Response> {
    if events == [] then []
    else
      var earlier := Responses(events[..|events| - 1], w, max);
      match events[|events| - 1]
      case Request(key, now) =>
        earlier + [Respond(Next(Lookup(StoreAfter(events[..|events| - 1], w), key), w, now), max, now)]
      case Cleanup(_) => earlier
  }

  function RequestsOnly(events: seq<Event>): seq<Event> {
    if events == [] then []
    else
      var earlier := RequestsOnly(events[..|events| - 1]);
      if events[|events| - 1].Request? then earlier + [events[|events| - 1]] else earlier
  }

  ghost predicate Ordered(events: seq<Event>) {
    forall i, j :: 0 <= i <= j < |events| ==> events[i].now <= events[j].now
  }

  /** The stores agree, up to entries that are expired at `now` anyway. */
  ghost predicate SameUpToExpired(cleaned: Store, full: Store, now: nat) {
    forall key ::
      && (key in cleaned ==> key in full && full[key] == cleaned[key])
      && (key in full && key !in cleaned ==> now > full[key].resetTime)
  }

  lemma RequestAgrees(cleaned: Store, full: Store, w: nat, before: nat, key: string, now: nat)
    requires SameUpToExpired(cleaned, full, before) && before <= now
    ensures Next(Lookup(cleaned, key), w, now) == Next(Lookup(full, key), w, now)
    ensures SameUpToExpired(cleaned[key := Next(Lookup(cleaned, key), w, now)],
                            full[key := Next(Lookup(full, key), w, now)], now)
  {
  }

  lemma CleanupAgrees(cleaned: Store, full: Store, before: nat, now: nat)
    requires SameUpToExpired(cleaned, full, before) && before <= now
    ensures SameUpToExpired(Cleaned(cleaned, now), full, now)
  {
  }

  function LastTime(events: seq<Event>): nat { if events == [] then 0 else events[|events| - 1].now }

  /** Wherever cleanups are interleaved, every decision and every header is what
      it would be without any cleanup. */
  lemma {:induction false} CleanupInvisible(events: seq<Event>, w: nat, max: nat)
    requires Ordered(events)
    ensures Responses(events, w, max) == Responses(RequestsOnly(events), w, max)
    ensures SameUpToExpired(StoreAfter(events, w), StoreAfter(RequestsOnly(events), w), LastTime(events))
    decreases events
  {
    if events != [] {
      hide SameUpToExpired, Next, Respond;
      var front, last := events[..|events| - 1], events[|events| - 1];
      CleanupInvisible(front, w, max);
      var cleaned, full := StoreAfter(front, w), StoreAfter(RequestsOnly(front), w);
      assert LastTime(front) <= last.now by { if front != [] { assert events[|front| - 1].now <= events[|front|].now; } }
      match last
      case Request(key, now) =>
        RequestAgrees(cleaned, full, w, LastTime(front), key, now);
        assert (RequestsOnly(front) + [last])[..|RequestsOnly(front)|] == RequestsOnly(front);
      case Cleanup(now) => CleanupAgrees(cleaned, full, LastTime(front), now);
    } else {
      assert SameUpToExpired(map[], map[], 0);
    }
  }

  // ----- What one key admits -----

  /** The entry of a key after requests at `times`. */
  function EntryAfter(times: seq<nat>, w: nat): Option<Entry> {
    if times == [] then None
    else Some(Next(EntryAfter(times[..|times| - 1], w), w, times[|times| - 1]))
  }

  predicate Admitted(times: seq<nat>, w: nat, max: nat, i: nat)
    requires i < |times|
  {
    EntryAfter(times[..i + 1], w).value.count <= max
  }

  /** The admitted requests among the first `n` that fall into [a, a + w]. */
  function AdmittedIn(times: seq<nat>, w: nat, max: nat, a: nat, n: nat): nat
    requires n <= |times|
  {
    if n == 0 then 0
    else
      var counts := Admitted(times, w, max, n - 1) && a <= times[n - 1] <= a + w;
      AdmittedIn(times, w, max, a, n - 1) + if counts then 1 else 0
  }

  function Min(a: nat, b: nat): nat { if a <= b then a else b }

  /** How the admitted requests in [a, a + w] relate to the current entry, whose
      window is [resetTime - w, resetTime].  A window that started before `a`
      spent its first request outside; one that starts at `a` fills the interval
      alone; one that starts later has at most one before it. */
  ghost predicate Budget(admitted: nat, entry: Option<Entry>, w: nat, max: nat, a: nat, last: nat) {
    match entry
    case None => admitted == 0
    case Some(e) =>
      && last <= e.resetTime <= last + w && e.count >= 1
      && (e.resetTime < a ==> admitted == 0)
      && (a <= e.resetTime < a + w ==> admitted <= Min(e.count, max) - 1)
      && (e.resetTime == a + w ==> admitted <= Min(e.count, max))
      && (a + w < e.resetTime <= a + w + w ==> admitted <= max - 1 + Min(e.count, max))
      && admitted <= 2 * max - 1
  }

  lemma BudgetStep(admitted: nat, entry: Option<Entry>, w: nat, max: nat, a: nat, last: nat, now: nat)
    requires Budget(admitted, entry, w, max, a, last) && last <= now && max >= 1
    ensures var next := Next(entry, w, now);
      var counts := next.count <= max && a <= now <= a + w;
      Budget(admitted + if counts then 1 else 0, Some(next), w, max, a, now)
  {
  }

  lemma {:induction false} AdmittedBudget(times: seq<nat>, w: nat, max: nat, a: nat, n: nat)
    requires Monotone(times) && n <= |times| && max >= 1
    ensures Budget(AdmittedIn(times, w, max, a, n), EntryAfter(times[..n], w), w, max, a,
                   if n == 0 then 0 else times[n - 1])
    decreases n
  {
    if n > 0 {
      hide Budget, Next;
      AdmittedBudget(times, w, max, a, n - 1);
      assert times[..n][..n - 1] == times[..n - 1];
      BudgetStep(AdmittedIn(times, w, max, a, n - 1), EntryAfter(times[..n - 1], w), w, max, a,
                 if n == 1 then 0 else times[n - 2], times[n - 1]);
    }
  }

  /** A closed interval of the length of the window admits fewer than twice
      `max` requests. */
  lemma FewerThanTwiceMax(times: seq<nat>, w: nat, max: nat, a: nat)
    requires Monotone(times) && max >= 1
    ensures AdmittedIn(times, w, max, a, |times|) <= 2 * max - 1
  {
    AdmittedBudget(times, w, max, a, |times|);
  }

  // ----- What a whole trace admits for one of its keys -----

  /** When a key was requested, in a trace of requests of many keys. */
  function TimesOf(events: seq<Event>, key: string): seq<nat> {
    if events == [] then []
    else
      var earlier, last := TimesOf(events[..|events| - 1], key), events[|events| - 1];
      if last.Request? && last.key == key then earlier + [last.now] else earlier
  }

  /** The requests of a key that a trace, cleanups included, lets through in
      [a, a + w]. */
  function AllowedIn(events: seq<Event>, w: nat, max: nat, key: string, a: nat): nat {
    if events == [] then 0
    else
      var front, last := events[..|events| - 1], events[|events| - 1];
      var counts := last.Request? && last.key == key && a <= last.now <= a + w
        && Respond(Next(Lookup(StoreAfter(front, w), key), w, last.now), max, last.now).allowed;
      AllowedIn(front, w, max, key, a) + if counts then 1 else 0
  }

  /** Keys do not disturb each other: an entry depends on its own requests only. */
  lemma {:induction false} EntryOfKey(events: seq<Event>, w: nat, key: string)
    ensures Lookup(StoreAfter(RequestsOnly(events), w), key) == EntryAfter(TimesOf(events, key), w)
    decreases events
  {
    if events != [] {
      hide Next;
      var front, last := events[..|events| - 1], events[|events| - 1];
      EntryOfKey(front, w, key);
      if last.Request? {
        var requests, times := RequestsOnly(front), TimesOf(front, key);
        assert (requests + [last])[..|requests|] == requests;
        assert (times + [last.now])[..|times|] == times;
      }
    }
  }

  lemma {:induction false} AdmittedPrefix(times: seq<nat>, t: nat, w: nat, max: nat, a: nat, n: nat)
    requires n <= |times|
    ensures AdmittedIn(times + [t], w, max, a, n) == AdmittedIn(times, w, max, a, n)
    decreases n
  {
    if n > 0 {
      AdmittedPrefix(times, t, w, max, a, n - 1);
      assert (times + [t])[..n] == times[..n];
    }
  }

  lemma NextAfterCleanups(events: seq<Event>, w: nat, key: string, now: nat)
    requires Ordered(events) && LastTime(events) <= now
    ensures Next(Lookup(StoreAfter(events, w), key), w, now) == Next(EntryAfter(TimesOf(events, key), w), w, now)
  {
    hide Next, SameUpToExpired;
    CleanupInvisible(events, w, 0);
    RequestAgrees(StoreAfter(events, w), StoreAfter(RequestsOnly(events), w), w, LastTime(events), key, now);
    EntryOfKey(events, w, key);
  }

  /** The request that opened the window of the last one: windows last `w` and the
      first request after one opens the next. */
  function WindowStart(times: seq<nat>, w: nat): (i: nat)
    requires times != []
    ensures i < |times|
  {
    if |times| == 1 then 0
    else
      var earlier := WindowStart(times[..|times| - 1], w);
      if times[|times| - 1] > times[earlier] + w then |times| - 1 else earlier
  }

  /** An entry counts the requests of its window and ends `w` after the first. */
  lemma {:induction false} EntryTells(times: seq<nat>, w: nat)
    requires times != []
    ensures var s := WindowStart(times, w);
      EntryAfter(times, w) == Some(Entry(|times| - s, times[s] + w))
    decreases times
  {
    if |times| > 1 { EntryTells(times[..|times| - 1], w); } else { assert times[..0] == []; }
  }

  /** What a request is answered, in every trace of requests of any keys and of
      cleanups: it is allowed while its window has had at most `max` requests, and
      the headers tell how many are left and how many whole seconds remain. */
  lemma RequestAnswer(events: seq<Event>, w: nat, max: nat, key: string, now: nat)
    requires Ordered(events) && LastTime(events) <= now
    ensures var times := TimesOf(events, key) + [now];
      var s := WindowStart(times, w);
      var r := Respond(Next(Lookup(StoreAfter(events, w), key), w, now), max, now);
      && r.limit == max && (r.allowed <==> |times| - s <= max)
      && r.remaining == (if |times| - s <= max then max - (|times| - s) else 0)
      && 1000 * (r.reset - 1) < times[s] + w - now <= 1000 * r.reset
      && r.retryAfter == (if r.allowed then None else Some(r.reset))
  {
    var times := TimesOf(events, key) + [now];
    NextAfterCleanups(events, w, key, now);
    EntrySnoc(TimesOf(events, key), now, w);
    EntryTells(times, w);
    hide WindowStart, EntryAfter, Next, StoreAfter;
  }

  lemma OrderedFront(events: seq<Event>)
    requires Ordered(events) && events != []
    ensures Ordered(events[..|events| - 1]) && LastTime(events[..|events| - 1]) <= events[|events| - 1].now
  {
    if |events| > 1 { assert events[|events| - 2].now <= events[|events| - 1].now; }
  }

  lemma {:induction false} AllowedIsAdmitted(events: seq<Event>, w: nat, max: nat, key: string, a: nat)
    requires Ordered(events)
    ensures AllowedIn(events, w, max, key, a)
         == AdmittedIn(TimesOf(events, key), w, max, a, |TimesOf(events, key)|)
    decreases events
  {
    if events != [] {
      hide Next, StoreAfter, EntryAfter;
      var front, last := events[..|events| - 1], events[|events| - 1];
      OrderedFront(events);
      AllowedIsAdmitted(front, w, max, key, a);
      if last.Request? && last.key == key {
        var times := TimesOf(front, key);
        NextAfterCleanups(front, w, key, last.now);
        AdmittedPrefix(times, last.now, w, max, a, |times|);
        EntrySnoc(times, last.now, w);
        assert (times + [last.now])[..|times| + 1] == times + [last.now];
      }
    }
  }

  lemma EntrySnoc(times: seq<nat>, now: nat, w: nat)
    ensures EntryAfter(times + [now], w) == Some(Next(EntryAfter(times, w), w, now))
  {
    assert (times + [now])[..|times|] == times;
  }

  lemma {:induction false} TimesMonotone(events: seq<Event>, key: string)
    requires Ordered(events)
    ensures Monotone(TimesOf(events, key))
    ensures forall i :: 0 <= i < |TimesOf(events, key)| ==> TimesOf(events, key)[i] <= LastTime(events)
    decreases events
  {
    if events != [] {
      OrderedFront(events);
      TimesMonotone(events[..|events| - 1], key);
    }
  }

  /** In every trace of requests of any keys and of cleanups, a closed interval
      of the length of the window lets fewer than twice `max` requests of a key
      through. */
  lemma TraceBound(events: seq<Event>, w: nat, max: nat, key: string, a: nat)
    requires Ordered(events) && max >= 1
    ensures AllowedIn(events, w, max, key, a) <= 2 * max - 1
  {
    AllowedIsAdmitted(events, w, max, key, a);
    TimesMonotone(events, key);
    FewerThanTwiceMax(TimesOf(events, key), w, max, a);
  }

  /** One request opens a window at 0, the rest of its quota comes at its last
      instant `w`, the next quota one millisecond later. */
  function Burst(w: nat, max: nat, n: nat): (r: seq<nat>)
    ensures |r| == n
  {
    seq(n, i => if i == 0 then 0 else if i < max then w else w + 1)
  }

  /** So the bound cannot be improved, for any window and maximum. */
  lemma {:induction false} BurstAdmitted(w: nat, max: nat, n: nat)
    requires 1 <= n <= 2 * max && w >= 1
    ensures EntryAfter(Burst(w, max, n), w)
         == Some(if n <= max then Entry(n, w) else Entry(n - max, w + 1 + w))
    ensures AdmittedIn(Burst(w, max, 2 * max), w, max, 1, n) == n - 1
    decreases n
  {
    var all := Burst(w, max, 2 * max);
    assert all[..n] == Burst(w, max, n);
    assert Burst(w, max, n)[..n - 1] == Burst(w, max, n - 1);
    if n > 1 {
      BurstAdmitted(w, max, n - 1);
    } else {
      assert EntryAfter(Burst(w, max, 0), w) == None;
      assert AdmittedIn(all, w, max, 1, 0) == 0;
    }
  }

  lemma BurstReachesBound(w: nat, max: nat)
    requires w >= 1 && max >= 1
    ensures Monotone(Burst(w, max, 2 * max))
    ensures AdmittedIn(Burst(w, max, 2 * max), w, max, 1, 2 * max) == 2 * max - 1
  {
    BurstAdmitted(w, max, 2 * max);
  }

  // ----- Retry-After -----

  /** The entry that decides on the request at place `k` of a trace. */
  function EntryAt(events: seq<Event>, w: nat, k: nat): Entry
    requires k < |events| && events[k].Request?
  {
    Next(Lookup(StoreAfter(events[..k], w), events[k].key), w, events[k].now)
  }

  predicate Asks(e: Event, key: string) { e.Request? && e.key == key }

  /** After the request at `i` its key has the window of that request, a window
      that began after that one ended, or, once that one is over, none. */
  ghost predicate WindowSince(events: seq<Event>, w: nat, i: nat, k: nat)
    requires i < k <= |events| && events[i].Request?
  {
    var e, entry := EntryAt(events, w, i), Lookup(StoreAfter(events[..k], w), events[i].key);
    && (entry.None? ==> events[k - 1].now > e.resetTime)
    && (entry.Some? ==> entry.value.resetTime == e.resetTime || entry.value.resetTime > e.resetTime + w)
    && (entry.Some? && (forall n :: i < n < k ==> !Asks(events[n], events[i].key)) ==> entry.value == e)
  }

  lemma StoreNext(events: seq<Event>, w: nat, k: nat)
    requires 0 < k <= |events|
    ensures var before, e := StoreAfter(events[..k - 1], w), events[k - 1];
      StoreAfter(events[..k], w)
      == if e.Request? then before[e.key := Next(Lookup(before, e.key), w, e.now)] else Cleaned(before, e.now)
  {
    hide Next, Cleaned, Lookup;
    assert events[..k][..k - 1] == events[..k - 1];
  }

  lemma {:induction false} WindowsSince(events: seq<Event>, w: nat, i: nat, k: nat)
    requires Ordered(events) && i < k <= |events| && events[i].Request?
    ensures WindowSince(events, w, i, k)
    decreases k
  {
    hide StoreAfter;
    StoreNext(events, w, k);
    if k > i + 1 {
      WindowsSince(events, w, i, k - 1);
      assert events[k - 2].now <= events[k - 1].now;
      assert (forall n :: i < n < k ==> !Asks(events[n], events[i].key)) ==>
        (forall n :: i < n < k - 1 ==> !Asks(events[n], events[i].key)) && !Asks(events[k - 1], events[i].key);
    }
  }

  /** Over every trace of requests and cleanups: any later request of the key,
      strictly more than `Retry-After` seconds after a rejection, falls into a
      window that began after the old one ended; the first one opens it. */
  lemma RetryOpensNewWindow(events: seq<Event>, w: nat, max: nat, i: nat, j: nat)
    requires Ordered(events) && i < j < |events| && events[i].Request? && Asks(events[j], events[i].key)
    requires EntryAt(events, w, i).count > max
    requires events[j].now > events[i].now + 1000 * Respond(EntryAt(events, w, i), max, events[i].now).retryAfter.value
    ensures EntryAt(events, w, j).resetTime > EntryAt(events, w, i).resetTime + w
    ensures (forall n :: i < n < j ==> !Asks(events[n], events[i].key)) ==>
      EntryAt(events, w, j) == Entry(1, events[j].now + w)
  {
    hide StoreAfter;
    WindowsSince(events, w, i, j);
  }

  /** Exactly `Retry-After` seconds later it still falls into the old window, and
      is rejected, just when the rest of the window was a whole number of seconds. */
  lemma RetryOnTheSecond(entry: Entry, w: nat, max: nat, now: nat)
    requires entry.count > max && now <= entry.resetTime
    ensures var later := now + 1000 * Respond(entry, max, now).retryAfter.value;
      Next(Some(entry), w, later).count > max && Next(Some(entry), w, later).resetTime == entry.resetTime
      <==> (entry.resetTime - now) % 1000 == 0
  {
  }

  // ----- The guard -----

  /** `windowMs` and `max` are the options the requests of this guard carry. */
  class Guard {
    const windowMs: nat
    const max: nat
    var store: Store

    constructor (windowMs: nat, max: nat)
      ensures this.windowMs == windowMs && this.max == max && store == StoreAfter([], windowMs)
    {
      this.windowMs, this.max, store := windowMs, max, map[];
    }

    method CanActivate(key: string, now: nat) returns (r: Response)
      modifies this
      ensures store == old(store)[key := Next(Lookup(old(store), key), windowMs, now)]
      ensures r == Respond(store[key], max, now)
    {
      var entry;
      if key !in store || now > store[key].resetTime {
        entry := Entry(1, now + windowMs);
        store := store[key := entry];
      } else {
        entry := store[key].(count := store[key].count + 1);
        store := store[key := entry];
      }
      var remaining := if max >= entry.count then max - entry.count else 0;
      var resetSeconds := CeilSeconds(entry.resetTime - now);
      if entry.count > max {
        return Response(false, max, remaining, resetSeconds, Some(resetSeconds));
      }
      return Response(true, max, remaining, resetSeconds, None);
    }

    /** Visits the keys one by one, in whatever order the map yields them. */
    method Cleanup(now: nat)
      modifies this
      ensures store == Cleaned(old(store), now)
      ensures forall key :: key in store <==> key in old(store) && now <= old(store)[key].resetTime
      ensures forall key :: key in store ==> store[key] == old(store)[key]
    {
      var keys := store.Keys;
      while keys != {}
        invariant keys <= store.Keys <= old(store).Keys
        invariant forall key :: key in store ==> store[key] == old(store)[key]
        invariant forall key :: key in old(store) && key !in keys ==> (key in store <==> now <= old(store)[key].resetTime)
        decreases keys
      {
        var key :| key in keys;
        if now > store[key].resetTime {
          store := store - {key};
        }
        keys := keys - {key};
      }
    }

    /** Serves a whole trace of requests and cleanup ticks. */
    method Serve(events: seq<Event>) returns (responses: seq<Response>)
      requires store == map[]
      requires Ordered(events)
      modifies this
      ensures store == StoreAfter(events, windowMs)
      ensures responses == Responses(RequestsOnly(events), windowMs, max)
    {
      responses := [];
      assert events[..0] == [];
      for i := 0 to |events|
        invariant store == StoreAfter(events[..i], windowMs)
        invariant responses == Responses(events[..i], windowMs, max)
      {
        assert events[..i + 1][..i] == events[..i];
        match events[i] {
          case Request(key, now) =>
            var r := CanActivate(key, now);
            responses := responses + [r];
          case Cleanup(now) =>
            Cleanup(now);
        }
      }
      assert events[..|events|] == events;
      CleanupInvisible(events, windowMs, max);
    }
  }
}
