/** Request histories and what the three windowing algorithms of the rate
    limiters admit of them.  Times are milliseconds of a clock that never goes
    back. */
module Windows {

  ghost predicate Monotone(times: seq<nat>) {
    forall i, j :: 0 <= i <= j < |times| ==> times[i] <= times[j]
  }

  /** `Math.ceil(ms / 1000)`: the least number of whole seconds that covers it. */
  function CeilSeconds(ms: int): (seconds: int)
    ensures 1000 * (seconds - 1) < ms <= 1000 * seconds
  {
    (ms + 999) / 1000
  }

  // ----- Requests later than an instant -----

  function After(times: seq<nat>, lo: int): (r: seq<nat>) {
    if times == [] then []
    else After(times[..|times| - 1], lo) + if times[|times| - 1] > lo then [times[|times| - 1]] else []
  }

  lemma {:induction false} AfterNone(times: seq<nat>, lo: int)
    requires forall i :: 0 <= i < |times| ==> times[i] <= lo
    ensures After(times, lo) == []
    decreases times
  {
    if times != [] { AfterNone(times[..|times| - 1], lo); }
  }

  /** Of a monotone history it is a suffix. */
  lemma {:induction false} AfterIsSuffix(times: seq<nat>, lo: int)
    requires Monotone(times)
    ensures |After(times, lo)| <= |times|
    ensures After(times, lo) == times[|times| - |After(times, lo)|..]
    ensures forall i :: 0 <= i < |times| ==> (times[i] > lo <==> i >= |times| - |After(times, lo)|)
    decreases times
  {
    if times == [] {
    } else if times[|times| - 1] <= lo {
      AfterNone(times, lo);
      assert times[|times|..] == [];
    } else {
      hide After;
      var front, last := times[..|times| - 1], times[|times| - 1];
      assert Monotone(front) && times == front + [last];
      AfterIsSuffix(front, lo);
      AfterSnoc(front, last, lo);
      var n := |After(front, lo)|;
      assert front[|front| - n..] + [last] == times[|front| - n..];
    }
  }

  lemma {:induction false} AfterAfter(times: seq<nat>, lo: int, hi: int)
    requires lo <= hi
    ensures After(After(times, lo), hi) == After(times, hi)
    decreases times
  {
    if times != [] {
      var front, last := times[..|times| - 1], times[|times| - 1];
      AfterAfter(front, lo, hi);
      if last > lo {
        AfterSnoc(After(front, lo), last, hi);
      } else {
        assert After(times, lo) == After(front, lo) + [] == After(front, lo);
        assert After(times, hi) == After(front, hi) + [] == After(front, hi);
      }
    }
  }

  lemma {:induction false} AfterFewer(times: seq<nat>, lo: int, hi: int)
    requires lo <= hi
    ensures |After(times, hi)| <= |After(times, lo)|
    decreases times
  {
    if times != [] { AfterFewer(times[..|times| - 1], lo, hi); }
  }

  lemma AfterSnoc(times: seq<nat>, now: nat, lo: int)
    ensures After(times + [now], lo) == After(times, lo) + if now > lo then [now] else []
  {
    assert (times + [now])[..|times|] == times;
  }

  /** The places of the requests later than `lo`. */
  ghost function Recent(times: seq<nat>, lo: int): set<nat> {
    set i: nat | i < |times| && times[i] > lo
  }

  lemma {:induction false} AfterCount(times: seq<nat>, lo: int)
    ensures |After(times, lo)| == |Recent(times, lo)|
    decreases times
  {
    if times == [] {
      assert Recent(times, lo) == {};
    } else {
      var n := |times| - 1;
      AfterCount(times[..n], lo);
      var last: set<nat> := if times[n] > lo then {n} else {};
      assert Recent(times, lo) == Recent(times[..n], lo) + last;
    }
  }

  // ----- Sliding window -----

  /** Request `i` succeeds: it and the requests of the last `w` milliseconds,
      rejected ones included, are at most `max`. */
  predicate SlidingAdmits(times: seq<nat>, w: nat, max: nat, i: nat)
    requires i < |times|
  {
    |After(times[..i + 1], times[i] - w)| <= max
  }

  /** The successes among the first `n` requests that fall into (a, a + w]. */
  function SlidingSuccesses(times: seq<nat>, w: nat, max: nat, a: int, n: nat): nat
    requires n <= |times|
  {
    if n == 0 then 0
    else
      var counts := SlidingAdmits(times, w, max, n - 1) && a < times[n - 1] <= a + w;
      SlidingSuccesses(times, w, max, a, n - 1) + if counts then 1 else 0
  }

  lemma {:induction false} SuccessesAreRequests(times: seq<nat>, w: nat, max: nat, a: int, n: nat)
    requires n <= |times|
    ensures SlidingSuccesses(times, w, max, a, n) <= |After(times[..n], a)|
    decreases n
  {
    if n > 0 {
      SuccessesAreRequests(times, w, max, a, n - 1);
      assert times[..n][..n - 1] == times[..n - 1];
    }
  }

  /** Every interval of the length of the window has at most `max` successes. */
  lemma {:induction false} SlidingBound(times: seq<nat>, w: nat, max: nat, a: int, n: nat)
    requires n <= |times|
    ensures SlidingSuccesses(times, w, max, a, n) <= max
    decreases n
  {
    if n > 0 {
      SlidingBound(times, w, max, a, n - 1);
      if SlidingAdmits(times, w, max, n - 1) && a < times[n - 1] <= a + w {
        SuccessesAreRequests(times, w, max, a, n);
        AfterFewer(times[..n], times[n - 1] - w, a);
      }
    }
  }

  /** After a rejection nothing succeeds before the oldest request of its window
      is a whole window old. */
  lemma NoSuccessBeforeOldestLeaves(times: seq<nat>, w: nat, max: nat, i: nat, j: nat)
    requires Monotone(times) && w > 0 && i < j < |times| && !SlidingAdmits(times, w, max, i)
    requires times[j] < After(times[..i + 1], times[i] - w)[0] + w
    ensures !SlidingAdmits(times, w, max, j)
  {
    hide After;
    var early, late := times[..i + 1], times[..j + 1];
    AfterIsSuffix(early, times[i] - w);
    AfterIsSuffix(late, times[j] - w);
    var first := |early| - |After(early, times[i] - w)|;
    assert early[first] == times[first] == late[first];
    assert first >= |late| - |After(late, times[j] - w)|;
  }

  /** A retry at `t`, with no request in between, succeeds exactly when the
      request that is `max`-th from the end of the rejected window has left. */
  lemma RetrySucceedsIff(times: seq<nat>, w: nat, max: nat, t: nat)
    requires times != [] && Monotone(times + [t]) && w > 0 && max > 0
    requires !SlidingAdmits(times, w, max, |times| - 1)
    ensures max < |times|
    ensures SlidingAdmits(times + [t], w, max, |times|) <==> times[|times| - max] + w <= t
  {
    hide After;
    var all := times + [t];
    assert all[..|times| + 1] == all && times[..|times|] == times;
    assert Monotone(times) by { assert forall i :: 0 <= i < |times| ==> times[i] == all[i]; }
    AfterIsSuffix(times, times[|times| - 1] - w);
    AfterIsSuffix(all, t - w);
    assert all[|times| - max] == times[|times| - max];
  }

  /** The advertised `retryAfter`, whole seconds until the oldest request has
      left the window, can be too short: with two requests in a window for one,
      waiting that long only ends in another rejection. */
  lemma RetryAfterTooShort()
    ensures !SlidingAdmits([0, 1000], 2000, 1, 1)
    ensures CeilSeconds(After([0, 1000], 1000 - 2000)[0] + 2000 - 1000) == 1
    ensures !SlidingAdmits([0, 1000] + [1000 + 1000 * 1], 2000, 1, 2)
  {
    var times: seq<nat> := [0, 1000];
    AfterIsSuffix(times, -1000);
    assert times[0] > -1000 && times[..2] == times;
    RetrySucceedsIff(times, 2000, 1, 2000);
  }

  // ----- Fixed, clock-aligned window -----

  /** The requests in the aligned window number `index`. */
  function InWindow(times: seq<nat>, w: nat, index: nat): nat
    requires w > 0
  {
    if times == [] then 0
    else InWindow(times[..|times| - 1], w, index) + if times[|times| - 1] / w == index then 1 else 0
  }

  /** The places of the requests in it. */
  ghost function Aligned(times: seq<nat>, w: nat, index: nat): set<nat> {
    set i: nat | i < |times| && index * w <= times[i] < index * w + w
  }

  lemma {:induction false} InWindowCount(times: seq<nat>, w: nat, index: nat)
    requires w > 0
    ensures InWindow(times, w, index) == |Aligned(times, w, index)|
    decreases times
  {
    if times == [] {
      assert Aligned(times, w, index) == {};
    } else {
      var n := |times| - 1;
      InWindowCount(times[..n], w, index);
      InAligned(times[n], w, index);
      var last: set<nat> := if times[n] / w == index then {n} else {};
      assert Aligned(times, w, index) == Aligned(times[..n], w, index) + last;
    }
  }

  predicate FixedAdmits(times: seq<nat>, w: nat, max: nat, i: nat)
    requires w > 0 && i < |times|
  {
    InWindow(times[..i + 1], w, times[i] / w) <= max
  }

  /** The successes among the first `n` requests that fall into [a, b). */
  function FixedSuccesses(times: seq<nat>, w: nat, max: nat, a: nat, b: nat, n: nat): nat
    requires w > 0 && n <= |times|
  {
    if n == 0 then 0
    else
      var counts := FixedAdmits(times, w, max, n - 1) && a <= times[n - 1] < b;
      FixedSuccesses(times, w, max, a, b, n - 1) + if counts then 1 else 0
  }

  /** One aligned window never has more than `max` successes. */
  lemma {:induction false} AlignedBound(times: seq<nat>, w: nat, max: nat, index: nat, n: nat)
    requires w > 0 && n <= |times|
    ensures FixedSuccesses(times, w, max, index * w, index * w + w, n) <= max
    ensures FixedSuccesses(times, w, max, index * w, index * w + w, n) <= InWindow(times[..n], w, index)
    decreases n
  {
    if n > 0 {
      AlignedBound(times, w, max, index, n - 1);
      assert times[..n][..n - 1] == times[..n - 1];
      InAligned(times[n - 1], w, index);
    }
  }

  lemma TimesMonotone(x: int, y: int, w: nat)
    requires x <= y
    ensures x * w <= y * w
  {
  }

  /** The window a time falls into, by its bounds. */
  lemma InAligned(t: nat, w: nat, index: nat)
    requires w > 0
    ensures index * w <= t < index * w + w <==> t / w == index
    ensures t >= index * w + w ==> t / w > index
  {
    var q := t / w;
    assert q * w <= t < q * w + w;
    if q < index {
      TimesMonotone(q + 1, index, w);
    } else if q > index {
      TimesMonotone(index + 1, q, w);
    }
  }

  lemma {:induction false} FixedSplit(times: seq<nat>, w: nat, max: nat, a: nat, b: nat, lo: nat, n: nat)
    requires w > 0 && n <= |times| && lo <= a && b <= lo + 2 * w
    ensures FixedSuccesses(times, w, max, a, b, n)
         <= FixedSuccesses(times, w, max, lo, lo + w, n) + FixedSuccesses(times, w, max, lo + w, lo + w + w, n)
    decreases n
  {
    if n > 0 { FixedSplit(times, w, max, a, b, lo, n - 1); }
  }

  /** An interval of the length of the window meets at most two aligned windows,
      so it has at most twice `max` successes. */
  lemma FixedBound(times: seq<nat>, w: nat, max: nat, a: nat)
    requires w > 0
    ensures FixedSuccesses(times, w, max, a, a + w, |times|) <= 2 * max
  {
    hide FixedSuccesses, FixedAdmits;
    var index := a / w;
    InAligned(a, w, index);
    FixedSplit(times, w, max, a, a + w, index * w, |times|);
    AlignedBound(times, w, max, index, |times|);
    AlignedBound(times, w, max, index + 1, |times|);
    assert (index + 1) * w == index * w + w;
  }

  /** `max` requests in the last millisecond of the first window and `max` in the
      first of the next: the burst the code's comment warns of. */
  function EdgeBurst(w: nat, max: nat, n: nat): (r: seq<nat>)
    requires w > 0
    ensures |r| == n
  {
    seq(n, i => if i < max then w - 1 else w)
  }

  lemma {:induction false} EdgeBurstInWindows(w: nat, max: nat, n: nat)
    requires w >= 2 && n <= 2 * max
    ensures InWindow(EdgeBurst(w, max, n), w, 0) == if n <= max then n else max
    ensures InWindow(EdgeBurst(w, max, n), w, 1) == if n <= max then 0 else n - max
    decreases n
  {
    if n > 0 {
      EdgeBurstInWindows(w, max, n - 1);
      assert EdgeBurst(w, max, n)[..n - 1] == EdgeBurst(w, max, n - 1);
      InAligned(w - 1, w, 0);
      InAligned(w, w, 1);
    }
  }

  lemma {:induction false} EdgeBurstAdmitted(w: nat, max: nat, n: nat)
    requires w >= 2 && n <= 2 * max
    ensures FixedSuccesses(EdgeBurst(w, max, 2 * max), w, max, w - 1, w - 1 + w, n) == n
    decreases n
  {
    hide InWindow;
    if n > 0 {
      EdgeBurstAdmitted(w, max, n - 1);
      EdgeBurstInWindows(w, max, n);
      var all := EdgeBurst(w, max, 2 * max);
      assert all[..n] == EdgeBurst(w, max, n);
      InAligned(w - 1, w, 0);
      InAligned(w, w, 1);
      assert all[n - 1] / w == if n <= max then 0 else 1;
    }
  }

  /** So the bound of twice `max` is reached. */
  lemma EdgeBurstReachesBound(w: nat, max: nat)
    requires w >= 2
    ensures FixedSuccesses(EdgeBurst(w, max, 2 * max), w, max, w - 1, w - 1 + w, 2 * max) == 2 * max
  {
    EdgeBurstAdmitted(w, max, 2 * max);
  }

  /** Waiting the advertised number of seconds, rounded up twice, always ends in
      a later aligned window. */
  lemma FixedRetryLandsLater(now: nat, w: nat)
    requires w > 0
    ensures var reset := CeilSeconds(now / w * w + w);
      var retryAfter := CeilSeconds(reset * 1000 - now);
      retryAfter >= 1 && (now + 1000 * retryAfter) / w > now / w
  {
    var index := now / w;
    InAligned(now, w, index);
    var reset := CeilSeconds(index * w + w);
    var later := now + 1000 * CeilSeconds(reset * 1000 - now);
    assert later >= reset * 1000 >= index * w + w;
    InAligned(later, w, index);
  }
}
