/** The binary max-heap of src/common/queue/notification-queue.service.ts. */
module NotificationQueue {
  import opened Sequences
  import opened Wrappers

  datatype Kind = Message | Call | Mention | System

  datatype Job = Job(id: string, kind: Kind, priority: int, payload: nat, timestamp: nat, retries: nat, maxRetries: nat)

  // ----- Heap order -----

  function Parent(i: nat): nat
    requires i > 0
  {
    (i - 1) / 2
  }

  ghost predicate InOrder(q: seq<Job>, i: nat)
    requires 0 < i < |q|
  {
    q[Parent(i)].priority >= q[i].priority
  }

  ghost predicate Heap(q: seq<Job>) {
    forall i :: 0 < i < |q| ==> InOrder(q, i)
  }

  /** A heap, but for the job at `k`, which may be too good for its place. */
  ghost predicate HeapButUp(q: seq<Job>, k: nat) {
    && (forall i :: 0 < i < |q| && i != k ==> InOrder(q, i))
    && (forall i :: 0 < i < |q| && Parent(i) == k && k > 0 ==> q[Parent(k)].priority >= q[i].priority)
  }

  /** A heap, but for the job at `k`, which may be too bad for its place. */
  ghost predicate HeapButDown(q: seq<Job>, k: nat) {
    && (forall i :: 0 < i < |q| && Parent(i) != k ==> InOrder(q, i))
    && (forall i :: 0 < i < |q| && Parent(i) == k && k > 0 ==> q[Parent(k)].priority >= q[i].priority)
  }

  function Swap(q: seq<Job>, i: nat, j: nat): (r: seq<Job>)
    requires i < |q| && j < |q|
    ensures |r| == |q| && multiset(r) == multiset(q)
  {
    q[i := q[j]][j := q[i]]
  }

  // ----- The sifts -----

  function SiftUp(q: seq<Job>, k: nat): (r: seq<Job>)
    requires k < |q|
    ensures |r| == |q| && multiset(r) == multiset(q)
    decreases k
  {
    if k == 0 || q[k].priority <= q[Parent(k)].priority then q
    else SiftUp(Swap(q, k, Parent(k)), Parent(k))
  }

  /** The best of the job at `k` and its children, the leftmost of equal ones. */
  function Largest(q: seq<Job>, k: nat): (l: nat)
    requires k < |q|
    ensures l < |q| && (l == k || (l > k && Parent(l) == k))
    ensures q[l].priority >= q[k].priority && (l != k ==> q[l].priority > q[k].priority)
    ensures forall i :: 0 < i < |q| && Parent(i) == k ==> q[l].priority >= q[i].priority
    ensures forall i :: 0 < i < l && Parent(i) == k && l != k ==> q[l].priority > q[i].priority
  {
    var left := if 2 * k + 1 < |q| && q[2 * k + 1].priority > q[k].priority then 2 * k + 1 else k;
    if 2 * k + 2 < |q| && q[2 * k + 2].priority > q[left].priority then 2 * k + 2 else left
  }

  function SiftDown(q: seq<Job>, k: nat): (r: seq<Job>)
    requires k < |q|
    ensures |r| == |q| && multiset(r) == multiset(q)
    decreases |q| - k
  {
    var l := Largest(q, k);
    if l == k then q else SiftDown(Swap(q, k, l), l)
  }

  lemma {:induction false} SiftUpHeap(q: seq<Job>, k: nat)
    requires k < |q| && HeapButUp(q, k)
    ensures Heap(SiftUp(q, k))
    decreases k
  {
    if k == 0 || q[k].priority <= q[Parent(k)].priority {
    } else {
      var p := Parent(k);
      var r := Swap(q, k, p);
      forall i | 0 < i < |r| && i != p ensures InOrder(r, i) {
        assert i != k ==> InOrder(q, i);
      }
      forall i | 0 < i < |r| && Parent(i) == p && p > 0 ensures r[Parent(p)].priority >= r[i].priority {
        assert InOrder(q, p);
        assert i != k ==> InOrder(q, i);
      }
      SiftUpHeap(r, p);
    }
  }

  lemma {:induction false} SiftDownHeap(q: seq<Job>, k: nat)
    requires k < |q| && HeapButDown(q, k)
    ensures Heap(SiftDown(q, k))
    decreases |q| - k
  {
    var l := Largest(q, k);
    if l == k {
    } else {
      var r := Swap(q, k, l);
      forall i | 0 < i < |r| && Parent(i) != l ensures InOrder(r, i) {
        assert Parent(i) != k ==> InOrder(q, i);
      }
      forall i | 0 < i < |r| && Parent(i) == l ensures r[Parent(l)].priority >= r[i].priority {
        assert InOrder(q, i);
      }
      SiftDownHeap(r, l);
    }
  }

  /** `i` is `k` or above it. */
  predicate Above(i: nat, k: nat)
    decreases k
  {
    i == k || (k > 0 && Above(i, Parent(k)))
  }

  lemma {:induction false} AboveTransitive(i: nat, j: nat, k: nat)
    requires Above(i, j) && Above(j, k)
    ensures Above(i, k)
    decreases k
  {
    if j != k { AboveTransitive(i, j, Parent(k)); }
  }

  /** The sifts move jobs on one path only. */
  lemma {:induction false} SiftUpElsewhere(q: seq<Job>, k: nat, i: nat)
    requires k < |q| && i < |q| && !Above(i, k)
    ensures SiftUp(q, k)[i] == q[i]
    decreases k
  {
    if k > 0 && q[k].priority > q[Parent(k)].priority {
      var p := Parent(k);
      assert Above(p, k) by { assert Above(p, p); }
      SiftUpElsewhere(Swap(q, k, p), p, i);
    }
  }

  lemma {:induction false} SiftDownElsewhere(q: seq<Job>, k: nat, i: nat)
    requires k < |q| && i < |q| && !Above(k, i)
    ensures SiftDown(q, k)[i] == q[i]
    decreases |q| - k
  {
    var l := Largest(q, k);
    if l != k {
      assert Above(k, k) && Above(k, l);
      if Above(l, i) { AboveTransitive(k, l, i); }
      SiftDownElsewhere(Swap(q, k, l), l, i);
    }
  }

  /** The root of a heap has maximal priority. */
  lemma {:induction false} RootIsMax(q: seq<Job>, i: nat)
    requires Heap(q) && i < |q|
    ensures q[0].priority >= q[i].priority
    decreases i
  {
    if i > 0 {
      assert InOrder(q, i);
      RootIsMax(q, Parent(i));
    }
  }

  // ----- enqueue and dequeue -----

  function Enqueued(q: seq<Job>, job: Job): (r: seq<Job>)
    ensures multiset(r) == multiset(q) + multiset{job}
  {
    SiftUp(q + [job], |q|)
  }

  function Dequeued(q: seq<Job>): (r: (Option<Job>, seq<Job>))
    ensures q == [] <==> r.0.None?
    ensures r.0.None? ==> r.1 == []
    ensures r.0.Some? ==> multiset(q) == multiset(r.1) + multiset{r.0.value}
  {
    if q == [] then (None, [])
    else
      var rest, last := q[..|q| - 1], q[|q| - 1];
      assert q == rest + [last];
      if rest == [] then (Some(last), [])
      else
        assert rest == [rest[0]] + rest[1..] && rest[0 := last] == [last] + rest[1..];
        (Some(q[0]), SiftDown(rest[0 := last], 0))
  }

  lemma EnqueueHeap(q: seq<Job>, job: Job)
    requires Heap(q)
    ensures Heap(Enqueued(q, job))
  {
    var r := q + [job];
    forall i | 0 < i < |r| && i != |q| ensures InOrder(r, i) {
      assert InOrder(q, i);
    }
    SiftUpHeap(r, |q|);
  }

  lemma EmptyHeap()
    ensures Heap([]) && NonIncreasing([])
  {
  }

  /** A dequeue keeps the heap and hands out a job no other job outranks. */
  lemma DequeueHeap(q: seq<Job>)
    requires Heap(q)
    ensures Heap(Dequeued(q).1)
    ensures q != [] ==> forall j :: j in multiset(q) ==> Dequeued(q).0.value.priority >= j.priority
  {
    if |q| > 1 {
      var r := q[..|q| - 1][0 := q[|q| - 1]];
      forall i | 0 < i < |r| && Parent(i) != 0 ensures InOrder(r, i) {
        assert InOrder(q, i);
      }
      SiftDownHeap(r, 0);
    }
    forall j | j in multiset(q) ensures q[0].priority >= j.priority {
      var i :| 0 <= i < |q| && q[i] == j;
      RootIsMax(q, i);
    }
  }

  // ----- Draining -----

  /** What the worker loop hands out until the queue is empty. */
  function Drain(q: seq<Job>): seq<Job>
    decreases |q|
  {
    if q == [] then [] else DequeueShrinks(q); [Dequeued(q).0.value] + Drain(Dequeued(q).1)
  }

  lemma DequeueShrinks(q: seq<Job>)
    requires q != []
    ensures |Dequeued(q).1| == |q| - 1
  {
    assert |multiset(q)| == |multiset(Dequeued(q).1) + multiset{Dequeued(q).0.value}|;
  }

  ghost predicate NonIncreasing(jobs: seq<Job>) {
    forall i, j :: 0 <= i < j < |jobs| ==> jobs[i].priority >= jobs[j].priority
  }

  lemma PrependMax(first: Job, jobs: seq<Job>)
    requires NonIncreasing(jobs) && forall j :: j in multiset(jobs) ==> first.priority >= j.priority
    ensures NonIncreasing([first] + jobs)
  {
    var all := [first] + jobs;
    forall i, j | 0 <= i < j < |all| ensures all[i].priority >= all[j].priority {
      assert all[j] == jobs[j - 1] && jobs[j - 1] in multiset(jobs);
    }
  }

  /** Draining a heap sorts it: the same jobs, by non-increasing priority. */
  lemma {:induction false} DrainSorts(q: seq<Job>)
    requires Heap(q)
    ensures multiset(Drain(q)) == multiset(q)
    ensures NonIncreasing(Drain(q))
    decreases |q|
  {
    hide Dequeued, Heap, NonIncreasing;
    if q == [] {
      EmptyHeap();
    } else {
      var first, rest := Dequeued(q).0.value, Dequeued(q).1;
      DequeueShrinks(q);
      DequeueHeap(q);
      DrainSorts(rest);
      PrependMax(first, Drain(rest));
    }
  }

  // ----- Every interleaving of enqueues and dequeues -----

  datatype Event = Put(job: Job) | Take

  /** The queue and the jobs handed out so far, in order. */
  datatype History = History(queue: seq<Job>, taken: seq<Job>)

  function After(events: seq<Event>): History {
    if events == [] then History([], [])
    else
      var h := After(events[..|events| - 1]);
      match events[|events| - 1]
      case Put(job) => History(Enqueued(h.queue, job), h.taken)
      case Take =>
        var (job, rest) := Dequeued(h.queue);
        History(rest, if job.Some? then h.taken + [job.value] else h.taken)
  }

  function Submitted(events: seq<Event>): multiset<Job> {
    if events == [] then multiset{}
    else
      var last := match events[|events| - 1] case Put(job) => multiset{job} case Take => multiset{};
      Submitted(events[..|events| - 1]) + last
  }

  /** No job is lost, invented or handed out twice. */
  lemma {:induction false} NothingLost(events: seq<Event>)
    ensures Heap(After(events).queue)
    ensures multiset(After(events).taken) + multiset(After(events).queue) == Submitted(events)
    decreases events
  {
    hide Enqueued, Dequeued, Heap;
    if events == [] {
      EmptyHeap();
    } else {
      var h := After(events[..|events| - 1]);
      NothingLost(events[..|events| - 1]);
      match events[|events| - 1]
      case Put(job) => EnqueueHeap(h.queue, job);
      case Take =>
        DequeueHeap(h.queue);
        if Dequeued(h.queue).0.Some? { TakenOver(h, Dequeued(h.queue).0.value, Dequeued(h.queue).1); }
    }
  }

  lemma TakenOver(h: History, job: Job, rest: seq<Job>)
    requires multiset(h.queue) == multiset(rest) + multiset{job}
    ensures multiset(h.taken + [job]) + multiset(rest) == multiset(h.taken) + multiset(h.queue)
  {
  }

  /** Whatever is handed out next outranks everything still waiting. */
  lemma NextOutranksWaiting(events: seq<Event>, j: Job)
    requires j in Submitted(events) - multiset(After(events).taken)
    ensures Dequeued(After(events).queue).0.Some?
    ensures Dequeued(After(events).queue).0.value.priority >= j.priority
  {
    hide Dequeued, Heap, After;
    NothingLost(events);
    DequeueHeap(After(events).queue);
    assert j in multiset(After(events).queue);
  }

  // ----- Order of arrival -----

  /** All jobs of one priority. */
  ghost predicate Level(q: seq<Job>, priority: int) {
    forall i :: 0 <= i < |q| ==> q[i].priority == priority
  }

  /** An enqueue then puts the job last, and a dequeue moves the last one to the
      front. */
  lemma LevelSteps(q: seq<Job>, job: Job, priority: int)
    requires Level(q, priority) && job.priority == priority
    ensures Enqueued(q, job) == q + [job]
    ensures q != [] ==> Dequeued(q).0 == Some(q[0])
    ensures |q| == 1 ==> Dequeued(q).1 == []
    ensures |q| >= 2 ==> Dequeued(q).1 == [q[|q| - 1]] + q[1..|q| - 1]
  {
    if |q| >= 2 {
      var r := q[..|q| - 1][0 := q[|q| - 1]];
      assert Largest(r, 0) == 0;
      assert r == [q[|q| - 1]] + q[1..|q| - 1];
    }
  }

  /** The jobs submitted, in order of arrival. */
  function Arrivals(events: seq<Event>): seq<Job> {
    if events == [] then []
    else
      var earlier := Arrivals(events[..|events| - 1]);
      match events[|events| - 1] case Put(job) => earlier + [job] case Take => earlier
  }

  /** How many jobs wait after these events. */
  function Waiting(events: seq<Event>): nat {
    if events == [] then 0
    else
      var earlier := Waiting(events[..|events| - 1]);
      match events[|events| - 1] case Put(_) => earlier + 1 case Take => if earlier == 0 then 0 else earlier - 1
  }

  /** No dequeue finds more than two jobs. */
  ghost predicate CalmTakes(events: seq<Event>) {
    forall k :: 0 <= k < |events| && events[k].Take? ==> Waiting(events[..k]) <= 2
  }

  /** What is handed out in all, when the rest of the queue is drained in the end. */
  function Served(events: seq<Event>): seq<Job> {
    After(events).taken + Drain(After(events).queue)
  }

  /** The jobs taken and those waiting are the arrivals, in order. */
  ghost predicate InTurn(h: History, arrivals: seq<Job>) {
    h.taken + h.queue == arrivals
  }

  /** Some job, the next one at the latest, is served out of turn. */
  ghost predicate OutOfTurn(h: History, arrivals: seq<Job>) {
    exists i :: 0 <= i <= |h.taken| && i < |h.taken + h.queue| == |arrivals| && (h.taken + h.queue)[i] != arrivals[i]
  }

  lemma PutTurn(h: History, arrivals: seq<Job>, job: Job)
    ensures var next := History(h.queue + [job], h.taken);
      && (InTurn(h, arrivals) ==> InTurn(next, arrivals + [job]))
      && (OutOfTurn(h, arrivals) ==> OutOfTurn(next, arrivals + [job]))
  {
    var next, now, later := History(h.queue + [job], h.taken), h.taken + h.queue, arrivals + [job];
    assert next.taken + next.queue == now + [job];
    if OutOfTurn(h, arrivals) {
      var i :| 0 <= i <= |h.taken| && i < |now| == |arrivals| && now[i] != arrivals[i];
      assert (next.taken + next.queue)[i] != later[i];
    }
  }

  lemma TakeTurn(h: History, arrivals: seq<Job>, rest: seq<Job>)
    requires h.queue != [] && NoDup(arrivals)
    requires if |h.queue| == 1 then rest == [] else rest == [h.queue[|h.queue| - 1]] + h.queue[1..|h.queue| - 1]
    ensures var next := History(rest, h.taken + [h.queue[0]]);
      && (InTurn(h, arrivals) && |h.queue| <= 2 ==> InTurn(next, arrivals))
      && (InTurn(h, arrivals) && |h.queue| > 2 ==> OutOfTurn(next, arrivals))
      && (OutOfTurn(h, arrivals) ==> OutOfTurn(next, arrivals))
  {
    var next, now := History(rest, h.taken + [h.queue[0]]), h.taken + h.queue;
    var after := next.taken + next.queue;
    assert |after| == |now| && forall i :: 0 <= i <= |h.taken| ==> after[i] == now[i];
    if InTurn(h, arrivals) && |h.queue| > 2 {
      var i := |next.taken|;
      assert arrivals[i] == h.queue[1] && after[i] == h.queue[|h.queue| - 1] == arrivals[|arrivals| - 1];
    } else if InTurn(h, arrivals) {
      assert after == now;
    } else if OutOfTurn(h, arrivals) {
      var i :| 0 <= i <= |h.taken| && i < |now| == |arrivals| && now[i] != arrivals[i];
      assert after[i] != arrivals[i];
    }
  }

  lemma CalmSnoc(events: seq<Event>, e: Event)
    ensures CalmTakes(events + [e]) <==> CalmTakes(events) && (e.Take? ==> Waiting(events) <= 2)
  {
    var all := events + [e];
    assert all[..|events|] == events && all[|events|] == e;
    assert forall k :: 0 <= k < |events| ==> all[..k] == events[..k] && all[k] == events[k];
  }

  /** What `Turns` says of one state. */
  ghost predicate Turned(events: seq<Event>, priority: int) {
    var h := After(events);
    && Level(h.queue, priority) && |h.queue| == Waiting(events)
    && (CalmTakes(events) ==> InTurn(h, Arrivals(events)))
    && (!CalmTakes(events) ==> OutOfTurn(h, Arrivals(events)))
  }

  lemma PutTurned(events: seq<Event>, job: Job, priority: int)
    requires Turned(events, priority) && job.priority == priority
    ensures Turned(events + [Put(job)], priority)
  {
    hide Enqueued, InTurn, OutOfTurn, CalmTakes;
    assert (events + [Put(job)])[..|events|] == events;
    LevelSteps(After(events).queue, job, priority);
    PutTurn(After(events), Arrivals(events), job);
    CalmSnoc(events, Put(job));
  }

  lemma AfterTake(events: seq<Event>)
    ensures var h, next := After(events), After(events + [Take]);
      && next.queue == Dequeued(h.queue).1
      && next.taken == h.taken + if h.queue == [] then [] else [Dequeued(h.queue).0.value]
    ensures Arrivals(events + [Take]) == Arrivals(events)
    ensures Waiting(events + [Take]) == if Waiting(events) == 0 then 0 else Waiting(events) - 1
  {
    hide Dequeued;
    assert (events + [Take])[..|events|] == events;
  }

  lemma TakeTurned(events: seq<Event>, priority: int)
    requires Turned(events, priority) && NoDup(Arrivals(events))
    ensures Turned(events + [Take], priority)
  {
    hide Dequeued, InTurn, OutOfTurn, CalmTakes, NoDup, After, Arrivals, Waiting;
    AfterTake(events);
    CalmSnoc(events, Take);
    var q := After(events).queue;
    if q != [] {
      LevelSteps(q, q[0], priority);
      TakeTurn(After(events), Arrivals(events), Dequeued(q).1);
      assert After(events + [Take]) == History(Dequeued(q).1, After(events).taken + [q[0]]);
    } else {
      DequeueNothing();
      assert After(events + [Take]) == After(events) by { assert After(events).taken + [] == After(events).taken; }
    }
  }

  lemma DequeueNothing()
    ensures Dequeued([]) == (None, [])
  {
  }

  lemma NothingTurned(priority: int)
    ensures Turned([], priority)
  {
    assert InTurn(After([]), []);
  }

  lemma {:induction false} Turns(events: seq<Event>, priority: int)
    requires Level(Arrivals(events), priority) && NoDup(Arrivals(events))
    ensures Turned(events, priority)
    decreases events
  {
    hide Turned, After;
    if events == [] {
      NothingTurned(priority);
    } else {
      var front, last := events[..|events| - 1], events[|events| - 1];
      assert events == front + [last];
      assert Arrivals(front) <= Arrivals(events);
      Turns(front, priority);
      if last.Put? {
        assert Arrivals(events)[|Arrivals(front)|] == last.job;
        PutTurned(front, last.job, priority);
      } else {
        TakeTurned(front, priority);
      }
    }
  }

  lemma DrainStep(q: seq<Job>)
    requires q != []
    ensures Drain(q) == [Dequeued(q).0.value] + Drain(Dequeued(q).1)
  {
  }

  /** Draining jobs of one priority: the first stays first, the last comes second. */
  lemma DrainLevel(q: seq<Job>, priority: int)
    requires Level(q, priority)
    ensures |Drain(q)| == |q|
    ensures |q| <= 2 ==> Drain(q) == q
    ensures |q| > 0 ==> Drain(q)[0] == q[0]
    ensures |q| > 1 ==> Drain(q)[1] == q[|q| - 1]
  {
    DrainLength(q);
    hide Dequeued, Drain;
    if q != [] {
      LevelSteps(q, q[0], priority);
      DrainStep(q);
      var rest := Dequeued(q).1;
      DrainLength(rest);
      if rest != [] {
        LevelSteps(rest, rest[0], priority);
        DrainStep(rest);
        DrainLength(Dequeued(rest).1);
      }
    }
  }

  /** Jobs of one priority are not served in order of arrival: of three or more
      waiting, the latest is served second. */
  lemma LatestServedSecond(q: seq<Job>)
    requires |q| >= 2 && Level(q, q[0].priority)
    ensures Dequeued(q).0 == Some(q[0])
    ensures Dequeued(Dequeued(q).1).0 == Some(q[|q| - 1])
  {
    hide Dequeued;
    LevelSteps(q, q[0], q[0].priority);
    LevelSteps(Dequeued(q).1, q[0], q[0].priority);
  }

  lemma {:induction false} DrainLength(q: seq<Job>)
    ensures |Drain(q)| == |q|
    decreases |q|
  {
    if q != [] {
      DequeueShrinks(q);
      DrainLength(Dequeued(q).1);
    }
  }

  /** Over every interleaving of enqueues and dequeues of distinct jobs of one
      priority: they are served in order of arrival if and only if no dequeue,
      those of the final draining included, ever finds more than two waiting. */
  lemma ServedInOrderIff(events: seq<Event>, priority: int)
    requires Level(Arrivals(events), priority) && NoDup(Arrivals(events))
    ensures Served(events) == Arrivals(events) <==> CalmTakes(events) && Waiting(events) <= 2
  {
    Turns(events, priority);
    assert Turned(events, priority);
    var h, arrivals := After(events), Arrivals(events);
    hide After, Drain, Arrivals, Waiting, CalmTakes;
    DrainLevel(h.queue, priority);
    var served := h.taken + Drain(h.queue);
    if CalmTakes(events) {
      if |h.queue| > 2 {
        var i := |h.taken| + 1;
        assert arrivals[i] == h.queue[1] && served[i] == h.queue[|h.queue| - 1] == arrivals[|arrivals| - 1];
      }
    } else {
      var i :| 0 <= i <= |h.taken| && i < |h.taken + h.queue| == |arrivals| && (h.taken + h.queue)[i] != arrivals[i];
      assert served[i] == (h.taken + h.queue)[i];
    }
  }

  // ----- The service -----

  datatype Request = Request(kind: Kind, priority: int, payload: nat, maxRetries: nat)

  class NotificationQueueService {
    var queue: seq<Job>

    constructor ()
      ensures queue == [] && Heap(queue)
    {
      queue := [];
    }

    /** `id` and `now` are what the random generator and the clock yield. */
    method Enqueue(request: Request, id: string, now: nat)
      requires Heap(queue)
      modifies this
      ensures Heap(queue)
      ensures var job := Job(id, request.kind, request.priority, request.payload, now, 0, request.maxRetries);
        queue == Enqueued(old(queue), job)
        && multiset(queue) == multiset(old(queue)) + multiset{job}
    {
      var notification := Job(id, request.kind, request.priority, request.payload, now, 0, request.maxRetries);
      EnqueueHeap(queue, notification);
      queue := queue + [notification];
      BubbleUp(|queue| - 1);
    }

    method Dequeue() returns (job: Option<Job>)
      requires Heap(queue)
      modifies this
      ensures Heap(queue) && (job, queue) == Dequeued(old(queue))
      ensures job.None? <==> old(queue) == []
      ensures job.Some? ==>
        && multiset(old(queue)) == multiset(queue) + multiset{job.value}
        && forall j :: j in multiset(old(queue)) ==> job.value.priority >= j.priority
    {
      DequeueHeap(queue);
      if |queue| == 0 {
        return None;
      }
      var last := queue[|queue| - 1];
      if |queue| == 1 {
        queue := [];
        return Some(last);
      }
      var max := queue[0];
      queue := queue[..|queue| - 1];
      queue := queue[0 := last];
      BubbleDown(0);
      return Some(max);
    }

    method BubbleUp(index: nat)
      requires index < |queue|
      modifies this
      ensures queue == SiftUp(old(queue), index)
      decreases index
    {
      if index == 0 {
        return;
      }
      var parentIndex := (index - 1) / 2;
      if queue[index].priority > queue[parentIndex].priority {
        queue := queue[index := queue[parentIndex]][parentIndex := queue[index]];
        BubbleUp(parentIndex);
      }
    }

    method BubbleDown(index: nat)
      requires index < |queue|
      modifies this
      ensures queue == SiftDown(old(queue), index)
      decreases |queue| - index
    {
      var leftChild := 2 * index + 1;
      var rightChild := 2 * index + 2;
      var largest := index;
      if leftChild < |queue| && queue[leftChild].priority > queue[largest].priority {
        largest := leftChild;
      }
      if rightChild < |queue| && queue[rightChild].priority > queue[largest].priority {
        largest := rightChild;
      }
      assert largest == Largest(queue, index);
      if largest != index {
        assert Swap(queue, index, largest) == queue[index := queue[largest]][largest := queue[index]];
        queue := queue[index := queue[largest]][largest := queue[index]];
        BubbleDown(largest);
      }
    }
  }
}
