/** The at-least-once protocol between the broker and the callback of `consume`
    in src/common/rabbitmq/amqp-manager.service.ts.  The steps are as small as
    the calls the callback makes, so a lost channel or a crash of the process can
    fall between the publish and the ack of `handleMessageError`.  A callback
    survives the loss of its channel: its ack then throws, and what it still
    does is publish a retry copy over the publish channel. */
module RetryingConsumer {

  /** One message on the wire.  `retry` is the `x-retry-count` header, 0 when it
      is missing; `expires` says that it carries an expiration. */
  datatype Copy = Copy(origin: nat, wellFormed: bool, retry: nat, expires: bool)

  datatype Place =
    | Queued        // in the queue
    | Handling      // delivered, not acknowledged
    | Republished   // its retry copy is published, its own ack is not sent yet
    | Superseded    // acknowledged after its retry copy was published
    | Completed     // acknowledged after the handler succeeded
    | DeadLettered  // rejected without requeue
    | Expired       // dropped from the queue by its expiration

  datatype Token = Token(copy: Copy, place: Place)

  datatype Config = Config(retryEnabled: bool, maxRetries: nat)

  /** A callback whose channel was lost while its handler was at work. */
  datatype Callback = Callback(copy: Copy, running: bool)

  /** `abandoned` holds the callbacks that outlived their channel.  The rest is
      history: `handled` lists the handler runs by origin, `sent` the copies the
      application published, `returned` the deliveries the broker got back,
      `strays` the retry copies of abandoned callbacks, and `resent` the copies
      the connection manager sent again because their confirmation was lost. */
  datatype State = State(tokens: seq<Token>, abandoned: seq<Callback>, handled: seq<nat>, sent: seq<Copy>,
                         returned: seq<Token>, strays: seq<Copy>, resent: seq<Copy>)

  datatype Event =
    | Publish(copy: Copy) | Deliver(i: nat) | Succeed(i: nat) | Fail(i: nat) | AckRetried(i: nat) | Expire(i: nat)
    | ChannelLost | Finish(k: nat) | Crash | Resend(i: nat)

  const INITIAL := State([], [], [], [], [], [], [])

  predicate At(s: State, i: nat, place: Place) {
    i < |s.tokens| && s.tokens[i].place == place
  }

  predicate WillRetry(cfg: Config, copy: Copy) {
    cfg.retryEnabled && copy.retry < cfg.maxRetries
  }

  function RetryCopy(copy: Copy): Copy {
    copy.(retry := copy.retry + 1, expires := true)
  }

  function Unacked(tokens: seq<Token>): seq<Token> {
    if tokens == [] then []
    else
      var last := tokens[|tokens| - 1];
      Unacked(tokens[..|tokens| - 1]) + if last.place.Handling? || last.place.Republished? then [last] else []
  }

  /** The callbacks of deliveries whose handler is still at work. */
  function Orphans(tokens: seq<Token>): seq<Callback> {
    if tokens == [] then []
    else
      var last := tokens[|tokens| - 1];
      Orphans(tokens[..|tokens| - 1]) + if last.place.Handling? then [Callback(last.copy, true)] else []
  }

  function Requeued(t: Token): Token {
    if t.place.Handling? || t.place.Republished? then t.(place := Queued) else t
  }

  function Move(s: State, i: nat, place: Place): State
    requires i < |s.tokens|
  {
    s.(tokens := s.tokens[i := s.tokens[i].(place := place)])
  }

  /** One step; an event that is not possible changes nothing. */
  function Next(cfg: Config, s: State, e: Event): State {
    match e
    case Publish(copy) => s.(tokens := s.tokens + [Token(copy, Queued)], sent := s.sent + [copy])
    case Deliver(i) =>
      if !At(s, i, Queued) then s
      else
        var handled := if s.tokens[i].copy.wellFormed then s.handled + [s.tokens[i].copy.origin] else s.handled;
        Move(s, i, Handling).(handled := handled)
    case Succeed(i) => if At(s, i, Handling) && s.tokens[i].copy.wellFormed then Move(s, i, Completed) else s
    case Fail(i) =>
      if !At(s, i, Handling) then s
      else if WillRetry(cfg, s.tokens[i].copy) then
        var t := Move(s, i, Republished);
        t.(tokens := t.tokens + [Token(RetryCopy(s.tokens[i].copy), Queued)])
      else Move(s, i, DeadLettered)
    case AckRetried(i) => if At(s, i, Republished) then Move(s, i, Superseded) else s
    case Expire(i) => if At(s, i, Queued) && s.tokens[i].copy.expires then Move(s, i, Expired) else s
    case ChannelLost =>
      s.(tokens := AllRequeued(s.tokens), returned := s.returned + Unacked(s.tokens),
         abandoned := s.abandoned + Orphans(s.tokens))
    case Finish(k) => if k < |s.abandoned| && s.abandoned[k].running then Finished(cfg, s, k) else s
    case Crash =>
      s.(tokens := AllRequeued(s.tokens), returned := s.returned + Unacked(s.tokens), abandoned := [])
    case Resend(i) =>
      if i < |s.tokens| then Enqueue(s, s.tokens[i].copy).(resent := s.resent + [s.tokens[i].copy]) else s
  }

  function Enqueue(s: State, copy: Copy): State {
    s.(tokens := s.tokens + [Token(copy, Queued)])
  }

  /** An abandoned callback comes to its end.  Whether its handler succeeds or
      not, its ack or nack throws, the former into `handleMessageError`: so it
      publishes a retry copy if one is left. */
  function Finished(cfg: Config, s: State, k: nat): State
    requires k < |s.abandoned|
  {
    var copy := s.abandoned[k].copy;
    var t := s.(abandoned := s.abandoned[k := Callback(copy, false)]);
    if WillRetry(cfg, copy) then Enqueue(t, RetryCopy(copy)).(strays := s.strays + [RetryCopy(copy)]) else t
  }

  function Run(cfg: Config, events: seq<Event>): State {
    if events == [] then INITIAL
    else Next(cfg, Run(cfg, events[..|events| - 1]), events[|events| - 1])
  }

  lemma RunNothing(cfg: Config)
    ensures Run(cfg, []) == INITIAL
  {
  }

  lemma RunSnoc(cfg: Config, events: seq<Event>, e: Event)
    ensures Run(cfg, events + [e]) == Next(cfg, Run(cfg, events), e)
  {
    assert (events + [e])[..|events|] == events;
  }

  // ----- Sums over tokens -----

  function Tally<T>(s: seq<T>, f: T -> int): int {
    if s == [] then 0 else Tally(s[..|s| - 1], f) + f(s[|s| - 1])
  }

  lemma TallyNothing<T>(f: T -> int)
    ensures Tally([], f) == 0
  {
  }

  lemma TallySnoc<T>(s: seq<T>, x: T, f: T -> int)
    ensures Tally(s + [x], f) == Tally(s, f) + f(x)
  {
    assert (s + [x])[..|s|] == s;
  }

  lemma {:induction false} TallyConcat<T>(a: seq<T>, b: seq<T>, f: T -> int)
    ensures Tally(a + b, f) == Tally(a, f) + Tally(b, f)
    decreases b
  {
    if b == [] {
      assert a + b == a;
    } else {
      TallyConcat(a, b[..|b| - 1], f);
      assert a + b == (a + b[..|b| - 1]) + [b[|b| - 1]];
      TallySnoc(a + b[..|b| - 1], b[|b| - 1], f);
    }
  }

  lemma {:induction false} TallyUpdate<T>(s: seq<T>, i: nat, x: T, f: T -> int)
    requires i < |s|
    ensures Tally(s[i := x], f) == Tally(s, f) - f(s[i]) + f(x)
    decreases s
  {
    var front := s[..|s| - 1];
    if i == |s| - 1 {
      assert s[i := x][..|s| - 1] == front;
    } else {
      TallyUpdate(front, i, x, f);
      assert s[i := x][..|s| - 1] == front[i := x];
    }
  }

  /** Moving a token, and then adding one, for any weight. */
  lemma TallyMove(s: State, i: nat, place: Place, f: Token -> int)
    requires i < |s.tokens|
    ensures Tally(Move(s, i, place).tokens, f)
         == Tally(s.tokens, f) - f(s.tokens[i]) + f(s.tokens[i].(place := place))
  {
    TallyUpdate(s.tokens, i, s.tokens[i].(place := place), f);
  }

  lemma {:induction false} TallyAtMost<T>(s: seq<T>, f: T -> int, g: T -> int)
    requires forall i :: 0 <= i < |s| ==> f(s[i]) <= g(s[i])
    ensures Tally(s, f) <= Tally(s, g)
    decreases s
  {
    if s != [] { TallyAtMost(s[..|s| - 1], f, g); }
  }

  lemma {:induction false} UnackedPlaces(tokens: seq<Token>)
    ensures forall i :: 0 <= i < |Unacked(tokens)| ==>
      Unacked(tokens)[i].place.Handling? || Unacked(tokens)[i].place.Republished?
    decreases tokens
  {
    if tokens != [] { UnackedPlaces(tokens[..|tokens| - 1]); }
  }

  /** What a weight gains when a delivery is put back into the queue. */
  function Gain(f: Token -> int): Token -> int {
    (t: Token) => f(t.(place := Queued)) - f(t)
  }

  function AllRequeued(tokens: seq<Token>): seq<Token> {
    seq(|tokens|, i requires 0 <= i < |tokens| => Requeued(tokens[i]))
  }

  /** A lost channel changes a weight by the gains of the deliveries given back. */
  lemma {:induction false} TallyRequeued(tokens: seq<Token>, f: Token -> int)
    ensures Tally(AllRequeued(tokens), f) == Tally(tokens, f) + Tally(Unacked(tokens), Gain(f))
    decreases tokens
  {
    if tokens != [] {
      var front, last := tokens[..|tokens| - 1], tokens[|tokens| - 1];
      TallyRequeued(front, f);
      assert AllRequeued(tokens)[..|tokens| - 1] == AllRequeued(front);
      if last.place.Handling? || last.place.Republished? {
        TallySnoc(Unacked(front), last, Gain(f));
      } else {
        assert Unacked(tokens) == Unacked(front) + [] == Unacked(front);
      }
    }
  }

  // ----- Conservation -----

  /** A token still stands for its message unless its retry copy took over. */
  function Stands(o: nat): Token -> int {
    (t: Token) => if t.copy.origin == o && !t.place.Republished? && !t.place.Superseded? then 1 else 0
  }

  function SentBy(o: nat): Copy -> int { (c: Copy) => if c.origin == o then 1 else 0 }

  /** A delivery given back although its retry copy was already published. */
  function Duplicates(o: nat): Token -> int { (t: Token) => if t.copy.origin == o && t.place.Republished? then 1 else 0 }

  ghost predicate Conserved(s: State, o: nat) {
    Tally(s.tokens, Stands(o))
    == Tally(s.sent, SentBy(o)) + Tally(s.returned, Duplicates(o)) + Tally(s.strays, SentBy(o)) + Tally(s.resent, SentBy(o))
  }

  lemma NextConserves(cfg: Config, s: State, e: Event, o: nat)
    requires Conserved(s, o)
    ensures Conserved(Next(cfg, s, e), o)
  {
    hide Tally, Unacked, AllRequeued, Orphans;
    match e
    case Publish(copy) =>
      TallySnoc(s.tokens, Token(copy, Queued), Stands(o));
      TallySnoc(s.sent, copy, SentBy(o));
    case Deliver(i) => if At(s, i, Queued) { TallyMove(s, i, Handling, Stands(o)); }
    case Succeed(i) => if At(s, i, Handling) { TallyMove(s, i, Completed, Stands(o)); }
    case Fail(i) =>
      if At(s, i, Handling) {
        TallyMove(s, i, Republished, Stands(o));
        TallyMove(s, i, DeadLettered, Stands(o));
        TallySnoc(Move(s, i, Republished).tokens, Token(RetryCopy(s.tokens[i].copy), Queued), Stands(o));
      }
    case AckRetried(i) => if At(s, i, Republished) { TallyMove(s, i, Superseded, Stands(o)); }
    case Expire(i) => if At(s, i, Queued) { TallyMove(s, i, Expired, Stands(o)); }
    case ChannelLost => RequeueConserves(s, o);
    case Crash => RequeueConserves(s, o);
    case Finish(k) =>
      if k < |s.abandoned| && s.abandoned[k].running {
        var r := RetryCopy(s.abandoned[k].copy);
        TallySnoc(s.tokens, Token(r, Queued), Stands(o));
        TallySnoc(s.strays, r, SentBy(o));
      }
    case Resend(i) =>
      if i < |s.tokens| {
        TallySnoc(s.tokens, Token(s.tokens[i].copy, Queued), Stands(o));
        TallySnoc(s.resent, s.tokens[i].copy, SentBy(o));
      }
  }

  lemma RequeueConserves(s: State, o: nat)
    ensures Tally(AllRequeued(s.tokens), Stands(o)) - Tally(s.tokens, Stands(o))
         == Tally(s.returned + Unacked(s.tokens), Duplicates(o)) - Tally(s.returned, Duplicates(o))
  {
    hide Tally, Unacked, AllRequeued;
    TallyRequeued(s.tokens, Stands(o));
    TallyConcat(s.returned, Unacked(s.tokens), Duplicates(o));
    UnackedPlaces(s.tokens);
    TallyAtMost(Unacked(s.tokens), Gain(Stands(o)), Duplicates(o));
    TallyAtMost(Unacked(s.tokens), Duplicates(o), Gain(Stands(o)));
  }

  /** In every run, for every message: the tokens standing for it are as many as
      were published, plus one for each delivery given back after its retry copy
      was out, each retry copy of an abandoned callback and each copy sent twice. */
  lemma {:induction false} EveryRunConserves(cfg: Config, events: seq<Event>, o: nat)
    ensures Conserved(Run(cfg, events), o)
    decreases events
  {
    if events != [] {
      EveryRunConserves(cfg, events[..|events| - 1], o);
      NextConserves(cfg, Run(cfg, events[..|events| - 1]), events[|events| - 1], o);
    }
  }

  lemma {:induction false} TallyWitness<T>(s: seq<T>, f: T -> int) returns (i: nat)
    requires Tally(s, f) > 0
    ensures i < |s| && f(s[i]) > 0
    decreases s
  {
    if f(s[|s| - 1]) > 0 {
      i := |s| - 1;
    } else {
      i := TallyWitness(s[..|s| - 1], f);
    }
  }

  lemma {:induction false} TallyNonNegative<T>(s: seq<T>, f: T -> int)
    requires forall k :: 0 <= k < |s| ==> f(s[k]) >= 0
    ensures Tally(s, f) >= 0
    decreases s
  {
    if s != [] { TallyNonNegative(s[..|s| - 1], f); }
  }

  lemma {:induction false} TallyCovers<T>(s: seq<T>, f: T -> int, i: nat)
    requires i < |s| && forall k :: 0 <= k < |s| ==> f(s[k]) >= 0
    ensures Tally(s, f) >= f(s[i])
    decreases s
  {
    if i < |s| - 1 {
      TallyCovers(s[..|s| - 1], f, i);
    } else {
      TallyNonNegative(s[..|s| - 1], f);
    }
  }

  lemma {:induction false} TallyCoversTwo<T>(s: seq<T>, f: T -> int, i: nat, j: nat)
    requires i < j < |s| && forall k :: 0 <= k < |s| ==> f(s[k]) >= 0
    ensures Tally(s, f) >= f(s[i]) + f(s[j])
    decreases s
  {
    var front := s[..|s| - 1];
    if j < |s| - 1 {
      TallyCoversTwo(front, f, i, j);
    } else {
      TallyCovers(front, f, i);
    }
  }

  ghost predicate Published(s: State, o: nat) {
    Tally(s.sent, SentBy(o)) > 0
  }

  ghost predicate StandsAt(s: State, o: nat, i: nat) {
    i < |s.tokens| && Stands(o)(s.tokens[i]) == 1
  }

  /** No run, with channels lost and processes crashing anywhere, loses a message:
      it is queued, in the hands of the handler, completed, dead-lettered or
      expired. */
  lemma NeverLost(cfg: Config, events: seq<Event>, o: nat)
    requires Published(Run(cfg, events), o)
    ensures exists i :: StandsAt(Run(cfg, events), o, i)
  {
    var s := Run(cfg, events);
    EveryRunConserves(cfg, events, o);
    TallyNonNegative(s.returned, Duplicates(o));
    TallyNonNegative(s.strays, SentBy(o));
    TallyNonNegative(s.resent, SentBy(o));
    var i := TallyWitness(s.tokens, Stands(o));
    assert StandsAt(s, o, i);
  }

  /** The connection holds and the process lives. */
  ghost predicate ChannelKept(events: seq<Event>) {
    forall k :: 0 <= k < |events| ==> !events[k].ChannelLost? && !events[k].Crash? && !events[k].Resend?
  }

  lemma {:induction false} NothingReturned(cfg: Config, events: seq<Event>)
    requires ChannelKept(events)
    ensures var s := Run(cfg, events);
      s.returned == [] && s.abandoned == [] && s.strays == [] && s.resent == []
    decreases events
  {
    if events != [] { NothingReturned(cfg, events[..|events| - 1]); }
  }

  /** While no channel is lost, a message published once is in exactly one place;
      so it is completed at most once, and never both completed and rejected. */
  lemma ExactlyOnePlace(cfg: Config, events: seq<Event>, o: nat)
    requires ChannelKept(events) && Tally(Run(cfg, events).sent, SentBy(o)) == 1
    ensures exists i :: StandsAt(Run(cfg, events), o, i) && forall j :: StandsAt(Run(cfg, events), o, j) ==> j == i
  {
    var s := Run(cfg, events);
    EveryRunConserves(cfg, events, o);
    NothingReturned(cfg, events);
    var i := TallyWitness(s.tokens, Stands(o));
    assert StandsAt(s, o, i);
    forall j | StandsAt(s, o, j) ensures j == i {
      if j < i { TallyCoversTwo(s.tokens, Stands(o), j, i); }
      if i < j { TallyCoversTwo(s.tokens, Stands(o), i, j); }
    }
  }

  /** A handler that succeeds after its channel was lost still publishes a retry
      copy, beside the delivery the broker got back. */
  lemma LateSuccessRetries(cfg: Config, c: Copy)
    requires WillRetry(cfg, c)
    ensures Run(cfg, [Publish(c), Deliver(0), ChannelLost, Finish(0)]).tokens
         == [Token(c, Queued), Token(RetryCopy(c), Queued)]
  {
    hide Run, Next;
    var e1 := [Publish(c)];
    var e2, e3 := e1 + [Deliver(0)], e1 + [Deliver(0)] + [ChannelLost];
    RunNothing(cfg);
    RunSnoc(cfg, [], Publish(c));
    RunSnoc(cfg, e1, Deliver(0));
    RunSnoc(cfg, e2, ChannelLost);
    RunSnoc(cfg, e3, Finish(0));
    assert [] + [Publish(c)] == e1;
    assert e3 + [Finish(0)] == [Publish(c), Deliver(0), ChannelLost, Finish(0)];
    DeliveredAlone(cfg, c);
    LostAlone(cfg, Run(cfg, e2), c);
    FinishedAlone(cfg, Run(cfg, e3), c);
  }

  lemma DeliveredAlone(cfg: Config, c: Copy)
    ensures var s := Next(cfg, Next(cfg, INITIAL, Publish(c)), Deliver(0));
      s.tokens == [Token(c, Handling)] && s.abandoned == []
  {
  }

  lemma LostAlone(cfg: Config, s: State, c: Copy)
    requires s.tokens == [Token(c, Handling)] && s.abandoned == []
    ensures var t := Next(cfg, s, ChannelLost);
      t.tokens == [Token(c, Queued)] && t.abandoned == [Callback(c, true)]
  {
    hide Unacked;
    assert s.tokens[..0] == [];
    assert Orphans(s.tokens) == Orphans([]) + [Callback(c, true)];
  }

  lemma FinishedAlone(cfg: Config, s: State, c: Copy)
    requires WillRetry(cfg, c) && s.tokens == [Token(c, Queued)] && s.abandoned == [Callback(c, true)]
    ensures Next(cfg, s, Finish(0)).tokens == [Token(c, Queued), Token(RetryCopy(c), Queued)]
  {
  }

  /** The `delay` of a retry delays nothing: right after a failure its copy can be
      delivered, and just as well expire undelivered. */
  lemma RetryNotDelayed(cfg: Config, s: State, i: nat)
    requires At(s, i, Handling) && WillRetry(cfg, s.tokens[i].copy)
    ensures var t, n := Next(cfg, s, Fail(i)), |s.tokens|;
      && At(t, n, Queued) && t.tokens[n].copy == RetryCopy(s.tokens[i].copy)
      && At(Next(cfg, t, Deliver(n)), n, Handling)
      && (s.tokens[i].copy.wellFormed ==> Next(cfg, t, Deliver(n)).handled == s.handled + [s.tokens[i].copy.origin])
      && At(Next(cfg, t, Expire(n)), n, Expired) && Next(cfg, t, Expire(n)).handled == s.handled
  {
  }

  /** A channel lost between the publish and the ack completes a message twice. */
  lemma LostAckDuplicates(cfg: Config, c: Copy)
    requires WillRetry(cfg, c) && c.wellFormed
    ensures var s := Run(cfg, [Publish(c), Deliver(0), Fail(0), ChannelLost,
                               Deliver(0), Succeed(0), Deliver(1), Succeed(1)]);
      s.tokens == [Token(c, Completed), Token(RetryCopy(c), Completed)]
  {
    hide Run, Next, WillRetry;
    var e1 := [Publish(c)];
    var e3 := e1 + [Deliver(0)] + [Fail(0)];
    var e5 := e3 + [ChannelLost] + [Deliver(0)];
    var e7 := e5 + [Succeed(0)] + [Deliver(1)];
    RunNothing(cfg);
    RunSnoc(cfg, [], Publish(c));
    RunSnoc(cfg, e1, Deliver(0));
    RunSnoc(cfg, e1 + [Deliver(0)], Fail(0));
    RunSnoc(cfg, e3, ChannelLost);
    RunSnoc(cfg, e3 + [ChannelLost], Deliver(0));
    RunSnoc(cfg, e5, Succeed(0));
    RunSnoc(cfg, e5 + [Succeed(0)], Deliver(1));
    RunSnoc(cfg, e7, Succeed(1));
    assert [] + [Publish(c)] == e1;
    assert e7 + [Succeed(1)]
        == [Publish(c), Deliver(0), Fail(0), ChannelLost, Deliver(0), Succeed(0), Deliver(1), Succeed(1)];
    DeliveredAlone(cfg, c);
    FailedAlone(cfg, Run(cfg, e1 + [Deliver(0)]), c);
    LostAfterPublish(cfg, Run(cfg, e3), c);
    BothCompleted(cfg, Run(cfg, e3 + [ChannelLost]), c);
  }

  lemma FailedAlone(cfg: Config, s: State, c: Copy)
    requires WillRetry(cfg, c) && s.tokens == [Token(c, Handling)]
    ensures Next(cfg, s, Fail(0)).tokens == [Token(c, Republished), Token(RetryCopy(c), Queued)]
  {
  }

  lemma LostAfterPublish(cfg: Config, s: State, c: Copy)
    requires s.tokens == [Token(c, Republished), Token(RetryCopy(c), Queued)]
    ensures Next(cfg, s, ChannelLost).tokens == [Token(c, Queued), Token(RetryCopy(c), Queued)]
  {
    hide Unacked, Orphans;
  }

  lemma BothCompleted(cfg: Config, s: State, c: Copy)
    requires c.wellFormed && s.tokens == [Token(c, Queued), Token(RetryCopy(c), Queued)]
    ensures var t := Next(cfg, Next(cfg, s, Deliver(0)), Succeed(0));
      Next(cfg, Next(cfg, t, Deliver(1)), Succeed(1)).tokens == [Token(c, Completed), Token(RetryCopy(c), Completed)]
  {
    hide Unacked, Orphans, AllRequeued;
    var t := Next(cfg, Next(cfg, s, Deliver(0)), Succeed(0));
    assert t.tokens == [Token(c, Completed), Token(RetryCopy(c), Queued)];
  }

  // ----- The retry budget -----

  /** How often the handler may still run for a queued copy and its retries. */
  function Attempts(cfg: Config, c: Copy): nat {
    1 + if WillRetry(cfg, c) then cfg.maxRetries - c.retry else 0
  }

  function Potential(cfg: Config, o: nat): Token -> int {
    (t: Token) =>
      if t.copy.origin != o then 0
      else if t.place.Queued? then Attempts(cfg, t.copy)
      else if t.place.Handling? then Attempts(cfg, t.copy) - 1
      else 0
  }

  function SentAttempts(cfg: Config, o: nat): Copy -> int {
    (c: Copy) => if c.origin == o then Attempts(cfg, c) else 0
  }

  /** What an abandoned callback may still cause. */
  function Latent(cfg: Config, o: nat): Callback -> int {
    (b: Callback) => if b.running && b.copy.origin == o then Attempts(cfg, b.copy) - 1 else 0
  }

  /** A delivery given back can be handled again, and its abandoned callback can
      still publish a retry. */
  function Refund(cfg: Config, o: nat): Token -> int {
    (t: Token) => if t.copy.origin == o then Attempts(cfg, t.copy) else 0
  }

  function RunsFor(o: nat): nat -> int { (h: nat) => if h == o then 1 else 0 }

  /** Runs made and runs still possible never exceed what publishing a message
      and giving back its deliveries has paid for. */
  ghost predicate WithinBudget(cfg: Config, s: State, o: nat) {
    Tally(s.handled, RunsFor(o)) + Tally(s.tokens, Potential(cfg, o)) + Tally(s.abandoned, Latent(cfg, o))
    <= Tally(s.sent, SentAttempts(cfg, o)) + Tally(s.returned, Refund(cfg, o)) + Tally(s.resent, SentAttempts(cfg, o))
  }

  /** One delivery given back: its own gain and its callback make up its refund. */
  lemma RefundSplits(cfg: Config, t: Token, o: nat)
    requires t.place.Handling? || t.place.Republished?
    ensures Gain(Potential(cfg, o))(t) + (if t.place.Handling? then Latent(cfg, o)(Callback(t.copy, true)) else 0)
         == Refund(cfg, o)(t)
  {
  }

  lemma {:induction false} UnackedPay(cfg: Config, tokens: seq<Token>, o: nat)
    ensures Tally(Unacked(tokens), Gain(Potential(cfg, o))) + Tally(Orphans(tokens), Latent(cfg, o))
         == Tally(Unacked(tokens), Refund(cfg, o))
    decreases tokens
  {
    hide Tally, Gain, Potential, Latent, Refund;
    if tokens == [] {
      TallyNothing(Gain(Potential(cfg, o)));
      TallyNothing(Latent(cfg, o));
      TallyNothing(Refund(cfg, o));
    } else {
      var front, last := tokens[..|tokens| - 1], tokens[|tokens| - 1];
      UnackedPay(cfg, front, o);
      if last.place.Handling? || last.place.Republished? {
        RefundSplits(cfg, last, o);
        TallySnoc(Unacked(front), last, Gain(Potential(cfg, o)));
        TallySnoc(Unacked(front), last, Refund(cfg, o));
      } else {
        assert Unacked(front) + [] == Unacked(front);
      }
      if last.place.Handling? {
        TallySnoc(Orphans(front), Callback(last.copy, true), Latent(cfg, o));
      } else {
        assert Orphans(front) + [] == Orphans(front);
      }
    }
  }

  lemma LossWithinBudget(cfg: Config, s: State, o: nat)
    ensures Tally(AllRequeued(s.tokens), Potential(cfg, o)) + Tally(Orphans(s.tokens), Latent(cfg, o))
         == Tally(s.tokens, Potential(cfg, o)) + Tally(Unacked(s.tokens), Refund(cfg, o))
    ensures Tally(Orphans(s.tokens), Latent(cfg, o)) >= 0 && Tally(s.abandoned, Latent(cfg, o)) >= 0
    ensures Tally(s.returned + Unacked(s.tokens), Refund(cfg, o))
         == Tally(s.returned, Refund(cfg, o)) + Tally(Unacked(s.tokens), Refund(cfg, o))
  {
    hide Tally, Unacked, AllRequeued, Orphans;
    TallyRequeued(s.tokens, Potential(cfg, o));
    UnackedPay(cfg, s.tokens, o);
    TallyNonNegative(Orphans(s.tokens), Latent(cfg, o));
    TallyNonNegative(s.abandoned, Latent(cfg, o));
    TallyConcat(s.returned, Unacked(s.tokens), Refund(cfg, o));
  }

  lemma NextWithinBudget(cfg: Config, s: State, e: Event, o: nat)
    requires WithinBudget(cfg, s, o)
    ensures WithinBudget(cfg, Next(cfg, s, e), o)
  {
    hide Tally, Unacked, AllRequeued, Orphans;
    var f := Potential(cfg, o);
    match e
    case Publish(copy) =>
      TallySnoc(s.tokens, Token(copy, Queued), f);
      TallySnoc(s.sent, copy, SentAttempts(cfg, o));
    case Deliver(i) =>
      if At(s, i, Queued) {
        TallyMove(s, i, Handling, f);
        TallySnoc(s.handled, s.tokens[i].copy.origin, RunsFor(o));
      }
    case Succeed(i) => if At(s, i, Handling) { TallyMove(s, i, Completed, f); }
    case Fail(i) =>
      if At(s, i, Handling) {
        TallyMove(s, i, Republished, f);
        TallyMove(s, i, DeadLettered, f);
        TallySnoc(Move(s, i, Republished).tokens, Token(RetryCopy(s.tokens[i].copy), Queued), f);
      }
    case AckRetried(i) => if At(s, i, Republished) { TallyMove(s, i, Superseded, f); }
    case Expire(i) => if At(s, i, Queued) { TallyMove(s, i, Expired, f); }
    case ChannelLost =>
      LossWithinBudget(cfg, s, o);
      TallyConcat(s.abandoned, Orphans(s.tokens), Latent(cfg, o));
    case Crash =>
      LossWithinBudget(cfg, s, o);
      TallyNothing(Latent(cfg, o));
    case Finish(k) =>
      if k < |s.abandoned| && s.abandoned[k].running {
        var c := s.abandoned[k].copy;
        TallyUpdate(s.abandoned, k, Callback(c, false), Latent(cfg, o));
        TallySnoc(s.tokens, Token(RetryCopy(c), Queued), f);
      }
    case Resend(i) =>
      if i < |s.tokens| {
        TallySnoc(s.tokens, Token(s.tokens[i].copy, Queued), f);
        TallySnoc(s.resent, s.tokens[i].copy, SentAttempts(cfg, o));
      }
  }

  lemma {:induction false} EveryRunWithinBudget(cfg: Config, events: seq<Event>, o: nat)
    ensures WithinBudget(cfg, Run(cfg, events), o)
    decreases events
  {
    if events != [] {
      EveryRunWithinBudget(cfg, events[..|events| - 1], o);
      NextWithinBudget(cfg, Run(cfg, events[..|events| - 1]), events[|events| - 1], o);
    }
  }

  lemma {:induction false} TallyScale<T>(s: seq<T>, f: T -> int, g: T -> int, k: nat)
    requires forall i :: 0 <= i < |s| ==> f(s[i]) <= k * g(s[i])
    ensures Tally(s, f) <= k * Tally(s, g)
    decreases s
  {
    if s != [] { TallyScale(s[..|s| - 1], f, g, k); }
  }

  function GivenBack(o: nat): Token -> int { (t: Token) => if t.copy.origin == o then 1 else 0 }

  lemma SentPays(cfg: Config, sent: seq<Copy>, o: nat)
    ensures Tally(sent, SentAttempts(cfg, o)) <= (cfg.maxRetries + 1) * Tally(sent, SentBy(o))
  {
    hide Tally;
    TallyScale(sent, SentAttempts(cfg, o), SentBy(o), cfg.maxRetries + 1);
  }

  lemma GivenBackPays(cfg: Config, returned: seq<Token>, o: nat)
    ensures Tally(returned, Refund(cfg, o)) <= (cfg.maxRetries + 1) * Tally(returned, GivenBack(o))
  {
    hide Tally;
    TallyScale(returned, Refund(cfg, o), GivenBack(o), cfg.maxRetries + 1);
  }

  /** In every run the handler runs for a message at most `maxRetries + 1` times
      for each time it was published, given back or sent again.  The retry copies
      of abandoned callbacks are within what their deliveries pay for. */
  lemma HandlerRunsBounded(cfg: Config, events: seq<Event>, o: nat)
    ensures var s := Run(cfg, events);
      Tally(s.handled, RunsFor(o)) <= (cfg.maxRetries + 1)
        * (Tally(s.sent, SentBy(o)) + Tally(s.returned, GivenBack(o)) + Tally(s.resent, SentBy(o)))
  {
    hide Run, Tally;
    var s, k := Run(cfg, events), cfg.maxRetries + 1;
    EveryRunWithinBudget(cfg, events, o);
    SentPays(cfg, s.sent, o);
    SentPays(cfg, s.resent, o);
    GivenBackPays(cfg, s.returned, o);
    TallyNonNegative(s.tokens, Potential(cfg, o));
    TallyNonNegative(s.abandoned, Latent(cfg, o));
    var sent, back, again := Tally(s.sent, SentBy(o)), Tally(s.returned, GivenBack(o)), Tally(s.resent, SentBy(o));
    assert k * (sent + back + again) == k * sent + k * back + k * again;
  }

  /** Published once and with the channel kept: at most `maxRetries + 1` times. */
  lemma AtMostMaxRetriesPlusOne(cfg: Config, events: seq<Event>, o: nat)
    requires ChannelKept(events) && Tally(Run(cfg, events).sent, SentBy(o)) == 1
    ensures Tally(Run(cfg, events).handled, RunsFor(o)) <= cfg.maxRetries + 1
  {
    hide Run;
    HandlerRunsBounded(cfg, events, o);
    NothingReturned(cfg, events);
  }

  // ----- The bound is reached, and only then is a message dead-lettered -----

  /** A message whose handler always fails, through `n` rounds. */
  function AlwaysFailing(c: Copy, n: nat): seq<Event> {
    if n == 0 then [Publish(c)] else AlwaysFailing(c, n - 1) + [Deliver(n - 1)] + [Fail(n - 1)]
  }

  function RetryNumber(c: Copy, n: nat): Copy {
    if n == 0 then c else RetryCopy(RetryNumber(c, n - 1))
  }

  ghost predicate FailedSoFar(s: State, c: Copy, n: nat) {
    && |s.tokens| == n + 1 && s.tokens[n] == Token(RetryNumber(c, n), Queued)
    && RetryNumber(c, n).retry == n && RetryNumber(c, n).origin == c.origin && RetryNumber(c, n).wellFormed
    && s.sent == [c] && Tally(s.handled, RunsFor(c.origin)) == n
  }

  lemma FailingRound(cfg: Config, s: State, c: Copy, n: nat)
    requires cfg.retryEnabled && n <= cfg.maxRetries && FailedSoFar(s, c, n)
    ensures var t := Next(cfg, Next(cfg, s, Deliver(n)), Fail(n));
      if n < cfg.maxRetries then FailedSoFar(t, c, n + 1)
      else Tally(t.handled, RunsFor(c.origin)) == n + 1 && |t.tokens| == n + 1 && t.tokens[n].place == DeadLettered
  {
    hide Tally;
    TallySnoc(s.handled, c.origin, RunsFor(c.origin));
  }

  lemma FirstPublished(cfg: Config, c: Copy)
    requires c.retry == 0 && c.wellFormed
    ensures FailedSoFar(Run(cfg, [Publish(c)]), c, 0)
  {
    RunSnoc(cfg, [], Publish(c));
    assert [] + [Publish(c)] == [Publish(c)];
  }

  lemma {:induction false} FailingRounds(cfg: Config, c: Copy, n: nat)
    requires cfg.retryEnabled && c.retry == 0 && c.wellFormed && n <= cfg.maxRetries
    ensures ChannelKept(AlwaysFailing(c, n)) && FailedSoFar(Run(cfg, AlwaysFailing(c, n)), c, n)
    decreases n
  {
    hide Run, Next, FailedSoFar, Tally;
    if n == 0 {
      FirstPublished(cfg, c);
    } else {
      var e := AlwaysFailing(c, n - 1);
      FailingRounds(cfg, c, n - 1);
      RunSnoc(cfg, e, Deliver(n - 1));
      RunSnoc(cfg, e + [Deliver(n - 1)], Fail(n - 1));
      FailingRound(cfg, Run(cfg, e), c, n - 1);
    }
  }

  /** The bound is reached for every `maxRetries`, and the message ends rejected. */
  lemma BudgetExhausted(cfg: Config, c: Copy)
    requires cfg.retryEnabled && c.retry == 0 && c.wellFormed
    ensures ChannelKept(AlwaysFailing(c, cfg.maxRetries + 1))
    ensures var s := Run(cfg, AlwaysFailing(c, cfg.maxRetries + 1));
      && Tally(s.handled, RunsFor(c.origin)) == cfg.maxRetries + 1
      && |s.tokens| == cfg.maxRetries + 1 && s.tokens[cfg.maxRetries].place == DeadLettered
  {
    hide Run, Next, FailedSoFar;
    var n := cfg.maxRetries;
    var e := AlwaysFailing(c, n);
    FailingRounds(cfg, c, n);
    RunSnoc(cfg, e, Deliver(n));
    RunSnoc(cfg, e + [Deliver(n)], Fail(n));
    FailingRound(cfg, Run(cfg, e), c, n);
  }

  /** `r` is the retry copy of `c`: the same message, counted once more, to expire. */
  ghost predicate IsRetryOf(r: Copy, c: Copy) {
    r.origin == c.origin && r.wellFormed == c.wellFormed && r.retry == c.retry + 1 && r.expires
  }

  /** What the place of the token at `i` says about it: it was completed only if
      its content parses, it expired only if it may, it was rejected only if
      retrying is off or used up, and its failure was acknowledged only if retrying
      is on and not used up, with its retry copy sent after it. */
  ghost predicate Justified(cfg: Config, tokens: seq<Token>, i: nat)
    requires i < |tokens|
  {
    var t := tokens[i];
    && (t.place.Completed? ==> t.copy.wellFormed)
    && (t.place.Expired? ==> t.copy.expires)
    && (t.place.DeadLettered? ==> !cfg.retryEnabled || t.copy.retry >= cfg.maxRetries)
    && (t.place.Republished? || t.place.Superseded? ==>
          cfg.retryEnabled && t.copy.retry < cfg.maxRetries
          && exists j :: i < j < |tokens| && IsRetryOf(tokens[j].copy, t.copy))
  }

  lemma NextJustified(cfg: Config, s: State, e: Event, i: nat)
    requires i < |Next(cfg, s, e).tokens| && (i < |s.tokens| ==> Justified(cfg, s.tokens, i))
    ensures Justified(cfg, Next(cfg, s, e).tokens, i)
  {
    hide Unacked, Orphans;
    var after := Next(cfg, s, e).tokens;
    assert |after| >= |s.tokens|;
    if i < |s.tokens| {
      var t := s.tokens[i];
      assert forall j :: 0 <= j < |s.tokens| ==> after[j].copy == s.tokens[j].copy;
      if t.place.Republished? || t.place.Superseded? {
        var j :| i < j < |s.tokens| && IsRetryOf(s.tokens[j].copy, t.copy);
        assert IsRetryOf(after[j].copy, t.copy);
      } else if after[i].place.Republished? {
        assert IsRetryOf(after[|s.tokens|].copy, t.copy);
      }
    }
  }

  /** In every run a message is rejected only when its retries are used up. */
  lemma {:induction false} RejectedOnlyWhenExhausted(cfg: Config, events: seq<Event>, i: nat)
    requires i < |Run(cfg, events).tokens|
    ensures Justified(cfg, Run(cfg, events).tokens, i)
    decreases events
  {
    hide Justified, Next;
    var before := Run(cfg, events[..|events| - 1]);
    if i < |before.tokens| { RejectedOnlyWhenExhausted(cfg, events[..|events| - 1], i); }
    NextJustified(cfg, before, events[|events| - 1], i);
  }

  /** A failure ends in exactly one of two ways: while retrying is on and not used
      up its retry copy is queued behind everything, else it is rejected; no other
      token is touched. */
  lemma FailureOutcome(cfg: Config, s: State, i: nat)
    requires At(s, i, Handling)
    ensures var t, c := Next(cfg, s, Fail(i)), s.tokens[i].copy;
      && t.tokens[i].copy == c && t.handled == s.handled
      && (forall j :: 0 <= j < |s.tokens| && j != i ==> t.tokens[j] == s.tokens[j])
      && (if cfg.retryEnabled && c.retry < cfg.maxRetries then
            && |t.tokens| == |s.tokens| + 1 && t.tokens[i].place == Republished
            && t.tokens[|s.tokens|].place == Queued && IsRetryOf(t.tokens[|s.tokens|].copy, c)
          else
            |t.tokens| == |s.tokens| && t.tokens[i].place == DeadLettered)
  {
  }

  /** A callback without its channel comes to the same fork, but never acknowledges
      or rejects: it touches no token there is. */
  lemma LateOutcome(cfg: Config, s: State, k: nat)
    requires k < |s.abandoned| && s.abandoned[k].running
    ensures var t, c := Next(cfg, s, Finish(k)), s.abandoned[k].copy;
      && t.handled == s.handled && !t.abandoned[k].running
      && (if cfg.retryEnabled && c.retry < cfg.maxRetries then
            && |t.tokens| == |s.tokens| + 1 && t.tokens[..|s.tokens|] == s.tokens
            && t.tokens[|s.tokens|].place == Queued && IsRetryOf(t.tokens[|s.tokens|].copy, c)
          else t.tokens == s.tokens)
  {
  }

  /** A delivery starts the handler exactly if the content parses. */
  lemma DeliveryOutcome(cfg: Config, s: State, i: nat)
    requires At(s, i, Queued)
    ensures var t, c := Next(cfg, s, Deliver(i)), s.tokens[i].copy;
      && t.tokens == s.tokens[i := Token(c, Handling)]
      && t.handled == if c.wellFormed then s.handled + [c.origin] else s.handled
  {
  }

  // ----- Completions -----

  /** A delivery whose handler has run, for as long as it is not given back. */
  function Ran(o: nat): Token -> int {
    (t: Token) =>
      if t.copy.origin == o && (t.place.Completed? || (t.place.Handling? && t.copy.wellFormed)) then 1 else 0
  }

  ghost predicate Witnessed(s: State, o: nat) {
    Tally(s.tokens, Ran(o)) <= Tally(s.handled, RunsFor(o))
  }

  lemma NextWitnessed(cfg: Config, s: State, e: Event, o: nat)
    requires Witnessed(s, o)
    ensures Witnessed(Next(cfg, s, e), o)
  {
    hide Tally, Unacked, AllRequeued, Orphans;
    match e
    case Publish(copy) => TallySnoc(s.tokens, Token(copy, Queued), Ran(o));
    case Deliver(i) =>
      if At(s, i, Queued) {
        TallyMove(s, i, Handling, Ran(o));
        TallySnoc(s.handled, s.tokens[i].copy.origin, RunsFor(o));
      }
    case Succeed(i) => if At(s, i, Handling) { TallyMove(s, i, Completed, Ran(o)); }
    case Fail(i) =>
      if At(s, i, Handling) {
        TallyMove(s, i, Republished, Ran(o));
        TallyMove(s, i, DeadLettered, Ran(o));
        TallySnoc(Move(s, i, Republished).tokens, Token(RetryCopy(s.tokens[i].copy), Queued), Ran(o));
      }
    case AckRetried(i) => if At(s, i, Republished) { TallyMove(s, i, Superseded, Ran(o)); }
    case Expire(i) => if At(s, i, Queued) { TallyMove(s, i, Expired, Ran(o)); }
    case ChannelLost => RequeueForgets(s, o);
    case Crash => RequeueForgets(s, o);
    case Finish(k) =>
      if k < |s.abandoned| { TallySnoc(s.tokens, Token(RetryCopy(s.abandoned[k].copy), Queued), Ran(o)); }
    case Resend(i) => if i < |s.tokens| { TallySnoc(s.tokens, Token(s.tokens[i].copy, Queued), Ran(o)); }
  }

  function Nothing<T>(): T -> int { _ => 0 }

  lemma {:induction false} TallyZero<T>(s: seq<T>)
    ensures Tally(s, Nothing<T>()) == 0
    decreases s
  {
    if s != [] { TallyZero(s[..|s| - 1]); }
  }

  lemma RequeueForgets(s: State, o: nat)
    ensures Tally(AllRequeued(s.tokens), Ran(o)) <= Tally(s.tokens, Ran(o))
  {
    hide Tally, AllRequeued, Unacked;
    TallyRequeued(s.tokens, Ran(o));
    TallyAtMost(Unacked(s.tokens), Gain(Ran(o)), Nothing<Token>());
    TallyZero(Unacked(s.tokens));
  }

  function CompletedFor(o: nat): Token -> int { (t: Token) => if t.copy.origin == o && t.place.Completed? then 1 else 0 }

  lemma {:induction false} EveryRunWitnessed(cfg: Config, events: seq<Event>, o: nat)
    ensures Witnessed(Run(cfg, events), o)
    decreases events
  {
    if events != [] {
      hide Next, Witnessed;
      EveryRunWitnessed(cfg, events[..|events| - 1], o);
      NextWitnessed(cfg, Run(cfg, events[..|events| - 1]), events[|events| - 1], o);
    } else {
      TallyNothing(Ran(o));
      TallyNothing(RunsFor(o));
    }
  }

  /** In every run a message is completed no more often than its handler ran. */
  lemma CompletedWereHandled(cfg: Config, events: seq<Event>, o: nat)
    ensures Tally(Run(cfg, events).tokens, CompletedFor(o)) <= Tally(Run(cfg, events).handled, RunsFor(o))
  {
    hide Run, Tally;
    EveryRunWitnessed(cfg, events, o);
    TallyAtMost(Run(cfg, events).tokens, CompletedFor(o), Ran(o));
  }

  // ----- The consumer -----

  class Consumer {
    const cfg: Config
    var tokens: seq<Token>
    var abandoned: seq<Callback>
    var handled: seq<nat>
    var sent: seq<Copy>
    var returned: seq<Token>
    var strays: seq<Copy>
    var resent: seq<Copy>

    function Current(): State
      reads this
    {
      State(tokens, abandoned, handled, sent, returned, strays, resent)
    }

    /** What every step keeps, for every message. */
    ghost predicate Accounted()
      reads this
    {
      forall o :: Conserved(Current(), o) && WithinBudget(cfg, Current(), o)
    }

    constructor (cfg: Config)
      ensures this.cfg == cfg && Current() == INITIAL && Accounted()
    {
      this.cfg := cfg;
      tokens, abandoned, handled, sent, returned, strays, resent := [], [], [], [], [], [], [];
    }

    /** After the step `e`, from the state at the start of the method. */
    twostate lemma StillAccounted(e: Event)
      requires old(Accounted()) && Current() == Next(cfg, old(Current()), e)
      ensures Accounted()
    {
      hide Next, Conserved, WithinBudget;
      forall o ensures Conserved(Current(), o) && WithinBudget(cfg, Current(), o) {
        NextConserves(cfg, old(Current()), e, o);
        NextWithinBudget(cfg, old(Current()), e, o);
      }
    }

    method Publish(copy: Copy)
      requires Accounted()
      modifies this
      ensures Current() == Next(cfg, old(Current()), Event.Publish(copy)) && Accounted()
    {
      hide Conserved, WithinBudget;
      tokens, sent := tokens + [Token(copy, Queued)], sent + [copy];
      StillAccounted(Event.Publish(copy));
    }

    /** The broker calls back with a queued message, and the handler starts
        unless the content does not parse. */
    method Deliver(i: nat)
      requires At(Current(), i, Queued) && Accounted()
      modifies this
      ensures Current() == Next(cfg, old(Current()), Event.Deliver(i)) && Accounted()
    {
      hide Conserved, WithinBudget;
      var msg := tokens[i].copy;
      tokens := tokens[i := Token(msg, Handling)];
      if msg.wellFormed {
        handled := handled + [msg.origin];
      }
      StillAccounted(Event.Deliver(i));
    }

    /** The handler's promise resolved: `ch.ack(msg)`. */
    method Succeed(i: nat)
      requires At(Current(), i, Handling) && tokens[i].copy.wellFormed && Accounted()
      modifies this
      ensures Current() == Next(cfg, old(Current()), Event.Succeed(i)) && Accounted()
    {
      hide Conserved, WithinBudget;
      tokens := tokens[i := tokens[i].(place := Completed)];
      StillAccounted(Event.Succeed(i));
    }

    /** `handleMessageError`, up to the point before the ack of a retried message. */
    method HandleMessageError(i: nat)
      requires At(Current(), i, Handling) && Accounted()
      modifies this
      ensures Current() == Next(cfg, old(Current()), Event.Fail(i)) && Accounted()
    {
      hide Conserved, WithinBudget;
      var msg := tokens[i].copy;
      var retryCount := msg.retry;
      if cfg.retryEnabled && retryCount < cfg.maxRetries {
        var retried := msg.(retry := retryCount + 1, expires := true);
        tokens := tokens[i := Token(msg, Republished)];
        tokens := tokens + [Token(retried, Queued)];
      } else {
        tokens := tokens[i := Token(msg, DeadLettered)];
      }
      StillAccounted(Event.Fail(i));
    }

    /** `channel.ack(msg)` after the retry copy is out. */
    method AckRetried(i: nat)
      requires At(Current(), i, Republished) && Accounted()
      modifies this
      ensures Current() == Next(cfg, old(Current()), Event.AckRetried(i)) && Accounted()
    {
      hide Conserved, WithinBudget;
      tokens := tokens[i := tokens[i].(place := Superseded)];
      StillAccounted(Event.AckRetried(i));
    }

    method Expire(i: nat)
      requires At(Current(), i, Queued) && tokens[i].copy.expires && Accounted()
      modifies this
      ensures Current() == Next(cfg, old(Current()), Event.Expire(i)) && Accounted()
    {
      hide Conserved, WithinBudget;
      tokens := tokens[i := tokens[i].(place := Expired)];
      StillAccounted(Event.Expire(i));
    }

    /** The broker takes every unacknowledged delivery of a closed channel back,
        one by one; the callbacks whose handler is at work go on. */
    method TakeBack() returns (orphans: seq<Callback>)
      modifies this
      ensures orphans == Orphans(old(tokens))
      ensures tokens == AllRequeued(old(tokens)) && returned == old(returned) + Unacked(old(tokens))
      ensures abandoned == old(abandoned) && handled == old(handled) && sent == old(sent)
      ensures strays == old(strays) && resent == old(resent)
    {
      var back := [];
      orphans := [];
      for i := 0 to |tokens|
        invariant |tokens| == |old(tokens)| && abandoned == old(abandoned) && handled == old(handled)
        invariant sent == old(sent) && returned == old(returned) && strays == old(strays) && resent == old(resent)
        invariant back == Unacked(old(tokens)[..i]) && orphans == Orphans(old(tokens)[..i])
        invariant forall k :: 0 <= k < i ==> tokens[k] == Requeued(old(tokens)[k])
        invariant forall k :: i <= k < |tokens| ==> tokens[k] == old(tokens)[k]
      {
        assert old(tokens)[..i + 1][..i] == old(tokens)[..i];
        if tokens[i].place.Handling? {
          orphans := orphans + [Callback(tokens[i].copy, true)];
        }
        if tokens[i].place.Handling? || tokens[i].place.Republished? {
          back := back + [tokens[i]];
          tokens := tokens[i := tokens[i].(place := Queued)];
        }
      }
      assert old(tokens)[..|old(tokens)|] == old(tokens);
      assert tokens == AllRequeued(old(tokens));
      returned := returned + back;
    }

    method LoseChannel()
      requires Accounted()
      modifies this
      ensures Current() == Next(cfg, old(Current()), ChannelLost) && Accounted()
    {
      hide Conserved, WithinBudget, Orphans, Unacked, AllRequeued;
      var orphans := TakeBack();
      abandoned := abandoned + orphans;
      StillAccounted(ChannelLost);
    }

    /** The process ends, and with it every callback. */
    method CrashProcess()
      requires Accounted()
      modifies this
      ensures Current() == Next(cfg, old(Current()), Crash) && Accounted()
    {
      hide Conserved, WithinBudget, Orphans, Unacked, AllRequeued;
      var _ := TakeBack();
      abandoned := [];
      StillAccounted(Crash);
    }

    /** The handler of an abandoned callback settles.  The ack of a success throws
        on the closed channel and lands in `handleMessageError` like a failure;
        there the retry copy is published, or the nack throws. */
    method FinishAbandoned(k: nat)
      requires k < |abandoned| && abandoned[k].running && Accounted()
      modifies this
      ensures Current() == Next(cfg, old(Current()), Finish(k)) && Accounted()
    {
      hide Conserved, WithinBudget;
      var msg := abandoned[k].copy;
      abandoned := abandoned[k := Callback(msg, false)];
      if cfg.retryEnabled && msg.retry < cfg.maxRetries {
        var retried := msg.(retry := msg.retry + 1, expires := true);
        tokens, strays := tokens + [Token(retried, Queued)], strays + [retried];
      }
      StillAccounted(Finish(k));
    }

    /** The connection manager sends a copy again whose confirmation was lost. */
    method SendAgain(i: nat)
      requires i < |tokens| && Accounted()
      modifies this
      ensures Current() == Next(cfg, old(Current()), Resend(i)) && Accounted()
    {
      hide Conserved, WithinBudget;
      var msg := tokens[i].copy;
      tokens, resent := tokens + [Token(msg, Queued)], resent + [msg];
      StillAccounted(Resend(i));
    }
  }
}
