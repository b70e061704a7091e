/** Call documents and the `active_call:` cache, as the handlers of
    src/microservices/calls-service/calls-service.handler.ts change them, one
    handler call at a time and with one clock reading per call. */
module Calls {
  import opened Sequences
  import opened Wrappers

  type Id = nat

  datatype PartStatus = Connected | RingingAt | DeclinedBy | Left

  datatype Participant = Participant(userId: Id, status: PartStatus, joinedAt: Option<nat>, leftAt: Option<nat>)

  datatype Status = Initiating | Ringing | Connecting | Active | Ended | Declined

  datatype Call = Call(initiatorId: Id, callType: string, status: Status, participants: seq<Participant>,
                       startedAt: nat, answeredAt: Option<nat>, endedAt: Option<nat>, duration: int, endReason: string)

  /** `InternalError` is the answer when a save fails. */
  datatype ErrorCode = NotFound | Forbidden | ValidationError | AlreadyExists | InternalError

  /** A reply names the call it shows by its id. */
  datatype Reply = Shown(id: nat) | NoCall | Done | Error(code: ErrorCode)

  /** Calls are never removed; a call's id is its place in the store. */
  datatype State = State(calls: seq<Call>, active: map<Id, nat>)

  datatype Request =
    | Initiate(caller: Id, callees: seq<Id>, callType: string, now: nat)
    | Answer(id: nat, user: Id, now: nat)
    | Reject(id: nat, user: Id, reason: string, now: nat)
    | End(id: nat, now: nat)
    | Join(id: nat, user: Id, now: nat)
    | Leave(id: nat, user: Id, now: nat)
    | GetActive(user: Id)
    | Evict(user: Id)

  predicate IsLive(c: Call) {
    c.status == Initiating || c.status == Ringing || c.status == Connecting || c.status == Active
  }

  predicate IsOver(c: Call) {
    c.status == Ended || c.status == Declined
  }

  /** The call types the document schema admits. */
  predicate ListedType(callType: string) {
    callType in ["audio", "video", "group_audio", "group_video"]
  }

  /** The end reasons the document schema admits; a document with another one
      cannot be saved. */
  predicate ListedReason(reason: string) {
    reason in ["completed", "missed", "declined", "failed", "no_answer", "busy", "cancelled"]
  }

  function IdsOf(ps: seq<Participant>): (ids: seq<Id>)
    ensures |ids| == |ps|
  {
    seq(|ps|, i requires 0 <= i < |ps| => ps[i].userId)
  }

  function IndexOf(ps: seq<Participant>, user: Id): (i: nat)
    ensures i <= |ps|
    ensures i < |ps| ==> ps[i].userId == user
    ensures forall k :: 0 <= k < i ==> ps[k].userId != user
  {
    assert forall k :: 0 <= k < |ps| ==> IdsOf(ps)[k] == ps[k].userId;
    IndexIn(IdsOf(ps), user)
  }

  predicate Lists(c: Call, user: Id) {
    IndexOf(c.participants, user) < |c.participants|
  }

  /** The first live call that lists the user, as the database query finds it. */
  function FindLive(calls: seq<Call>, user: Id): (i: nat)
    ensures i <= |calls|
    ensures i < |calls| ==> IsLive(calls[i]) && Lists(calls[i], user)
    ensures forall k :: 0 <= k < i ==> !(IsLive(calls[k]) && Lists(calls[k], user))
  {
    if calls == [] || (IsLive(calls[0]) && Lists(calls[0], user)) then 0 else 1 + FindLive(calls[1..], user)
  }

  predicate Present(p: Participant) { p.leftAt.None? }

  function CountPresent(ps: seq<Participant>): nat {
    if ps == [] then 0 else CountPresent(ps[..|ps| - 1]) + if Present(ps[|ps| - 1]) then 1 else 0
  }

  /** Callees that still ring: the initiator never counts. */
  function CountPending(ps: seq<Participant>, initiator: Id): nat {
    if ps == [] then 0
    else
      var p := ps[|ps| - 1];
      CountPending(ps[..|ps| - 1], initiator) + if p.userId != initiator && p.status == RingingAt then 1 else 0
  }

  // ----- The handlers -----

  function KindOf(callees: seq<Id>, callType: string): string {
    if |callees| > 1 then (if callType == "video" then "group_video" else "group_audio") else callType
  }

  function NewParticipants(caller: Id, callees: seq<Id>, now: nat): seq<Participant> {
    [Participant(caller, Connected, Some(now), None)]
    + seq(|callees|, i requires 0 <= i < |callees| => Participant(callees[i], RingingAt, None, None))
  }

  function NewCall(caller: Id, callees: seq<Id>, callType: string, now: nat): Call {
    Call(caller, KindOf(callees, callType), Ringing, NewParticipants(caller, callees, now), now, None, None, 0, "")
  }

  function MarkLeft(p: Participant, now: nat): Participant {
    if p.leftAt.None? then p.(leftAt := Some(now), status := Left) else p
  }

  function AllLeft(ps: seq<Participant>, now: nat): seq<Participant> {
    seq(|ps|, i requires 0 <= i < |ps| => MarkLeft(ps[i], now))
  }

  function Duration(answeredAt: Option<nat>, now: nat, before: int): int {
    if answeredAt.Some? then (now - answeredAt.value) / 1000 else before
  }

  function Close(c: Call, reason: string, now: nat): Call {
    c.(status := Ended, endedAt := Some(now), endReason := reason, duration := Duration(c.answeredAt, now, c.duration))
  }

  /** The ids whose cache entry is dropped. */
  function UsersOf(ps: seq<Participant>): set<Id> {
    set p | p in ps :: p.userId
  }

  function PresentUsers(ps: seq<Participant>): set<Id> {
    set p | p in ps && Present(p) :: p.userId
  }

  function InitiateStep(s: State, caller: Id, callees: seq<Id>, callType: string, now: nat): (State, Reply) {
    if FindLive(s.calls, caller) < |s.calls| then (s, Error(AlreadyExists))
    else if !ListedType(KindOf(callees, callType)) then (s, Error(InternalError))
    else
      (State(s.calls + [NewCall(caller, callees, callType, now)], s.active[caller := |s.calls|]), Shown(|s.calls|))
  }

  function AnswerStep(s: State, id: nat, user: Id, now: nat): (State, Reply) {
    if id >= |s.calls| then (s, Error(NotFound))
    else if s.calls[id].status != Ringing then (s, Error(ValidationError))
    else if !Lists(s.calls[id], user) then (s, Error(Forbidden))
    else
      var c := s.calls[id];
      var i := IndexOf(c.participants, user);
      var ps := c.participants[i := c.participants[i].(status := Connected, joinedAt := Some(now))];
      (State(s.calls[id := c.(participants := ps, status := Active, answeredAt := Some(now))], s.active[user := id]), Shown(id))
  }

  function Declining(ps: seq<Participant>, user: Id, now: nat): seq<Participant> {
    var i := IndexOf(ps, user);
    if i < |ps| then ps[i := ps[i].(status := DeclinedBy, leftAt := Some(now))] else ps
  }

  function OrDeclined(reason: string): string {
    if reason == "" then "declined" else reason
  }

  function RejectStep(s: State, id: nat, user: Id, reason: string, now: nat): (State, Reply) {
    if id >= |s.calls| then (s, Error(NotFound))
    else
      var c := s.calls[id].(participants := Declining(s.calls[id].participants, user, now));
      if CountPending(c.participants, c.initiatorId) > 0 then (s.(calls := s.calls[id := c]), Done)
      else if !ListedReason(OrDeclined(reason)) then (s, Error(InternalError))
      else
        var d := c.(status := Declined, endedAt := Some(now), endReason := OrDeclined(reason));
        (s.(calls := s.calls[id := d]), Done)
  }

  function EndStep(s: State, id: nat, now: nat): (State, Reply) {
    if id >= |s.calls| then (s, Error(NotFound))
    else
      var c := s.calls[id];
      (State(s.calls[id := Close(c, "completed", now).(participants := AllLeft(c.participants, now))],
             s.active - UsersOf(c.participants)), Shown(id))
  }

  function Joining(ps: seq<Participant>, user: Id, now: nat): seq<Participant> {
    var i := IndexOf(ps, user);
    if i < |ps| then ps[i := Participant(user, Connected, Some(now), None)]
    else ps + [Participant(user, Connected, Some(now), None)]
  }

  function JoinStep(s: State, id: nat, user: Id, now: nat): (State, Reply) {
    if id >= |s.calls| then (s, Error(NotFound))
    else if !("group" <= s.calls[id].callType) then (s, Error(ValidationError))
    else
      var ps := s.calls[id].participants;
      var i := IndexOf(ps, user);
      if i < |ps| && Present(ps[i]) then (s, Error(AlreadyExists))
      else
        (State(s.calls[id := s.calls[id].(participants := Joining(ps, user, now))], s.active[user := id]), Shown(id))
  }

  function Leaving(ps: seq<Participant>, user: Id, now: nat): seq<Participant> {
    var i := IndexOf(ps, user);
    if i < |ps| then ps[i := ps[i].(leftAt := Some(now), status := Left)] else ps
  }

  function LeaveStep(s: State, id: nat, user: Id, now: nat): (State, Reply) {
    if id >= |s.calls| then (s, Error(NotFound))
    else
      var c := s.calls[id].(participants := Leaving(s.calls[id].participants, user, now));
      if CountPresent(c.participants) > 1 then (State(s.calls[id := c], s.active - {user}), Done)
      else
        var d := Close(c, "all_left", now);
        var active := s.active - {user} - PresentUsers(c.participants);
        if ListedReason(d.endReason) then (State(s.calls[id := d], active), Done)
        else (s.(active := active), Error(InternalError))
  }

  /** `getActiveCall`: the cached call when it is still live, else the query. */
  function GetActiveCall(s: State, user: Id): Option<nat> {
    if user in s.active && s.active[user] < |s.calls| && IsLive(s.calls[s.active[user]]) then Some(s.active[user])
    else GetActiveUncached(s, user)
  }

  function GetActiveUncached(s: State, user: Id): Option<nat> {
    var i := FindLive(s.calls, user);
    if i < |s.calls| then Some(i) else None
  }

  function Step(s: State, r: Request): (State, Reply) {
    match r
    case Initiate(caller, callees, callType, now) => InitiateStep(s, caller, callees, callType, now)
    case Answer(id, user, now) => AnswerStep(s, id, user, now)
    case Reject(id, user, reason, now) => RejectStep(s, id, user, reason, now)
    case End(id, now) => EndStep(s, id, now)
    case Join(id, user, now) => JoinStep(s, id, user, now)
    case Leave(id, user, now) => LeaveStep(s, id, user, now)
    case GetActive(user) =>
      (s, match GetActiveCall(s, user) case None => NoCall case Some(id) => Shown(id))
    case Evict(user) => (s.(active := s.active - {user}), Done)
  }

  const INITIAL := State([], map[])

  function Run(requests: seq<Request>): State {
    if requests == [] then INITIAL else Step(Run(requests[..|requests| - 1]), requests[|requests| - 1]).0
  }

  // ----- What every step keeps of a call -----

  lemma {:induction false} PresentWitness(ps: seq<Participant>) returns (i: nat)
    requires CountPresent(ps) > 0
    ensures i < |ps| && Present(ps[i])
    decreases ps
  {
    if Present(ps[|ps| - 1]) { i := |ps| - 1; } else { i := PresentWitness(ps[..|ps| - 1]); }
  }

  lemma {:induction false} PendingWitness(ps: seq<Participant>, initiator: Id) returns (i: nat)
    requires CountPending(ps, initiator) > 0
    ensures i < |ps| && ps[i].status == RingingAt
    decreases ps
  {
    var last := ps[|ps| - 1];
    if last.userId != initiator && last.status == RingingAt { i := |ps| - 1; }
    else { i := PendingWitness(ps[..|ps| - 1], initiator); }
  }

  /** The life cycle of one call. */
  ghost predicate Sound(c: Call) {
    && (IsLive(c) <==> !IsOver(c))
    && (c.status == Active ==> c.answeredAt.Some?)
    && (c.endedAt.Some? <==> IsOver(c))
    && (c.status == Ended && c.answeredAt.Some? ==> c.duration == (c.endedAt.value - c.answeredAt.value) / 1000)
    && (forall i :: 0 <= i < |c.participants| && c.participants[i].status == RingingAt ==> Present(c.participants[i]))
    && (IsLive(c) ==> exists i :: 0 <= i < |c.participants| && Present(c.participants[i]))
    && Lists(c, c.initiatorId)
    && ListedType(c.callType) && (IsOver(c) ==> ListedReason(c.endReason))
  }

  /** How a handler may change one call: who is listed only grows, the initiator
      stays, and an ended or declined call never becomes live again. */
  ghost predicate Evolves(c: Call, d: Call) {
    && IdsOf(c.participants) <= IdsOf(d.participants)
    && d.initiatorId == c.initiatorId
    && (IsOver(c) ==> IsOver(d))
    && (IsLive(d) ==> IsLive(c))
  }

  lemma StillLists(c: Call, d: Call, user: Id)
    requires IdsOf(c.participants) <= IdsOf(d.participants) && Lists(c, user)
    ensures Lists(d, user)
  {
    var i := IndexOf(c.participants, user);
    assert IdsOf(d.participants)[i] == IdsOf(c.participants)[i] == user;
    assert d.participants[i].userId == user;
  }

  lemma NewCallSound(caller: Id, callees: seq<Id>, callType: string, now: nat)
    requires ListedType(KindOf(callees, callType))
    ensures Sound(NewCall(caller, callees, callType, now))
  {
    var c := NewCall(caller, callees, callType, now);
    assert Present(c.participants[0]) && c.participants[0].userId == caller;
  }

  lemma AnswerSound(s: State, id: nat, user: Id, now: nat)
    requires id < |s.calls| && Sound(s.calls[id])
    ensures var d := AnswerStep(s, id, user, now).0.calls; Sound(d[id]) && Evolves(s.calls[id], d[id])
  {
    var c, d := s.calls[id], AnswerStep(s, id, user, now).0.calls[id];
    assert IdsOf(d.participants) == IdsOf(c.participants);
    StillLists(c, d, c.initiatorId);
    if IsLive(c) {
      var i :| 0 <= i < |c.participants| && Present(c.participants[i]);
      assert Present(d.participants[i]);
    }
  }

  lemma RejectSound(s: State, id: nat, user: Id, reason: string, now: nat)
    requires id < |s.calls| && Sound(s.calls[id])
    ensures var d := RejectStep(s, id, user, reason, now).0.calls; Sound(d[id]) && Evolves(s.calls[id], d[id])
  {
    var c, d := s.calls[id], RejectStep(s, id, user, reason, now).0.calls[id];
    assert IdsOf(d.participants) == IdsOf(c.participants);
    StillLists(c, d, c.initiatorId);
    if CountPending(d.participants, c.initiatorId) > 0 {
      var i := PendingWitness(d.participants, c.initiatorId);
      assert Present(d.participants[i]);
    }
  }

  lemma EndSound(s: State, id: nat, now: nat)
    requires id < |s.calls| && Sound(s.calls[id])
    ensures var d := EndStep(s, id, now).0.calls; Sound(d[id]) && Evolves(s.calls[id], d[id])
  {
    var c, d := s.calls[id], EndStep(s, id, now).0.calls[id];
    assert IdsOf(d.participants) == IdsOf(c.participants);
    StillLists(c, d, c.initiatorId);
  }

  lemma JoinSound(s: State, id: nat, user: Id, now: nat)
    requires id < |s.calls| && Sound(s.calls[id])
    ensures var d := JoinStep(s, id, user, now).0.calls; Sound(d[id]) && Evolves(s.calls[id], d[id])
  {
    var c, d := s.calls[id], JoinStep(s, id, user, now).0.calls[id];
    assert IdsOf(c.participants) <= IdsOf(d.participants);
    StillLists(c, d, c.initiatorId);
    if IsLive(c) {
      var i :| 0 <= i < |c.participants| && Present(c.participants[i]);
      assert Present(d.participants[i]);
    }
  }

  lemma LeaveSound(s: State, id: nat, user: Id, now: nat)
    requires id < |s.calls| && Sound(s.calls[id])
    ensures var d := LeaveStep(s, id, user, now).0.calls; Sound(d[id]) && Evolves(s.calls[id], d[id])
  {
    var c, d := s.calls[id], LeaveStep(s, id, user, now).0.calls[id];
    assert IdsOf(d.participants) == IdsOf(c.participants);
    StillLists(c, d, c.initiatorId);
    if CountPresent(d.participants) > 1 {
      var i := PresentWitness(d.participants);
    }
  }

  // ----- What every step keeps of the store -----

  /** No user has initiated two calls that are both live. */
  ghost predicate OneLivePerInitiator(calls: seq<Call>) {
    forall i, j :: 0 <= i < j < |calls| && IsLive(calls[i]) && IsLive(calls[j]) ==>
      calls[i].initiatorId != calls[j].initiatorId
  }

  /** A cache entry names a call that lists its user. */
  ghost predicate CacheListed(s: State) {
    forall u :: u in s.active ==> s.active[u] < |s.calls| && Lists(s.calls[s.active[u]], u)
  }

  ghost predicate AllSound(calls: seq<Call>) {
    forall i :: 0 <= i < |calls| ==> Sound(calls[i])
  }

  ghost predicate Good(s: State) {
    AllSound(s.calls) && OneLivePerInitiator(s.calls) && CacheListed(s)
  }

  /** Every call of `calls` is there in `next`, changed as a handler may change it. */
  ghost predicate AllEvolve(calls: seq<Call>, next: seq<Call>) {
    |calls| <= |next| && forall i :: 0 <= i < |calls| ==> Evolves(calls[i], next[i])
  }

  lemma SameEvolves(c: Call)
    ensures Evolves(c, c)
  {
  }

  lemma StepSound(s: State, r: Request)
    requires AllSound(s.calls)
    ensures AllSound(Step(s, r).0.calls)
    ensures AllEvolve(s.calls, Step(s, r).0.calls)
    ensures |Step(s, r).0.calls| <= |s.calls| + if r.Initiate? then 1 else 0
  {
    hide Sound, Evolves;
    forall c ensures Evolves(c, c) { SameEvolves(c); }
    match r
    case Initiate(caller, callees, callType, now) =>
      if ListedType(KindOf(callees, callType)) { NewCallSound(caller, callees, callType, now); }
    case Answer(id, user, now) => if id < |s.calls| { AnswerSound(s, id, user, now); }
    case Reject(id, user, reason, now) => if id < |s.calls| { RejectSound(s, id, user, reason, now); }
    case End(id, now) => if id < |s.calls| { EndSound(s, id, now); }
    case Join(id, user, now) => if id < |s.calls| { JoinSound(s, id, user, now); }
    case Leave(id, user, now) => if id < |s.calls| { LeaveSound(s, id, user, now); }
    case _ =>
  }

  lemma StepOneLive(s: State, r: Request)
    requires AllSound(s.calls) && OneLivePerInitiator(s.calls)
    ensures OneLivePerInitiator(Step(s, r).0.calls)
  {
    hide Sound;
    StepSound(s, r);
    var next := Step(s, r).0.calls;
    forall i, j | 0 <= i < j < |next| && IsLive(next[i]) && IsLive(next[j])
      ensures next[i].initiatorId != next[j].initiatorId
    {
      if j == |s.calls| {
        InitiatorListed(s.calls[i]);
      } else {
        hide Step;
      }
    }
  }

  lemma InitiatorListed(c: Call)
    requires Sound(c)
    ensures Lists(c, c.initiatorId)
  {
  }

  lemma StepCacheListed(s: State, r: Request)
    requires AllSound(s.calls) && CacheListed(s)
    ensures CacheListed(Step(s, r).0)
  {
    hide Sound, Lists;
    StepSound(s, r);
    var t := Step(s, r).0;
    forall u | u in t.active ensures t.active[u] < |t.calls| && Lists(t.calls[t.active[u]], u) {
      if u in s.active && t.active[u] == s.active[u] {
        StillLists(s.calls[s.active[u]], t.calls[s.active[u]], u);
      } else {
        CachedNow(s, r, u);
      }
    }
  }

  /** A step caches a call for a user only after listing the user in it. */
  lemma CachedNow(s: State, r: Request, u: Id)
    requires var t := Step(s, r).0; u in t.active && (u !in s.active || t.active[u] != s.active[u])
    ensures var t := Step(s, r).0; t.active[u] < |t.calls| && Lists(t.calls[t.active[u]], u)
  {
    hide CountPresent, CountPending, ListedReason, ListedType, AllLeft, PresentUsers, UsersOf;
    var t := Step(s, r).0;
    match r
    case Initiate(caller, callees, callType, now) =>
      assert t.calls[t.active[u]].participants[0].userId == u;
    case Answer(id, user, now) =>
      assert t.calls[id].participants[IndexOf(s.calls[id].participants, user)].userId == u;
    case Join(id, user, now) =>
      assert t.calls[id].participants[IndexOf(s.calls[id].participants, user)].userId == u;
    case _ =>
  }

  lemma StepGood(s: State, r: Request)
    requires Good(s)
    ensures Good(Step(s, r).0)
  {
    hide AllSound, OneLivePerInitiator, CacheListed, Step;
    StepSound(s, r);
    StepOneLive(s, r);
    StepCacheListed(s, r);
  }

  lemma InitialGood()
    ensures Good(INITIAL)
  {
  }

  lemma {:induction false} RunGood(requests: seq<Request>)
    ensures Good(Run(requests))
    decreases requests
  {
    hide Good, Step;
    if requests == [] {
      InitialGood();
    } else {
      RunGood(requests[..|requests| - 1]);
      StepGood(Run(requests[..|requests| - 1]), requests[|requests| - 1]);
    }
  }

  lemma RunSnoc(requests: seq<Request>, r: Request)
    ensures Run(requests + [r]) == Step(Run(requests), r).0
  {
    assert (requests + [r])[..|requests|] == requests;
  }

  lemma EvolvesTransitive(c: Call, d: Call, e: Call)
    requires Evolves(c, d) && Evolves(d, e)
    ensures Evolves(c, e)
  {
  }

  lemma AllEvolveTransitive(a: seq<Call>, b: seq<Call>, c: seq<Call>)
    requires AllEvolve(a, b) && AllEvolve(b, c)
    ensures AllEvolve(a, c)
  {
    hide Evolves;
    forall i | 0 <= i < |a| ensures Evolves(a[i], c[i]) {
      EvolvesTransitive(a[i], b[i], c[i]);
    }
  }

  lemma SameAllEvolve(a: seq<Call>)
    ensures AllEvolve(a, a)
  {
  }

  /** Along every continuation of every run: nobody is taken off a call, its
      initiator stays, and ended and declined are never left for a live status. */
  lemma {:induction false} OverForEver(requests: seq<Request>, more: seq<Request>)
    ensures AllEvolve(Run(requests).calls, Run(requests + more).calls)
    decreases more
  {
    hide AllEvolve, AllSound, Step, Run;
    if more == [] {
      assert requests + more == requests;
      SameAllEvolve(Run(requests).calls);
    } else {
      var front, last := more[..|more| - 1], more[|more| - 1];
      OverForEver(requests, front);
      assert requests + more == requests + front + [last];
      RunSnoc(requests + front, last);
      RunSoundCalls(requests + front);
      StepSound(Run(requests + front), last);
      AllEvolveTransitive(Run(requests).calls, Run(requests + front).calls, Run(requests + more).calls);
    }
  }

  lemma RunSoundCalls(requests: seq<Request>)
    ensures AllSound(Run(requests).calls)
  {
    RunGood(requests);
  }

  // ----- How calls end -----

  lemma AllLeftUnlisted()
    ensures !ListedReason("all_left")
  {
    assert "all_left"[0] == 'a';
  }

  /** The participants who are present when the user has left. */
  function OthersPresent(ps: seq<Participant>, user: Id): nat {
    var i := IndexOf(ps, user);
    if i < |ps| && Present(ps[i]) then CountPresent(ps[..i] + ps[i + 1..]) else CountPresent(ps)
  }

  lemma {:induction false} CountWithout(ps: seq<Participant>, i: nat, p: Participant)
    requires i < |ps| && !Present(p)
    ensures CountPresent(ps[i := p]) == CountPresent(ps[..i] + ps[i + 1..])
    ensures !Present(ps[i]) ==> CountPresent(ps[i := p]) == CountPresent(ps)
    decreases ps
  {
    var front := ps[..|ps| - 1];
    if i == |ps| - 1 {
      assert ps[i := p][..|ps| - 1] == front && ps[..i] + ps[i + 1..] == front;
    } else {
      CountWithout(front, i, p);
      assert ps[i := p][..|ps| - 1] == front[i := p];
      assert (ps[..i] + ps[i + 1..])[..|ps| - 2] == front[..i] + front[i + 1..];
    }
  }

  /** `leaveCall` stores the departure exactly when two others are still present;
      else it answers an error and changes no call.  It ends no call either way. */
  lemma LeaveStoredIff(s: State, id: nat, user: Id, now: nat)
    requires id < |s.calls|
    ensures var (t, reply) := LeaveStep(s, id, user, now);
      var c := s.calls[id];
      && (reply == Done <==> OthersPresent(c.participants, user) >= 2)
      && (reply != Done ==> reply == Error(InternalError))
      && (reply == Done ==> t.calls == s.calls[id := c.(participants := Leaving(c.participants, user, now))])
      && (reply != Done ==> t.calls == s.calls)
      && user !in t.active
  {
    AllLeftUnlisted();
    hide ListedReason;
    var ps := s.calls[id].participants;
    var i := IndexOf(ps, user);
    if i < |ps| { CountWithout(ps, i, ps[i].(leftAt := Some(now), status := Left)); }
  }

  /** `rejectCall` fails exactly when nobody rings any more and the reason given is
      not one of the schema's. */
  lemma RejectFailsIff(s: State, id: nat, user: Id, reason: string, now: nat)
    requires id < |s.calls|
    ensures var (t, reply) := RejectStep(s, id, user, reason, now);
      && (reply == Error(InternalError) <==>
            CountPending(Declining(s.calls[id].participants, user, now), s.calls[id].initiatorId) == 0
            && reason != "" && !ListedReason(reason))
      && (reply != Done ==> t == s)
  {
    assert ListedReason("declined");
  }

  /** Who asked for the end of a call. */
  ghost predicate Explained(requests: seq<Request>, calls: seq<Call>) {
    forall i :: 0 <= i < |calls| ==>
      && (calls[i].status == Ended ==> exists r :: r in requests && r.End? && r.id == i)
      && (calls[i].status == Declined ==> exists r :: r in requests && r.Reject? && r.id == i)
  }

  lemma StepExplained(requests: seq<Request>, s: State, r: Request)
    requires Explained(requests, s.calls)
    ensures Explained(requests + [r], Step(s, r).0.calls)
  {
    hide IndexOf, FindLive, CountPresent, CountPending, AllLeft, ListedType, NewParticipants, Leaving, Joining, Declining;
    var next := Step(s, r).0.calls;
    assert r in requests + [r];
    if r.Leave? && r.id < |s.calls| { LeaveStoredIff(s, r.id, r.user, r.now); }
    forall i | 0 <= i < |next|
      ensures next[i].status == Ended ==> exists q :: q in requests + [r] && q.End? && q.id == i
      ensures next[i].status == Declined ==> exists q :: q in requests + [r] && q.Reject? && q.id == i
    {
      if i < |s.calls| && next[i].status == s.calls[i].status {
        assert forall q :: q in requests ==> q in requests + [r];
      }
    }
  }

  lemma NothingExplained()
    ensures Explained([], INITIAL.calls)
  {
  }

  /** In every run only `endCall` ends a call, however many leave it, and only
      `rejectCall` declines one. */
  lemma {:induction false} EndedOnlyByRequest(requests: seq<Request>)
    ensures Explained(requests, Run(requests).calls)
    decreases requests
  {
    hide Step, Explained;
    if requests == [] {
      NothingExplained();
    } else {
      var front, last := requests[..|requests| - 1], requests[|requests| - 1];
      EndedOnlyByRequest(front);
      StepExplained(front, Run(front), last);
      assert requests == front + [last];
    }
  }

  // ----- The active call of a user -----

  ghost predicate Serves(calls: seq<Call>, user: Id, i: nat) {
    i < |calls| && IsLive(calls[i]) && Lists(calls[i], user)
  }

  /** In every run, under any eviction, `getActiveCall` finds a live call that
      lists the user if there is one, and null only if there is none; it is the
      one the database query finds whenever only one call fits. */
  lemma ActiveCallFound(requests: seq<Request>, user: Id)
    ensures var s := Run(requests);
      var found := GetActiveCall(s, user);
      && (found.None? <==> forall i :: !Serves(s.calls, user, i))
      && (found.Some? ==> Serves(s.calls, user, found.value))
      && (found.None? <==> GetActiveUncached(s, user).None?)
      && ((forall i, j :: Serves(s.calls, user, i) && Serves(s.calls, user, j) ==> i == j) ==>
            found == GetActiveUncached(s, user))
  {
    hide Run, AllSound, OneLivePerInitiator;
    RunGood(requests);
    var s := Run(requests);
    var i := FindLive(s.calls, user);
    if user in s.active && s.active[user] < |s.calls| && IsLive(s.calls[s.active[user]]) {
      assert Serves(s.calls, user, s.active[user]);
    }
    assert i < |s.calls| ==> Serves(s.calls, user, i);
  }

  /** The cache never shows, whatever calls of the user it holds, if and only if at
      most one live call lists the user. */
  lemma CacheNeverShowsIff(calls: seq<Call>, user: Id)
    ensures (forall active :: CacheListed(State(calls, active)) ==>
               GetActiveCall(State(calls, active), user) == GetActiveUncached(State(calls, active), user))
       <==> forall i, j :: Serves(calls, user, i) && Serves(calls, user, j) ==> i == j
  {
    hide Lists;
    var first := FindLive(calls, user);
    forall i, j | (forall active :: CacheListed(State(calls, active)) ==>
                     GetActiveCall(State(calls, active), user) == GetActiveUncached(State(calls, active), user))
        && Serves(calls, user, i) && Serves(calls, user, j)
        ensures i == j {
      assert CacheListed(State(calls, map[user := i])) && CacheListed(State(calls, map[user := j]));
      assert GetActiveCall(State(calls, map[user := i]), user) == Some(i);
      assert GetActiveCall(State(calls, map[user := j]), user) == Some(j);
    }
    assert first < |calls| ==> Serves(calls, user, first);
    if forall i, j :: Serves(calls, user, i) && Serves(calls, user, j) ==> i == j {
      forall active | CacheListed(State(calls, active))
          ensures GetActiveCall(State(calls, active), user) == GetActiveUncached(State(calls, active), user) {
        if user in active && IsLive(calls[active[user]]) { assert Serves(calls, user, active[user]); }
      }
    }
  }

  /** Two callers can ring the same user; once the second call is answered the
      cache names it, while the query would find the first. */
  lemma CachedCallCanDiffer()
    ensures var s := Run([Initiate(1, [3], "audio", 10), Initiate(2, [3], "audio", 20), Answer(1, 3, 30)]);
      GetActiveCall(s, 3) == Some(1) && GetActiveUncached(s, 3) == Some(0)
  {
    hide Run, Step, GetActiveCall, GetActiveUncached;
    var r1, r2, r3 := Initiate(1, [3], "audio", 10), Initiate(2, [3], "audio", 20), Answer(1, 3, 30);
    RunNothing();
    RunSnoc([], r1);
    RunSnoc([r1], r2);
    RunSnoc([r1, r2], r3);
    assert [] + [r1] == [r1] && [r1] + [r2] == [r1, r2] && [r1, r2] + [r3] == [r1, r2, r3];
    var c1, c2 := NewCall(1, [3], "audio", 10), NewCall(2, [3], "audio", 20);
    var s2 := State([c1, c2], map[1 := 0, 2 := 1]);
    TwoInitiated(c1, c2, s2);
    SecondAnswered(c1, c2, s2);
  }

  lemma TwoInitiated(c1: Call, c2: Call, s: State)
    requires c1 == NewCall(1, [3], "audio", 10) && c2 == NewCall(2, [3], "audio", 20)
    requires s == State([c1, c2], map[1 := 0, 2 := 1])
    ensures Step(Step(INITIAL, Initiate(1, [3], "audio", 10)).0, Initiate(2, [3], "audio", 20)).0 == s
  {
    PairLists(c1, 1, 3);
    assert FindLive([c1], 2) == 1;
  }

  lemma SecondAnswered(c1: Call, c2: Call, s: State)
    requires c1 == NewCall(1, [3], "audio", 10) && c2 == NewCall(2, [3], "audio", 20)
    requires s == State([c1, c2], map[1 := 0, 2 := 1])
    ensures var t := Step(s, Answer(1, 3, 30)).0; GetActiveCall(t, 3) == Some(1) && GetActiveUncached(t, 3) == Some(0)
  {
    PairLists(c1, 1, 3);
    PairLists(c2, 2, 3);
  }

  lemma RunNothing()
    ensures Run([]) == INITIAL
  {
  }

  lemma PairLists(c: Call, a: Id, b: Id)
    requires |c.participants| == 2 && c.participants[0].userId == a && c.participants[1].userId == b
    ensures forall u :: Lists(c, u) <==> u == a || u == b
  {
    assert c.participants[1..][0] == c.participants[1];
  }

  // ----- The service -----

  lemma UsersOfSnoc(ps: seq<Participant>, i: nat)
    requires i < |ps|
    ensures UsersOf(ps[..i + 1]) == UsersOf(ps[..i]) + {ps[i].userId}
    ensures PresentUsers(ps[..i + 1]) == PresentUsers(ps[..i]) + if Present(ps[i]) then {ps[i].userId} else {}
  {
    assert ps[..i + 1] == ps[..i] + [ps[i]];
  }

  lemma NoUsers()
    ensures UsersOf([]) == {} && PresentUsers([]) == {}
  {
  }

  lemma DropMore(m: map<Id, nat>, a: set<Id>, b: set<Id>)
    ensures m - a - b == m - (a + b)
  {
  }

  /** The loop that clears the cache of the participants who are still there. */
  method WithoutPresent(active: map<Id, nat>, ps: seq<Participant>) returns (r: map<Id, nat>)
    ensures r == active - PresentUsers(ps)
  {
    r := active;
    NoUsers();
    assert ps[..0] == [];
    for i := 0 to |ps|
      invariant r == active - PresentUsers(ps[..i])
    {
      UsersOfSnoc(ps, i);
      if Present(ps[i]) {
        DropMore(active, PresentUsers(ps[..i]), {ps[i].userId});
        r := r - {ps[i].userId};
      } else {
        assert PresentUsers(ps[..i + 1]) == PresentUsers(ps[..i]);
      }
    }
    assert ps[..|ps|] == ps;
  }

  class CallsService {
    var calls: seq<Call>
    var active: map<Id, nat>

    function Current(): State
      reads this
    {
      State(calls, active)
    }

    constructor ()
      ensures Current() == INITIAL
    {
      calls, active := [], map[];
    }

    method InitiateCall(caller: Id, callees: seq<Id>, callType: string, now: nat) returns (reply: Reply)
      modifies this
      ensures (Current(), reply) == Step(old(Current()), Initiate(caller, callees, callType, now))
    {
      var existingCall := FindLive(calls, caller);
      if existingCall < |calls| {
        return Error(AlreadyExists);
      }
      var kind := if |callees| > 1 then (if callType == "video" then "group_video" else "group_audio") else callType;
      var participants := [Participant(caller, Connected, Some(now), None)];
      for i := 0 to |callees|
        invariant calls == old(calls) && active == old(active)
        invariant participants == NewParticipants(caller, callees[..i], now)
      {
        participants := participants + [Participant(callees[i], RingingAt, None, None)];
      }
      assert callees[..|callees|] == callees;
      var call := Call(caller, kind, Ringing, participants, now, None, None, 0, "");
      if !ListedType(call.callType) {
        return Error(InternalError);
      }
      calls := calls + [call];
      active := active[caller := |calls| - 1];
      return Shown(|calls| - 1);
    }

    method AnswerCall(id: nat, user: Id, now: nat) returns (reply: Reply)
      modifies this
      ensures (Current(), reply) == Step(old(Current()), Answer(id, user, now))
    {
      if id >= |calls| {
        return Error(NotFound);
      }
      var call := calls[id];
      if call.status != Ringing {
        return Error(ValidationError);
      }
      var index := IndexOf(call.participants, user);
      if index == |call.participants| {
        return Error(Forbidden);
      }
      var participant := call.participants[index].(status := Connected);
      participant := participant.(joinedAt := Some(now));
      call := call.(participants := call.participants[index := participant]);
      call := call.(status := Active);
      call := call.(answeredAt := Some(now));
      calls := calls[id := call];
      active := active[user := id];
      return Shown(id);
    }

    method RejectCall(id: nat, user: Id, reason: string, now: nat) returns (reply: Reply)
      modifies this
      ensures (Current(), reply) == Step(old(Current()), Reject(id, user, reason, now))
    {
      if id >= |calls| {
        return Error(NotFound);
      }
      var call := calls[id];
      var index := IndexOf(call.participants, user);
      if index < |call.participants| {
        var participant := call.participants[index].(status := DeclinedBy);
        participant := participant.(leftAt := Some(now));
        call := call.(participants := call.participants[index := participant]);
      }
      var pending := CountPending(call.participants, call.initiatorId);
      if pending == 0 {
        call := call.(status := Declined);
        call := call.(endedAt := Some(now));
        call := call.(endReason := if reason == "" then "declined" else reason);
        if !ListedReason(call.endReason) {
          return Error(InternalError);
        }
      }
      calls := calls[id := call];
      return Done;
    }

    method EndCall(id: nat, now: nat) returns (reply: Reply)
      modifies this
      ensures (Current(), reply) == Step(old(Current()), End(id, now))
    {
      if id >= |calls| {
        return Error(NotFound);
      }
      var call := calls[id];
      call := call.(status := Ended, endedAt := Some(now), endReason := "completed");
      if call.answeredAt.Some? {
        call := call.(duration := (now - call.answeredAt.value) / 1000);
      }
      var ps := call.participants;
      var marked := ps;
      NoUsers();
      assert ps[..0] == [];
      hide UsersOf, IsLive;
      for i := 0 to |ps|
        invariant calls == old(calls) && |marked| == |ps|
        invariant forall k :: 0 <= k < i ==> marked[k] == MarkLeft(ps[k], now)
        invariant forall k :: i <= k < |ps| ==> marked[k] == ps[k]
        invariant active == old(active) - UsersOf(ps[..i])
      {
        UsersOfSnoc(ps, i);
        DropMore(old(active), UsersOf(ps[..i]), {ps[i].userId});
        if marked[i].leftAt.None? {
          marked := marked[i := marked[i].(leftAt := Some(now), status := Left)];
        }
        active := active - {ps[i].userId};
      }
      assert ps[..|ps|] == ps && marked == AllLeft(ps, now);
      call := call.(participants := marked);
      calls := calls[id := call];
      return Shown(id);
    }

    method JoinCall(id: nat, user: Id, now: nat) returns (reply: Reply)
      modifies this
      ensures (Current(), reply) == Step(old(Current()), Join(id, user, now))
    {
      if id >= |calls| {
        return Error(NotFound);
      }
      var call := calls[id];
      if !("group" <= call.callType) {
        return Error(ValidationError);
      }
      var index := IndexOf(call.participants, user);
      if index < |call.participants| && call.participants[index].leftAt.None? {
        return Error(AlreadyExists);
      }
      if index < |call.participants| {
        var participant := call.participants[index].(joinedAt := Some(now));
        participant := participant.(leftAt := None);
        participant := participant.(status := Connected);
        call := call.(participants := call.participants[index := participant]);
      } else {
        call := call.(participants := call.participants + [Participant(user, Connected, Some(now), None)]);
      }
      calls := calls[id := call];
      active := active[user := id];
      return Shown(id);
    }

    method LeaveCall(id: nat, user: Id, now: nat) returns (reply: Reply)
      modifies this
      ensures (Current(), reply) == Step(old(Current()), Leave(id, user, now))
    {
      if id >= |calls| {
        return Error(NotFound);
      }
      var call := calls[id];
      var index := IndexOf(call.participants, user);
      if index < |call.participants| {
        var participant := call.participants[index].(leftAt := Some(now));
        participant := participant.(status := Left);
        call := call.(participants := call.participants[index := participant]);
      }
      hide PresentUsers, UsersOf, CountPresent;
      active := active - {user};
      var ps := call.participants;
      var activeParticipants := CountPresent(ps);
      if activeParticipants <= 1 {
        call := call.(status := Ended, endedAt := Some(now), endReason := "all_left");
        if call.answeredAt.Some? {
          call := call.(duration := (now - call.answeredAt.value) / 1000);
        }
        active := WithoutPresent(active, ps);
        if !ListedReason(call.endReason) {
          return Error(InternalError);
        }
      }
      calls := calls[id := call];
      return Done;
    }

    method GetActiveCall(user: Id) returns (reply: Reply)
      ensures (Current(), reply) == Step(Current(), GetActive(user))
    {
      if user in active {
        var cachedCallId := active[user];
        if cachedCallId < |calls| && IsLive(calls[cachedCallId]) {
          return Shown(cachedCallId);
        }
      }
      var call := FindLive(calls, user);
      if call < |calls| {
        return Shown(call);
      }
      return NoCall;
    }

    /** A cache entry runs out. */
    method EvictEntry(user: Id)
      modifies this
      ensures Current() == Step(old(Current()), Evict(user)).0
    {
      active := active - {user};
    }
  }
}
