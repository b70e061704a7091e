/** What the call handlers may answer and change, stated on documents and requests
    alone, and what a call remembers of the requests that shaped it. */
module CallRules {
  import opened Sequences
  import opened Wrappers
  import opened Calls

  // ----- Facts about participants -----

  ghost predicate ListsUser(c: Call, user: Id) {
    exists i :: 0 <= i < |c.participants| && c.participants[i].userId == user
  }

  ghost predicate IsFirst(ps: seq<Participant>, i: nat, user: Id)
    requires i < |ps|
  {
    ps[i].userId == user && forall k :: 0 <= k < i ==> ps[k].userId != user
  }

  /** No callee rings, not counting the first entry of the user, who declines. */
  ghost predicate NobodyElseRings(c: Call, user: Id) {
    forall i :: 0 <= i < |c.participants| && c.participants[i].status == RingingAt ==>
      c.participants[i].userId == c.initiatorId || IsFirst(c.participants, i, user)
  }

  /** Present, and not the entry the user leaves by. */
  ghost predicate Remains(ps: seq<Participant>, i: nat, user: Id)
    requires i < |ps|
  {
    ps[i].leftAt.None? && !IsFirst(ps, i, user)
  }

  ghost predicate TwoRemain(ps: seq<Participant>, user: Id) {
    exists i, j :: 0 <= i < j < |ps| && Remains(ps, i, user) && Remains(ps, j, user)
  }

  predicate SchemaReason(reason: string) {
    reason in ["completed", "missed", "declined", "failed", "no_answer", "busy", "cancelled"]
  }

  lemma ListsUserIff(c: Call, user: Id)
    ensures ListsUser(c, user) <==> Lists(c, user)
  {
    var i := IndexOf(c.participants, user);
    if i < |c.participants| { assert c.participants[i].userId == user; }
  }

  lemma FirstIs(ps: seq<Participant>, user: Id)
    ensures forall i :: 0 <= i < |ps| ==> (IsFirst(ps, i, user) <==> i == IndexOf(ps, user))
  {
  }

  lemma {:induction false} PendingNoneIff(ps: seq<Participant>, initiator: Id)
    ensures CountPending(ps, initiator) == 0 <==>
      forall i :: 0 <= i < |ps| ==> !(ps[i].userId != initiator && ps[i].status == RingingAt)
    decreases ps
  {
    if ps != [] {
      var front := ps[..|ps| - 1];
      PendingNoneIff(front, initiator);
      assert forall i :: 0 <= i < |front| ==> front[i] == ps[i];
    }
  }

  lemma NobodyElseRingsIff(c: Call, user: Id, now: nat)
    ensures NobodyElseRings(c, user) <==> CountPending(Declining(c.participants, user, now), c.initiatorId) == 0
  {
    var ps, qs := c.participants, Declining(c.participants, user, now);
    FirstIs(ps, user);
    PendingNoneIff(qs, c.initiatorId);
    assert |qs| == |ps|;
    assert forall i :: 0 <= i < |ps| && i != IndexOf(ps, user) ==> qs[i] == ps[i];
  }

  lemma {:induction false} PresentSomeIff(ps: seq<Participant>)
    ensures CountPresent(ps) > 0 <==> exists i :: 0 <= i < |ps| && ps[i].leftAt.None?
    decreases ps
  {
    if ps != [] {
      var front := ps[..|ps| - 1];
      PresentSomeIff(front);
      assert forall i :: 0 <= i < |front| ==> front[i] == ps[i];
    }
  }

  lemma {:induction false} PresentTwoIff(ps: seq<Participant>)
    ensures CountPresent(ps) > 1 <==> exists i, j :: 0 <= i < j < |ps| && ps[i].leftAt.None? && ps[j].leftAt.None?
    decreases ps
  {
    if ps != [] {
      var front, n := ps[..|ps| - 1], |ps| - 1;
      PresentTwoIff(front);
      PresentSomeIff(front);
      assert forall i :: 0 <= i < |front| ==> front[i] == ps[i];
      if CountPresent(ps) > 1 {
        if ps[n].leftAt.None? {
          var i :| 0 <= i < |front| && front[i].leftAt.None?;
          assert ps[i].leftAt.None? && ps[n].leftAt.None?;
        } else {
          var i, j :| 0 <= i < j < |front| && front[i].leftAt.None? && front[j].leftAt.None?;
          assert ps[i].leftAt.None? && ps[j].leftAt.None?;
        }
      }
      if i, j :| 0 <= i < j < |ps| && ps[i].leftAt.None? && ps[j].leftAt.None? {
        assert front[i].leftAt.None?;
        if j < n { assert front[j].leftAt.None?; }
      }
    }
  }

  lemma TwoRemainIff(ps: seq<Participant>, user: Id, now: nat)
    ensures TwoRemain(ps, user) <==> CountPresent(Leaving(ps, user, now)) > 1
  {
    var qs := Leaving(ps, user, now);
    FirstIs(ps, user);
    PresentTwoIff(qs);
    assert |qs| == |ps|;
    forall i | 0 <= i < |ps| ensures qs[i].leftAt.None? <==> Remains(ps, i, user) {
    }
  }

  // ----- What is refused -----

  /** The error a request must be answered with, if any. */
  ghost function Refusal(calls: seq<Call>, r: Request): Option<ErrorCode> {
    if r.GetActive? || r.Evict? then None
    else if r.Initiate? then
      if exists i :: 0 <= i < |calls| && calls[i].status != Ended && calls[i].status != Declined
                     && ListsUser(calls[i], r.caller) then Some(AlreadyExists)
      else if |r.callees| <= 1 && r.callType !in ["audio", "video", "group_audio", "group_video"] then Some(InternalError)
      else None
    else if r.id >= |calls| then Some(NotFound)
    else
      var c := calls[r.id];
      if r.Answer? then
        if c.status != Ringing then Some(ValidationError) else if !ListsUser(c, r.user) then Some(Forbidden) else None
      else if r.Reject? then
        if NobodyElseRings(c, r.user) && r.reason != "" && !SchemaReason(r.reason) then Some(InternalError) else None
      else if r.Join? then
        if !("group" <= c.callType) then Some(ValidationError)
        else if exists i :: 0 <= i < |c.participants| && IsFirst(c.participants, i, r.user)
                            && c.participants[i].leftAt.None? then Some(AlreadyExists)
        else None
      else if r.Leave? then
        if TwoRemain(c.participants, r.user) then None else Some(InternalError)
      else None
  }

  lemma LiveIff(c: Call)
    ensures IsLive(c) <==> c.status != Ended && c.status != Declined
  {
  }

  lemma ReasonsListed(reason: string)
    ensures SchemaReason(reason) <==> ListedReason(reason)
  {
  }

  lemma InitiateRefusedIff(s: State, r: Request)
    requires r.Initiate?
    ensures forall code :: Step(s, r).1 == Error(code) <==> Refusal(s.calls, r) == Some(code)
  {
    forall i | 0 <= i < |s.calls|
      ensures IsLive(s.calls[i]) && Lists(s.calls[i], r.caller) <==>
        s.calls[i].status != Ended && s.calls[i].status != Declined && ListsUser(s.calls[i], r.caller)
    {
      LiveIff(s.calls[i]);
      ListsUserIff(s.calls[i], r.caller);
    }
    hide IsLive, Lists, ListsUser;
    var i := FindLive(s.calls, r.caller);
    assert |r.callees| > 1 ==> ListedType(KindOf(r.callees, r.callType));
  }

  /** A request is answered with an error exactly if the rules refuse it; but for
      the cache entries a failed departure drops, it then changes nothing. */
  lemma RefusedIff(s: State, r: Request)
    ensures forall code :: Step(s, r).1 == Error(code) <==> Refusal(s.calls, r) == Some(code)
    ensures Refusal(s.calls, r).Some? ==> Step(s, r).0.calls == s.calls && (!r.Leave? ==> Step(s, r).0 == s)
  {
    if r.Initiate? {
      InitiateRefusedIff(s, r);
    } else if !r.GetActive? && !r.Evict? && r.id < |s.calls| {
      var c := s.calls[r.id];
      if r.Answer? { ListsUserIff(c, r.user); }
      if r.Reject? {
        NobodyElseRingsIff(c, r.user, r.now);
        ReasonsListed(r.reason);
        assert ListedReason("declined");
      }
      if r.Join? { FirstIs(c.participants, r.user); }
      if r.Leave? {
        TwoRemainIff(c.participants, r.user, r.now);
        AllLeftUnlisted();
      }
    }
    hide NobodyElseRings, TwoRemain, ListsUser, IsFirst, ListedReason, SchemaReason, FindLive, CountPresent, CountPending,
      Declining, Leaving, AllLeft, Joining, PresentUsers, UsersOf, NewCall;
  }

  // ----- What an accepted request changes -----

  /** Only the first entry of the user may differ, and is what `change` makes of it. */
  ghost predicate FirstChanged(was: seq<Participant>, user: Id, change: Participant -> Participant, now: seq<Participant>) {
    |now| == |was| && forall i :: 0 <= i < |was| ==> now[i] == if IsFirst(was, i, user) then change(was[i]) else was[i]
  }

  /** How an accepted request changes the people of its call. */
  ghost predicate PeopleEffect(c: Call, r: Request, d: Call) {
    match r
    case Answer(_, user, now) =>
      FirstChanged(c.participants, user, (p: Participant) => p.(status := Connected, joinedAt := Some(now)), d.participants)
    case Reject(_, user, _, now) =>
      FirstChanged(c.participants, user, (p: Participant) => p.(status := DeclinedBy, leftAt := Some(now)), d.participants)
    case Leave(_, user, now) =>
      FirstChanged(c.participants, user, (p: Participant) => p.(status := Left, leftAt := Some(now)), d.participants)
    case End(_, now) =>
      && |d.participants| == |c.participants|
      && forall i :: 0 <= i < |c.participants| ==>
           var p, q := c.participants[i], d.participants[i];
           if p.leftAt.None? then q == Participant(p.userId, Left, p.joinedAt, Some(now)) else q == p
    case Join(_, user, now) =>
      if ListsUser(c, user)
      then FirstChanged(c.participants, user, (p: Participant) => Participant(user, Connected, Some(now), None), d.participants)
      else d.participants == c.participants + [Participant(user, Connected, Some(now), None)]
    case _ => d.participants == c.participants
  }

  lemma PeopleChange(s: State, r: Request)
    requires Refusal(s.calls, r) == None && !r.Initiate? && !r.GetActive? && !r.Evict?
    ensures r.id < |Step(s, r).0.calls| && PeopleEffect(s.calls[r.id], r, Step(s, r).0.calls[r.id])
  {
    RefusedIff(s, r);
    var c := s.calls[r.id];
    if !r.End? {
      FirstIs(c.participants, r.user);
      ListsUserIff(c, r.user);
    }
    hide IsFirst, ListsUser, CountPresent, CountPending, ListedReason, Refusal, PresentUsers, UsersOf;
    if r.Leave? {
      AllLeftUnlisted();
    }
  }

  /** What else an accepted request does: to the other calls, to the cache, and in
      its answer. */
  lemma AcceptedChanges(s: State, r: Request)
    requires Refusal(s.calls, r) == None && !r.Initiate? && !r.GetActive? && !r.Evict?
    ensures var (t, reply) := Step(s, r);
      && |t.calls| == |s.calls| && (forall i :: 0 <= i < |s.calls| && i != r.id ==> t.calls[i] == s.calls[i])
      && (reply == if r.Reject? || r.Leave? then Done else Shown(r.id))
      && (r.Answer? || r.Join? ==> t.active == s.active[r.user := r.id])
      && (r.Reject? ==> t.active == s.active)
      && (r.Leave? ==> t.active == s.active - {r.user})
      && (r.End? ==> forall u :: u in t.active <==> u in s.active && !ListsUser(s.calls[r.id], u))
      && (r.End? ==> forall u :: u in t.active ==> t.active[u] == s.active[u])
  {
    RefusedIff(s, r);
    if r.Leave? { AllLeftUnlisted(); }
    hide CountPresent, CountPending, ListedReason, Refusal, PresentUsers, Declining, Joining, Leaving, AllLeft, IndexOf;
  }

  /** A departure that fails still drops the entries of the user and of everybody
      who remains. */
  lemma FailedLeaveDrops(s: State, r: Request)
    requires r.Leave? && r.id < |s.calls| && !TwoRemain(s.calls[r.id].participants, r.user)
    ensures var ps, t := s.calls[r.id].participants, Step(s, r).0;
      && (forall u :: u in t.active <==>
            u in s.active && u != r.user
            && forall i :: 0 <= i < |ps| && Remains(ps, i, r.user) ==> ps[i].userId != u)
      && (forall u :: u in t.active ==> t.active[u] == s.active[u])
  {
    var ps := s.calls[r.id].participants;
    var qs := Leaving(ps, r.user, r.now);
    TwoRemainIff(ps, r.user, r.now);
    FirstIs(ps, r.user);
    AllLeftUnlisted();
    hide CountPresent, ListedReason, TwoRemain;
    assert |qs| == |ps|;
    forall i | 0 <= i < |ps|
      ensures qs[i].userId == ps[i].userId && (qs[i].leftAt.None? <==> Remains(ps, i, r.user))
    {
    }
    forall u ensures u in PresentUsers(qs) <==> exists i :: 0 <= i < |ps| && Remains(ps, i, r.user) && ps[i].userId == u {
      if u in PresentUsers(qs) {
        var p :| p in qs && Present(p) && p.userId == u;
        var i :| 0 <= i < |qs| && qs[i] == p;
        assert Remains(ps, i, r.user);
      }
      if i :| 0 <= i < |ps| && Remains(ps, i, r.user) && ps[i].userId == u {
        assert qs[i] in qs && Present(qs[i]);
      }
    }
  }

  /** A fresh call as the request describes it, ringing for all callees. */
  ghost predicate IsNew(c: Call, r: Request)
    requires r.Initiate?
  {
    && c.initiatorId == r.caller && c.status == Ringing && c.startedAt == r.now
    && (|r.callees| <= 1 ==> c.callType == r.callType)
    && (|r.callees| > 1 ==> c.callType == if r.callType == "video" then "group_video" else "group_audio")
    && |c.participants| == 1 + |r.callees| && c.participants[0] == Participant(r.caller, Connected, Some(r.now), None)
    && (forall i :: 0 <= i < |r.callees| ==> c.participants[1 + i] == Participant(r.callees[i], RingingAt, None, None))
    && c.answeredAt == None && c.endedAt == None && c.duration == 0 && c.endReason == ""
  }

  lemma InitiateChanges(s: State, r: Request)
    requires r.Initiate? && Refusal(s.calls, r) == None
    ensures var (t, reply) := Step(s, r);
      && |t.calls| == |s.calls| + 1 && t.calls[..|s.calls|] == s.calls && IsNew(t.calls[|s.calls|], r)
      && t.active == s.active[r.caller := |s.calls|] && reply == Shown(|s.calls|)
  {
    InitiateRefusedIff(s, r);
    hide Refusal, FindLive, ListedType;
  }

  /** The cached call while it is live, else the first live call that lists the
      user, else none; asking changes nothing. */
  lemma GetActiveAnswer(s: State, user: Id)
    ensures var (t, reply) := Step(s, GetActive(user));
      && t == s
      && (if user in s.active && s.active[user] < |s.calls| && s.calls[s.active[user]].status != Ended
             && s.calls[s.active[user]].status != Declined
          then reply == Shown(s.active[user])
          else if reply.Shown? then
            && reply.id < |s.calls| && s.calls[reply.id].status != Ended && s.calls[reply.id].status != Declined
            && ListsUser(s.calls[reply.id], user)
            && (forall i :: 0 <= i < reply.id && ListsUser(s.calls[i], user) ==>
                  s.calls[i].status == Ended || s.calls[i].status == Declined)
          else
            && reply == NoCall
            && (forall i :: 0 <= i < |s.calls| && ListsUser(s.calls[i], user) ==>
                  s.calls[i].status == Ended || s.calls[i].status == Declined))
  {
    forall i | 0 <= i < |s.calls| ensures ListsUser(s.calls[i], user) <==> Lists(s.calls[i], user) {
      ListsUserIff(s.calls[i], user);
    }
    hide Lists, ListsUser;
  }

  // ----- What a call remembers -----

  /** The request that created the call with this id. */
  ghost function Opening(requests: seq<Request>, id: nat): Option<Request> {
    if requests == [] then None
    else
      var front, last := requests[..|requests| - 1], requests[|requests| - 1];
      if last.Initiate? && Refusal(Run(front).calls, last) == None && |Run(front).calls| == id then Some(last)
      else Opening(front, id)
  }

  /** When somebody whom the call lists answered it while it was ringing. */
  ghost function Answered(requests: seq<Request>, id: nat): Option<nat> {
    if requests == [] then None
    else
      var front, last := requests[..|requests| - 1], requests[|requests| - 1];
      var calls := Run(front).calls;
      if last.Answer? && last.id == id < |calls| && calls[id].status == Ringing && ListsUser(calls[id], last.user)
      then Some(last.now) else Answered(front, id)
  }

  /** When it was last ended. */
  ghost function Completed(requests: seq<Request>, id: nat): Option<nat> {
    if requests == [] then None
    else
      var front, last := requests[..|requests| - 1], requests[|requests| - 1];
      if last.End? && last.id == id < |Run(front).calls| then Some(last.now) else Completed(front, id)
  }

  datatype Ending = Ending(at: nat, reason: string, status: Status)

  /** What made the call terminal last: an end, or a rejection that left nobody
      ringing and gave a reason of the schema, if any. */
  ghost function LastEnding(requests: seq<Request>, id: nat): Option<Ending> {
    if requests == [] then None
    else
      var front, last := requests[..|requests| - 1], requests[|requests| - 1];
      var calls := Run(front).calls;
      if last.End? && last.id == id < |calls| then Some(Ending(last.now, "completed", Ended))
      else if last.Reject? && last.id == id < |calls| && NobodyElseRings(calls[id], last.user)
              && (last.reason == "" || SchemaReason(last.reason))
      then Some(Ending(last.now, if last.reason == "" then "declined" else last.reason, Declined))
      else LastEnding(front, id)
  }

  /** The life of a call, told by the requests that shaped it. */
  ghost predicate Told(c: Call, opening: Option<Request>, answered: Option<nat>, completed: Option<nat>,
                       ending: Option<Ending>)
  {
    && opening.Some? && opening.value.Initiate? && c.startedAt == opening.value.now
    && c.initiatorId == opening.value.caller
    && c.answeredAt == answered
    && c.status == (if ending.Some? then ending.value.status else if answered.Some? then Active else Ringing)
    && c.endedAt == (if ending.Some? then Some(ending.value.at) else None)
    && c.endReason == (if ending.Some? then ending.value.reason else "")
    && c.duration == (if answered.Some? && completed.Some? then (completed.value - answered.value) / 1000 else 0)
    && (completed.Some? ==> ending.Some?)
    && (ending.Some? ==> ending.value.status == Ended || ending.value.status == Declined)
    && (ending.Some? && ending.value.status == Ended ==> completed == Some(ending.value.at))
  }

  /** One step, seen from a call that is there. */
  lemma StepTells(s: State, r: Request, id: nat)
    requires id < |s.calls|
    ensures id < |Step(s, r).0.calls|
    ensures var c, d := s.calls[id], Step(s, r).0.calls[id];
      && d.startedAt == c.startedAt && d.initiatorId == c.initiatorId
      && (if r.Answer? && r.id == id && c.status == Ringing && ListsUser(c, r.user) then
            d.answeredAt == Some(r.now) && d.status == Active
            && d.endedAt == c.endedAt && d.endReason == c.endReason && d.duration == c.duration
          else if r.End? && r.id == id then
            d.answeredAt == c.answeredAt && d.status == Ended && d.endedAt == Some(r.now) && d.endReason == "completed"
            && d.duration == if c.answeredAt.Some? then (r.now - c.answeredAt.value) / 1000 else c.duration
          else if r.Reject? && r.id == id && NobodyElseRings(c, r.user) && (r.reason == "" || SchemaReason(r.reason)) then
            d.answeredAt == c.answeredAt && d.status == Declined && d.endedAt == Some(r.now)
            && d.endReason == (if r.reason == "" then "declined" else r.reason) && d.duration == c.duration
          else
            d.answeredAt == c.answeredAt && d.status == c.status && d.endedAt == c.endedAt
            && d.endReason == c.endReason && d.duration == c.duration)
  {
    var c := s.calls[id];
    if r.Answer? { ListsUserIff(c, r.user); }
    if r.Reject? {
      NobodyElseRingsIff(c, r.user, r.now);
      ReasonsListed(r.reason);
      assert ListedReason("declined");
    }
    if r.Leave? { AllLeftUnlisted(); }
    hide NobodyElseRings, ListsUser, ListedReason, SchemaReason, FindLive, CountPresent, CountPending, Declining, Leaving,
      AllLeft, Joining, PresentUsers, UsersOf, NewCall, ListedType, Lists;
  }

  lemma {:induction false} NothingBefore(requests: seq<Request>, id: nat)
    requires id >= |Run(requests).calls|
    ensures Opening(requests, id) == None && Answered(requests, id) == None
    ensures Completed(requests, id) == None && LastEnding(requests, id) == None
    decreases requests
  {
    hide Step, Refusal, NobodyElseRings, ListsUser, SchemaReason;
    if requests != [] {
      var front, last := requests[..|requests| - 1], requests[|requests| - 1];
      Grows(Run(front), last);
      NothingBefore(front, id);
    }
  }

  /** A step adds a call exactly for an accepted initiation. */
  lemma Grows(s: State, r: Request)
    ensures |Step(s, r).0.calls| == |s.calls| + if r.Initiate? && Refusal(s.calls, r) == None then 1 else 0
  {
    if r.Initiate? { InitiateRefusedIff(s, r); }
    hide Refusal, FindLive, ListedType, CountPresent, CountPending, ListedReason, Declining, Leaving, AllLeft, Joining,
      PresentUsers, UsersOf, NewCall, Lists;
  }

  /** In every run every call is told by its requests: it started when it was
      initiated, was answered by the request that found it ringing and listed its
      user, ended by the last request that ended it, and lasted the whole seconds
      from the answer to its last end. */
  lemma {:induction false} Life(requests: seq<Request>, id: nat)
    requires id < |Run(requests).calls|
    ensures Told(Run(requests).calls[id], Opening(requests, id), Answered(requests, id), Completed(requests, id),
                 LastEnding(requests, id))
    decreases requests
  {
    hide Step, Refusal, NobodyElseRings, ListsUser, SchemaReason, IsNew;
    var front, last := requests[..|requests| - 1], requests[|requests| - 1];
    var s := Run(front);
    Grows(s, last);
    if id < |s.calls| {
      Life(front, id);
      StepTells(s, last, id);
    } else {
      NothingBefore(front, id);
      InitiateChanges(s, last);
      NewIsTold(Run(requests).calls[id], last);
    }
  }

  lemma NewIsTold(c: Call, r: Request)
    requires r.Initiate? && IsNew(c, r)
    ensures Told(c, Some(r), None, None, None)
  {
  }
}
