/** What the conversation handlers may answer and change, stated on documents and
    requests alone, and that the handlers of Conversations.dfy do just that. */
module ConversationRules {
  import opened Sequences
  import opened Wrappers
  import opened Conversations

  // ----- Views -----

  /** `dto` shows the document `c` with this id. */
  ghost predicate Shows(dto: Dto, id: nat, c: Conversation) {
    && dto.id == id && dto.kind == c.kind && (dto.isGroup <==> c.kind == Group || c.kind == Channel)
    && dto.name == c.name && dto.description == c.description && dto.avatarUrl == c.avatarUrl
    && dto.participants == c.participants && dto.admins == c.admins && dto.createdBy == c.createdBy
    && dto.settings == c.settings && dto.lastMessage == c.lastMessage && dto.messageCount == c.messageCount
  }

  ghost predicate TakesPart(c: Conversation, user: Id) {
    exists i :: 0 <= i < |c.participants| && c.participants[i].userId == user
  }

  lemma TakesPartIff(c: Conversation, user: Id)
    ensures TakesPart(c, user) <==> IsParticipant(c.participants, user)
  {
    var i := IndexOf(c.participants, user);
    if i < |c.participants| { assert c.participants[i].userId == user; }
  }

  // ----- Who may read -----

  /** In every run, whatever was evicted: absent and deleted conversations are not
      found, the others are shown to those who take part and to nobody else. */
  lemma GetAnswer(requests: seq<Request>, id: nat, user: Id)
    ensures var docs, reply := Run(requests).docs, Step(Run(requests), Get(id, user)).1;
      && (reply == Error(NotFound) <==> id >= |docs| || docs[id].deletedAt.Some?)
      && (reply.Found? <==> (id < |docs| && docs[id].deletedAt.None?
            && exists i :: 0 <= i < |docs[id].participants| && docs[id].participants[i].userId == user))
      && (reply.Found? ==> Shows(reply.dto, id, docs[id]))
      && (!reply.Found? && reply != Error(NotFound) ==> reply == Error(Forbidden))
  {
    RunCoherent(requests);
    var s := Run(requests);
    hide Run;
    GetCoherent(s, id, user);
    if id < |s.docs| { TakesPartIff(s.docs[id], user); }
  }

  /** A successful read fills the cache with what it shows; no read changes any
      document or any other entry. */
  lemma GetFills(requests: seq<Request>, id: nat, user: Id)
    ensures var s := Run(requests);
      var (t, reply) := Step(s, Get(id, user));
      && t.docs == s.docs
      && t.cache == if reply.Found? then s.cache[id := reply.dto] else s.cache
  {
    RunCoherent(requests);
    var s := Run(requests);
    hide Run;
    if id in s.cache { assert s.cache[id := s.cache[id]] == s.cache; }
  }

  // ----- Who may change what -----

  /** The requests that change a document that is there. */
  predicate Addresses(r: Request) {
    !r.Create? && !r.Get? && !r.GetOrCreateDirect? && !r.Evict?
  }

  /** The error a request must be answered with, if any. */
  ghost function Refusal(docs: seq<Conversation>, r: Request): Option<ErrorCode>
    requires Addresses(r)
  {
    if r.id >= |docs| then Some(NotFound)
    else
      var c := docs[r.id];
      if c.deletedAt.Some? && !r.Delete? && !r.Mute? && !r.Unmute? && !r.UpdateLastMessage? then Some(NotFound)
      else if r.Update? then
        if (c.kind == Group || c.kind == Channel) && r.user !in c.admins then Some(Forbidden) else None
      else if r.Delete? then
        if c.kind == Group && r.user != c.createdBy then Some(Forbidden) else None
      else if r.AddParticipant? then
        if c.kind == Direct then Some(ValidationError) else if TakesPart(c, r.user) then Some(AlreadyExists) else None
      else if r.RemoveParticipant? then
        if c.kind == Direct then Some(ValidationError)
        else if r.actor != r.user && r.actor !in c.admins then Some(Forbidden)
        else None
      else if r.MakeAdmin? then
        if r.actor !in c.admins then Some(Forbidden) else if !TakesPart(c, r.user) then Some(NotFound) else None
      else if r.RemoveAdmin? then
        if r.actor != c.createdBy then Some(Forbidden) else None
      else if r.Mute? || r.Unmute? then
        if TakesPart(c, r.user) then None else Some(NotFound)
      else None
  }

  ghost predicate SameTexts(c: Conversation, d: Conversation) {
    d.name == c.name && d.description == c.description && d.avatarUrl == c.avatarUrl
  }

  ghost predicate SamePeople(c: Conversation, d: Conversation) {
    d.participants == c.participants && d.admins == c.admins
  }

  ghost predicate SameMessages(c: Conversation, d: Conversation) {
    d.lastMessage == c.lastMessage && d.messageCount == c.messageCount
  }

  ghost predicate SameRest(c: Conversation, d: Conversation) {
    d.kind == c.kind && d.createdBy == c.createdBy
  }

  ghost predicate Given<T>(given: Option<T>, was: T, now: T) {
    if given.Some? then now == given.value else now == was
  }

  ghost predicate MergedSettings(was: Settings, patch: SettingsPatch, now: Settings) {
    && Given(patch.muteNotifications, was.muteNotifications, now.muteNotifications)
    && Given(patch.isArchived, was.isArchived, now.isArchived)
    && Given(patch.isPinned, was.isPinned, now.isPinned)
    && Given(patch.disappearingMessagesTime, was.disappearingMessagesTime, now.disappearingMessagesTime)
    && Given(patch.allowReactions, was.allowReactions, now.allowReactions)
    && Given(patch.allowReplies, was.allowReplies, now.allowReplies)
  }

  ghost predicate IsFirst(ps: seq<Participant>, i: nat, user: Id)
    requires i < |ps|
  {
    ps[i].userId == user && forall k :: 0 <= k < i ==> ps[k].userId != user
  }

  /** Only the first entry of the user may differ, and is what `change` makes of it. */
  ghost predicate FirstChanged(was: seq<Participant>, user: Id, change: Participant -> Participant, now: seq<Participant>) {
    |now| == |was| && forall i :: 0 <= i < |was| ==> now[i] == if IsFirst(was, i, user) then change(was[i]) else was[i]
  }

  /** What an accepted request makes of its document. */
  ghost predicate Effect(c: Conversation, r: Request, d: Conversation)
    requires Addresses(r)
  {
    && SameRest(c, d)
    && (if r.Delete? then d.deletedAt == Some(r.now) else d.deletedAt == c.deletedAt)
    && (if r.Update? then
          && Given(r.newName, c.name, d.name) && Given(r.newDescription, c.description, d.description)
          && (if r.newAvatarUrl.Some? then d.avatarUrl == r.newAvatarUrl else d.avatarUrl == c.avatarUrl)
          && (if r.patch.Some? then MergedSettings(c.settings, r.patch.value, d.settings) else d.settings == c.settings)
        else
          && SameTexts(c, d)
          && d.settings == if r.SetArchived? then c.settings.(isArchived := r.archived) else c.settings)
    && (if r.UpdateLastMessage? then
          && d.messageCount == c.messageCount + 1 && d.lastMessage.Some?
          && d.lastMessage.value.id == r.messageId && d.lastMessage.value.at == r.timestamp
          && d.lastMessage.value.preview <= r.preview
          && |d.lastMessage.value.preview| == if |r.preview| < 100 then |r.preview| else 100
        else SameMessages(c, d))
    && PeopleEffect(c, r, d)
  }

  ghost predicate PeopleEffect(c: Conversation, r: Request, d: Conversation)
    requires Addresses(r)
  {
    match r
    case AddParticipant(_, user, now) =>
      d.admins == c.admins && d.participants == c.participants + [Participant(user, false, now, false, None)]
    case RemoveParticipant(_, user, _) =>
      && Filtered(c.participants, (p: Participant) => p.userId == user, d.participants)
      && Filtered(c.admins, (a: Id) => a == user, d.admins)
    case MakeAdmin(_, user, _) =>
      if user in c.admins then SamePeople(c, d)
      else
        && d.admins == c.admins + [user]
        && FirstChanged(c.participants, user, (p: Participant) => p.(isAdmin := true), d.participants)
    case RemoveAdmin(_, user, _) =>
      && Filtered(c.admins, (a: Id) => a == user, d.admins)
      && FirstChanged(c.participants, user, (p: Participant) => p.(isAdmin := false), d.participants)
    case Mute(_, user, until) =>
      && d.admins == c.admins
      && FirstChanged(c.participants, user, (p: Participant) => p.(isMuted := true, mutedUntil := until), d.participants)
    case Unmute(_, user) =>
      && d.admins == c.admins
      && FirstChanged(c.participants, user, (p: Participant) => p.(isMuted := false, mutedUntil := None), d.participants)
    case _ => SamePeople(c, d)
  }

  lemma {:induction false} WithoutUserFiltered(ps: seq<Participant>, user: Id)
    ensures Filtered(ps, (p: Participant) => p.userId == user, WithoutUser(ps, user))
    decreases ps
  {
    hide Filtered;
    if ps == [] {
      NothingFiltered<Participant>((p: Participant) => p.userId == user);
    } else {
      var front, last := ps[..|ps| - 1], ps[|ps| - 1];
      WithoutUserFiltered(front, user);
      FilteredSnoc(front, last, (p: Participant) => p.userId == user, WithoutUser(front, user));
      assert ps == front + [last];
      assert WithoutUser(front, user) + [] == WithoutUser(front, user);
    }
  }

  lemma {:induction false} WithoutIdFiltered(ids: seq<Id>, user: Id)
    ensures Filtered(ids, (a: Id) => a == user, WithoutId(ids, user))
    decreases ids
  {
    hide Filtered;
    if ids == [] {
      NothingFiltered<Id>((a: Id) => a == user);
    } else {
      var front, last := ids[..|ids| - 1], ids[|ids| - 1];
      WithoutIdFiltered(front, user);
      FilteredSnoc(front, last, (a: Id) => a == user, WithoutId(front, user));
      assert ids == front + [last];
      assert WithoutId(front, user) + [] == WithoutId(front, user);
    }
  }

  lemma FirstIs(ps: seq<Participant>, user: Id, i: nat)
    requires i < |ps|
    ensures IsFirst(ps, i, user) <==> i == IndexOf(ps, user)
  {
  }

  lemma RoleChangesFirst(ps: seq<Participant>, user: Id, isAdmin: bool)
    ensures FirstChanged(ps, user, (p: Participant) => p.(isAdmin := isAdmin), WithRole(ps, user, isAdmin))
  {
    forall i | 0 <= i < |ps| ensures IsFirst(ps, i, user) <==> i == IndexOf(ps, user) { FirstIs(ps, user, i); }
  }

  lemma MuteChangesFirst(ps: seq<Participant>, user: Id, isMuted: bool, until: Option<nat>)
    ensures FirstChanged(ps, user, (p: Participant) => p.(isMuted := isMuted, mutedUntil := until),
                         WithMute(ps, user, isMuted, until))
  {
    forall i | 0 <= i < |ps| ensures IsFirst(ps, i, user) <==> i == IndexOf(ps, user) { FirstIs(ps, user, i); }
  }

  lemma PeopleChange(s: State, r: Request)
    requires Addresses(r) && Refusal(s.docs, r) == None
    ensures r.id < |Step(s, r).0.docs| && PeopleEffect(s.docs[r.id], r, Step(s, r).0.docs[r.id])
  {
    var c := s.docs[r.id];
    if r.MakeAdmin? || r.Mute? || r.Unmute? || r.AddParticipant? { TakesPartIff(c, r.user); }
    hide Filtered, FirstChanged, TakesPart, ToDto, Truncate, Merge;
    match r
    case RemoveParticipant(_, user, _) =>
      WithoutUserFiltered(c.participants, user);
      WithoutIdFiltered(c.admins, user);
    case MakeAdmin(_, user, _) => RoleChangesFirst(c.participants, user, true);
    case RemoveAdmin(_, user, _) =>
      WithoutIdFiltered(c.admins, user);
      RoleChangesFirst(c.participants, user, false);
    case Mute(_, user, until) => MuteChangesFirst(c.participants, user, true, until);
    case Unmute(_, user) => MuteChangesFirst(c.participants, user, false, None);
    case _ =>
  }

  /** A request is answered with an error exactly if the rules refuse it, and then
      changes nothing. */
  lemma RefusedIff(s: State, r: Request)
    requires Addresses(r)
    ensures forall code :: Step(s, r).1 == Error(code) <==> Refusal(s.docs, r) == Some(code)
    ensures Refusal(s.docs, r).Some? ==> Step(s, r).0 == s
  {
    if r.id < |s.docs| && (r.MakeAdmin? || r.Mute? || r.Unmute? || r.AddParticipant?) {
      TakesPartIff(s.docs[r.id], r.user);
    }
    hide TakesPart, WithRole, WithMute, WithoutUser, WithoutId, Truncate, Merge, ToDto;
  }

  lemma UpdateEffect(c: Conversation, r: Request)
    requires r.Update?
    ensures Effect(c, r, Updated(c, r))
  {
  }

  lemma OwnEffect(s: State, r: Request)
    requires Addresses(r) && Refusal(s.docs, r) == None
    ensures |Step(s, r).0.docs| == |s.docs| && Effect(s.docs[r.id], r, Step(s, r).0.docs[r.id])
  {
    PeopleChange(s, r);
    if r.MakeAdmin? || r.Mute? || r.Unmute? || r.AddParticipant? { TakesPartIff(s.docs[r.id], r.user); }
    if r.Update? {
      UpdateEffect(s.docs[r.id], r);
      hide Effect, Updated, TakesPart;
    } else {
      hide PeopleEffect, TakesPart, WithRole, WithMute, WithoutUser, WithoutId, MergedSettings, Merge, ToDto, IsFirst;
    }
  }

  /** An accepted request changes its own document, as the rules say, and drops its
      cache entry; it touches nothing else, and shows what it stored. */
  lemma AcceptedChanges(s: State, r: Request)
    requires Addresses(r) && Refusal(s.docs, r) == None
    ensures var (t, reply) := Step(s, r);
      && |t.docs| == |s.docs| && Effect(s.docs[r.id], r, t.docs[r.id])
      && (forall i :: 0 <= i < |s.docs| && i != r.id ==> t.docs[i] == s.docs[i])
      && t.cache == s.cache - {r.id}
      && (if r.Delete? || r.Mute? || r.Unmute? || r.SetArchived? then reply == Done
          else reply.Found? && Shows(reply.dto, r.id, t.docs[r.id]))
  {
    OwnEffect(s, r);
    if r.MakeAdmin? || r.Mute? || r.Unmute? || r.AddParticipant? { TakesPartIff(s.docs[r.id], r.user); }
    hide Effect, TakesPart, WithRole, WithMute, WithoutUser, WithoutId, Updated, Truncate;
  }

  // ----- Creation -----

  /** A direct conversation that is not deleted, of two entries, `a` and `b`. */
  ghost predicate IsPair(c: Conversation, a: Id, b: Id) {
    c.kind == Direct && c.deletedAt.None? && |c.participants| == 2 && TakesPart(c, a) && TakesPart(c, b)
  }

  /** A fresh document as the request describes it. */
  ghost predicate IsNew(c: Conversation, r: Request)
    requires r.Create?
  {
    && c.kind == r.kind && c.name == r.name && c.description == r.description && c.avatarUrl == r.avatarUrl
    && |c.participants| == |r.members|
    && (forall i :: 0 <= i < |r.members| ==>
          c.participants[i] == Participant(r.members[i], r.kind == Group && i == 0, r.now, false, None))
    && c.createdBy == (if r.members == [] then r.spare else r.members[0])
    && c.admins == (if r.kind == Group then [c.createdBy] else [])
    && !c.settings.muteNotifications && !c.settings.isArchived && !c.settings.isPinned
    && c.settings.disappearingMessagesTime == 0 && c.settings.allowReactions && c.settings.allowReplies
    && c.lastMessage == None && c.messageCount == 0 && c.deletedAt == None
  }

  lemma CreateAnswer(s: State, r: Request)
    requires r.Create?
    ensures var (t, reply) := Step(s, r);
      var isPair := r.kind == Direct && |r.members| == 2;
      if isPair && exists i :: 0 <= i < |s.docs| && IsPair(s.docs[i], r.members[0], r.members[1]) then
        && t == s && reply.Found? && reply.dto.id < |s.docs|
        && IsPair(s.docs[reply.dto.id], r.members[0], r.members[1]) && Shows(reply.dto, reply.dto.id, s.docs[reply.dto.id])
        && (forall i :: 0 <= i < reply.dto.id ==> !IsPair(s.docs[i], r.members[0], r.members[1]))
      else if r.kind == Unlisted then t == s && reply == Error(InternalError)
      else
        && |t.docs| == |s.docs| + 1 && t.docs[..|s.docs|] == s.docs && t.cache == s.cache
        && IsNew(t.docs[|s.docs|], r) && reply.Found? && Shows(reply.dto, |s.docs|, t.docs[|s.docs|])
  {
    if r.kind == Direct && |r.members| == 2 {
      forall i | 0 <= i < |s.docs|
        ensures IsPair(s.docs[i], r.members[0], r.members[1]) <==> IsDirectBetween(s.docs[i], r.members[0], r.members[1])
      {
        TakesPartIff(s.docs[i], r.members[0]);
        TakesPartIff(s.docs[i], r.members[1]);
      }
    }
    hide IsPair, IsDirectBetween;
  }

  /** Whatever the order and the history, two different users get a direct
      conversation that is not deleted and is of them alone. */
  lemma DirectAnswer(s: State, a: Id, b: Id, now: nat, spare: Id)
    requires a != b
    ensures var (t, reply) := Step(s, GetOrCreateDirect(a, b, now, spare));
      && reply.Found? && reply.dto.id < |t.docs|
      && IsPair(t.docs[reply.dto.id], a, b) && Shows(reply.dto, reply.dto.id, t.docs[reply.dto.id])
  {
    var x, y := if a <= b then a else b, if a <= b then b else a;
    var r := Create(Direct, "", "", None, [x, y], now, spare);
    CreateAnswer(s, r);
    var (t, reply) := Step(s, r);
    assert Step(s, GetOrCreateDirect(a, b, now, spare)) == (t, reply);
    if t != s {
      var c := t.docs[|s.docs|];
      assert c.participants[0].userId == x && c.participants[1].userId == y;
    }
  }

  // ----- What a document remembers -----

  /** The messages announced to a conversation since it was created. */
  ghost function Announced(requests: seq<Request>, id: nat): nat {
    if requests == [] then 0
    else
      var front, last := requests[..|requests| - 1], requests[|requests| - 1];
      Announced(front, id) + if last.UpdateLastMessage? && last.id == id && id < |Run(front).docs| then 1 else 0
  }

  /** When it was last deleted, by somebody who may. */
  ghost function DeletedAt(requests: seq<Request>, id: nat): Option<nat> {
    if requests == [] then None
    else
      var front, last := requests[..|requests| - 1], requests[|requests| - 1];
      if last.Delete? && last.id == id && id < |Run(front).docs|
         && (Run(front).docs[id].kind == Group ==> last.user == Run(front).docs[id].createdBy)
      then Some(last.now) else DeletedAt(front, id)
  }

  lemma {:induction false} NothingBefore(requests: seq<Request>, id: nat)
    requires id >= |Run(requests).docs|
    ensures Announced(requests, id) == 0 && DeletedAt(requests, id) == None
    decreases requests
  {
    hide Step;
    if requests != [] {
      var front, last := requests[..|requests| - 1], requests[|requests| - 1];
      NeverFewer(Run(front), last);
      NothingBefore(front, id);
    }
  }

  lemma NeverFewer(s: State, r: Request)
    ensures |s.docs| <= |Step(s, r).0.docs| <= |s.docs| + 1
  {
    if Addresses(r) {
      if Refusal(s.docs, r) == None { AcceptedChanges(s, r); } else { RefusedIff(s, r); }
    }
    hide Effect, Shows;
  }

  /** One step, seen from a document that is there or comes to be. */
  lemma StepRemembers(s: State, r: Request, id: nat)
    requires id < |Step(s, r).0.docs|
    ensures var d := Step(s, r).0.docs[id];
      if id >= |s.docs| then d.messageCount == 0 && d.deletedAt == None
      else
        && d.messageCount == s.docs[id].messageCount + (if r.UpdateLastMessage? && r.id == id then 1 else 0)
        && d.deletedAt == if r.Delete? && r.id == id && (s.docs[id].kind == Group ==> r.user == s.docs[id].createdBy)
                          then Some(r.now) else s.docs[id].deletedAt
  {
    if Addresses(r) {
      if Refusal(s.docs, r) == None { AcceptedChanges(s, r); } else { RefusedIff(s, r); }
    } else if r.Create? {
      CreateAnswer(s, r);
      assert id < |s.docs| ==> Step(s, r).0.docs[id] == s.docs[id];
    } else if r.GetOrCreateDirect? {
      var a, b := if r.user1 <= r.user2 then r.user1 else r.user2, if r.user1 <= r.user2 then r.user2 else r.user1;
      var create := Create(Direct, "", "", None, [a, b], r.now, r.spare);
      CreateAnswer(s, create);
      assert Step(s, r) == Step(s, create);
      assert id < |s.docs| ==> Step(s, r).0.docs[id] == s.docs[id];
    }
  }

  /** In every run a conversation counts the messages announced to it since its
      creation, and is deleted exactly if somebody who may has deleted it. */
  lemma {:induction false} Remembers(requests: seq<Request>, id: nat)
    requires id < |Run(requests).docs|
    ensures Run(requests).docs[id].messageCount == Announced(requests, id)
    ensures Run(requests).docs[id].deletedAt == DeletedAt(requests, id)
    decreases requests
  {
    hide Step;
    var front, last := requests[..|requests| - 1], requests[|requests| - 1];
    StepRemembers(Run(front), last, id);
    if id < |Run(front).docs| { Remembers(front, id); } else { NothingBefore(front, id); }
  }
}
