/** Conversation documents and their cache, as the handlers of
    src/microservices/conversations-service/conversations-service.handler.ts
    change them, one handler call at a time. */
module Conversations {
  import opened Sequences
  import opened Wrappers

  /** Users and messages; ids sort as the hexadecimal strings they stand for. */
  type Id = nat

  /** The four types of the document schema, and any other a caller may state. */
  datatype Kind = Direct | Group | Channel | Broadcast | Unlisted

  datatype Participant = Participant(userId: Id, isAdmin: bool, joinedAt: nat, isMuted: bool, mutedUntil: Option<nat>)

  datatype Settings = Settings(muteNotifications: bool, isArchived: bool, isPinned: bool,
                               disappearingMessagesTime: nat, allowReactions: bool, allowReplies: bool)

  datatype SettingsPatch = SettingsPatch(muteNotifications: Option<bool>, isArchived: Option<bool>, isPinned: Option<bool>,
                                         disappearingMessagesTime: Option<nat>, allowReactions: Option<bool>,
                                         allowReplies: Option<bool>)

  datatype LastMessage = LastMessage(id: Id, at: nat, preview: string)

  datatype Conversation = Conversation(
    kind: Kind, name: string, description: string, avatarUrl: Option<string>,
    participants: seq<Participant>, admins: seq<Id>, createdBy: Id, settings: Settings,
    lastMessage: Option<LastMessage>, messageCount: nat, deletedAt: Option<nat>)
  {
    predicate IsDeleted() { deletedAt.Some? }
  }

  /** What clients see, and what is cached. */
  datatype Dto = Dto(id: nat, kind: Kind, isGroup: bool, name: string, description: string, avatarUrl: Option<string>,
                     participants: seq<Participant>, admins: seq<Id>, createdBy: Id, settings: Settings,
                     lastMessage: Option<LastMessage>, messageCount: nat)

  function ToDto(id: nat, c: Conversation): Dto {
    Dto(id, c.kind, c.kind == Group || c.kind == Channel, c.name, c.description, c.avatarUrl,
        c.participants, c.admins, c.createdBy, c.settings, c.lastMessage, c.messageCount)
  }

  /** `InternalError` is the answer when a save fails. */
  datatype ErrorCode = NotFound | Forbidden | ValidationError | AlreadyExists | InternalError

  datatype Reply = Found(dto: Dto) | Done | Error(code: ErrorCode)

  /** Documents are never removed; a document's id is its place in the store.
      `cache` holds the `conv:` entries. */
  datatype State = State(docs: seq<Conversation>, cache: map<nat, Dto>)

  /** One handler call, with the clock and the generated ids it uses; `Evict` is
      the cache dropping an entry on its own. */
  datatype Request =
    | Create(kind: Kind, name: string, description: string, avatarUrl: Option<string>, members: seq<Id>, now: nat, spare: Id)
    | Get(id: nat, user: Id)
    | Update(id: nat, user: Id, newName: Option<string>, newDescription: Option<string>, newAvatarUrl: Option<string>,
             patch: Option<SettingsPatch>)
    | Delete(id: nat, user: Id, now: nat)
    | GetOrCreateDirect(user1: Id, user2: Id, now: nat, spare: Id)
    | AddParticipant(id: nat, user: Id, now: nat)
    | RemoveParticipant(id: nat, user: Id, actor: Id)
    | MakeAdmin(id: nat, user: Id, actor: Id)
    | RemoveAdmin(id: nat, user: Id, actor: Id)
    | Mute(id: nat, user: Id, until: Option<nat>)
    | Unmute(id: nat, user: Id)
    | SetArchived(id: nat, archived: bool)
    | UpdateLastMessage(id: nat, messageId: Id, preview: string, timestamp: nat)
    | Evict(id: nat)

  // ----- Participants and admins -----

  function IdsOf(ps: seq<Participant>): (ids: seq<Id>)
    ensures |ids| == |ps|
  {
    seq(|ps|, i requires 0 <= i < |ps| => ps[i].userId)
  }

  /** The first participant with this id, or the length when there is none. */
  function IndexOf(ps: seq<Participant>, user: Id): (i: nat)
    ensures i <= |ps|
    ensures i < |ps| ==> ps[i].userId == user
    ensures forall k :: 0 <= k < i ==> ps[k].userId != user
  {
    assert forall k :: 0 <= k < |ps| ==> IdsOf(ps)[k] == ps[k].userId;
    IndexIn(IdsOf(ps), user)
  }

  predicate IsParticipant(ps: seq<Participant>, user: Id) {
    IndexOf(ps, user) < |ps|
  }

  function WithoutUser(ps: seq<Participant>, user: Id): seq<Participant> {
    if ps == [] then []
    else WithoutUser(ps[..|ps| - 1], user) + if ps[|ps| - 1].userId == user then [] else [ps[|ps| - 1]]
  }

  function WithoutId(ids: seq<Id>, user: Id): seq<Id> {
    if ids == [] then []
    else WithoutId(ids[..|ids| - 1], user) + if ids[|ids| - 1] == user then [] else [ids[|ids| - 1]]
  }

  /** Changes the first participant with this id, if there is one. */
  function WithRole(ps: seq<Participant>, user: Id, isAdmin: bool): seq<Participant> {
    var i := IndexOf(ps, user);
    if i < |ps| then ps[i := ps[i].(isAdmin := isAdmin)] else ps
  }

  function WithMute(ps: seq<Participant>, user: Id, isMuted: bool, until: Option<nat>): seq<Participant> {
    var i := IndexOf(ps, user);
    if i < |ps| then ps[i := ps[i].(isMuted := isMuted, mutedUntil := until)] else ps
  }

  function OrElse<T>(o: Option<T>, default: T): T { if o.Some? then o.value else default }

  function Merge(s: Settings, p: SettingsPatch): Settings {
    Settings(OrElse(p.muteNotifications, s.muteNotifications), OrElse(p.isArchived, s.isArchived),
             OrElse(p.isPinned, s.isPinned), OrElse(p.disappearingMessagesTime, s.disappearingMessagesTime),
             OrElse(p.allowReactions, s.allowReactions), OrElse(p.allowReplies, s.allowReplies))
  }

  // ----- The store -----

  function Live(s: State, id: nat): Option<Conversation> {
    if id < |s.docs| && !s.docs[id].IsDeleted() then Some(s.docs[id]) else None
  }

  /** `save()` followed by dropping the cache entry. */
  function Save(s: State, id: nat, c: Conversation): State
    requires id < |s.docs|
  {
    State(s.docs[id := c], s.cache - {id})
  }

  function Saved(s: State, id: nat, c: Conversation): (State, Reply)
    requires id < |s.docs|
  {
    (Save(s, id, c), Found(ToDto(id, c)))
  }

  /** The query of `findDirectConversation`. */
  predicate IsDirectBetween(c: Conversation, a: Id, b: Id) {
    c.kind == Direct && !c.IsDeleted() && |c.participants| == 2
    && IsParticipant(c.participants, a) && IsParticipant(c.participants, b)
  }

  function FindDirect(docs: seq<Conversation>, a: Id, b: Id): (i: nat)
    ensures i <= |docs|
    ensures i < |docs| ==> IsDirectBetween(docs[i], a, b)
    ensures forall k :: 0 <= k < i ==> !IsDirectBetween(docs[k], a, b)
  {
    if docs == [] || IsDirectBetween(docs[0], a, b) then 0 else 1 + FindDirect(docs[1..], a, b)
  }

  const DEFAULT_SETTINGS := Settings(false, false, false, 0, true, true)

  function NewParticipants(kind: Kind, members: seq<Id>, now: nat): seq<Participant> {
    seq(|members|, i requires 0 <= i < |members| => Participant(members[i], kind == Group && i == 0, now, false, None))
  }

  /** `spare` is the id that is generated when there is no first participant. */
  function NewConversation(kind: Kind, name: string, description: string, avatarUrl: Option<string>,
                           members: seq<Id>, now: nat, spare: Id): Conversation
  {
    var creator := if members == [] then spare else members[0];
    Conversation(kind, name, description, avatarUrl, NewParticipants(kind, members, now),
                 if kind == Group then [creator] else [], creator, DEFAULT_SETTINGS, None, 0, None)
  }

  function Append(s: State, c: Conversation): (State, Reply) {
    (s.(docs := s.docs + [c]), Found(ToDto(|s.docs|, c)))
  }

  function CreateStep(s: State, r: Request): (State, Reply)
    requires r.Create?
  {
    var i := if r.kind == Direct && |r.members| == 2 then FindDirect(s.docs, r.members[0], r.members[1]) else |s.docs|;
    if i < |s.docs| then (s, Found(ToDto(i, s.docs[i])))
    else if r.kind == Unlisted then (s, Error(InternalError))
    else Append(s, NewConversation(r.kind, r.name, r.description, r.avatarUrl, r.members, r.now, r.spare))
  }

  // ----- The handlers -----

  /** `getConversation` on the documents alone. */
  function GetUncached(s: State, id: nat, user: Id): Reply {
    match Live(s, id)
    case None => Error(NotFound)
    case Some(c) => if IsParticipant(c.participants, user) then Found(ToDto(id, c)) else Error(Forbidden)
  }

  function GetStep(s: State, id: nat, user: Id): (State, Reply) {
    if id in s.cache then
      (s, if IsParticipant(s.cache[id].participants, user) then Found(s.cache[id]) else Error(Forbidden))
    else
      var reply := GetUncached(s, id, user);
      (if reply.Found? then s.(cache := s.cache[id := reply.dto]) else s, reply)
  }

  function Updated(c: Conversation, r: Request): Conversation
    requires r.Update?
  {
    c.(name := OrElse(r.newName, c.name), description := OrElse(r.newDescription, c.description),
       avatarUrl := if r.newAvatarUrl.Some? then r.newAvatarUrl else c.avatarUrl,
       settings := if r.patch.Some? then Merge(c.settings, r.patch.value) else c.settings)
  }

  /** Direct and broadcast conversations are updated by anybody. */
  predicate NeedsAdmin(c: Conversation) { c.kind == Group || c.kind == Channel }

  function Truncate(preview: string): string { if |preview| <= 100 then preview else preview[..100] }

  function Step(s: State, r: Request): (State, Reply) {
    match r
    case Create(_, _, _, _, _, _, _) => CreateStep(s, r)
    case Get(id, user) => GetStep(s, id, user)
    case Update(id, user, _, _, _, _) =>
      (match Live(s, id)
       case None => (s, Error(NotFound))
       case Some(c) => if NeedsAdmin(c) && user !in c.admins then (s, Error(Forbidden)) else Saved(s, id, Updated(c, r)))
    case Delete(id, user, now) =>
      if id >= |s.docs| then (s, Error(NotFound))
      else if s.docs[id].kind == Group && s.docs[id].createdBy != user then (s, Error(Forbidden))
      else (Save(s, id, s.docs[id].(deletedAt := Some(now))), Done)
    case GetOrCreateDirect(user1, user2, now, spare) =>
      var a, b := if user1 <= user2 then user1 else user2, if user1 <= user2 then user2 else user1;
      CreateStep(s, Create(Direct, "", "", None, [a, b], now, spare))
    case AddParticipant(id, user, now) =>
      (match Live(s, id)
       case None => (s, Error(NotFound))
       case Some(c) =>
         if c.kind == Direct then (s, Error(ValidationError))
         else if IsParticipant(c.participants, user) then (s, Error(AlreadyExists))
         else Saved(s, id, c.(participants := c.participants + [Participant(user, false, now, false, None)])))
    case RemoveParticipant(id, user, actor) =>
      (match Live(s, id)
       case None => (s, Error(NotFound))
       case Some(c) =>
         if c.kind == Direct then (s, Error(ValidationError))
         else if user != actor && actor !in c.admins then (s, Error(Forbidden))
         else Saved(s, id, c.(participants := WithoutUser(c.participants, user), admins := WithoutId(c.admins, user))))
    case MakeAdmin(id, user, actor) =>
      (match Live(s, id)
       case None => (s, Error(NotFound))
       case Some(c) =>
         if actor !in c.admins then (s, Error(Forbidden))
         else if !IsParticipant(c.participants, user) then (s, Error(NotFound))
         else if user in c.admins then Saved(s, id, c)
         else Saved(s, id, c.(admins := c.admins + [user], participants := WithRole(c.participants, user, true))))
    case RemoveAdmin(id, user, actor) =>
      (match Live(s, id)
       case None => (s, Error(NotFound))
       case Some(c) =>
         if c.createdBy != actor then (s, Error(Forbidden))
         else Saved(s, id, c.(admins := WithoutId(c.admins, user), participants := WithRole(c.participants, user, false))))
    case Mute(id, user, until) => MuteStep(s, id, user, true, until)
    case Unmute(id, user) => MuteStep(s, id, user, false, None)
    case SetArchived(id, archived) =>
      (match Live(s, id)
       case None => (s, Error(NotFound))
       case Some(c) => (Save(s, id, c.(settings := c.settings.(isArchived := archived))), Done))
    case UpdateLastMessage(id, messageId, preview, timestamp) =>
      if id >= |s.docs| then (s, Error(NotFound))
      else
        var c := s.docs[id];
        Saved(s, id, c.(lastMessage := Some(LastMessage(messageId, timestamp, Truncate(preview))),
                        messageCount := c.messageCount + 1))
    case Evict(id) => (s.(cache := s.cache - {id}), Done)
  }

  /** Muting is an update by query, which also reaches deleted conversations. */
  function MuteStep(s: State, id: nat, user: Id, isMuted: bool, until: Option<nat>): (State, Reply) {
    if id >= |s.docs| || !IsParticipant(s.docs[id].participants, user) then (s, Error(NotFound))
    else (Save(s, id, s.docs[id].(participants := WithMute(s.docs[id].participants, user, isMuted, until))), Done)
  }

  const INITIAL := State([], map[])

  function Run(requests: seq<Request>): State {
    if requests == [] then INITIAL else Step(Run(requests[..|requests| - 1]), requests[|requests| - 1]).0
  }

  lemma RunSnoc(requests: seq<Request>, r: Request)
    ensures Run(requests + [r]) == Step(Run(requests), r).0
  {
    assert (requests + [r])[..|requests|] == requests;
  }

  function Replies(requests: seq<Request>): seq<Reply> {
    if requests == [] then []
    else Replies(requests[..|requests| - 1]) + [Step(Run(requests[..|requests| - 1]), requests[|requests| - 1]).1]
  }

  // ----- The cache is invisible -----

  /** A cached entry is the view of a stored, non-deleted document. */
  ghost predicate Coherent(s: State) {
    forall id :: id in s.cache ==>
      id < |s.docs| && !s.docs[id].IsDeleted() && s.cache[id] == ToDto(id, s.docs[id])
  }

  lemma SaveCoherent(s: State, id: nat, c: Conversation)
    requires Coherent(s) && id < |s.docs|
    ensures Coherent(Save(s, id, c))
  {
  }

  lemma CreateCoherent(s: State, r: Request)
    requires Coherent(s) && r.Create?
    ensures Coherent(CreateStep(s, r).0)
  {
  }

  lemma GetCoherent(s: State, id: nat, user: Id)
    requires Coherent(s)
    ensures Coherent(GetStep(s, id, user).0)
    ensures GetStep(s, id, user).1 == GetUncached(s, id, user)
  {
  }

  /** Every handler keeps the cache coherent, whatever else it changes. */
  lemma StepCoherent(s: State, r: Request)
    requires Coherent(s)
    ensures Coherent(Step(s, r).0)
  {
    hide Coherent, CreateStep, GetStep, Save;
    forall id: nat, c | id < |s.docs| ensures Coherent(Save(s, id, c)) {
      SaveCoherent(s, id, c);
    }
    match r
    case Create(_, _, _, _, _, _, _) => CreateCoherent(s, r);
    case Get(id, user) => GetCoherent(s, id, user);
    case GetOrCreateDirect(user1, user2, now, spare) =>
      var a, b := if user1 <= user2 then user1 else user2, if user1 <= user2 then user2 else user1;
      CreateCoherent(s, Create(Direct, "", "", None, [a, b], now, spare));
    case Evict(id) => EvictCoherent(s, id);
    case _ =>
  }

  lemma EvictCoherent(s: State, id: nat)
    requires Coherent(s)
    ensures Coherent(s.(cache := s.cache - {id}))
  {
  }

  lemma {:induction false} RunCoherent(requests: seq<Request>)
    ensures Coherent(Run(requests))
    decreases requests
  {
    hide Coherent, Step;
    if requests == [] {
      NothingCached();
    } else {
      RunCoherent(requests[..|requests| - 1]);
      StepCoherent(Run(requests[..|requests| - 1]), requests[|requests| - 1]);
    }
  }

  lemma NothingCached()
    ensures Coherent(INITIAL)
  {
  }

  /** A handler that finds the cache empty whenever it looks. */
  function StepUncached(docs: seq<Conversation>, r: Request): (seq<Conversation>, Reply) {
    var (s, reply) := Step(State(docs, map[]), r);
    (s.docs, reply)
  }

  function RunUncached(requests: seq<Request>): (seq<Conversation>, seq<Reply>) {
    if requests == [] then ([], [])
    else
      var (docs, replies) := RunUncached(requests[..|requests| - 1]);
      var (next, reply) := StepUncached(docs, requests[|requests| - 1]);
      (next, replies + [reply])
  }

  lemma StepIgnoresCache(s: State, r: Request)
    requires Coherent(s)
    ensures (Step(s, r).0.docs, Step(s, r).1) == StepUncached(s.docs, r)
  {
    hide WithRole, WithoutUser, WithoutId, WithMute, Updated, NewConversation, ToDto, FindDirect, IndexOf, Truncate;
    if r.Get? {
      GetCoherent(s, r.id, r.user);
    }
  }

  /** In every run, with entries evicted at any time, every reply of every
      handler and every stored document is what it would be with no cache. */
  lemma {:induction false} CacheInvisible(requests: seq<Request>)
    ensures (Run(requests).docs, Replies(requests)) == RunUncached(requests)
    decreases requests
  {
    hide Coherent, Step, StepUncached;
    if requests != [] {
      var s := Run(requests[..|requests| - 1]);
      CacheInvisible(requests[..|requests| - 1]);
      RunCoherent(requests[..|requests| - 1]);
      StepIgnoresCache(s, requests[|requests| - 1]);
    }
  }

  // ----- Membership -----

  /** Participants are unique, admins are unique participants and exactly the
      participants in the admin role, and only groups have any. */
  ghost predicate Membership(c: Conversation) {
    && c.kind != Unlisted
    && NoDup(IdsOf(c.participants)) && NoDup(c.admins)
    && (forall a :: a in c.admins ==> IsParticipant(c.participants, a))
    && (forall i :: 0 <= i < |c.participants| ==> (c.participants[i].isAdmin <==> c.participants[i].userId in c.admins))
    && (c.kind != Group ==> c.admins == [])
  }

  ghost predicate AllMembership(s: State) {
    forall i :: 0 <= i < |s.docs| ==> Membership(s.docs[i])
  }

  /** Creations whose participants are distinct; a group has at least one. */
  ghost predicate ProperCreation(r: Request) {
    match r
    case Create(kind, _, _, _, members, _, _) => NoDup(members) && (kind == Group ==> members != [])
    case GetOrCreateDirect(user1, user2, _, _) => user1 != user2
    case _ => true
  }

  lemma IndexOfOnly(ps: seq<Participant>, i: nat)
    requires i < |ps| && NoDup(IdsOf(ps))
    ensures IndexOf(ps, ps[i].userId) == i
  {
    var k := IndexOf(ps, ps[i].userId);
    assert forall j :: 0 <= j < i ==> IdsOf(ps)[j] != IdsOf(ps)[i];
    assert IdsOf(ps)[k] == IdsOf(ps)[i];
  }

  /** A created document is well formed exactly when its creation is proper. */
  lemma NewMembershipIff(kind: Kind, name: string, description: string, avatarUrl: Option<string>,
                         members: seq<Id>, now: nat, spare: Id)
    ensures Membership(NewConversation(kind, name, description, avatarUrl, members, now, spare))
       <==> kind != Unlisted && NoDup(members) && (kind == Group ==> members != [])
  {
    var c := NewConversation(kind, name, description, avatarUrl, members, now, spare);
    assert IdsOf(c.participants) == members;
    if NoDup(members) && members != [] {
      IndexOfOnly(c.participants, 0);
      assert forall i :: 0 < i < |members| ==> members[0] != members[i];
    }
    if members == [] && kind == Group { assert spare in c.admins && |c.participants| == 0; }
  }

  lemma AddMembership(c: Conversation, user: Id, now: nat)
    requires Membership(c) && c.kind != Direct && !IsParticipant(c.participants, user)
    ensures Membership(c.(participants := c.participants + [Participant(user, false, now, false, None)]))
  {
    var ps := c.participants + [Participant(user, false, now, false, None)];
    assert IdsOf(ps) == IdsOf(c.participants) + [user];
    assert user !in c.admins;
    forall a | a in c.admins ensures IsParticipant(ps, a) {
      assert ps[IndexOf(c.participants, a)].userId == a;
    }
  }

  lemma {:induction false} WithoutUserMembers(ps: seq<Participant>, user: Id)
    requires NoDup(IdsOf(ps))
    ensures NoDup(IdsOf(WithoutUser(ps, user)))
    ensures forall p :: p in WithoutUser(ps, user) <==> p in ps && p.userId != user
    decreases ps
  {
    if ps != [] {
      var front, last := ps[..|ps| - 1], ps[|ps| - 1];
      assert IdsOf(front) == IdsOf(ps)[..|ps| - 1];
      WithoutUserMembers(front, user);
      var kept := WithoutUser(front, user);
      assert forall p :: p in ps <==> p in front || p == last;
      if last.userId != user {
        assert WithoutUser(ps, user) == kept + [last];
        assert IdsOf(kept + [last]) == IdsOf(kept) + [last.userId];
        forall i | 0 <= i < |kept| ensures kept[i].userId != last.userId {
          assert kept[i] in front;
          var k :| 0 <= k < |front| && front[k] == kept[i];
          assert IdsOf(ps)[k] != IdsOf(ps)[|ps| - 1];
        }
      } else {
        assert WithoutUser(ps, user) == kept;
      }
    }
  }

  lemma {:induction false} WithoutIdMembers(ids: seq<Id>, user: Id)
    requires NoDup(ids)
    ensures NoDup(WithoutId(ids, user))
    ensures forall a :: a in WithoutId(ids, user) <==> a in ids && a != user
    decreases ids
  {
    if ids != [] {
      var front, last := ids[..|ids| - 1], ids[|ids| - 1];
      WithoutIdMembers(front, user);
      assert forall a :: a in ids <==> a in front || a == last;
      assert last !in front;
    }
  }

  lemma IsParticipantIff(ps: seq<Participant>, user: Id)
    ensures IsParticipant(ps, user) <==> exists p :: p in ps && p.userId == user
  {
  }

  lemma RemoveMembership(c: Conversation, user: Id)
    requires Membership(c)
    ensures Membership(c.(participants := WithoutUser(c.participants, user), admins := WithoutId(c.admins, user)))
  {
    var ps, admins := WithoutUser(c.participants, user), WithoutId(c.admins, user);
    WithoutUserMembers(c.participants, user);
    WithoutIdMembers(c.admins, user);
    forall a | a in admins ensures IsParticipant(ps, a) {
      var p := c.participants[IndexOf(c.participants, a)];
      assert p in ps;
      IsParticipantIff(ps, a);
    }
    forall i | 0 <= i < |ps| ensures ps[i].isAdmin <==> ps[i].userId in admins {
      assert ps[i] in c.participants;
    }
  }

  lemma PromoteMembership(c: Conversation, user: Id)
    requires Membership(c) && c.kind == Group && IsParticipant(c.participants, user) && user !in c.admins
    ensures Membership(c.(admins := c.admins + [user], participants := WithRole(c.participants, user, true)))
  {
    RoleMembership(c, user, true, c.admins + [user]);
  }

  lemma DemoteMembership(c: Conversation, user: Id)
    requires Membership(c)
    ensures Membership(c.(admins := WithoutId(c.admins, user), participants := WithRole(c.participants, user, false)))
  {
    WithoutIdMembers(c.admins, user);
    RoleMembership(c, user, false, WithoutId(c.admins, user));
  }

  lemma RoleMembership(c: Conversation, user: Id, isAdmin: bool, admins: seq<Id>)
    requires Membership(c) && NoDup(admins) && (isAdmin ==> IsParticipant(c.participants, user))
    requires forall a :: a in admins <==> if a == user then isAdmin else a in c.admins
    requires c.kind != Group ==> admins == []
    ensures Membership(c.(admins := admins, participants := WithRole(c.participants, user, isAdmin)))
  {
    var ps := WithRole(c.participants, user, isAdmin);
    assert IdsOf(ps) == IdsOf(c.participants);
    forall a | a in admins ensures IsParticipant(ps, a) {
      assert ps[IndexOf(c.participants, a)].userId == a;
    }
    forall i | 0 <= i < |ps| ensures ps[i].isAdmin <==> ps[i].userId in admins {
      IndexOfOnly(c.participants, i);
    }
  }

  lemma MuteMembership(c: Conversation, user: Id, isMuted: bool, until: Option<nat>)
    requires Membership(c)
    ensures Membership(c.(participants := WithMute(c.participants, user, isMuted, until)))
  {
    var ps := WithMute(c.participants, user, isMuted, until);
    assert IdsOf(ps) == IdsOf(c.participants);
    forall a | a in c.admins ensures IsParticipant(ps, a) {
      assert ps[IndexOf(c.participants, a)].userId == a;
    }
  }

  lemma OnlyGroupsHaveAdmins(c: Conversation, user: Id)
    requires Membership(c) && user in c.admins
    ensures c.kind == Group
  {
  }

  lemma StepMembership(s: State, r: Request)
    requires AllMembership(s) && ProperCreation(r)
    ensures AllMembership(Step(s, r).0)
  {
    match r
    case Create(kind, name, description, avatarUrl, members, now, spare) =>
      hide Membership;
      NewMembershipIff(kind, name, description, avatarUrl, members, now, spare);
      assert kind == Unlisted ==> CreateStep(s, r).0 == s;
    case GetOrCreateDirect(user1, user2, now, spare) =>
      hide Membership;
      var a, b := if user1 <= user2 then user1 else user2, if user1 <= user2 then user2 else user1;
      NewMembershipIff(Direct, "", "", None, [a, b], now, spare);
    case Get(_, _) => hide Membership;
    case Evict(_) => hide Membership;
    case _ =>
      hide AllMembership, Membership;
      ChangeMembership(s, r);
  }

  /** The handlers that change one document. */
  lemma ChangeMembership(s: State, r: Request)
    requires AllMembership(s)
    requires !r.Create? && !r.GetOrCreateDirect? && !r.Get? && !r.Evict?
    ensures AllMembership(Step(s, r).0)
  {
    if r.id < |s.docs| {
      var c := s.docs[r.id];
      assert Membership(c);
      SameMembership(c);
      hide Membership, WithRole, WithoutUser, WithoutId, WithMute, ToDto, IndexOf, Truncate, Merge;
      match r
      case AddParticipant(id, user, now) =>
        if c.kind != Direct && !IsParticipant(c.participants, user) { AddMembership(c, user, now); }
      case RemoveParticipant(id, user, _) => RemoveMembership(c, user);
      case MakeAdmin(id, user, actor) =>
        if actor in c.admins && IsParticipant(c.participants, user) && user !in c.admins {
          OnlyGroupsHaveAdmins(c, actor);
          PromoteMembership(c, user);
        }
      case RemoveAdmin(id, user, _) => DemoteMembership(c, user);
      case Mute(id, user, until) => MuteMembership(c, user, true, until);
      case Unmute(id, user) => MuteMembership(c, user, false, None);
      case _ =>
    }
  }

  lemma SameMembership(c: Conversation)
    requires Membership(c)
    ensures forall d: Conversation ::
      d.kind == c.kind && d.participants == c.participants && d.admins == c.admins ==> Membership(d)
  {
  }

  /** In every run whose creations are proper. */
  lemma {:induction false} RunMembership(requests: seq<Request>)
    requires forall k :: 0 <= k < |requests| ==> ProperCreation(requests[k])
    ensures AllMembership(Run(requests))
    decreases requests
  {
    hide Step, Membership, ProperCreation;
    if requests != [] {
      RunMembership(requests[..|requests| - 1]);
      StepMembership(Run(requests[..|requests| - 1]), requests[|requests| - 1]);
    }
  }

  // ----- Direct conversations -----

  /** Two different users have at most one live direct conversation. */
  ghost predicate OnePerPair(docs: seq<Conversation>) {
    forall i, j, a, b | 0 <= i < |docs| && 0 <= j < |docs| && a != b ::
      IsDirectBetween(docs[i], a, b) && IsDirectBetween(docs[j], a, b) ==> i == j
  }

  /** `d` may be what an update left of `c`, as far as the query can tell. */
  ghost predicate NoNewPair(c: Conversation, d: Conversation) {
    forall a, b :: IsDirectBetween(d, a, b) ==> IsDirectBetween(c, a, b)
  }

  lemma SavedOnePerPair(docs: seq<Conversation>, id: nat, d: Conversation)
    requires OnePerPair(docs) && id < |docs| && NoNewPair(docs[id], d)
    ensures OnePerPair(docs[id := d])
  {
    var next := docs[id := d];
    forall i, j, a, b | 0 <= i < |next| && 0 <= j < |next| && a != b
      && IsDirectBetween(next[i], a, b) && IsDirectBetween(next[j], a, b)
      ensures i == j
    {
      assert IsDirectBetween(docs[i], a, b) && IsDirectBetween(docs[j], a, b);
    }
  }

  /** Muting, changing roles and so on leave the ids in place. */
  lemma SameIdsNoNewPair(c: Conversation, d: Conversation)
    requires d.kind == c.kind && (d.IsDeleted() || !c.IsDeleted())
    requires IdsOf(d.participants) == IdsOf(c.participants)
    ensures NoNewPair(c, d)
  {
    forall u ensures IsParticipant(d.participants, u) <==> IsParticipant(c.participants, u) {
      var i, j := IndexOf(d.participants, u), IndexOf(c.participants, u);
      if i < |d.participants| { assert IdsOf(c.participants)[i] == u; }
      if j < |c.participants| { assert IdsOf(d.participants)[j] == u; }
    }
  }

  lemma PairOf(c: Conversation, x: Id, y: Id, a: Id, b: Id)
    requires IdsOf(c.participants) == [x, y] && IsDirectBetween(c, a, b) && a != b
    ensures (a == x && b == y) || (a == y && b == x)
  {
    var i, j := IndexOf(c.participants, a), IndexOf(c.participants, b);
    assert IdsOf(c.participants)[i] == a && IdsOf(c.participants)[j] == b;
  }

  /** The pair of a document about to be created is looked for first. */
  lemma ExistingPairFound(s: State, r: Request, i: nat, a: Id, b: Id)
    requires r.Create? && i < |s.docs| && a != b && IsDirectBetween(s.docs[i], a, b)
    requires IsDirectBetween(NewConversation(r.kind, r.name, r.description, r.avatarUrl, r.members, r.now, r.spare), a, b)
    ensures CreateStep(s, r).0 == s
  {
    var c := NewConversation(r.kind, r.name, r.description, r.avatarUrl, r.members, r.now, r.spare);
    assert IdsOf(c.participants) == r.members == [r.members[0], r.members[1]];
    PairOf(c, r.members[0], r.members[1], a, b);
    assert IsDirectBetween(s.docs[i], r.members[0], r.members[1]);
  }

  lemma CreateOnePerPair(s: State, r: Request)
    requires OnePerPair(s.docs) && r.Create?
    ensures OnePerPair(CreateStep(s, r).0.docs)
  {
    var next, n := CreateStep(s, r).0.docs, |s.docs|;
    forall i, j, a, b | 0 <= i < |next| && 0 <= j < |next| && a != b
      && IsDirectBetween(next[i], a, b) && IsDirectBetween(next[j], a, b)
      ensures i == j
    {
      hide IsDirectBetween;
      if i < n && j == n { ExistingPairFound(s, r, i, a, b); }
      if j < n && i == n { ExistingPairFound(s, r, j, a, b); }
    }
  }

  lemma StepOnePerPair(s: State, r: Request)
    requires OnePerPair(s.docs)
    ensures OnePerPair(Step(s, r).0.docs)
  {
    hide OnePerPair, IsDirectBetween, CreateStep;
    if r.Create? {
      CreateOnePerPair(s, r);
    } else if r.GetOrCreateDirect? {
      var a, b := if r.user1 <= r.user2 then r.user1 else r.user2, if r.user1 <= r.user2 then r.user2 else r.user1;
      CreateOnePerPair(s, Create(Direct, "", "", None, [a, b], r.now, r.spare));
    } else {
      hide Step;
      var next := Step(s, r).0.docs;
      if next != s.docs {
        ChangeNoNewPair(s, r);
        SavedOnePerPair(s.docs, r.id, next[r.id]);
      }
    }
  }

  /** What every update keeps of the one document it changes. */
  lemma ChangeNoNewPair(s: State, r: Request)
    requires !r.Create? && !r.GetOrCreateDirect? && Step(s, r).0.docs != s.docs
    ensures r.id < |s.docs|
    ensures var next := Step(s, r).0.docs;
      r.id < |next| && next == s.docs[r.id := next[r.id]] && NoNewPair(s.docs[r.id], next[r.id])
  {
    hide WithoutUser, WithoutId, NewConversation, ToDto, FindDirect, Truncate, Merge, IsDirectBetween;
    var next := Step(s, r).0.docs;
    assert r.id < |s.docs| && next == s.docs[r.id := next[r.id]];
    var c, d := s.docs[r.id], next[r.id];
    if c.kind == Direct {
      assert IdsOf(d.participants) == IdsOf(c.participants);
      SameIdsNoNewPair(c, d);
    } else {
      NotDirectNoNewPair(c, d);
    }
  }

  lemma NotDirectNoNewPair(c: Conversation, d: Conversation)
    requires d.kind != Direct
    ensures NoNewPair(c, d)
  {
  }

  lemma {:induction false} RunOnePerPair(requests: seq<Request>)
    ensures OnePerPair(Run(requests).docs)
    decreases requests
  {
    hide Step, OnePerPair;
    if requests == [] {
      NoPairs();
    } else {
      RunOnePerPair(requests[..|requests| - 1]);
      StepOnePerPair(Run(requests[..|requests| - 1]), requests[|requests| - 1]);
    }
  }

  lemma NoPairs()
    ensures OnePerPair([])
  {
  }

  /** The order of the two users does not matter, and asking again changes
      nothing and answers the same. */
  lemma GetOrCreateSymmetricIdempotent(s: State, a: Id, b: Id, now: nat, spare: Id, later: nat, spare': Id)
    ensures Step(s, GetOrCreateDirect(a, b, now, spare)) == Step(s, GetOrCreateDirect(b, a, now, spare))
    ensures var (t, reply) := Step(s, GetOrCreateDirect(a, b, now, spare));
      Step(t, GetOrCreateDirect(b, a, later, spare')) == (t, reply)
  {
    var x, y := if a <= b then a else b, if a <= b then b else a;
    var members := [x, y];
    var (t, reply) := Step(s, GetOrCreateDirect(a, b, now, spare));
    var i := FindDirect(s.docs, x, y);
    if i == |s.docs| {
      var c := t.docs[i];
      assert IdsOf(c.participants) == members;
      assert IdsOf(c.participants)[0] == x && IdsOf(c.participants)[1] == y;
      assert IsDirectBetween(c, x, y);
      var k := FindDirect(t.docs, x, y);
      assert k == i;
    }
  }

  /** `d` is `c` later on: still direct, between the same users, and deleted if
      `c` was. */
  ghost predicate SameDirect(c: Conversation, d: Conversation) {
    d.kind == Direct && IdsOf(d.participants) == IdsOf(c.participants) && (c.IsDeleted() ==> d.IsDeleted())
  }

  /** A direct conversation keeps its two users for ever. */
  lemma DirectKeepsUsers(s: State, r: Request, id: nat)
    requires id < |s.docs| && s.docs[id].kind == Direct
    ensures var d := Step(s, r).0.docs;
      id < |d| && SameDirect(s.docs[id], d[id])
  {
    hide WithoutUser, WithoutId, NewConversation, ToDto, FindDirect, Truncate, Merge;
  }

  lemma SameDirectTransitive(c: Conversation, d: Conversation, e: Conversation)
    requires SameDirect(c, d) && SameDirect(d, e)
    ensures SameDirect(c, e)
  {
  }

  lemma {:induction false} DirectKeepsUsersInRun(requests: seq<Request>, more: seq<Request>, id: nat)
    requires id < |Run(requests).docs| && Run(requests).docs[id].kind == Direct
    ensures var d := Run(requests + more).docs; id < |d| && SameDirect(Run(requests).docs[id], d[id])
    decreases more
  {
    hide Step, Run, IdsOf;
    if more == [] {
      assert requests + more == requests;
    } else {
      var front, last := more[..|more| - 1], more[|more| - 1];
      DirectKeepsUsersInRun(requests, front, id);
      var s := Run(requests + front);
      DirectKeepsUsers(s, last, id);
      RunSnoc(requests + front, last);
      assert requests + more == requests + front + [last];
      SameDirectTransitive(Run(requests).docs[id], s.docs[id], Step(s, last).0.docs[id]);
    }
  }

  lemma FindsTheOne(docs: seq<Conversation>, id: nat, x: Id, y: Id)
    requires OnePerPair(docs) && x != y && id < |docs| && IsDirectBetween(docs[id], x, y)
    ensures FindDirect(docs, x, y) == id
  {
    hide IsDirectBetween;
    var i := FindDirect(docs, x, y);
    assert i < |docs| && IsDirectBetween(docs[i], x, y);
  }

  lemma FoundAgain(s: State, id: nat, a: Id, b: Id, now: nat, spare: Id)
    requires OnePerPair(s.docs) && a != b && id < |s.docs| && IsDirectBetween(s.docs[id], a, b)
    ensures Step(s, GetOrCreateDirect(a, b, now, spare)) == (s, Found(ToDto(id, s.docs[id])))
  {
    var x, y := if a <= b then a else b, if a <= b then b else a;
    assert IsDirectBetween(s.docs[id], x, y);
    FindsTheOne(s.docs, id, x, y);
    hide OnePerPair, IsDirectBetween, NewConversation, ToDto;
    assert FindDirect(s.docs, [x, y][0], [x, y][1]) == id;
  }

  /** Once two different users have a direct conversation, every later call in
      every continuation of the run finds that one, until it is deleted. */
  lemma SameUntilDeleted(requests: seq<Request>, more: seq<Request>, id: nat, a: Id, b: Id, now: nat, spare: Id)
    requires a != b && id < |Run(requests).docs| && IsDirectBetween(Run(requests).docs[id], a, b)
    requires id < |Run(requests + more).docs| && !Run(requests + more).docs[id].IsDeleted()
    ensures var s := Run(requests + more);
      Step(s, GetOrCreateDirect(a, b, now, spare)) == (s, Found(ToDto(id, s.docs[id])))
  {
    DirectKeepsUsersInRun(requests, more, id);
    RunOnePerPair(requests + more);
    hide Run, Step, OnePerPair;
    var s := Run(requests + more);
    SameIdsNoNewPair(s.docs[id], Run(requests).docs[id]);
    FoundAgain(s, id, a, b, now, spare);
  }

  // ----- The service -----

  class ConversationsService {
    var docs: seq<Conversation>
    var cache: map<nat, Dto>

    function Current(): State
      reads this
    {
      State(docs, cache)
    }

    constructor ()
      ensures Current() == INITIAL
    {
      docs, cache := [], map[];
    }

    method CreateConversation(kind: Kind, name: string, description: string, avatarUrl: Option<string>,
                              members: seq<Id>, now: nat, spare: Id) returns (reply: Reply)
      modifies this
      ensures (Current(), reply)
           == Step(old(Current()), Create(kind, name, description, avatarUrl, members, now, spare))
    {
      if kind == Direct && |members| == 2 {
        var existing := FindDirect(docs, members[0], members[1]);
        if existing < |docs| {
          return Found(ToDto(existing, docs[existing]));
        }
      }
      var creatorId := if members == [] then spare else members[0];
      var participantDocs := [];
      for index := 0 to |members|
        invariant docs == old(docs) && cache == old(cache)
        invariant participantDocs == NewParticipants(kind, members[..index], now)
      {
        participantDocs := participantDocs + [Participant(members[index], kind == Group && index == 0, now, false, None)];
      }
      assert members[..|members|] == members;
      var conversation := Conversation(kind, name, description, avatarUrl, participantDocs,
                                       if kind == Group then [creatorId] else [], creatorId, DEFAULT_SETTINGS, None, 0, None);
      if kind == Unlisted {
        return Error(InternalError);
      }
      docs := docs + [conversation];
      reply := Found(ToDto(|docs| - 1, conversation));
    }

    method GetConversation(id: nat, user: Id) returns (reply: Reply)
      modifies this
      ensures (Current(), reply) == Step(old(Current()), Get(id, user))
      ensures docs == old(docs)
      ensures old(Coherent(Current())) ==>
        && (reply == Error(NotFound) <==> id >= |docs| || docs[id].deletedAt.Some?)
        && (reply.Found? <==> (id < |docs| && docs[id].deletedAt.None?
              && exists i :: 0 <= i < |docs[id].participants| && docs[id].participants[i].userId == user))
        && (!reply.Found? ==> reply == Error(NotFound) || reply == Error(Forbidden))
    {
      if id < |docs| {
        ghost var k := IndexOf(docs[id].participants, user);
        assert k < |docs[id].participants| ==> docs[id].participants[k].userId == user;
      }
      if old(Coherent(Current())) { GetCoherent(Current(), id, user); }
      if id in cache {
        var cached := cache[id];
        if !IsParticipant(cached.participants, user) {
          return Error(Forbidden);
        }
        return Found(cached);
      }
      if id >= |docs| || docs[id].IsDeleted() {
        return Error(NotFound);
      }
      var conversation := docs[id];
      if !IsParticipant(conversation.participants, user) {
        return Error(Forbidden);
      }
      cache := cache[id := ToDto(id, conversation)];
      return Found(ToDto(id, conversation));
    }

    method UpdateConversation(id: nat, user: Id, name: Option<string>, description: Option<string>,
                              avatarUrl: Option<string>, settings: Option<SettingsPatch>) returns (reply: Reply)
      modifies this
      ensures (Current(), reply) == Step(old(Current()), Update(id, user, name, description, avatarUrl, settings))
    {
      if id >= |docs| || docs[id].IsDeleted() {
        return Error(NotFound);
      }
      var conversation := docs[id];
      var isGroup := conversation.kind == Group || conversation.kind == Channel;
      if isGroup && user !in conversation.admins {
        return Error(Forbidden);
      }
      if name.Some? {
        conversation := conversation.(name := name.value);
      }
      if description.Some? {
        conversation := conversation.(description := description.value);
      }
      if avatarUrl.Some? {
        conversation := conversation.(avatarUrl := avatarUrl);
      }
      if settings.Some? {
        conversation := conversation.(settings := Merge(conversation.settings, settings.value));
      }
      docs := docs[id := conversation];
      cache := cache - {id};
      return Found(ToDto(id, conversation));
    }

    method DeleteConversation(id: nat, user: Id, now: nat) returns (reply: Reply)
      modifies this
      ensures (Current(), reply) == Step(old(Current()), Delete(id, user, now))
    {
      if id >= |docs| {
        return Error(NotFound);
      }
      var conversation := docs[id];
      if conversation.kind == Group && conversation.createdBy != user {
        return Error(Forbidden);
      }
      conversation := conversation.(deletedAt := Some(now));
      docs := docs[id := conversation];
      cache := cache - {id};
      return Done;
    }

    method GetOrCreateDirect(user1: Id, user2: Id, now: nat, spare: Id) returns (reply: Reply)
      modifies this
      ensures (Current(), reply) == Step(old(Current()), Request.GetOrCreateDirect(user1, user2, now, spare))
    {
      var sortedUser1, sortedUser2 := if user1 <= user2 then user1 else user2, if user1 <= user2 then user2 else user1;
      var existing := FindDirect(docs, sortedUser1, sortedUser2);
      if existing < |docs| {
        return Found(ToDto(existing, docs[existing]));
      }
      reply := CreateConversation(Direct, "", "", None, [sortedUser1, sortedUser2], now, spare);
    }

    method AddParticipant(id: nat, user: Id, now: nat) returns (reply: Reply)
      modifies this
      ensures (Current(), reply) == Step(old(Current()), Request.AddParticipant(id, user, now))
    {
      if id >= |docs| || docs[id].IsDeleted() {
        return Error(NotFound);
      }
      var conversation := docs[id];
      if conversation.kind == Direct {
        return Error(ValidationError);
      }
      if IsParticipant(conversation.participants, user) {
        return Error(AlreadyExists);
      }
      conversation := conversation.(participants := conversation.participants + [Participant(user, false, now, false, None)]);
      docs := docs[id := conversation];
      cache := cache - {id};
      return Found(ToDto(id, conversation));
    }

    method RemoveParticipant(id: nat, user: Id, removedBy: Id) returns (reply: Reply)
      modifies this
      ensures (Current(), reply) == Step(old(Current()), Request.RemoveParticipant(id, user, removedBy))
    {
      if id >= |docs| || docs[id].IsDeleted() {
        return Error(NotFound);
      }
      var conversation := docs[id];
      if conversation.kind == Direct {
        return Error(ValidationError);
      }
      var isAdmin := removedBy in conversation.admins;
      if user != removedBy && !isAdmin {
        return Error(Forbidden);
      }
      conversation := conversation.(participants := WithoutUser(conversation.participants, user));
      conversation := conversation.(admins := WithoutId(conversation.admins, user));
      docs := docs[id := conversation];
      cache := cache - {id};
      return Found(ToDto(id, conversation));
    }

    method LeaveConversation(id: nat, user: Id) returns (reply: Reply)
      modifies this
      ensures var (next, removed) := Step(old(Current()), Request.RemoveParticipant(id, user, user));
        Current() == next && reply == if removed.Found? then Done else removed
    {
      var result := RemoveParticipant(id, user, user);
      reply := if result.Found? then Done else result;
    }

    method MakeAdmin(id: nat, user: Id, adminBy: Id) returns (reply: Reply)
      modifies this
      ensures (Current(), reply) == Step(old(Current()), Request.MakeAdmin(id, user, adminBy))
    {
      if id >= |docs| || docs[id].IsDeleted() {
        return Error(NotFound);
      }
      var conversation := docs[id];
      if adminBy !in conversation.admins {
        return Error(Forbidden);
      }
      var index := IndexOf(conversation.participants, user);
      if index == |conversation.participants| {
        return Error(NotFound);
      }
      if user !in conversation.admins {
        conversation := conversation.(admins := conversation.admins + [user]);
        var participant := conversation.participants[index].(isAdmin := true);
        conversation := conversation.(participants := conversation.participants[index := participant]);
      }
      docs := docs[id := conversation];
      cache := cache - {id};
      return Found(ToDto(id, conversation));
    }

    method RemoveAdmin(id: nat, user: Id, removedBy: Id) returns (reply: Reply)
      modifies this
      ensures (Current(), reply) == Step(old(Current()), Request.RemoveAdmin(id, user, removedBy))
    {
      if id >= |docs| || docs[id].IsDeleted() {
        return Error(NotFound);
      }
      var conversation := docs[id];
      if conversation.createdBy != removedBy {
        return Error(Forbidden);
      }
      conversation := conversation.(admins := WithoutId(conversation.admins, user));
      var index := IndexOf(conversation.participants, user);
      if index < |conversation.participants| {
        var participant := conversation.participants[index].(isAdmin := false);
        conversation := conversation.(participants := conversation.participants[index := participant]);
      }
      docs := docs[id := conversation];
      cache := cache - {id};
      return Found(ToDto(id, conversation));
    }

    /** `muteConversation` and `unmuteConversation`: one update by query. */
    method SetMuted(id: nat, user: Id, isMuted: bool, until: Option<nat>) returns (reply: Reply)
      requires !isMuted ==> until == None
      modifies this
      ensures (Current(), reply) == Step(old(Current()), if isMuted then Mute(id, user, until) else Unmute(id, user))
    {
      if id >= |docs| {
        return Error(NotFound);
      }
      var conversation := docs[id];
      var index := IndexOf(conversation.participants, user);
      if index == |conversation.participants| {
        return Error(NotFound);
      }
      var participant := conversation.participants[index].(isMuted := isMuted, mutedUntil := until);
      conversation := conversation.(participants := conversation.participants[index := participant]);
      docs := docs[id := conversation];
      cache := cache - {id};
      return Done;
    }

    /** `archiveConversation` and `unarchiveConversation`. */
    method SetArchived(id: nat, archived: bool) returns (reply: Reply)
      modifies this
      ensures (Current(), reply) == Step(old(Current()), Request.SetArchived(id, archived))
    {
      if id >= |docs| || docs[id].IsDeleted() {
        return Error(NotFound);
      }
      var conversation := docs[id];
      conversation := conversation.(settings := conversation.settings.(isArchived := archived));
      docs := docs[id := conversation];
      cache := cache - {id};
      return Done;
    }

    method UpdateLastMessage(id: nat, messageId: Id, preview: string, timestamp: nat) returns (reply: Reply)
      modifies this
      ensures (Current(), reply) == Step(old(Current()), Request.UpdateLastMessage(id, messageId, preview, timestamp))
    {
      if id >= |docs| {
        return Error(NotFound);
      }
      var conversation := docs[id];
      conversation := conversation.(lastMessage := Some(LastMessage(messageId, timestamp, Truncate(preview))));
      conversation := conversation.(messageCount := conversation.messageCount + 1);
      docs := docs[id := conversation];
      cache := cache - {id};
      return Found(ToDto(id, conversation));
    }

    /** A cache entry runs out. */
    method EvictEntry(id: nat)
      modifies this
      ensures Current() == Step(old(Current()), Evict(id)).0
    {
      cache := cache - {id};
    }
  }
}
