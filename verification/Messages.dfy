/** Message documents, as the handlers of
    src/microservices/messages-service/messages-service.handler.ts change them. */
module Messages {
  import opened Wrappers

  type Id = nat

  datatype Status = Sent | Delivered | Read

  datatype Receipt = Receipt(userId: Id, readAt: nat)

  datatype Reaction = Reaction(userId: Id, emoji: string, createdAt: nat)

  datatype Message = Message(conversationId: Id, senderId: Id, kind: string, content: string, attachments: seq<string>,
                             status: Status, deliveredTo: seq<Id>, receipts: seq<Receipt>, reactions: seq<Reaction>,
                             deletedAt: Option<nat>)
  {
    predicate IsDeleted() { deletedAt.Some? }
  }

  /** `SendFailed` is the answer when a new message cannot be saved. */
  datatype ErrorCode = NotFound | Forbidden | SendFailed

  datatype Reply = Shown(id: nat) | Marked(count: nat) | Done | Error(code: ErrorCode)

  datatype Request =
    | Send(conversationId: Id, sender: Id, kind: string, content: string, attachments: seq<string>, now: nat)
    | MarkAsRead(ids: seq<nat>, user: Id, now: nat)
    | MarkAsDelivered(ids: seq<nat>, user: Id)
    | AddReaction(id: nat, user: Id, emoji: string, now: nat)
    | RemoveReaction(id: nat, user: Id)
    | DeleteMessage(id: nat, user: Id, forEveryone: bool, now: nat)

  /** Messages are never removed; a message's id is its place in the store. */
  type Store = seq<Message>

  predicate HasReceipt(m: Message, user: Id) {
    exists i :: 0 <= i < |m.receipts| && m.receipts[i].userId == user
  }

  function WithoutReaction(rs: seq<Reaction>, user: Id): seq<Reaction> {
    if rs == [] then []
    else WithoutReaction(rs[..|rs| - 1], user) + if rs[|rs| - 1].userId == user then [] else [rs[|rs| - 1]]
  }

  // ----- The handlers -----

  /** The message types the document schema admits. */
  predicate ListedKind(kind: string) {
    kind in ["text", "image", "video", "audio", "file", "call", "huddle", "system", "location", "contact", "poll",
             "sticker"]
  }

  function OrText(kind: string): string { if kind == "" then "text" else kind }

  function NewMessage(r: Request): Message
    requires r.Send?
  {
    Message(r.conversationId, r.sender, OrText(r.kind), r.content, r.attachments, Sent, [r.sender],
            [Receipt(r.sender, r.now)], [], None)
  }

  /** The update of `markAsRead` on one document, if its query selects it. */
  function ReadBy(m: Message, user: Id, now: nat): Message {
    if HasReceipt(m, user) then m
    else m.(receipts := m.receipts + [Receipt(user, now)], status := Read)
  }

  function DeliveredBy(m: Message, user: Id): Message {
    if user in m.deliveredTo || m.status != Sent then m
    else m.(deliveredTo := m.deliveredTo + [user], status := Delivered)
  }

  function AllRead(s: Store, ids: seq<nat>, user: Id, now: nat): Store {
    seq(|s|, i requires 0 <= i < |s| => if i in ids then ReadBy(s[i], user, now) else s[i])
  }

  function AllDelivered(s: Store, ids: seq<nat>, user: Id): Store {
    seq(|s|, i requires 0 <= i < |s| => if i in ids then DeliveredBy(s[i], user) else s[i])
  }

  /** How many documents an update changed. */
  function Changed(s: Store, t: Store): nat
    requires |s| == |t|
  {
    if s == [] then 0
    else Changed(s[..|s| - 1], t[..|t| - 1]) + if s[|s| - 1] != t[|t| - 1] then 1 else 0
  }

  function Deleted(m: Message, forEveryone: bool, now: nat): Message {
    if forEveryone then m.(deletedAt := Some(now), content := "", attachments := []) else m.(deletedAt := Some(now))
  }

  function Step(s: Store, r: Request): (Store, Reply) {
    match r
    case Send(_, _, kind, _, _, _) =>
      if ListedKind(OrText(kind)) then (s + [NewMessage(r)], Shown(|s|)) else (s, Error(SendFailed))
    case MarkAsRead(ids, user, now) => (AllRead(s, ids, user, now), Marked(Changed(s, AllRead(s, ids, user, now))))
    case MarkAsDelivered(ids, user) => (AllDelivered(s, ids, user), Marked(Changed(s, AllDelivered(s, ids, user))))
    case AddReaction(id, user, emoji, now) =>
      if id >= |s| then (s, Error(NotFound))
      else
        (s[id := s[id].(reactions := WithoutReaction(s[id].reactions, user) + [Reaction(user, emoji, now)])], Shown(id))
    case RemoveReaction(id, user) =>
      if id >= |s| then (s, Error(NotFound))
      else (s[id := s[id].(reactions := WithoutReaction(s[id].reactions, user))], Shown(id))
    case DeleteMessage(id, user, forEveryone, now) =>
      if id >= |s| then (s, Error(NotFound))
      else if forEveryone && s[id].senderId != user then (s, Error(Forbidden))
      else (s[id := Deleted(s[id], forEveryone, now)], Done)
  }

  function Run(requests: seq<Request>): Store {
    if requests == [] then [] else Step(Run(requests[..|requests| - 1]), requests[|requests| - 1]).0
  }

  // ----- What every step keeps of a message -----

  /** The life cycle of one message. */
  ghost predicate Sound(m: Message) {
    && (m.status == Read <==> exists i :: 0 <= i < |m.receipts| && m.receipts[i].userId != m.senderId)
    && (forall i, j :: 0 <= i < j < |m.receipts| ==> m.receipts[i].userId != m.receipts[j].userId)
    && HasReceipt(m, m.senderId)
    && (forall i, j :: 0 <= i < j < |m.reactions| ==> m.reactions[i].userId != m.reactions[j].userId)
    && 1 <= |m.deliveredTo| <= 2 && m.deliveredTo[0] == m.senderId
    && (|m.deliveredTo| == 2 ==> m.deliveredTo[1] != m.senderId)
    && (m.status == Sent ==> |m.deliveredTo| == 1)
    && (m.status == Delivered ==> |m.deliveredTo| == 2)
  }

  function Rank(s: Status): nat { match s case Sent => 0 case Delivered => 1 case Read => 2 }

  /** How a handler may change one message. */
  ghost predicate Evolves(m: Message, n: Message) {
    && Rank(m.status) <= Rank(n.status)
    && m.receipts <= n.receipts && m.deliveredTo <= n.deliveredTo
    && m.senderId == n.senderId && m.conversationId == n.conversationId
    && (m.IsDeleted() ==> n.IsDeleted())
  }

  lemma NewSound(r: Request)
    requires r.Send?
    ensures Sound(NewMessage(r))
  {
    assert NewMessage(r).receipts[0].userId == r.sender;
  }

  lemma ReadSound(m: Message, user: Id, now: nat)
    requires Sound(m)
    ensures Sound(ReadBy(m, user, now)) && Evolves(m, ReadBy(m, user, now)) && HasReceipt(ReadBy(m, user, now), user)
  {
    var n := ReadBy(m, user, now);
    if !HasReceipt(m, user) {
      assert n.receipts[|m.receipts|].userId == user;
      var k :| 0 <= k < |m.receipts| && m.receipts[k].userId == m.senderId;
      assert n.receipts[k].userId == m.senderId;
    }
  }

  lemma DeliveredSound(m: Message, user: Id)
    requires Sound(m)
    ensures Sound(DeliveredBy(m, user)) && Evolves(m, DeliveredBy(m, user))
  {
  }

  lemma {:induction false} WithoutReactionMembers(rs: seq<Reaction>, user: Id)
    requires forall i, j :: 0 <= i < j < |rs| ==> rs[i].userId != rs[j].userId
    ensures var kept := WithoutReaction(rs, user);
      && (forall i, j :: 0 <= i < j < |kept| ==> kept[i].userId != kept[j].userId)
      && (forall r :: r in kept <==> r in rs && r.userId != user)
    decreases rs
  {
    if rs != [] {
      var front, last := rs[..|rs| - 1], rs[|rs| - 1];
      WithoutReactionMembers(front, user);
      assert forall r :: r in rs <==> r in front || r == last;
      var kept := WithoutReaction(front, user);
      forall i | 0 <= i < |kept| ensures kept[i].userId != last.userId {
        assert kept[i] in front;
      }
    }
  }

  lemma ReactionsSound(m: Message, user: Id, emoji: string, now: nat)
    requires Sound(m)
    ensures Sound(m.(reactions := WithoutReaction(m.reactions, user)))
    ensures Sound(m.(reactions := WithoutReaction(m.reactions, user) + [Reaction(user, emoji, now)]))
  {
    WithoutReactionMembers(m.reactions, user);
    var kept := WithoutReaction(m.reactions, user);
    forall i | 0 <= i < |kept| ensures kept[i].userId != user { assert kept[i] in kept; }
    var n := m.(reactions := kept);
    assert HasReceipt(n, m.senderId);
    assert HasReceipt(n.(reactions := kept + [Reaction(user, emoji, now)]), m.senderId);
  }

  lemma DeletedSound(m: Message, forEveryone: bool, now: nat)
    requires Sound(m)
    ensures Sound(Deleted(m, forEveryone, now))
  {
    assert HasReceipt(Deleted(m, forEveryone, now), m.senderId);
  }

  ghost predicate AllSound(s: Store) {
    forall i :: 0 <= i < |s| ==> Sound(s[i])
  }

  ghost predicate AllEvolve(s: Store, t: Store) {
    |s| <= |t| && forall i :: 0 <= i < |s| ==> Evolves(s[i], t[i])
  }

  lemma StepSound(s: Store, r: Request)
    requires AllSound(s)
    ensures AllSound(Step(s, r).0) && AllEvolve(s, Step(s, r).0)
  {
    hide Sound, HasReceipt, ReadBy, DeliveredBy;
    match r
    case Send(_, _, _, _, _, _) =>
      NewSound(r);
      SameAllEvolve(s);
    case MarkAsRead(ids, user, now) =>
      forall i | 0 <= i < |s| ensures Sound(ReadBy(s[i], user, now)) && Evolves(s[i], ReadBy(s[i], user, now)) {
        ReadSound(s[i], user, now);
      }
    case MarkAsDelivered(ids, user) =>
      forall i | 0 <= i < |s| ensures Sound(DeliveredBy(s[i], user)) && Evolves(s[i], DeliveredBy(s[i], user)) {
        DeliveredSound(s[i], user);
      }
    case AddReaction(id, user, emoji, now) => if id < |s| { ReactionsSound(s[id], user, emoji, now); }
    case RemoveReaction(id, user) => if id < |s| { ReactionsSound(s[id], user, "", 0); }
    case DeleteMessage(id, _, forEveryone, now) => if id < |s| { DeletedSound(s[id], forEveryone, now); }
  }

  /** In every run. */
  lemma {:induction false} RunSound(requests: seq<Request>)
    ensures AllSound(Run(requests))
    decreases requests
  {
    hide Sound, Step;
    if requests != [] {
      RunSound(requests[..|requests| - 1]);
      StepSound(Run(requests[..|requests| - 1]), requests[|requests| - 1]);
    }
  }

  lemma RunSnoc(requests: seq<Request>, r: Request)
    ensures Run(requests + [r]) == Step(Run(requests), r).0
  {
    assert (requests + [r])[..|requests|] == requests;
  }

  lemma AllEvolveTransitive(a: Store, b: Store, c: Store)
    requires AllEvolve(a, b) && AllEvolve(b, c)
    ensures AllEvolve(a, c)
  {
    forall i | 0 <= i < |a| ensures Evolves(a[i], c[i]) {
      assert Evolves(a[i], b[i]) && Evolves(b[i], c[i]);
    }
  }

  lemma SameAllEvolve(a: Store)
    ensures AllEvolve(a, a)
  {
  }

  /** Along every continuation of every run a message's status only rises, its
      receipts and deliveries only grow, and it is never undeleted. */
  lemma {:induction false} OnlyForward(requests: seq<Request>, more: seq<Request>)
    ensures AllEvolve(Run(requests), Run(requests + more))
    decreases more
  {
    hide AllEvolve, AllSound, Step, Run;
    if more == [] {
      assert requests + more == requests;
      SameAllEvolve(Run(requests));
    } else {
      var front, last := more[..|more| - 1], more[|more| - 1];
      OnlyForward(requests, front);
      assert requests + more == requests + front + [last];
      RunSnoc(requests + front, last);
      RunSound(requests + front);
      StepSound(Run(requests + front), last);
      AllEvolveTransitive(Run(requests), Run(requests + front), Run(requests + more));
    }
  }

  // ----- Unread counts -----

  /** The query of `getUnreadCount`, for one conversation or for all. */
  predicate IsUnread(m: Message, user: Id, conversation: Option<Id>) {
    && !m.IsDeleted() && m.senderId != user && !HasReceipt(m, user)
    && (conversation.Some? ==> m.conversationId == conversation.value)
  }

  function UnreadCount(s: Store, user: Id, conversation: Option<Id>): nat {
    if s == [] then 0
    else UnreadCount(s[..|s| - 1], user, conversation) + if IsUnread(s[|s| - 1], user, conversation) then 1 else 0
  }

  /** The unread ones among the messages with these ids. */
  function UnreadAmong(s: Store, ids: seq<nat>, user: Id, conversation: Option<Id>): nat {
    if s == [] then 0
    else
      var newly := (|s| - 1) in ids && IsUnread(s[|s| - 1], user, conversation);
      UnreadAmong(s[..|s| - 1], ids, user, conversation) + if newly then 1 else 0
  }

  lemma AllReadFront(s: Store, ids: seq<nat>, user: Id, now: nat)
    requires s != []
    ensures AllRead(s, ids, user, now)[..|s| - 1] == AllRead(s[..|s| - 1], ids, user, now)
  {
  }

  lemma ReadByReceipts(m: Message, user: Id, now: nat, other: Id)
    ensures HasReceipt(ReadBy(m, user, now), other) <==> HasReceipt(m, other) || other == user
  {
    var n := ReadBy(m, user, now);
    if !HasReceipt(m, user) {
      assert n.receipts[|m.receipts|].userId == user;
      assert forall i :: 0 <= i < |m.receipts| ==> n.receipts[i] == m.receipts[i];
    }
  }

  /** Marking as read lowers the reader's unread count by exactly the unread
      messages among the marked ones, and nobody else's. */
  lemma {:induction false} MarkAsReadLowers(s: Store, ids: seq<nat>, user: Id, now: nat, other: Id, conversation: Option<Id>)
    ensures UnreadCount(AllRead(s, ids, user, now), other, conversation)
         == UnreadCount(s, other, conversation) - if other == user then UnreadAmong(s, ids, user, conversation) else 0
    decreases s
  {
    if s != [] {
      hide HasReceipt, ReadBy;
      var front, last := s[..|s| - 1], s[|s| - 1];
      AllReadFront(s, ids, user, now);
      MarkAsReadLowers(front, ids, user, now, other, conversation);
      ReadByReceipts(last, user, now, other);
      ReadByKeeps(last, user, now);
    }
  }

  lemma ReadByKeeps(m: Message, user: Id, now: nat)
    ensures var n := ReadBy(m, user, now);
      n.deletedAt == m.deletedAt && n.senderId == m.senderId && n.conversationId == m.conversationId
    ensures HasReceipt(m, user) ==> ReadBy(m, user, now) == m
  {
  }

  /** Doing it again changes nothing and reports nothing. */
  lemma MarkAsReadIdempotent(s: Store, ids: seq<nat>, user: Id, now: nat, later: nat)
    ensures var t := Step(s, MarkAsRead(ids, user, now)).0;
      Step(t, MarkAsRead(ids, user, later)) == (t, Marked(0))
  {
    hide HasReceipt, ReadBy;
    var t := AllRead(s, ids, user, now);
    forall i | 0 <= i < |t| ensures AllRead(t, ids, user, later)[i] == t[i] {
      ReadByReceipts(s[i], user, now, user);
      ReadByKeeps(t[i], user, later);
    }
    assert AllRead(t, ids, user, later) == t;
    NothingChanged(t);
  }

  lemma ChangedSnoc(s: Store, t: Store, i: nat)
    requires i < |s| == |t|
    ensures Changed(s[..i + 1], t[..i + 1]) == Changed(s[..i], t[..i]) + if s[i] != t[i] then 1 else 0
  {
    assert s[..i + 1][..i] == s[..i] && t[..i + 1][..i] == t[..i];
  }

  lemma {:induction false} NothingChanged(s: Store)
    ensures Changed(s, s) == 0
    decreases s
  {
    if s != [] { NothingChanged(s[..|s| - 1]); }
  }

  lemma {:induction false} UnreadUpdate(s: Store, id: nat, m: Message, user: Id, conversation: Option<Id>)
    requires id < |s|
    ensures UnreadCount(s[id := m], user, conversation)
         == UnreadCount(s, user, conversation) - (if IsUnread(s[id], user, conversation) then 1 else 0)
          + (if IsUnread(m, user, conversation) then 1 else 0)
    decreases s
  {
    if id == |s| - 1 {
      assert s[id := m][..|s| - 1] == s[..|s| - 1];
    } else {
      UnreadUpdate(s[..|s| - 1], id, m, user, conversation);
      assert s[id := m][..|s| - 1] == s[..|s| - 1][id := m];
    }
  }

  /** How any other handler moves a user's unread count: a message stored from
      somebody else adds one, deleting an unread message takes one away, deliveries and
      reactions do nothing. */
  function UnreadChange(s: Store, r: Request, user: Id, conversation: Option<Id>): int {
    if r.Send? then
      if ListedKind(OrText(r.kind)) && r.sender != user && (conversation.Some? ==> r.conversationId == conversation.value) then 1 else 0
    else if r.DeleteMessage? && r.id < |s| && (r.forEveryone ==> s[r.id].senderId == r.user) then
      if IsUnread(s[r.id], user, conversation) then -1 else 0
    else 0
  }

  lemma OtherStepsOnUnread(s: Store, r: Request, user: Id, conversation: Option<Id>)
    requires !r.MarkAsRead?
    ensures UnreadCount(Step(s, r).0, user, conversation)
         == UnreadCount(s, user, conversation) + UnreadChange(s, r, user, conversation)
  {
    if r.Send? {
      assert (s + [NewMessage(r)])[..|s|] == s;
      assert NewMessage(r).receipts[0].userId == r.sender;
    } else if r.MarkAsDelivered? {
      DeliveryKeepsUnread(s, r.ids, r.user, user, conversation);
    } else if r.id < |s| {
      UnreadUpdate(s, r.id, Step(s, r).0[r.id], user, conversation);
      assert s[r.id := s[r.id]] == s;
    }
  }

  lemma {:induction false} DeliveryKeepsUnread(s: Store, ids: seq<nat>, who: Id, user: Id, conversation: Option<Id>)
    ensures UnreadCount(AllDelivered(s, ids, who), user, conversation) == UnreadCount(s, user, conversation)
    decreases s
  {
    if s != [] {
      DeliveryKeepsUnread(s[..|s| - 1], ids, who, user, conversation);
      assert AllDelivered(s, ids, who)[..|s| - 1] == AllDelivered(s[..|s| - 1], ids, who);
    }
  }

  // ----- The service -----

  class MessagesService {
    var messages: Store

    constructor ()
      ensures messages == []
    {
      messages := [];
    }

    method SendMessage(conversationId: Id, sender: Id, kind: string, content: string, attachments: seq<string>, now: nat)
      returns (reply: Reply)
      modifies this
      ensures (messages, reply) == Step(old(messages), Send(conversationId, sender, kind, content, attachments, now))
    {
      var kind := if kind == "" then "text" else kind;
      var message := Message(conversationId, sender, kind, content, attachments, Sent, [sender], [Receipt(sender, now)],
                             [], None);
      if !ListedKind(message.kind) {
        return Error(SendFailed);
      }
      messages := messages + [message];
      return Shown(|messages| - 1);
    }

    /** The loop is the bulk update: it visits the documents the query selects. */
    method MarkAsRead(ids: seq<nat>, user: Id, now: nat) returns (reply: Reply)
      modifies this
      ensures (messages, reply) == Step(old(messages), Request.MarkAsRead(ids, user, now))
    {
      var marked := 0;
      var before := messages;
      NothingChanged([]);
      assert before[..0] == [];
      hide Changed;
      for i := 0 to |messages|
        invariant |messages| == |before|
        invariant forall k :: 0 <= k < i ==> messages[k] == if k in ids then ReadBy(before[k], user, now) else before[k]
        invariant forall k :: i <= k < |before| ==> messages[k] == before[k]
        invariant marked == Changed(before[..i], messages[..i])
      {
        var m := messages[i];
        ghost var front := messages[..i];
        if i in ids && !HasReceipt(m, user) {
          m := m.(receipts := m.receipts + [Receipt(user, now)]);
          m := m.(status := Read);
          messages := messages[i := m];
          marked := marked + 1;
        }
        assert messages[..i] == front;
        ChangedSnoc(before, messages, i);
      }
      assert before[..|before|] == before && messages[..|messages|] == messages;
      assert messages == AllRead(before, ids, user, now);
      return Marked(marked);
    }

    method MarkAsDelivered(ids: seq<nat>, user: Id) returns (reply: Reply)
      modifies this
      ensures (messages, reply) == Step(old(messages), Request.MarkAsDelivered(ids, user))
    {
      var marked := 0;
      var before := messages;
      NothingChanged([]);
      assert before[..0] == [];
      hide Changed, HasReceipt;
      for i := 0 to |messages|
        invariant |messages| == |before|
        invariant forall k :: 0 <= k < i ==> messages[k] == if k in ids then DeliveredBy(before[k], user) else before[k]
        invariant forall k :: i <= k < |before| ==> messages[k] == before[k]
        invariant marked == Changed(before[..i], messages[..i])
      {
        var m := messages[i];
        ghost var front := messages[..i];
        if i in ids && user !in m.deliveredTo && m.status == Sent {
          m := m.(deliveredTo := m.deliveredTo + [user]);
          m := m.(status := Delivered);
          messages := messages[i := m];
          marked := marked + 1;
        }
        assert messages[..i] == front;
        ChangedSnoc(before, messages, i);
      }
      assert before[..|before|] == before && messages[..|messages|] == messages;
      assert messages == AllDelivered(before, ids, user);
      return Marked(marked);
    }

    method AddReaction(id: nat, user: Id, emoji: string, now: nat) returns (reply: Reply)
      modifies this
      ensures (messages, reply) == Step(old(messages), Request.AddReaction(id, user, emoji, now))
    {
      if id < |messages| {
        var message := messages[id];
        messages := messages[id := message.(reactions := WithoutReaction(message.reactions, user))];
      }
      if id >= |messages| {
        return Error(NotFound);
      }
      var message := messages[id];
      messages := messages[id := message.(reactions := message.reactions + [Reaction(user, emoji, now)])];
      assert messages == old(messages)[id := messages[id]];
      return Shown(id);
    }

    method RemoveReaction(id: nat, user: Id) returns (reply: Reply)
      modifies this
      ensures (messages, reply) == Step(old(messages), Request.RemoveReaction(id, user))
    {
      if id >= |messages| {
        return Error(NotFound);
      }
      var message := messages[id];
      messages := messages[id := message.(reactions := WithoutReaction(message.reactions, user))];
      return Shown(id);
    }

    method DeleteMessage(id: nat, user: Id, forEveryone: bool, now: nat) returns (reply: Reply)
      modifies this
      ensures (messages, reply) == Step(old(messages), Request.DeleteMessage(id, user, forEveryone, now))
    {
      if id >= |messages| {
        return Error(NotFound);
      }
      var message := messages[id];
      if forEveryone {
        if message.senderId != user {
          return Error(Forbidden);
        }
        message := message.(deletedAt := Some(now));
        message := message.(content := "");
        message := message.(attachments := []);
        messages := messages[id := message];
      } else {
        message := message.(deletedAt := Some(now));
        messages := messages[id := message];
      }
      return Done;
    }

    method GetUnreadCount(user: Id, conversation: Option<Id>) returns (count: nat)
      ensures count == UnreadCount(messages, user, conversation)
    {
      count := 0;
      for i := 0 to |messages|
        invariant count == UnreadCount(messages[..i], user, conversation)
      {
        assert messages[..i + 1][..i] == messages[..i];
        if IsUnread(messages[i], user, conversation) {
          count := count + 1;
        }
      }
      assert messages[..|messages|] == messages;
    }
  }
}
