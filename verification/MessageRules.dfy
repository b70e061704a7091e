/** What the message handlers may answer and change, stated on documents and
    requests alone, and what a message remembers of who read it. */
module MessageRules {
  import opened Sequences
  import opened Wrappers
  import opened Messages

  /** The user has read the message: a receipt says so. */
  ghost predicate HasRead(m: Message, user: Id) {
    exists i :: 0 <= i < |m.receipts| && m.receipts[i].userId == user
  }

  /** Nothing differs but what the other arguments say. */
  ghost predicate Becomes(m: Message, n: Message, status: Status, deliveredTo: seq<Id>, receipts: seq<Receipt>) {
    && n.conversationId == m.conversationId && n.senderId == m.senderId && n.kind == m.kind
    && n.content == m.content && n.attachments == m.attachments && n.reactions == m.reactions
    && n.deletedAt == m.deletedAt && n.status == status && n.deliveredTo == deliveredTo && n.receipts == receipts
  }

  // ----- Sending -----

  /** A message of a stated type outside the schema is refused; any other is stored
      as sent, delivered to and read by its sender. */
  lemma SendAnswer(s: Store, r: Request)
    requires r.Send?
    ensures var (t, reply) := Step(s, r);
      if r.kind != "" && r.kind !in ["text", "image", "video", "audio", "file", "call", "huddle", "system", "location",
                                     "contact", "poll", "sticker"]
      then t == s && reply == Error(SendFailed)
      else
        && reply == Shown(|s|) && |t| == |s| + 1 && t[..|s|] == s
        && t[|s|] == Message(r.conversationId, r.sender, if r.kind == "" then "text" else r.kind, r.content,
                             r.attachments, Sent, [r.sender], [Receipt(r.sender, r.now)], [], None)
  {
    assert ListedKind("text");
  }

  // ----- Reading and delivery -----

  /** The messages a marking selects: named, and not read by the user. */
  ghost function Unread(s: Store, ids: seq<nat>, user: Id): set<nat> {
    set i: nat | i < |s| && i in ids && !HasRead(s[i], user)
  }

  /** The messages a delivery selects: named, still sent, not delivered to the user. */
  ghost function Undelivered(s: Store, ids: seq<nat>, user: Id): set<nat> {
    set i: nat | i < |s| && i in ids && s[i].status == Sent && user !in s[i].deliveredTo
  }

  lemma {:induction false} ChangedIs(s: Store, t: Store)
    requires |s| == |t|
    ensures Changed(s, t) == |set i: nat | i < |s| && s[i] != t[i]|
    decreases s
  {
    var differ := set i: nat | i < |s| && s[i] != t[i];
    if s == [] {
      assert differ == {};
    } else {
      var n := |s| - 1;
      ChangedIs(s[..n], t[..n]);
      var before := set i: nat | i < |s[..n]| && s[..n][i] != t[..n][i];
      assert differ == before + if s[n] != t[n] then {n} else {};
    }
  }

  lemma ReadByBecomes(m: Message, user: Id, now: nat)
    ensures HasRead(m, user) <==> HasReceipt(m, user)
    ensures var n := ReadBy(m, user, now);
      if HasRead(m, user) then n == m
      else n != m && Becomes(m, n, Read, m.deliveredTo, m.receipts + [Receipt(user, now)])
  {
    if !HasRead(m, user) { assert |ReadBy(m, user, now).receipts| == |m.receipts| + 1; }
  }

  /** Marking as read adds one receipt of the user at this instant to each selected
      message, changes no other, and reports how many it changed. */
  lemma MarkAsReadAnswer(s: Store, ids: seq<nat>, user: Id, now: nat)
    ensures var (t, reply) := Step(s, MarkAsRead(ids, user, now));
      && |t| == |s| && reply == Marked(|Unread(s, ids, user)|)
      && (forall i :: 0 <= i < |s| ==>
            if i in Unread(s, ids, user)
            then Becomes(s[i], t[i], Read, s[i].deliveredTo, s[i].receipts + [Receipt(user, now)])
            else t[i] == s[i])
  {
    hide HasRead, HasReceipt, ReadBy, Becomes;
    var t := AllRead(s, ids, user, now);
    forall i | 0 <= i < |s|
      ensures HasRead(s[i], user) <==> HasReceipt(s[i], user)
      ensures var n := ReadBy(s[i], user, now);
        if HasRead(s[i], user) then n == s[i]
        else n != s[i] && Becomes(s[i], n, Read, s[i].deliveredTo, s[i].receipts + [Receipt(user, now)])
    {
      ReadByBecomes(s[i], user, now);
    }
    ChangedIs(s, t);
    assert (set i: nat | i < |s| && s[i] != t[i]) == Unread(s, ids, user);
  }

  lemma DeliveredByBecomes(m: Message, user: Id)
    ensures var n := DeliveredBy(m, user);
      if m.status != Sent || user in m.deliveredTo then n == m
      else n != m && Becomes(m, n, Delivered, m.deliveredTo + [user], m.receipts)
  {
  }

  lemma MarkAsDeliveredAnswer(s: Store, ids: seq<nat>, user: Id)
    ensures var (t, reply) := Step(s, MarkAsDelivered(ids, user));
      && |t| == |s| && reply == Marked(|Undelivered(s, ids, user)|)
      && (forall i :: 0 <= i < |s| ==>
            if i in Undelivered(s, ids, user)
            then Becomes(s[i], t[i], Delivered, s[i].deliveredTo + [user], s[i].receipts)
            else t[i] == s[i])
  {
    hide DeliveredBy, Becomes;
    var t := AllDelivered(s, ids, user);
    forall i | 0 <= i < |s|
      ensures var n := DeliveredBy(s[i], user);
        if s[i].status != Sent || user in s[i].deliveredTo then n == s[i]
        else n != s[i] && Becomes(s[i], n, Delivered, s[i].deliveredTo + [user], s[i].receipts)
    {
      DeliveredByBecomes(s[i], user);
    }
    ChangedIs(s, t);
    assert (set i: nat | i < |s| && s[i] != t[i]) == Undelivered(s, ids, user);
  }

  /** Not deleted, of somebody else, not read, and of the conversation asked for. */
  ghost predicate AwaitsReading(m: Message, user: Id, conversation: Option<Id>) {
    m.deletedAt.None? && m.senderId != user && !HasRead(m, user)
    && (conversation.None? || conversation.value == m.conversationId)
  }

  ghost function UnreadPlaces(s: Store, user: Id, conversation: Option<Id>): set<nat> {
    set i: nat | i < |s| && AwaitsReading(s[i], user, conversation)
  }

  lemma AwaitsIff(m: Message, user: Id, conversation: Option<Id>)
    ensures AwaitsReading(m, user, conversation) <==> IsUnread(m, user, conversation)
  {
  }

  /** What `getUnreadCount` counts. */
  lemma {:induction false} UnreadCountIs(s: Store, user: Id, conversation: Option<Id>)
    ensures UnreadCount(s, user, conversation) == |UnreadPlaces(s, user, conversation)|
    decreases s
  {
    hide AwaitsReading, IsUnread;
    if s == [] {
      assert UnreadPlaces(s, user, conversation) == {};
    } else {
      var n := |s| - 1;
      UnreadCountIs(s[..n], user, conversation);
      AwaitsIff(s[n], user, conversation);
      var last: set<nat> := if IsUnread(s[n], user, conversation) then {n} else {};
      assert UnreadPlaces(s, user, conversation) == UnreadPlaces(s[..n], user, conversation) + last;
    }
  }

  // ----- Reactions and deletion -----

  lemma {:induction false} WithoutReactionFiltered(rs: seq<Reaction>, user: Id)
    ensures Filtered(rs, (x: Reaction) => x.userId == user, WithoutReaction(rs, user))
    decreases rs
  {
    hide Filtered;
    if rs == [] {
      NothingFiltered<Reaction>((x: Reaction) => x.userId == user);
    } else {
      var front, last := rs[..|rs| - 1], rs[|rs| - 1];
      WithoutReactionFiltered(front, user);
      FilteredSnoc(front, last, (x: Reaction) => x.userId == user, WithoutReaction(front, user));
      assert rs == front + [last];
      assert WithoutReaction(front, user) + [] == WithoutReaction(front, user);
    }
  }

  /** A reaction replaces what the user reacted before and leaves those of others,
      and everything else, as they are; taking it back only removes it. */
  lemma ReactionAnswer(s: Store, r: Request)
    requires r.AddReaction? || r.RemoveReaction?
    ensures var (t, reply) := Step(s, r);
      if r.id >= |s| then t == s && reply == Error(NotFound)
      else
        && reply == Shown(r.id) && |t| == |s| && (forall i :: 0 <= i < |s| && i != r.id ==> t[i] == s[i])
        && var was, now := s[r.id].reactions, t[r.id].reactions;
        && t[r.id] == s[r.id].(reactions := now)
        && (r.RemoveReaction? ==> Filtered(was, (x: Reaction) => x.userId == r.user, now))
        && (r.AddReaction? ==>
              && now != [] && now[|now| - 1] == Reaction(r.user, r.emoji, r.now)
              && Filtered(was, (x: Reaction) => x.userId == r.user, now[..|now| - 1]))
  {
    if r.id < |s| {
      var kept := WithoutReaction(s[r.id].reactions, r.user);
      WithoutReactionFiltered(s[r.id].reactions, r.user);
      assert r.AddReaction? ==> (kept + [Reaction(r.user, r.emoji, r.now)])[..|kept|] == kept;
    }
    hide Filtered;
  }

  /** For everyone only the sender deletes, and takes the content away; for oneself
      anybody does, and only the mark is set. */
  lemma DeleteAnswer(s: Store, id: nat, user: Id, forEveryone: bool, now: nat)
    ensures var (t, reply) := Step(s, DeleteMessage(id, user, forEveryone, now));
      if id >= |s| then t == s && reply == Error(NotFound)
      else if forEveryone && s[id].senderId != user then t == s && reply == Error(Forbidden)
      else
        && reply == Done && |t| == |s| && (forall i :: 0 <= i < |s| && i != id ==> t[i] == s[i])
        && t[id].deletedAt == Some(now)
        && t[id].content == (if forEveryone then "" else s[id].content)
        && t[id].attachments == (if forEveryone then [] else s[id].attachments)
        && t[id] == s[id].(deletedAt := t[id].deletedAt, content := t[id].content, attachments := t[id].attachments)
  {
  }

  // ----- What a message remembers -----

  /** When the user first read the message: on sending it, or by the first marking
      that named it. */
  ghost function FirstRead(requests: seq<Request>, id: nat, user: Id): Option<nat> {
    if requests == [] then None
    else
      var front, last := requests[..|requests| - 1], requests[|requests| - 1];
      var before := FirstRead(front, id, user);
      if before.Some? then before
      else if last.MarkAsRead? && last.user == user && id in last.ids && id < |Run(front)| then Some(last.now)
      else if last.Send? && last.sender == user && |Run(front)| == id < |Run(requests)| then Some(last.now)
      else None
  }

  /** The receipts of the user are those of one reading at `at`, if any. */
  ghost predicate ReadAt(m: Message, user: Id, at: Option<nat>) {
    && (at.None? <==> !HasRead(m, user))
    && (forall i :: 0 <= i < |m.receipts| && m.receipts[i].userId == user ==> at == Some(m.receipts[i].readAt))
  }

  lemma {:induction false} NothingBefore(requests: seq<Request>, id: nat, user: Id)
    requires id >= |Run(requests)|
    ensures FirstRead(requests, id, user) == None
    decreases requests
  {
    hide Step;
    if requests != [] {
      var front, last := requests[..|requests| - 1], requests[|requests| - 1];
      Grows(Run(front), last);
      NothingBefore(front, id, user);
    }
  }

  lemma Grows(s: Store, r: Request)
    ensures |s| <= |Step(s, r).0| <= |s| + 1
  {
    hide HasReceipt, ListedKind;
  }

  /** One step, seen from the receipts of a message that is there. */
  lemma StepReceipts(s: Store, r: Request, id: nat)
    requires id < |s|
    ensures id < |Step(s, r).0|
    ensures var m, n := s[id], Step(s, r).0[id];
      if r.MarkAsRead? && id in r.ids && !HasRead(m, r.user) then n.receipts == m.receipts + [Receipt(r.user, r.now)]
      else n.receipts == m.receipts
  {
    if r.MarkAsRead? { MarkAsReadAnswer(s, r.ids, r.user, r.now); }
    if r.MarkAsDelivered? { MarkAsDeliveredAnswer(s, r.ids, r.user); }
    hide HasRead, HasReceipt, ListedKind, AllRead, AllDelivered;
  }

  lemma ReceiptAdded(m: Message, n: Message, reader: Id, now: nat, user: Id, at: Option<nat>)
    requires ReadAt(m, user, at) && !HasRead(m, reader) && n.receipts == m.receipts + [Receipt(reader, now)]
    ensures ReadAt(n, user, if user == reader then Some(now) else at)
  {
    assert n.receipts[|m.receipts|].userId == reader;
    forall i | 0 <= i < |m.receipts| ensures n.receipts[i] == m.receipts[i] {
    }
    if HasRead(m, user) {
      var i :| 0 <= i < |m.receipts| && m.receipts[i].userId == user;
      assert n.receipts[i].userId == user;
    }
  }

  /** In every run a user has one receipt or none on a message, and its time is that
      of the first reading. */
  lemma {:induction false} ReceiptTells(requests: seq<Request>, id: nat, user: Id)
    requires id < |Run(requests)|
    ensures ReadAt(Run(requests)[id], user, FirstRead(requests, id, user))
    decreases requests
  {
    hide Step, HasRead;
    var front, last := requests[..|requests| - 1], requests[|requests| - 1];
    var s := Run(front);
    Grows(s, last);
    if id < |s| {
      ReceiptTells(front, id, user);
      StepReceipts(s, last, id);
      var m, n := s[id], Run(requests)[id];
      if last.MarkAsRead? && id in last.ids && !HasRead(m, last.user) {
        ReceiptAdded(m, n, last.user, last.now, user, FirstRead(front, id, user));
      } else {
        SameReceipts(m, n, user);
      }
    } else {
      NothingBefore(front, id, user);
      FreshReceipt(s, last, user);
    }
  }

  lemma SameReceipts(m: Message, n: Message, user: Id)
    requires n.receipts == m.receipts
    ensures HasRead(n, user) <==> HasRead(m, user)
  {
  }

  lemma FreshReceipt(s: Store, r: Request, user: Id)
    requires |Step(s, r).0| > |s|
    ensures r.Send? && ReadAt(Step(s, r).0[|s|], user, if r.sender == user then Some(r.now) else None)
  {
    if r.Send? {
      SendAnswer(s, r);
      var m := Step(s, r).0[|s|];
      assert m.receipts[0].userId == r.sender;
    }
    hide HasReceipt, ListedKind;
  }
}
