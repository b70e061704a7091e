/** What storage usage means, stated on the media documents alone, and what the
    media handlers may answer and change. */
module MediaRules {
  import opened Wrappers
  import opened Media

  // ----- Counters -----

  /** In every run of harmless calls every stored record tells the truth, and so
      does every report. */
  lemma CountersTell(requests: seq<Request>, user: Id)
    requires forall k :: 0 <= k < |requests| ==> Harmless(Run(requests[..k]), requests[k])
    ensures var s := Run(requests);
      && (user in s.usage ==> Tells(s.usage[user], s.items, user))
      && (user !in s.usage ==> Tells(ZERO, s.items, user))
      && exists u :: Step(s, GetUsage(user)).1 == Shown(u) && Tells(u, s.items, user)
  {
    RunAccurate(requests, user);
    var s := Run(requests);
    hide Run, Tells;
    assert UsageOf(s, user) == Recount(s.items, user);
    RecountTells(s.items, user);
  }

  /** What one increment does to the stored records. */
  lemma IncrementTells(s: State, user: Id, change: int, kind: string)
    ensures var was, t := if user in s.usage then s.usage[user] else Usage(0, 0, 0, 0, 0, 0, 0),
                          UpdateUsage(s, user, change, kind);
      && t.items == s.items && user in t.usage && Incremented(was, change, kind, t.usage[user])
      && (forall other :: other != user ==> (other in t.usage <==> other in s.usage))
      && (forall other :: other != user && other in s.usage ==> t.usage[other] == s.usage[other])
  {
  }

  // ----- Kinds -----

  ghost predicate PartAt(s: string, part: string, i: nat) {
    i + |part| <= |s| && s[i..i + |part|] == part
  }

  ghost predicate Includes(s: string, part: string) {
    exists i :: PartAt(s, part, i)
  }

  lemma SliceShift(s: string, i: nat, n: nat)
    requires i + 1 + n <= |s|
    ensures s[1..][i..i + n] == s[i + 1..i + 1 + n]
  {
  }

  lemma {:induction false} ContainsIff(s: string, part: string)
    ensures Contains(s, part) <==> Includes(s, part)
    decreases s
  {
    if part <= s {
      assert PartAt(s, part, 0);
    } else if s != "" {
      var rest := s[1..];
      ContainsIff(rest, part);
      if i: nat :| PartAt(s, part, i) {
        assert i == 0 ==> part <= s;
        SliceShift(s, i - 1, |part|);
        assert PartAt(rest, part, i - 1);
      }
      if i: nat :| PartAt(rest, part, i) {
        SliceShift(s, i, |part|);
        assert PartAt(s, part, i + 1);
      }
    }
  }

  ghost predicate NamesDocument(mimeType: string) {
    Includes(mimeType, "pdf") || Includes(mimeType, "document") || Includes(mimeType, "text")
    || Includes(mimeType, "spreadsheet") || Includes(mimeType, "presentation")
  }

  /** The derived kind, for every MIME type. */
  lemma MediaTypeIff(mimeType: string)
    ensures var kind := GetMediaType(mimeType);
      && (kind == "image" <==> "image/" <= mimeType)
      && (kind == "video" <==> "video/" <= mimeType)
      && (kind == "audio" <==> "audio/" <= mimeType)
      && (kind == "document" <==> (NamesDocument(mimeType)
            && !("image/" <= mimeType) && !("video/" <= mimeType) && !("audio/" <= mimeType)))
      && (kind == "image" || kind == "video" || kind == "audio" || kind == "document" || kind == "other")
  {
    ContainsIff(mimeType, "pdf");
    ContainsIff(mimeType, "document");
    ContainsIff(mimeType, "text");
    ContainsIff(mimeType, "spreadsheet");
    ContainsIff(mimeType, "presentation");
    hide Contains, Includes;
    var m := mimeType;
    assert "image/" <= m ==> m[0] == 'i';
    assert "video/" <= m ==> m[0] == 'v';
    assert "audio/" <= m ==> m[0] == 'a';
    assert "image"[0] == 'i' && "video"[0] == 'v' && "audio"[0] == 'a' && "document"[0] == 'd' && "other"[0] == 'o';
  }

  // ----- Answers -----

  /** A stored upload is one new item, of the stated kind or else the derived one. */
  lemma UploadAnswer(s: State, r: Request)
    requires r.Upload? && Step(s, r).1.Stored?
    ensures var (t, reply) := Step(s, r);
      && reply == Stored(|s.items|) && |t.items| == |s.items| + 1 && t.items[..|s.items|] == s.items
      && var m := t.items[|s.items|];
      && m.userId == r.user && m.size == r.size && !m.isDeleted
      && m.kind == if r.given != "" then r.given else GetMediaType(r.mimeType)
  {
    hide GetMediaType, Known;
  }

  /** Only the owner deletes, whether or not it was deleted before; the item is
      marked and nothing else of any item changes. */
  lemma DeleteAnswer(s: State, id: nat, user: Id)
    ensures var (t, reply) := Step(s, Delete(id, user));
      && (reply == Error(NotFound) <==> id >= |s.items|)
      && (reply == Error(Forbidden) <==> id < |s.items| && s.items[id].userId != user)
      && (reply.Error? ==> t == s && (reply.code == NotFound || reply.code == Forbidden))
      && (!reply.Error? ==>
            && reply == Deleted && |t.items| == |s.items|
            && t.items[id] == Item(user, s.items[id].kind, s.items[id].size, true)
            && (forall i :: 0 <= i < |s.items| && i != id ==> t.items[i] == s.items[i]))
  {
  }

  /** A report shows the stored record, which is recounted and stored if there is
      none. */
  lemma UsageAnswer(s: State, user: Id)
    ensures var (t, reply) := Step(s, GetUsage(user));
      && t.items == s.items && reply.Shown?
      && (user in s.usage ==> t == s && reply.usage == s.usage[user])
      && (user !in s.usage ==> t.usage == s.usage[user := reply.usage] && Tells(reply.usage, s.items, user))
  {
    RecountTells(s.items, user);
    hide Tells;
  }
}
