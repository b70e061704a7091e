/** Storage accounting of src/microservices/media-service/media-service.handler.ts:
    counters kept up to date by each upload and deletion, against the counts a
    query over the media documents gives. */
module Media {
  import opened Wrappers

  type Id = nat

  datatype Item = Item(userId: Id, kind: string, size: int, isDeleted: bool)

  datatype Usage = Usage(totalBytes: int, imageBytes: int, videoBytes: int, audioBytes: int, documentBytes: int,
                         otherBytes: int, fileCount: int)

  const ZERO := Usage(0, 0, 0, 0, 0, 0, 0)

  /** `InternalError` is the answer when a save fails. */
  datatype ErrorCode = NotFound | Forbidden | InternalError

  datatype Reply = Stored(id: nat) | Deleted | Shown(usage: Usage) | Error(code: ErrorCode)

  /** Media documents are never removed; an id is a place in the store.  An
      upload's `name` is its original name or else its file name, and `given` the
      kind it states, if any. */
  datatype State = State(items: seq<Item>, usage: map<Id, Usage>)

  datatype Request =
    | Upload(user: Id, name: string, given: string, mimeType: string, size: int)
    | Delete(id: nat, user: Id)
    | GetUsage(user: Id)

  // ----- Kinds -----

  predicate Contains(s: string, part: string) {
    part <= s || (s != "" && Contains(s[1..], part))
  }

  function GetMediaType(mimeType: string): string {
    if "image/" <= mimeType then "image"
    else if "video/" <= mimeType then "video"
    else if "audio/" <= mimeType then "audio"
    else if Contains(mimeType, "pdf") || Contains(mimeType, "document") || Contains(mimeType, "text")
            || Contains(mimeType, "spreadsheet") || Contains(mimeType, "presentation") then "document"
    else "other"
  }

  predicate Known(kind: string) {
    kind == "image" || kind == "video" || kind == "audio" || kind == "document" || kind == "other"
  }

  lemma MediaTypeKnown(mimeType: string)
    ensures Known(GetMediaType(mimeType))
  {
  }

  function KindOf(r: Request): string
    requires r.Upload?
  {
    if r.given != "" then r.given else GetMediaType(r.mimeType)
  }

  /** What the document schema admits: a known kind, and no empty name or MIME
      type.  Anything else fails to be saved, before any counter is touched. */
  predicate Storable(r: Request)
    requires r.Upload?
  {
    Known(KindOf(r)) && r.mimeType != "" && r.name != ""
  }

  // ----- Incremental counters -----

  /** What a change of `bytes` in `kind` means for the field called `name`. */
  function Share(kind: string, name: string, bytes: int): int {
    if kind == name then bytes else 0
  }

  /** Adds to the total, to the field of the kind and to the file count; kinds
      other than the five have no field. */
  function Bump(u: Usage, bytes: int, kind: string, files: int): Usage {
    Usage(u.totalBytes + bytes,
          u.imageBytes + Share(kind, "image", bytes), u.videoBytes + Share(kind, "video", bytes),
          u.audioBytes + Share(kind, "audio", bytes), u.documentBytes + Share(kind, "document", bytes),
          u.otherBytes + Share(kind, "other", bytes), u.fileCount + files)
  }

  lemma BumpCommutes(u: Usage, a: int, k: string, m: int, b: int, l: string, n: int)
    ensures Bump(Bump(u, a, k, m), b, l, n) == Bump(Bump(u, b, l, n), a, k, m)
  {
    hide Share;
  }

  lemma BumpTwice(u: Usage, a: int, b: int, k: string, m: int, n: int)
    ensures Bump(Bump(u, a, k, m), b, k, n) == Bump(u, a + b, k, m + n)
  {
  }

  lemma BumpNothing(u: Usage, k: string)
    ensures Bump(u, 0, k, 0) == u
  {
  }

  function UsageOf(s: State, user: Id): Usage {
    if user in s.usage then s.usage[user] else ZERO
  }

  function UpdateUsage(s: State, user: Id, change: int, kind: string): State {
    s.(usage := s.usage[user := Bump(UsageOf(s, user), change, kind, if change > 0 then 1 else -1)])
  }

  /** `now` is `was` after one increment: of the total, of the field of the kind if
      it has one, and of the file count by the sign of the change. */
  ghost predicate Incremented(was: Usage, change: int, kind: string, now: Usage) {
    && now.totalBytes == was.totalBytes + change
    && now.imageBytes == was.imageBytes + (if kind == "image" then change else 0)
    && now.videoBytes == was.videoBytes + (if kind == "video" then change else 0)
    && now.audioBytes == was.audioBytes + (if kind == "audio" then change else 0)
    && now.documentBytes == was.documentBytes + (if kind == "document" then change else 0)
    && now.otherBytes == was.otherBytes + (if kind == "other" then change else 0)
    && now.fileCount == was.fileCount + (if change > 0 then 1 else -1)
  }

  // ----- Recounting -----

  /** A user's item counts unless it is deleted. */
  predicate Counts(m: Item, user: Id) { m.userId == user && !m.isDeleted }

  function Recount(items: seq<Item>, user: Id): Usage {
    if items == [] then ZERO
    else
      var u := Recount(items[..|items| - 1], user);
      var m := items[|items| - 1];
      if Counts(m, user) then Bump(u, m.size, m.kind, 1) else u
  }

  // ----- What a usage record says -----

  /** The sizes of the user's items of one kind that are not deleted, added up. */
  function SizesOfKind(items: seq<Item>, user: Id, kind: string): int {
    if items == [] then 0
    else
      var m := items[|items| - 1];
      SizesOfKind(items[..|items| - 1], user, kind) + if m.userId == user && !m.isDeleted && m.kind == kind then m.size else 0
  }

  /** The sizes of all of them. */
  function Sizes(items: seq<Item>, user: Id): int {
    if items == [] then 0
    else
      var m := items[|items| - 1];
      Sizes(items[..|items| - 1], user) + if m.userId == user && !m.isDeleted then m.size else 0
  }

  /** Where they are. */
  ghost function Places(items: seq<Item>, user: Id): set<nat> {
    set i: nat | i < |items| && items[i].userId == user && !items[i].isDeleted
  }

  ghost predicate Tells(u: Usage, items: seq<Item>, user: Id) {
    && u.totalBytes == Sizes(items, user)
    && u.imageBytes == SizesOfKind(items, user, "image") && u.videoBytes == SizesOfKind(items, user, "video")
    && u.audioBytes == SizesOfKind(items, user, "audio") && u.documentBytes == SizesOfKind(items, user, "document")
    && u.otherBytes == SizesOfKind(items, user, "other")
    && u.fileCount == |Places(items, user)|
  }

  lemma PlacesSnoc(items: seq<Item>, user: Id)
    requires items != []
    ensures var front, m := items[..|items| - 1], items[|items| - 1];
      |Places(items, user)| == |Places(front, user)| + if m.userId == user && !m.isDeleted then 1 else 0
  {
    var front, m := items[..|items| - 1], items[|items| - 1];
    var last: set<nat> := if m.userId == user && !m.isDeleted then {|items| - 1} else {};
    assert Places(items, user) == Places(front, user) + last;
  }

  /** A recount tells exactly that. */
  lemma {:induction false} RecountTells(items: seq<Item>, user: Id)
    ensures Tells(Recount(items, user), items, user)
    decreases items
  {
    if items != [] {
      hide Places;
      RecountTells(items[..|items| - 1], user);
      PlacesSnoc(items, user);
    } else {
      assert Places(items, user) == {};
    }
  }

  // ----- The handlers -----

  function Step(s: State, r: Request): (State, Reply) {
    match r
    case Upload(user, _, _, _, size) =>
      if !Storable(r) then (s, Error(InternalError))
      else
        var stored := s.(items := s.items + [Item(user, KindOf(r), size, false)]);
        (UpdateUsage(stored, user, size, KindOf(r)), Stored(|s.items|))
    case Delete(id, user) =>
      if id >= |s.items| then (s, Error(NotFound))
      else if s.items[id].userId != user then (s, Error(Forbidden))
      else
        var m := s.items[id];
        (UpdateUsage(s.(items := s.items[id := m.(isDeleted := true)]), user, -m.size, m.kind), Deleted)
    case GetUsage(user) =>
      if user in s.usage then (s, Shown(s.usage[user]))
      else
        var u := Recount(s.items, user);
        (s.(usage := s.usage[user := u]), Shown(u))
  }

  const INITIAL := State([], map[])

  function Run(requests: seq<Request>): State {
    if requests == [] then INITIAL else Step(Run(requests[..|requests| - 1]), requests[|requests| - 1]).0
  }

  /** Something is stored and counted exactly when the stated kind, if any, is one
      of the five and the names are not empty; a derived kind always is. */
  lemma UploadStoredIff(s: State, r: Request)
    requires r.Upload?
    ensures Step(s, r).1.Stored? <==> (r.given != "" ==> Known(r.given)) && r.mimeType != "" && r.name != ""
    ensures !Step(s, r).1.Stored? ==> Step(s, r) == (s, Error(InternalError))
  {
    MediaTypeKnown(r.mimeType);
  }

  // ----- When the two agree -----

  ghost predicate Accurate(s: State) {
    forall user :: UsageOf(s, user) == Recount(s.items, user)
  }

  /** Positive uploads, and deletions of what is still there and was not smaller
      than nothing; what is refused and queries are harmless too. */
  predicate Harmless(s: State, r: Request) {
    match r
    case Upload(_, _, _, _, size) => Storable(r) ==> size > 0
    case Delete(id, user) =>
      id < |s.items| && s.items[id].userId == user ==> !s.items[id].isDeleted && s.items[id].size >= 0
    case GetUsage(_) => true
  }

  lemma RecountSnoc(items: seq<Item>, m: Item, user: Id)
    ensures Recount(items + [m], user)
         == if Counts(m, user) then Bump(Recount(items, user), m.size, m.kind, 1) else Recount(items, user)
  {
    assert (items + [m])[..|items|] == items;
  }

  /** Marking an item deleted takes its bytes and one file out of the count. */
  lemma {:induction false} RecountDelete(items: seq<Item>, id: nat, user: Id)
    requires id < |items|
    ensures var m := items[id];
      Recount(items[id := m.(isDeleted := true)], user)
      == if Counts(m, user) then Bump(Recount(items, user), -m.size, m.kind, -1) else Recount(items, user)
    decreases items
  {
    hide Bump;
    var front, last, m := items[..|items| - 1], items[|items| - 1], items[id];
    var changed := items[id := m.(isDeleted := true)];
    if id == |items| - 1 {
      assert changed[..|items| - 1] == front;
      BumpTwice(Recount(front, user), m.size, -m.size, m.kind, 1, -1);
      BumpNothing(Recount(front, user), m.kind);
    } else {
      RecountDelete(front, id, user);
      assert changed[..|items| - 1] == front[id := m.(isDeleted := true)];
      BumpCommutes(Recount(front, user), last.size, last.kind, 1, -m.size, m.kind, -1);
    }
  }

  lemma UploadAccurateIff(s: State, r: Request)
    requires Accurate(s) && r.Upload?
    ensures Accurate(Step(s, r).0) <==> (Storable(r) ==> r.size > 0)
  {
    if !Storable(r) { return; }
    hide Share;
    var m := Item(r.user, KindOf(r), r.size, false);
    var t := Step(s, r).0;
    forall user { RecountSnoc(s.items, m, user); }
    assert UsageOf(t, r.user).fileCount == UsageOf(s, r.user).fileCount + if r.size > 0 then 1 else -1;
    assert Recount(t.items, r.user).fileCount == UsageOf(s, r.user).fileCount + 1;
  }

  lemma DeleteAccurateIff(s: State, r: Request)
    requires Accurate(s) && r.Delete? && r.id < |s.items| && s.items[r.id].userId == r.user
    ensures Accurate(Step(s, r).0) <==> !s.items[r.id].isDeleted && s.items[r.id].size >= 0
  {
    hide Share, Recount;
    var m, t := s.items[r.id], Step(s, r).0;
    assert t.items == s.items[r.id := m.(isDeleted := true)];
    assert UsageOf(t, r.user) == Bump(UsageOf(s, r.user), -m.size, m.kind, if -m.size > 0 then 1 else -1);
    RecountDelete(s.items, r.id, r.user);
    if !m.isDeleted && m.size >= 0 {
      forall user ensures UsageOf(t, user) == Recount(t.items, user) {
        RecountDelete(s.items, r.id, user);
        assert UsageOf(s, user) == Recount(s.items, user);
      }
    } else {
      assert UsageOf(s, r.user) == Recount(s.items, r.user);
      assert UsageOf(t, r.user).fileCount != Recount(t.items, r.user).fileCount;
    }
  }

  /** From an accurate state a call leaves an accurate state exactly when it is
      harmless. */
  lemma StepAccurateIff(s: State, r: Request)
    requires Accurate(s)
    ensures Accurate(Step(s, r).0) <==> Harmless(s, r)
  {
    if r.Upload? {
      UploadAccurateIff(s, r);
    } else if r.Delete? {
      if r.id < |s.items| && s.items[r.id].userId == r.user { DeleteAccurateIff(s, r); }
    }
  }

  /** In every run of harmless calls every counter of every user equals what a
      recount gives, and so does every usage report. */
  lemma {:induction false} RunAccurate(requests: seq<Request>, user: Id)
    requires forall k :: 0 <= k < |requests| ==> Harmless(Run(requests[..k]), requests[k])
    ensures Accurate(Run(requests))
    ensures Step(Run(requests), GetUsage(user)).1 == Shown(Recount(Run(requests).items, user))
    decreases requests
  {
    if requests == [] {
      assert Accurate(INITIAL);
    } else {
      hide Step, Harmless, Accurate;
      var front := requests[..|requests| - 1];
      forall k | 0 <= k < |front| ensures Harmless(Run(front[..k]), front[k]) {
        assert front[..k] == requests[..k];
      }
      RunAccurate(front, user);
      assert requests[..|requests| - 1] == front;
      StepAccurateIff(Run(front), requests[|requests| - 1]);
    }
    ReportsRecount(Run(requests), user);
  }

  /** Positive uploads, and nobody deletes the same item twice. */
  ghost predicate Careful(requests: seq<Request>) {
    && (forall k :: 0 <= k < |requests| && requests[k].Upload? && Storable(requests[k]) ==> requests[k].size > 0)
    && (forall i, j :: 0 <= i < j < |requests| && requests[i].Delete? ==> requests[i] != requests[j])
  }

  /** Whatever is stored has a positive size, and is deleted only after its owner
      asked for it. */
  ghost predicate Explained(requests: seq<Request>, items: seq<Item>) {
    forall i :: 0 <= i < |items| ==>
      items[i].size > 0 && (items[i].isDeleted ==> Delete(i, items[i].userId) in requests)
  }

  lemma StepExplained(requests: seq<Request>, s: State, r: Request)
    requires Explained(requests, s.items) && (r.Upload? && Storable(r) ==> r.size > 0)
    ensures Explained(requests + [r], Step(s, r).0.items)
  {
    hide Bump, KindOf;
  }

  /** In every careful run all counters of all users equal a recount. */
  lemma {:induction false} CarefulAccurate(requests: seq<Request>)
    requires Careful(requests)
    ensures Explained(requests, Run(requests).items) && Accurate(Run(requests))
    decreases requests
  {
    if requests == [] {
      assert Accurate(INITIAL);
    } else {
      hide Step, Accurate;
      var front, last := requests[..|requests| - 1], requests[|requests| - 1];
      assert requests == front + [last];
      CarefulAccurate(front);
      StepExplained(front, Run(front), last);
      StepAccurateIff(Run(front), last);
    }
  }

  lemma ReportsRecount(s: State, user: Id)
    requires Accurate(s)
    ensures Step(s, GetUsage(user)).1 == Shown(Recount(s.items, user))
  {
    assert UsageOf(s, user) == Recount(s.items, user);
  }

  // ----- The total and the kinds -----

  function KindBytes(u: Usage): int {
    u.imageBytes + u.videoBytes + u.audioBytes + u.documentBytes + u.otherBytes
  }

  lemma BumpBalanced(u: Usage, bytes: int, kind: string, files: int)
    requires Known(kind) && u.totalBytes == KindBytes(u)
    ensures var w := Bump(u, bytes, kind, files); w.totalBytes == KindBytes(w)
  {
  }

  lemma {:induction false} RecountBalanced(items: seq<Item>, user: Id)
    requires forall i :: 0 <= i < |items| ==> Known(items[i].kind)
    ensures Recount(items, user).totalBytes == KindBytes(Recount(items, user))
    decreases items
  {
    hide Bump, KindBytes, Known;
    if items == [] {
      NothingBalanced();
    } else {
      var front, m := items[..|items| - 1], items[|items| - 1];
      RecountBalanced(front, user);
      BumpBalanced(Recount(front, user), m.size, m.kind, 1);
    }
  }

  lemma NothingBalanced()
    ensures ZERO.totalBytes == KindBytes(ZERO)
  {
  }

  ghost predicate Balanced(s: State) {
    && (forall i :: 0 <= i < |s.items| ==> Known(s.items[i].kind))
    && (forall user :: UsageOf(s, user).totalBytes == KindBytes(UsageOf(s, user)))
  }

  lemma UpdateBalanced(s: State, user: Id, change: int, kind: string)
    requires Balanced(s) && Known(kind)
    ensures Balanced(UpdateUsage(s, user, change, kind))
  {
    hide Bump, KindBytes, Known;
    BumpBalanced(UsageOf(s, user), change, kind, if change > 0 then 1 else -1);
    forall u ensures UsageOf(UpdateUsage(s, user, change, kind), u).totalBytes
                  == KindBytes(UsageOf(UpdateUsage(s, user, change, kind), u)) {
      assert UsageOf(s, u).totalBytes == KindBytes(UsageOf(s, u));
    }
  }

  lemma StepBalanced(s: State, r: Request)
    requires Balanced(s)
    ensures Balanced(Step(s, r).0)
  {
    hide Recount, Bump, KindBytes, Known, KindOf, UpdateUsage;
    var t := Step(s, r).0;
    if r.Upload? && Storable(r) {
      var stored := s.(items := s.items + [Item(r.user, KindOf(r), r.size, false)]);
      assert forall u :: UsageOf(stored, u) == UsageOf(s, u);
      UpdateBalanced(stored, r.user, r.size, KindOf(r));
    } else if r.Delete? && r.id < |s.items| && s.items[r.id].userId == r.user {
      var m := s.items[r.id];
      var marked := s.(items := s.items[r.id := m.(isDeleted := true)]);
      assert forall u :: UsageOf(marked, u) == UsageOf(s, u);
      UpdateBalanced(marked, r.user, -m.size, m.kind);
    } else if r.GetUsage? && r.user !in s.usage {
      RecountBalanced(s.items, r.user);
      forall u ensures UsageOf(t, u).totalBytes == KindBytes(UsageOf(t, u)) {
        assert UsageOf(s, u).totalBytes == KindBytes(UsageOf(s, u));
      }
    } else {
      assert t == s;
    }
  }

  /** In every run, harmless or not, every stored item has one of the five kinds
      and every user's total is their sum. */
  lemma {:induction false} RunBalanced(requests: seq<Request>)
    ensures Balanced(Run(requests))
    decreases requests
  {
    if requests == [] {
      assert Balanced(INITIAL);
    } else {
      hide Step, Balanced;
      var front := requests[..|requests| - 1];
      RunBalanced(front);
      StepBalanced(Run(front), requests[|requests| - 1]);
    }
  }

  // ----- The aggregation pipeline -----

  /** A row of the `$group` stage. */
  datatype Row = Row(kind: string, totalSize: int, count: nat)

  function IndexOfKind(rows: seq<Row>, kind: string): (i: nat)
    ensures i <= |rows|
    ensures i < |rows| ==> rows[i].kind == kind
    ensures forall k :: 0 <= k < i ==> rows[k].kind != kind
  {
    if rows == [] || rows[0].kind == kind then 0 else 1 + IndexOfKind(rows[1..], kind)
  }

  function AddRow(rows: seq<Row>, kind: string, size: int): seq<Row> {
    var i := IndexOfKind(rows, kind);
    if i < |rows| then rows[i := Row(kind, rows[i].totalSize + size, rows[i].count + 1)]
    else rows + [Row(kind, size, 1)]
  }

  /** `$match` and `$group`: one row for each kind of the user's items. */
  function Aggregate(items: seq<Item>, user: Id): seq<Row> {
    if items == [] then []
    else
      var rows := Aggregate(items[..|items| - 1], user);
      var m := items[|items| - 1];
      if Counts(m, user) then AddRow(rows, m.kind, m.size) else rows
  }

  ghost predicate DistinctKinds(rows: seq<Row>) {
    forall i, j :: 0 <= i < j < |rows| ==> rows[i].kind != rows[j].kind
  }

  lemma {:induction false} AggregateDistinct(items: seq<Item>, user: Id)
    ensures DistinctKinds(Aggregate(items, user))
    decreases items
  {
    if items != [] { AggregateDistinct(items[..|items| - 1], user); }
  }

  /** The sums over all rows, kind by kind. */
  function FromRows(rows: seq<Row>): Usage {
    if rows == [] then ZERO
    else
      var u, row := FromRows(rows[..|rows| - 1]), rows[|rows| - 1];
      Bump(u, row.totalSize, row.kind, row.count)
  }

  function SumCounts(rows: seq<Row>): int {
    if rows == [] then 0 else SumCounts(rows[..|rows| - 1]) + rows[|rows| - 1].count
  }

  function BytesOf(byType: map<string, int>, kind: string): int {
    if kind in byType then byType[kind] else 0
  }

  /** The record the code stores after its loop over the rows. */
  function Tally(totalBytes: int, byType: map<string, int>, fileCount: int): Usage {
    Usage(totalBytes, BytesOf(byType, "image"), BytesOf(byType, "video"), BytesOf(byType, "audio"),
          BytesOf(byType, "document"), BytesOf(byType, "other"), fileCount)
  }

  lemma {:induction false} FromRowsUpdate(rows: seq<Row>, i: nat, size: int)
    requires i < |rows|
    ensures var row := rows[i];
      FromRows(rows[i := Row(row.kind, row.totalSize + size, row.count + 1)]) == Bump(FromRows(rows), size, row.kind, 1)
    decreases rows
  {
    hide Bump;
    var front, last, row := rows[..|rows| - 1], rows[|rows| - 1], rows[i];
    var changed := rows[i := Row(row.kind, row.totalSize + size, row.count + 1)];
    var u := FromRows(front);
    if i == |rows| - 1 {
      assert changed[..|rows| - 1] == front;
      BumpTwice(u, row.totalSize, size, row.kind, row.count, 1);
    } else {
      FromRowsUpdate(front, i, size);
      assert changed[..|rows| - 1] == front[i := Row(row.kind, row.totalSize + size, row.count + 1)];
      BumpCommutes(u, size, row.kind, 1, last.totalSize, last.kind, last.count);
    }
  }

  /** The pipeline and the loop over its rows recount the items. */
  lemma {:induction false} AggregateRecounts(items: seq<Item>, user: Id)
    ensures FromRows(Aggregate(items, user)) == Recount(items, user)
    decreases items
  {
    if items != [] {
      hide Bump;
      var front, m := items[..|items| - 1], items[|items| - 1];
      AggregateRecounts(front, user);
      if Counts(m, user) {
        var rows := Aggregate(front, user);
        var i := IndexOfKind(rows, m.kind);
        if i < |rows| {
          FromRowsUpdate(rows, i, m.size);
        } else {
          assert (rows + [Row(m.kind, m.size, 1)])[..|rows|] == rows;
        }
      }
    }
  }

  ghost function KindsOf(rows: seq<Row>): set<string> {
    set row | row in rows :: row.kind
  }

  lemma KindsSnoc(rows: seq<Row>, i: nat)
    requires i < |rows| && DistinctKinds(rows)
    ensures KindsOf(rows[..i + 1]) == KindsOf(rows[..i]) + {rows[i].kind}
    ensures rows[i].kind !in KindsOf(rows[..i])
  {
    assert rows[..i + 1] == rows[..i] + [rows[i]];
  }

  /** One turn of the loop over the rows: its assignment to the kind's entry is
      an addition, because no earlier row has the kind. */
  lemma TallyAdds(rows: seq<Row>, i: nat, totalBytes: int, byType: map<string, int>)
    requires i < |rows| && DistinctKinds(rows)
    requires byType.Keys == KindsOf(rows[..i])
    requires Tally(totalBytes, byType, SumCounts(rows[..i])) == FromRows(rows[..i])
    ensures var b := byType[rows[i].kind := rows[i].totalSize];
      b.Keys == KindsOf(rows[..i + 1])
      && Tally(totalBytes + rows[i].totalSize, b, SumCounts(rows[..i + 1])) == FromRows(rows[..i + 1])
  {
    hide KindsOf;
    KindsSnoc(rows, i);
    assert rows[..i + 1][..i] == rows[..i];
  }

  // ----- The service -----

  class MediaService {
    var items: seq<Item>
    var usage: map<Id, Usage>

    function Current(): State
      reads this
    {
      State(items, usage)
    }

    constructor ()
      ensures Current() == INITIAL
    {
      items, usage := [], map[];
    }

    method UploadMedia(user: Id, name: string, given: string, mimeType: string, size: int) returns (reply: Reply)
      modifies this
      ensures (Current(), reply) == Step(old(Current()), Upload(user, name, given, mimeType, size))
    {
      var mediaType := if given != "" then given else GetMediaType(mimeType);
      if !Known(mediaType) || mimeType == "" || name == "" {
        return Error(InternalError);
      }
      items := items + [Item(user, mediaType, size, false)];
      UpdateStorageUsage(user, size, mediaType);
      return Stored(|items| - 1);
    }

    method DeleteMedia(id: nat, user: Id) returns (reply: Reply)
      modifies this
      ensures (Current(), reply) == Step(old(Current()), Delete(id, user))
    {
      if id >= |items| {
        return Error(NotFound);
      }
      var media := items[id];
      if media.userId != user {
        return Error(Forbidden);
      }
      items := items[id := media.(isDeleted := true)];
      UpdateStorageUsage(user, -media.size, media.kind);
      return Deleted;
    }

    /** An upserting `$inc`. */
    method UpdateStorageUsage(user: Id, sizeChange: int, kind: string)
      modifies this
      ensures Current() == UpdateUsage(old(Current()), user, sizeChange, kind)
      ensures user in usage && Incremented(UsageOf(old(Current()), user), sizeChange, kind, usage[user])
    {
      var u := if user in usage then usage[user] else ZERO;
      u := Bump(u, sizeChange, kind, if sizeChange > 0 then 1 else -1);
      usage := usage[user := u];
    }

    method CalculateStorageUsage(user: Id) returns (u: Usage)
      modifies this
      ensures items == old(items) && usage == old(usage)[user := u] && u == Recount(items, user)
      ensures Tells(u, items, user)
    {
      RecountTells(items, user);
      var results := Aggregate(items, user);
      AggregateRecounts(items, user);
      AggregateDistinct(items, user);
      var totalBytes, byType := 0, map[];
      for i := 0 to |results|
        invariant items == old(items) && usage == old(usage)
        invariant byType.Keys == KindsOf(results[..i])
        invariant Tally(totalBytes, byType, SumCounts(results[..i])) == FromRows(results[..i])
      {
        TallyAdds(results, i, totalBytes, byType);
        totalBytes := totalBytes + results[i].totalSize;
        byType := byType[results[i].kind := results[i].totalSize];
      }
      assert results[..|results|] == results;
      u := Tally(totalBytes, byType, SumCounts(results));
      usage := usage[user := u];
    }

    method GetStorageUsage(user: Id) returns (reply: Reply)
      modifies this
      ensures (Current(), reply) == Step(old(Current()), GetUsage(user))
    {
      if user in usage {
        return Shown(usage[user]);
      }
      var u := CalculateStorageUsage(user);
      return Shown(u);
    }
  }
}
